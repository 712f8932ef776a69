/**
 * The finite-difference `jvp` of the wrapper applied to the sphere test function
 * `f(x) = Σ_j x_j²`, whose directional derivative along `v` is `2⟨x, v⟩`: central differences
 * are exact on it for every step, forward differences are off by `eps·|v|²`.
 */
module SphereJvp {
  import opened Wrappers
  import opened Tensors
  import opened TestFunctions
  import opened Wrapper

  /** The analytic derivative of the sphere function along `v`, one `[1]` row per sample. */
  function SphereDerivative(x: Matrix, v: Matrix): (r: Matrix)
    requires SameShape(x, v)
    ensures IsShape(r, |x|, 1)
  {
    seq(|x|, i requires 0 <= i < |x| => [2.0 * Dot(x[i], v[i])])
  }

  /** `a + 2e·d + s·t`: the shape of `|a + e·b|²` once expanded. */
  function Expansion(a: real, e: real, d: real, s: real, t: real): real
  {
    a + 2.0 * e * d + s * t
  }

  lemma SqShift(a: real, b: real, e: real)
    ensures Sq(a + e * b) == Expansion(Sq(a), e, a * b, Sq(e), Sq(b))
  {
    assert (a + e * b) * (a + e * b) == a * a + 2.0 * e * (a * b) + (e * e) * (b * b);
  }

  /** `SqShift` at an element `w = a + e·b`. */
  lemma SqShiftAt(w: real, a: real, b: real, e: real)
    requires w == a + e * b
    ensures Sq(w) == Expansion(Sq(a), e, a * b, Sq(e), Sq(b))
  {
    SqShift(a, b, e);
  }

  lemma Regroup(x0: real, xs: real, a0: real, az: real, d0: real, dz: real, t0: real, tz: real, e: real, s: real)
    requires x0 == Expansion(a0, e, d0, s, t0)
    requires xs == Expansion(az, e, dz, s, tz)
    ensures x0 + xs == Expansion(a0 + az, e, d0 + dz, s, t0 + tz)
  {
  }

  /** Summing the expansions of the entries gives the expansion of the sums. */
  lemma {:induction false} SumExpansions(a: seq<real>, b: seq<real>, w: seq<real>, e: real, s: real)
    requires |a| == |b| == |w|
    requires forall j :: 0 <= j < |w| ==> Sq(w[j]) == Expansion(Sq(a[j]), e, a[j] * b[j], s, Sq(b[j]))
    ensures SumSquares(w) == Expansion(SumSquares(a), e, Dot(a, b), s, SumSquares(b))
  {
    if |w| > 0 {
      SumExpansions(a[1..], b[1..], w[1..], e, s);
      Regroup(Sq(w[0]), SumSquares(w[1..]), Sq(a[0]), SumSquares(a[1..]), a[0] * b[0], Dot(a[1..], b[1..]),
              Sq(b[0]), SumSquares(b[1..]), e, s);
    }
  }

  /** `|a + e·b|² = |a|² + 2e⟨a, b⟩ + e²|b|²` */
  lemma SumSquaresShift(a: seq<real>, b: seq<real>, w: seq<real>, e: real)
    requires |a| == |b| == |w|
    requires forall j :: 0 <= j < |w| ==> w[j] == a[j] + e * b[j]
    ensures SumSquares(w) == Expansion(SumSquares(a), e, Dot(a, b), Sq(e), SumSquares(b))
  {
    forall j | 0 <= j < |w| ensures Sq(w[j]) == Expansion(Sq(a[j]), e, a[j] * b[j], Sq(e), Sq(b[j])) {
      SqShiftAt(w[j], a[j], b[j], e);
    }
    SumExpansions(a, b, w, e, Sq(e));
  }

  lemma CentralDifference(p: real, m: real, a: real, d: real, s: real, t: real, e: real)
    requires p == Expansion(a, e, d, s, t)
    requires m == Expansion(a, -e, d, s, t)
    ensures p - m == (2.0 * e) * (2.0 * d)
  {
  }

  lemma SqNegate(e: real)
    ensures Sq(-e) == Sq(e)
  {
  }

  /** `|x[i] + e·v[i]|²`, expanded. */
  lemma PlusRowSumSquares(x: Matrix, v: Matrix, e: real, i: nat)
    requires SameShape(x, v) && i < |x|
    ensures SumSquares(Plus(x, v, e)[i]) == Expansion(SumSquares(x[i]), e, Dot(x[i], v[i]), Sq(e), SumSquares(v[i]))
  {
    var w := Plus(x, v, e)[i];
    assert forall j :: 0 <= j < |w| ==> w[j] == x[i][j] + e * v[i][j];
    SumSquaresShift(x[i], v[i], w, e);
  }

  /** Row `i` of the central difference of the sphere function over the step `2·eps`. */
  lemma SphereCentralRow(x: Matrix, v: Matrix, eps: real, i: nat)
    requires SameShape(x, v) && i < |x|
    ensures Sphere(Plus(x, v, eps))[i][0] - Sphere(Minus(x, v, eps))[i][0] == (2.0 * eps) * (2.0 * Dot(x[i], v[i]))
  {
    CentralRowSums(x, v, eps, i);
    SphereRowDifference(Plus(x, v, eps), Minus(x, v, eps), i);
  }

  /** `|x[i] + eps·v[i]|² − |x[i] − eps·v[i]|² = 2eps · 2⟨x[i], v[i]⟩` */
  lemma CentralRowSums(x: Matrix, v: Matrix, eps: real, i: nat)
    requires SameShape(x, v) && i < |x|
    ensures SumSquares(Plus(x, v, eps)[i]) - SumSquares(Minus(x, v, eps)[i]) == (2.0 * eps) * (2.0 * Dot(x[i], v[i]))
  {
    var a, d, t := SumSquares(x[i]), Dot(x[i], v[i]), SumSquares(v[i]);
    PlusNegatedStep(x, v, eps);
    PlusRowSumSquares(x, v, eps, i);
    PlusRowSumSquares(x, v, -eps, i);
    SqNegate(eps);
    CentralDifference(SumSquares(Plus(x, v, eps)[i]), SumSquares(Minus(x, v, eps)[i]), a, d, Sq(eps), t, eps);
  }

  /** Row `i` of `Sphere(p) - Sphere(q)` is the difference of the rows' sums of squares. */
  lemma SphereRowDifference(p: Matrix, q: Matrix, i: nat)
    requires i < |p| && i < |q|
    ensures Sphere(p)[i][0] - Sphere(q)[i][0] == SumSquares(p[i]) - SumSquares(q[i])
  {
  }

  /** Row `i` of the forward difference of the sphere function over the step `eps`. */
  lemma SphereForwardRow(x: Matrix, v: Matrix, eps: real, i: nat)
    requires SameShape(x, v) && i < |x|
    ensures Sphere(Plus(x, v, eps))[i][0] - Sphere(x)[i][0] == eps * ForwardRowEstimate(x[i], v[i], eps)
  {
    ForwardRowSums(x, v, eps, i);
    SphereRowDifference(Plus(x, v, eps), x, i);
  }

  /** `|x[i] + eps·v[i]|² − |x[i]|² = eps · (2⟨x[i], v[i]⟩ + eps·|v[i]|²)` */
  lemma ForwardRowSums(x: Matrix, v: Matrix, eps: real, i: nat)
    requires SameShape(x, v) && i < |x|
    ensures SumSquares(Plus(x, v, eps)[i]) - SumSquares(x[i]) == eps * ForwardRowEstimate(x[i], v[i], eps)
  {
    PlusRowSumSquares(x, v, eps, i);
    var gap := ForwardGap(SumSquares(x[i]), Dot(x[i], v[i]), SumSquares(v[i]), eps);
  }

  /** The forward step's change in a sum of squares, `2·e·d + e²·t`, factored as `e · (2·d + e·t)`. */
  function ForwardGap(a: real, d: real, t: real, e: real): (r: real)
    ensures r == e * (2.0 * d + e * t)
  {
    Expansion(a, e, d, Sq(e), t) - a
  }
  /** Every forward difference of the sphere function is `eps` times the forward estimate. */
  lemma SphereForwardDifferences(x: Matrix, v: Matrix, eps: real)
    requires SameShape(x, v)
    ensures forall i, k :: 0 <= i < |x| && 0 <= k < 1 ==>
      Sphere(Plus(x, v, eps))[i][k] - Sphere(x)[i][k] == eps * SphereForwardEstimate(x, v, eps)[i][k]
  {
    forall i, k | 0 <= i < |x| && 0 <= k < 1
      ensures Sphere(Plus(x, v, eps))[i][k] - Sphere(x)[i][k] == eps * SphereForwardEstimate(x, v, eps)[i][k]
    {
      assert k == 0;
      SphereForwardRow(x, v, eps, i);
    }
  }

  lemma Cancel(q: real, w: real, c: real, delta: real)
    requires c != 0.0 && q == delta / c && delta == c * w
    ensures q == w
  {
  }

  /** A central `jvp` whose differences are `2·eps` times `want` returns `want` as its derivative. */
  lemma CentralFromDifferences(f: Matrix -> Matrix, ad: (Matrix, Matrix) -> JvpPair, x: Matrix, v: Matrix,
                               eps: real, want: Matrix)
    requires JvpReady(f, x, v, CentralFD, eps) && SameShape(want, f(Plus(x, v, eps)))
    requires forall i, k :: 0 <= i < |want| && 0 <= k < |want[i]| ==>
      f(Plus(x, v, eps))[i][k] - f(Minus(x, v, eps))[i][k] == (2.0 * eps) * want[i][k]
    ensures Jvp(f, ad, x, v, CentralFD, eps) == Ok(JvpPair(f(x), want))
  {
    var r := Jvp(f, ad, x, v, CentralFD, eps).value.dvf;
    var p, m := f(Plus(x, v, eps)), f(Minus(x, v, eps));
    assert |r| == |want|;
    forall i | 0 <= i < |r| ensures r[i] == want[i] {
      assert |r[i]| == |want[i]|;
      forall k | 0 <= k < |r[i]| ensures r[i][k] == want[i][k] {
        Cancel(r[i][k], want[i][k], 2.0 * eps, p[i][k] - m[i][k]);
      }
    }
    assert r == want;
  }

  /** A forward `jvp` whose differences are `eps` times `want` returns `want` as its derivative. */
  lemma ForwardFromDifferences(f: Matrix -> Matrix, ad: (Matrix, Matrix) -> JvpPair, x: Matrix, v: Matrix,
                               eps: real, want: Matrix)
    requires JvpReady(f, x, v, ForwardFD, eps) && SameShape(want, f(x))
    requires forall i, k :: 0 <= i < |want| && 0 <= k < |want[i]| ==>
      f(Plus(x, v, eps))[i][k] - f(x)[i][k] == eps * want[i][k]
    ensures Jvp(f, ad, x, v, ForwardFD, eps) == Ok(JvpPair(f(x), want))
  {
    var r := Jvp(f, ad, x, v, ForwardFD, eps).value.dvf;
    var p := f(Plus(x, v, eps));
    assert |r| == |want|;
    forall i | 0 <= i < |r| ensures r[i] == want[i] {
      assert |r[i]| == |want[i]|;
      forall k | 0 <= k < |r[i]| ensures r[i][k] == want[i][k] {
        Cancel(r[i][k], want[i][k], eps, p[i][k] - f(x)[i][k]);
      }
    }
    assert r == want;
  }

  /** Central differences are exact on the sphere function: `dvf[i] = 2⟨x[i], v[i]⟩` for every `eps ≠ 0`. */
  lemma SphereCentralFDExact(x: Matrix, v: Matrix, eps: real, ad: (Matrix, Matrix) -> JvpPair)
    requires eps != 0.0 && SameShape(x, v)
    ensures JvpReady(Sphere, x, v, CentralFD, eps)
    ensures Jvp(Sphere, ad, x, v, CentralFD, eps) == Ok(JvpPair(Sphere(x), SphereDerivative(x, v)))
  {
    var want := SphereDerivative(x, v);
    var p, m := Plus(x, v, eps), Minus(x, v, eps);
    forall i, k | 0 <= i < |want| && 0 <= k < |want[i]|
      ensures Sphere(p)[i][k] - Sphere(m)[i][k] == (2.0 * eps) * want[i][k]
    {
      SphereCentralRow(x, v, eps, i);
    }
    CentralFromDifferences(Sphere, ad, x, v, eps, want);
  }

  /** The derivative a forward `jvp` reports for the sphere function: `2⟨x[i], v[i]⟩ + eps·|v[i]|²`. */
  function SphereForwardEstimate(x: Matrix, v: Matrix, eps: real): (r: Matrix)
    requires SameShape(x, v)
    ensures IsShape(r, |x|, 1)
  {
    seq(|x|, i requires 0 <= i < |x| => [ForwardRowEstimate(x[i], v[i], eps)])
  }

  /** The forward estimate of one row: `2⟨xi, vi⟩ + eps·|vi|²`. */
  function ForwardRowEstimate(xi: seq<real>, vi: seq<real>, eps: real): real
    requires |xi| == |vi|
  {
    2.0 * Dot(xi, vi) + eps * SumSquares(vi)
  }

  /** Forward differences on the sphere function are off by exactly `eps·|v[i]|²`. */
  lemma SphereForwardFDBias(x: Matrix, v: Matrix, eps: real, ad: (Matrix, Matrix) -> JvpPair)
    requires eps != 0.0 && SameShape(x, v)
    ensures JvpReady(Sphere, x, v, ForwardFD, eps)
    ensures Jvp(Sphere, ad, x, v, ForwardFD, eps) == Ok(JvpPair(Sphere(x), SphereForwardEstimate(x, v, eps)))
  {
    var want := SphereForwardEstimate(x, v, eps);
    SphereForwardDifferences(x, v, eps);
    ForwardFromDifferences(Sphere, ad, x, v, eps, want);
  }

  /**
   * Where the dual-number `forwardAD` evaluation returns the analytic pair, `centralFD`
   * gives the same result as `forwardAD`.
   */
  lemma SphereCentralMatchesForwardAD(x: Matrix, v: Matrix, eps: real, ad: (Matrix, Matrix) -> JvpPair)
    requires eps != 0.0 && SameShape(x, v)
    requires ad(x, v) == JvpPair(Sphere(x), SphereDerivative(x, v))
    ensures JvpReady(Sphere, x, v, CentralFD, eps) && JvpReady(Sphere, x, v, ForwardAD, eps)
    ensures Jvp(Sphere, ad, x, v, CentralFD, eps) == Jvp(Sphere, ad, x, v, ForwardAD, eps)
  {
    SphereCentralFDExact(x, v, eps, ad);
  }

  /** At `x = [[3, 4]]` along `v = [[1, 0]]`: `y = [[25]]`, central `dvf = [[6]]`, forward `dvf = [[6 + eps]]`. */
  lemma SphereJvpExample(eps: real, ad: (Matrix, Matrix) -> JvpPair)
    requires eps != 0.0
    ensures JvpReady(Sphere, [[3.0, 4.0]], [[1.0, 0.0]], CentralFD, eps)
    ensures JvpReady(Sphere, [[3.0, 4.0]], [[1.0, 0.0]], ForwardFD, eps)
    ensures Jvp(Sphere, ad, [[3.0, 4.0]], [[1.0, 0.0]], CentralFD, eps) == Ok(JvpPair([[25.0]], [[6.0]]))
    ensures Jvp(Sphere, ad, [[3.0, 4.0]], [[1.0, 0.0]], ForwardFD, eps).value.dvf == [[6.0 + eps]]
  {
    var x: Matrix, v: Matrix := [[3.0, 4.0]], [[1.0, 0.0]];
    assert SumSquares(x[0]) == 25.0 by {
      assert SumSquares(x[0][1..]) == Sq(4.0);
    }
    assert Dot(x[0], v[0]) == 3.0 by {
      assert Dot(x[0][1..], v[0][1..]) == 0.0;
    }
    assert SumSquares(v[0]) == 1.0 by {
      assert SumSquares(v[0][1..]) == Sq(0.0);
    }
    assert Sphere(x) == [[25.0]];
    SphereCentralFDExact(x, v, eps, ad);
    assert SphereDerivative(x, v) == [[6.0]];
    SphereForwardFDBias(x, v, eps, ad);
    assert SphereForwardEstimate(x, v, eps) == [[6.0 + eps]];
  }
}
