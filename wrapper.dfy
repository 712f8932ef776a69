/**
 * The gradient-estimation core: the directional-derivative primitive `jvp` and the custom
 * autograd node whose forward pass returns the base solver's value and whose backward pass
 * replaces the gradient by one of four estimators chosen by `grad_type`.
 *
 * Autograd's `grad` is an oracle `Matrix -> Option<Matrix>` from the upstream gradient to the
 * vector-Jacobian product (`None` when the computation raises); the dual-number branch of
 * `jvp` is an oracle too.
 */
module Wrapper {
  import opened Wrappers
  import opened Tensors

  datatype WrapperError = NotImplemented | AutogradFailure

  // ---------------------------------------------------------------- jvp

  datatype JvpType = ForwardAD | ForwardFD | CentralFD | OtherJvp(name: string)

  function JvpTypeName(t: JvpType): string
  {
    match t
    case ForwardAD => "forwardAD"
    case ForwardFD => "forwardFD"
    case CentralFD => "centralFD"
    case OtherJvp(name) => name
  }

  /** The `jvp_type` string compared against the three supported names, in the order the source tests them. */
  function ParseJvpType(s: string): (t: JvpType)
    ensures t.ForwardAD? <==> s == "forwardAD"
    ensures t.ForwardFD? <==> s == "forwardFD"
    ensures t.CentralFD? <==> s == "centralFD"
    ensures JvpTypeName(t) == s
  {
    if s == "forwardAD" then ForwardAD
    else if s == "forwardFD" then ForwardFD
    else if s == "centralFD" then CentralFD
    else OtherJvp(s)
  }

  /** `(y, dvf)`: the value of `f` at `x` and its derivative along `v`. */
  datatype JvpPair = JvpPair(y: Matrix, dvf: Matrix)

  /** `x + eps * v` */
  function Plus(x: Matrix, v: Matrix, eps: real): Matrix
    requires SameShape(x, v)
  {
    Add(x, Scale(eps, v))
  }

  /** `x - eps * v` */
  function Minus(x: Matrix, v: Matrix, eps: real): Matrix
    requires SameShape(x, v)
  {
    Sub(x, Scale(eps, v))
  }

  /** What `jvp` needs of its arguments: `x` and `v` broadcast trivially, `f` keeps its output shape. */
  predicate JvpReady(f: Matrix -> Matrix, x: Matrix, v: Matrix, t: JvpType, eps: real)
  {
    (t.ForwardFD? || t.CentralFD? ==> eps != 0.0 && SameShape(x, v)) &&
    (t.ForwardFD? ==> SameShape(f(Plus(x, v, eps)), f(x))) &&
    (t.CentralFD? ==> SameShape(f(Plus(x, v, eps)), f(Minus(x, v, eps))))
  }

  /**
   * `jvp(f, x, v, jvp_type, eps)`. `ad` stands for the dual-number evaluation of `f` at `x`
   * along `v`; the finite-difference branches are computed here.
   */
  function Jvp(f: Matrix -> Matrix, ad: (Matrix, Matrix) -> JvpPair, x: Matrix, v: Matrix, t: JvpType, eps: real)
    : (r: Result<JvpPair, WrapperError>)
    requires JvpReady(f, x, v, t, eps)
    ensures r.Err? <==> t.OtherJvp?
    ensures r.Err? ==> r.error == NotImplemented
    ensures t.ForwardAD? ==> r == Ok(ad(x, v))
    ensures t.ForwardFD? || t.CentralFD? ==> r.Ok? && r.value.y == f(x)
    ensures t.ForwardFD? ==> SameShape(r.value.dvf, f(x))
    ensures t.ForwardFD? ==> (forall i, k :: 0 <= i < |r.value.dvf| && 0 <= k < |r.value.dvf[i]| ==>
      r.value.dvf[i][k] == (f(Plus(x, v, eps))[i][k] - f(x)[i][k]) / eps)
    ensures t.CentralFD? ==> SameShape(r.value.dvf, f(Plus(x, v, eps)))
    ensures t.CentralFD? ==> (forall i, k :: 0 <= i < |r.value.dvf| && 0 <= k < |r.value.dvf[i]| ==>
      r.value.dvf[i][k] == (f(Plus(x, v, eps))[i][k] - f(Minus(x, v, eps))[i][k]) / (2.0 * eps))
  {
    match t
    case ForwardAD => Ok(ad(x, v))
    case ForwardFD =>
      var y := f(x);
      var yPlus := f(Plus(x, v, eps));
      Ok(JvpPair(y, DivScalar(Sub(yPlus, y), eps)))
    case CentralFD =>
      var y := f(x);
      var yPlus := f(Plus(x, v, eps));
      var yMinus := f(Minus(x, v, eps));
      Ok(JvpPair(y, DivScalar(Sub(yPlus, yMinus), 2.0 * eps)))
    case OtherJvp(_) => Err(NotImplemented)
  }

  /** The points at which a finite-difference `jvp` evaluates `f`: two for forward, three for central. */
  function EvalPoints(x: Matrix, v: Matrix, t: JvpType, eps: real): (ps: seq<Matrix>)
    requires SameShape(x, v)
    ensures t.ForwardFD? ==> |ps| == 2
    ensures t.CentralFD? ==> |ps| == 3
    ensures t.ForwardAD? || t.OtherJvp? ==> ps == []
  {
    match t
    case ForwardFD => [x, Plus(x, v, eps)]
    case CentralFD => [x, Plus(x, v, eps), Minus(x, v, eps)]
    case _ => []
  }

  /**
   * A finite-difference `jvp` sees `f` only at its evaluation points: two functions that agree
   * there give the same result.
   */
  lemma JvpDependsOnlyOnEvalPoints(f: Matrix -> Matrix, g: Matrix -> Matrix, ad: (Matrix, Matrix) -> JvpPair,
                                   x: Matrix, v: Matrix, t: JvpType, eps: real)
    requires t.ForwardFD? || t.CentralFD?
    requires JvpReady(f, x, v, t, eps)
    requires forall p :: p in EvalPoints(x, v, t, eps) ==> f(p) == g(p)
    ensures JvpReady(g, x, v, t, eps)
    ensures Jvp(f, ad, x, v, t, eps) == Jvp(g, ad, x, v, t, eps)
  {
    assert f(x) == g(x) && f(Plus(x, v, eps)) == g(Plus(x, v, eps));
    if t.CentralFD? {
      assert f(Minus(x, v, eps)) == g(Minus(x, v, eps));
    }
  }

  /**
   * The central difference is the mean of the forward differences with steps `eps` and `-eps`.
   */
  lemma CentralIsMeanOfForward(f: Matrix -> Matrix, ad: (Matrix, Matrix) -> JvpPair, x: Matrix, v: Matrix, eps: real)
    requires JvpReady(f, x, v, CentralFD, eps)
    requires SameShape(f(x), f(Plus(x, v, eps)))
    ensures JvpReady(f, x, v, ForwardFD, eps) && JvpReady(f, x, v, ForwardFD, -eps)
    ensures var c := Jvp(f, ad, x, v, CentralFD, eps).value.dvf;
            var p := Jvp(f, ad, x, v, ForwardFD, eps).value.dvf;
            var m := Jvp(f, ad, x, v, ForwardFD, -eps).value.dvf;
            SameShape(c, p) && SameShape(c, m) &&
            forall i, k :: 0 <= i < |c| && 0 <= k < |c[i]| ==> c[i][k] == (p[i][k] + m[i][k]) / 2.0
  {
    PlusNegatedStep(x, v, eps);
    var c := Jvp(f, ad, x, v, CentralFD, eps).value.dvf;
    var p := Jvp(f, ad, x, v, ForwardFD, eps).value.dvf;
    var m := Jvp(f, ad, x, v, ForwardFD, -eps).value.dvf;
    forall i, k | 0 <= i < |c| && 0 <= k < |c[i]| ensures c[i][k] == (p[i][k] + m[i][k]) / 2.0 {
      var a, b, d := f(Plus(x, v, eps))[i][k], f(x)[i][k], f(Minus(x, v, eps))[i][k];
      DifferenceQuotients(a, b, d, eps);
    }
  }

  /** A step of `-eps` forwards is a step of `eps` backwards. */
  lemma PlusNegatedStep(x: Matrix, v: Matrix, eps: real)
    requires SameShape(x, v)
    ensures Plus(x, v, -eps) == Minus(x, v, eps)
  {
    var p, m := Plus(x, v, -eps), Minus(x, v, eps);
    assert |p| == |m|;
    forall i | 0 <= i < |p| ensures p[i] == m[i] {
      assert |p[i]| == |m[i]|;
      forall k | 0 <= k < |p[i]| ensures p[i][k] == m[i][k] {
        assert p[i][k] == x[i][k] + -eps * v[i][k];
      }
    }
  }

  /** `(a - d) / (2 eps) == ((a - b) / eps + (d - b) / -eps) / 2` */
  lemma DifferenceQuotients(a: real, b: real, d: real, eps: real)
    requires eps != 0.0
    ensures (a - d) / (2.0 * eps) == ((a - b) / eps + (d - b) / -eps) / 2.0
  {
    assert (d - b) / -eps == (b - d) / eps;
    assert (a - b) / eps + (b - d) / eps == (a - d) / eps;
  }

  // ---------------------------------------------------------------- the forward-gradient formula

  /** `torch.sum(g * dvf, dim=1, keepdim=True)`: the row-wise inner products, as a column. */
  function RowDots(g: Matrix, dvf: Matrix): (r: seq<real>)
    requires SameShape(g, dvf)
    ensures |r| == |g|
    ensures forall n :: 0 <= n < |g| ==> r[n] == Dot(g[n], dvf[n])
  {
    seq(|g|, n requires 0 <= n < |g| => Dot(g[n], dvf[n]))
  }

  /** The broadcast product `s * v` of a column `s` with the rows of `v`. */
  function ScaleRows(s: seq<real>, v: Matrix): (r: Matrix)
    requires |s| == |v|
    ensures SameShape(r, v)
    ensures forall n, k :: 0 <= n < |v| && 0 <= k < |v[n]| ==> r[n][k] == s[n] * v[n][k]
  {
    seq(|v|, n requires 0 <= n < |v| => seq(|v[n]|, k requires 0 <= k < |v[n]| => s[n] * v[n][k]))
  }

  /** Multiplication by a natural number is monotone. */
  lemma {:induction false} MulMonotone(x: nat, y: nat, z: nat)
    requires x <= y
    ensures x * z <= y * z
  {
    if z > 0 {
      MulMonotone(x, y, z - 1);
      assert x * z == x * (z - 1) + x;
      assert y * z == y * (z - 1) + y;
    }
  }

  /** Row `a * n1 + b` of a stack of `n0` blocks of `n1` rows is in range. */
  lemma RowInRange(a: nat, b: nat, n0: nat, n1: nat)
    requires a < n0 && b < n1
    ensures a * n1 + b < n0 * n1
  {
    assert (a + 1) * n1 == a * n1 + n1;
    MulMonotone(a + 1, n0, n1);
  }

  /** The row-major index of `[a][b][c]` in an `[n0, n1, n2]` tensor is in range. */
  lemma IndexInRange(a: nat, b: nat, c: nat, n0: nat, n1: nat, n2: nat)
    requires a < n0 && b < n1 && c < n2
    ensures (a * n1 + b) * n2 + c < n0 * n1 * n2
  {
    var m := a * n1 + b;
    RowInRange(a, b, n0, n1);
    RowInRange(m, c, n0 * n1, n2);
  }

  /** `flat.reshape(n0, n1, n2)`: element `[a][b][c]` is `flat[(a * n1 + b) * n2 + c]`. */
  function Reshape3(flat: seq<real>, n0: nat, n1: nat, n2: nat): (r: seq<Matrix>)
    requires |flat| == n0 * n1 * n2
    ensures |r| == n0
    ensures forall a :: 0 <= a < n0 ==> IsShape(r[a], n1, n2)
  {
    seq(n0, a requires 0 <= a < n0 =>
      seq(n1, b requires 0 <= b < n1 =>
        seq(n2, c requires 0 <= c < n2 =>
          IndexInRange(a, b, c, n0, n1, n2); flat[(a * n1 + b) * n2 + c])))
  }

  lemma Reshape3At(flat: seq<real>, n0: nat, n1: nat, n2: nat, a: nat, b: nat, c: nat)
    requires |flat| == n0 * n1 * n2 && a < n0 && b < n1 && c < n2
    ensures (a * n1 + b) * n2 + c < |flat| && Reshape3(flat, n0, n1, n2)[a][b][c] == flat[(a * n1 + b) * n2 + c]
  {
    IndexInRange(a, b, c, n0, n1, n2);
  }

  /** `Σ_{a < count} ms[a][b][c]` */
  function SumTo(ms: seq<Matrix>, count: nat, rows: nat, cols: nat, b: nat, c: nat): real
    requires count <= |ms| && b < rows && c < cols
    requires forall a :: 0 <= a < |ms| ==> IsShape(ms[a], rows, cols)
  {
    if count == 0 then 0.0 else SumTo(ms, count - 1, rows, cols, b, c) + ms[count - 1][b][c]
  }

  /** `.mean(dim=0)` of a non-empty stack of `[rows, cols]` matrices. */
  function MeanAxis0(ms: seq<Matrix>, rows: nat, cols: nat): (r: Matrix)
    requires |ms| >= 1
    requires forall a :: 0 <= a < |ms| ==> IsShape(ms[a], rows, cols)
    ensures IsShape(r, rows, cols)
  {
    seq(rows, b requires 0 <= b < rows =>
      seq(cols, c requires 0 <= c < cols => SumTo(ms, |ms|, rows, cols, b, c) / (|ms| as real)))
  }

  /** What the forward-gradient formula needs: `nv * bs` rows of upstream gradient, derivative and direction. */
  predicate FwdReady(g: Matrix, dvf: Matrix, v: Matrix, nv: nat, bs: nat, dim: nat)
  {
    nv >= 1 && SameShape(g, dvf) && |g| == nv * bs && IsShape(v, nv * bs, dim)
  }

  /**
   * The forward gradient `(torch.sum(g * dvf, dim=1, keepdim=True) * v).reshape(nv, bs, dim).mean(dim=0)`.
   */
  function FwdGrad(g: Matrix, dvf: Matrix, v: Matrix, nv: nat, bs: nat, dim: nat): (r: Matrix)
    requires FwdReady(g, dvf, v, nv, bs, dim)
    ensures IsShape(r, bs, dim)
  {
    MeanAxis0(Replicas(g, dvf, v, nv, bs, dim), bs, dim)
  }

  /** `(torch.sum(g * dvf, dim=1, keepdim=True) * v).reshape(nv, bs, dim)` */
  function Replicas(g: Matrix, dvf: Matrix, v: Matrix, nv: nat, bs: nat, dim: nat): (r: seq<Matrix>)
    requires FwdReady(g, dvf, v, nv, bs, dim)
    ensures |r| == nv && forall a :: 0 <= a < nv ==> IsShape(r[a], bs, dim)
  {
    var m := ScaleRows(RowDots(g, dvf), v);
    FlattenLength(m, dim);
    Reshape3(Flatten(m), nv, bs, dim)
  }

  /** Replica `n` of sample `b`, component `k`: `⟨g[n·bs+b], dvf[n·bs+b]⟩ · v[n·bs+b][k]`. */
  function ReplicaTerm(g: Matrix, dvf: Matrix, v: Matrix, nv: nat, bs: nat, dim: nat, n: nat, b: nat, k: nat): real
    requires FwdReady(g, dvf, v, nv, bs, dim) && n < nv && b < bs && k < dim
  {
    RowInRange(n, b, nv, bs);
    var i := n * bs + b;
    Dot(g[i], dvf[i]) * v[i][k]
  }

  /** `Σ_{n < count}` of the replica terms of sample `b`, component `k`. */
  function ReplicaSum(g: Matrix, dvf: Matrix, v: Matrix, nv: nat, bs: nat, dim: nat, count: nat, b: nat, k: nat): real
    requires FwdReady(g, dvf, v, nv, bs, dim) && count <= nv && b < bs && k < dim
  {
    if count == 0 then 0.0
    else ReplicaSum(g, dvf, v, nv, bs, dim, count - 1, b, k) + ReplicaTerm(g, dvf, v, nv, bs, dim, count - 1, b, k)
  }

  /** Element `[i][k]` of `torch.sum(g * dvf, dim=1, keepdim=True) * v`. */
  lemma ProductAt(g: Matrix, dvf: Matrix, v: Matrix, i: nat, k: nat)
    requires SameShape(g, dvf) && |v| == |g| && i < |g| && k < |v[i]|
    ensures ScaleRows(RowDots(g, dvf), v)[i][k] == Dot(g[i], dvf[i]) * v[i][k]
  {
  }

  /** Replica `n` of sample `b` in the reshaped tensor is row `n * bs + b` of the `[nv * bs, dim]` product. */
  lemma ReplicasAt(g: Matrix, dvf: Matrix, v: Matrix, nv: nat, bs: nat, dim: nat, n: nat, b: nat, k: nat)
    requires FwdReady(g, dvf, v, nv, bs, dim) && n < nv && b < bs && k < dim
    ensures Replicas(g, dvf, v, nv, bs, dim)[n][b][k] == ReplicaTerm(g, dvf, v, nv, bs, dim, n, b, k)
  {
    var m := ScaleRows(RowDots(g, dvf), v);
    FlatReshapeAt(m, nv, bs, dim, n, b, k);
    assert Replicas(g, dvf, v, nv, bs, dim) == Reshape3(Flatten(m), nv, bs, dim);
    ReplicaTermIs(g, dvf, v, nv, bs, dim, n, b, k);
  }

  /** A replica term is an element of the `[nv * bs, dim]` product `torch.sum(g * dvf, dim=1, keepdim=True) * v`. */
  lemma ReplicaTermIs(g: Matrix, dvf: Matrix, v: Matrix, nv: nat, bs: nat, dim: nat, n: nat, b: nat, k: nat)
    requires FwdReady(g, dvf, v, nv, bs, dim) && n < nv && b < bs && k < dim
    ensures n * bs + b < |v| && k < |v[n * bs + b]|
    ensures ReplicaTerm(g, dvf, v, nv, bs, dim, n, b, k) == ScaleRows(RowDots(g, dvf), v)[n * bs + b][k]
  {
    RowInRange(n, b, nv, bs);
    ProductAt(g, dvf, v, n * bs + b, k);
  }

  /** Flattening an `[n0 * n1, n2]` matrix and reshaping it to `[n0, n1, n2]` puts row `a * n1 + b` at `[a][b]`. */
  lemma FlatReshapeAt(m: Matrix, n0: nat, n1: nat, n2: nat, a: nat, b: nat, c: nat)
    requires IsShape(m, n0 * n1, n2) && a < n0 && b < n1 && c < n2
    ensures |Flatten(m)| == n0 * n1 * n2
    ensures a * n1 + b < |m| && Reshape3(Flatten(m), n0, n1, n2)[a][b][c] == m[a * n1 + b][c]
  {
    FlattenLength(m, n2);
    RowInRange(a, b, n0, n1);
    var i := a * n1 + b;
    FlattenAt(m, n2, i, c);
    Reshape3At(Flatten(m), n0, n1, n2, a, b, c);
  }

  lemma {:induction false} SumToReplicaSum(g: Matrix, dvf: Matrix, v: Matrix, nv: nat, bs: nat, dim: nat,
                                           count: nat, b: nat, k: nat)
    requires FwdReady(g, dvf, v, nv, bs, dim) && count <= nv && b < bs && k < dim
    ensures SumTo(Replicas(g, dvf, v, nv, bs, dim), count, bs, dim, b, k) == ReplicaSum(g, dvf, v, nv, bs, dim, count, b, k)
  {
    if count > 0 {
      SumToReplicaSum(g, dvf, v, nv, bs, dim, count - 1, b, k);
      ReplicasAt(g, dvf, v, nv, bs, dim, count - 1, b, k);
    }
  }

  /**
   * Entry `[b][k]` of the forward gradient is the mean over the `nv` replicas of sample `b`:
   * the replica index is outermost in the `[nv * bs, dim]` layout.
   */
  lemma FwdGradAt(g: Matrix, dvf: Matrix, v: Matrix, nv: nat, bs: nat, dim: nat, b: nat, k: nat)
    requires FwdReady(g, dvf, v, nv, bs, dim) && b < bs && k < dim
    ensures FwdGrad(g, dvf, v, nv, bs, dim)[b][k] == ReplicaSum(g, dvf, v, nv, bs, dim, nv, b, k) / (nv as real)
  {
    SumToReplicaSum(g, dvf, v, nv, bs, dim, nv, b, k);
  }

  /** With a single probe direction there is no averaging: the estimate is `⟨g[b], dvf[b]⟩ · v[b]`. */
  lemma FwdGradSingleReplica(g: Matrix, dvf: Matrix, v: Matrix, bs: nat, dim: nat, b: nat, k: nat)
    requires FwdReady(g, dvf, v, 1, bs, dim) && b < bs && k < dim
    ensures FwdGrad(g, dvf, v, 1, bs, dim)[b][k] == Dot(g[b], dvf[b]) * v[b][k]
  {
    FwdGradAt(g, dvf, v, 1, bs, dim, b, k);
    assert ReplicaSum(g, dvf, v, 1, bs, dim, 0, b, k) == 0.0;
  }

  // ---------------------------------------------------------------- the custom gradient node

  datatype GradType = FTrue | FFwd | FHatTrue | CvFwd | OtherGrad(name: string)

  function GradTypeName(t: GradType): string
  {
    match t
    case FTrue => "f_true"
    case FFwd => "f_fwd"
    case FHatTrue => "f_hat_true"
    case CvFwd => "cv_fwd"
    case OtherGrad(name) => name
  }

  /** The `grad_type` string compared against the four supported names. */
  function ParseGradType(s: string): (t: GradType)
    ensures t.FTrue? <==> s == "f_true"
    ensures t.FFwd? <==> s == "f_fwd"
    ensures t.FHatTrue? <==> s == "f_hat_true"
    ensures t.CvFwd? <==> s == "cv_fwd"
    ensures GradTypeName(t) == s
  {
    if s == "f_true" then FTrue
    else if s == "f_fwd" then FFwd
    else if s == "f_hat_true" then FHatTrue
    else if s == "cv_fwd" then CvFwd
    else OtherGrad(s)
  }

  /** The estimator context `d`: `y, dvf, y_hat, dvf_hat, v, v_scale, Nv, grad_type`. */
  datatype Context = Context(y: Matrix, dvf: Matrix, yHat: Matrix, dvfHat: Matrix, v: Matrix,
                             vScale: real, nv: nat, gradType: GradType)

  /** The gradients `backward` returns: one for `x` and one (always `None`) for `d`. */
  datatype Grads = Grads(x: Matrix, d: Option<Matrix>)

  /**
   * What `backward` needs so that no tensor operation fails: `x` is a `[bs, in_dim]` matrix,
   * the forward-gradient formulas it reaches have `Nv * bs` rows to work on, and autograd's
   * gradients with respect to `x` have `x`'s shape.
   */
  predicate BackwardReady(x: Matrix, v: Matrix, d: Context, gradY: Matrix,
                          vjpY: Matrix -> Option<Matrix>, vjpYHat: Matrix -> Option<Matrix>)
  {
    var bs, dim := |x|, Width(x);
    IsShape(x, bs, dim) &&
    (vjpY(gradY).Some? ==> IsShape(vjpY(gradY).value, bs, dim)) &&
    (vjpYHat(gradY).Some? ==> IsShape(vjpYHat(gradY).value, bs, dim)) &&
    (!d.gradType.FTrue? ==> FwdReady(gradY, d.dvf, v, d.nv, bs, dim)) &&
    (!d.gradType.FTrue? && !d.gradType.FFwd? ==> SameShape(gradY, d.dvfHat))
  }

  /**
   * `register_custom_grad_fn.backward` given the saved `x` and `v`, the context `d`, the upstream
   * gradient `grad_y`, and autograd's gradients of `d["y"]` and `d["y_hat"]` with respect to `x`
   * (`vjpY`, `vjpYHat`; `None` when autograd raises).
   */
  function BackwardRule(x: Matrix, v: Matrix, d: Context, gradY: Matrix,
                        vjpY: Matrix -> Option<Matrix>, vjpYHat: Matrix -> Option<Matrix>)
    : (r: Result<Grads, WrapperError>)
    requires BackwardReady(x, v, d, gradY, vjpY, vjpYHat)
    ensures r.Ok? ==> IsShape(r.value.x, |x|, Width(x)) && r.value.d.None?
    ensures r.Err? <==> d.gradType.OtherGrad? || (!d.gradType.FTrue? && !d.gradType.FFwd? && vjpYHat(gradY).None?)
    ensures r.Err? ==> (r.error == AutogradFailure <==> vjpYHat(gradY).None?)
    ensures d.gradType.FTrue? && vjpY(gradY).Some? ==> r.value.x == vjpY(gradY).value
    ensures d.gradType.FTrue? && vjpY(gradY).None? ==> r.value.x == Zeros(|x|, Width(x))
    ensures d.gradType.FFwd? ==> r.value.x == FwdGrad(gradY, d.dvf, Scale(d.vScale, v), d.nv, |x|, Width(x))
    ensures d.gradType.FHatTrue? && r.Ok? ==> r.value.x == DivScalar(vjpYHat(gradY).value, d.nv as real)
  {
    var vs := Scale(d.vScale, v);
    var bs, dim := |x|, Width(x);
    if d.gradType.FTrue? then
      var fTrue := match vjpY(gradY) case Some(g) => g case None => Zeros(bs, dim);
      Ok(Grads(fTrue, None))
    else
      var fFwd := FwdGrad(gradY, d.dvf, vs, d.nv, bs, dim);
      if d.gradType.FFwd? then
        Ok(Grads(fFwd, None))
      else
        var fHatFwd := FwdGrad(gradY, d.dvfHat, vs, d.nv, bs, dim);
        match vjpYHat(gradY)
        case None => Err(AutogradFailure)
        case Some(gHat) =>
          var fHatTrue := DivScalar(gHat, d.nv as real);
          if d.gradType.FHatTrue? then
            Ok(Grads(fHatTrue, None))
          else if d.gradType.CvFwd? then
            Ok(Grads(Sub(fFwd, Sub(fHatFwd, fHatTrue)), None))
          else
            Err(NotImplemented)
  }

  // ---------------------------------------------------------------- what the estimators promise

  /** The inner product is linear in its second argument. */
  lemma {:induction false} DotSub(u: seq<real>, a: seq<real>, c: seq<real>, w: seq<real>)
    requires |u| == |a| == |c| == |w|
    requires forall i :: 0 <= i < |w| ==> w[i] == a[i] - c[i]
    ensures Dot(u, w) == Dot(u, a) - Dot(u, c)
  {
    if |u| > 0 {
      DotSub(u[1..], a[1..], c[1..], w[1..]);
      assert u[0] * w[0] == u[0] * a[0] - u[0] * c[0];
    }
  }

  lemma {:induction false} ReplicaSumSub(g: Matrix, dvf: Matrix, dvfHat: Matrix, v: Matrix, nv: nat, bs: nat, dim: nat,
                                         count: nat, b: nat, k: nat)
    requires FwdReady(g, dvf, v, nv, bs, dim) && SameShape(dvf, dvfHat) && count <= nv && b < bs && k < dim
    ensures FwdReady(g, dvfHat, v, nv, bs, dim) && FwdReady(g, Sub(dvf, dvfHat), v, nv, bs, dim)
    ensures ReplicaSum(g, Sub(dvf, dvfHat), v, nv, bs, dim, count, b, k)
         == ReplicaSum(g, dvf, v, nv, bs, dim, count, b, k) - ReplicaSum(g, dvfHat, v, nv, bs, dim, count, b, k)
  {
    if count > 0 {
      ReplicaSumSub(g, dvf, dvfHat, v, nv, bs, dim, count - 1, b, k);
      ReplicaTermSub(g, dvf, dvfHat, v, nv, bs, dim, count - 1, b, k);
    }
  }

  /** One replica term of `dvf - dvf_hat` is the difference of the two replica terms. */
  lemma ReplicaTermSub(g: Matrix, dvf: Matrix, dvfHat: Matrix, v: Matrix, nv: nat, bs: nat, dim: nat,
                       n: nat, b: nat, k: nat)
    requires FwdReady(g, dvf, v, nv, bs, dim) && SameShape(dvf, dvfHat) && n < nv && b < bs && k < dim
    ensures FwdReady(g, dvfHat, v, nv, bs, dim) && FwdReady(g, Sub(dvf, dvfHat), v, nv, bs, dim)
    ensures ReplicaTerm(g, Sub(dvf, dvfHat), v, nv, bs, dim, n, b, k)
         == ReplicaTerm(g, dvf, v, nv, bs, dim, n, b, k) - ReplicaTerm(g, dvfHat, v, nv, bs, dim, n, b, k)
  {
    RowInRange(n, b, nv, bs);
    var i := n * bs + b;
    var diff := Sub(dvf, dvfHat);
    DotSub(g[i], dvf[i], dvfHat[i], diff[i]);
    var p, q := Dot(g[i], dvf[i]), Dot(g[i], dvfHat[i]);
    assert (p - q) * v[i][k] == p * v[i][k] - q * v[i][k];
  }

  /**
   * The forward-gradient formula is linear in the directional derivative: the difference of the
   * estimates from `dvf` and from `dvf_hat` is the estimate from `dvf - dvf_hat`.
   */
  lemma FwdGradSub(g: Matrix, dvf: Matrix, dvfHat: Matrix, v: Matrix, nv: nat, bs: nat, dim: nat, b: nat, k: nat)
    requires FwdReady(g, dvf, v, nv, bs, dim) && SameShape(dvf, dvfHat) && b < bs && k < dim
    ensures FwdReady(g, dvfHat, v, nv, bs, dim) && FwdReady(g, Sub(dvf, dvfHat), v, nv, bs, dim)
    ensures FwdGrad(g, Sub(dvf, dvfHat), v, nv, bs, dim)[b][k]
         == FwdGrad(g, dvf, v, nv, bs, dim)[b][k] - FwdGrad(g, dvfHat, v, nv, bs, dim)[b][k]
  {
    ReplicaSumSub(g, dvf, dvfHat, v, nv, bs, dim, nv, b, k);
    FwdGradAt(g, dvf, v, nv, bs, dim, b, k);
    FwdGradAt(g, dvfHat, v, nv, bs, dim, b, k);
    FwdGradAt(g, Sub(dvf, dvfHat), v, nv, bs, dim, b, k);
    DivDistributes(ReplicaSum(g, dvf, v, nv, bs, dim, nv, b, k), ReplicaSum(g, dvfHat, v, nv, bs, dim, nv, b, k), nv as real);
  }

  lemma DivDistributes(p: real, q: real, n: real)
    requires n != 0.0
    ensures (p - q) / n == p / n - q / n
  {
  }

  /**
   * The control-variate gradient is the surrogate's full gradient plus a forward-gradient
   * estimate of the error between `f` and the surrogate (`dvf - dvf_hat`).
   */
  lemma CvFwdIsSurrogatePlusErrorEstimate(x: Matrix, v: Matrix, d: Context, gradY: Matrix,
                                          vjpY: Matrix -> Option<Matrix>, vjpYHat: Matrix -> Option<Matrix>, b: nat, k: nat)
    requires BackwardReady(x, v, d, gradY, vjpY, vjpYHat) && d.gradType.CvFwd? && vjpYHat(gradY).Some?
    requires b < |x| && k < Width(x) && d.nv >= 1
    ensures var vs := Scale(d.vScale, v);
            FwdReady(gradY, Sub(d.dvf, d.dvfHat), vs, d.nv, |x|, Width(x)) &&
            BackwardRule(x, v, d, gradY, vjpY, vjpYHat).Ok? &&
            BackwardRule(x, v, d, gradY, vjpY, vjpYHat).value.x[b][k]
              == vjpYHat(gradY).value[b][k] / (d.nv as real)
                 + FwdGrad(gradY, Sub(d.dvf, d.dvfHat), vs, d.nv, |x|, Width(x))[b][k]
  {
    var vs := Scale(d.vScale, v);
    FwdGradSub(gradY, d.dvf, d.dvfHat, vs, d.nv, |x|, Width(x), b, k);
  }

  /** With an exact surrogate (`dvf_hat == dvf`) the control-variate gradient is the surrogate's full gradient. */
  lemma CvFwdExactSurrogate(x: Matrix, v: Matrix, d: Context, gradY: Matrix,
                            vjpY: Matrix -> Option<Matrix>, vjpYHat: Matrix -> Option<Matrix>)
    requires BackwardReady(x, v, d, gradY, vjpY, vjpYHat) && d.gradType.CvFwd? && vjpYHat(gradY).Some?
    requires d.dvfHat == d.dvf && d.nv >= 1
    ensures BackwardRule(x, v, d, gradY, vjpY, vjpYHat) == Ok(Grads(DivScalar(vjpYHat(gradY).value, d.nv as real), None))
  {
    var fFwd := FwdGrad(gradY, d.dvf, Scale(d.vScale, v), d.nv, |x|, Width(x));
    var h := DivScalar(vjpYHat(gradY).value, d.nv as real);
    assert BackwardRule(x, v, d, gradY, vjpY, vjpYHat) == Ok(Grads(Sub(fFwd, Sub(fFwd, h)), None));
    SubCancels(fFwd, h);
  }

  lemma SubCancels(a: Matrix, h: Matrix)
    requires SameShape(a, h)
    ensures Sub(a, Sub(a, h)) == h
  {
    var r := Sub(a, Sub(a, h));
    forall i | 0 <= i < |r| ensures r[i] == h[i] {
      assert |r[i]| == |h[i]|;
    }
  }

  // ---------------------------------------------------------------- the autograd node

  /** The autograd context `ctx`: the estimator context stored by `forward` and the saved tensors. */
  class FunctionCtx {
    var d: Option<Context>
    var savedTensors: seq<Matrix>

    constructor()
      ensures d.None? && savedTensors == []
    {
      d := None;
      savedTensors := [];
    }
  }

  /** `register_custom_grad_fn.forward`: keeps `d`, saves `x` and `d["v"]`, and returns `d["y"]`. */
  method CustomGradForward(ctx: FunctionCtx, x: Matrix, d: Context) returns (y: Matrix)
    modifies ctx
    ensures ctx.d == Some(d) && ctx.savedTensors == [x, d.v]
    ensures y == d.y
  {
    ctx.d := Some(d);
    ctx.savedTensors := [x, d.v];
    y := d.y;
  }

  /** `register_custom_grad_fn.backward`, reading `x`, `v` and `d` back from the context. */
  function CustomGradBackward(ctx: FunctionCtx, gradY: Matrix,
                              vjpY: Matrix -> Option<Matrix>, vjpYHat: Matrix -> Option<Matrix>)
    : (r: Result<Grads, WrapperError>)
    reads ctx
    requires ctx.d.Some? && |ctx.savedTensors| == 2
    requires BackwardReady(ctx.savedTensors[0], ctx.savedTensors[1], ctx.d.value, gradY, vjpY, vjpYHat)
    ensures r.Ok? ==> IsShape(r.value.x, |ctx.savedTensors[0]|, Width(ctx.savedTensors[0])) && r.value.d.None?
    ensures var t := ctx.d.value.gradType;
            r.Err? <==> t.OtherGrad? || (!t.FTrue? && !t.FFwd? && vjpYHat(gradY).None?)
  {
    BackwardRule(ctx.savedTensors[0], ctx.savedTensors[1], ctx.d.value, gradY, vjpY, vjpYHat)
  }

  /**
   * One application of the node: the forward pass returns `d["y"]`, and the backward pass that
   * follows sees the very `x` and `d["v"]` that were saved.
   */
  method ForwardThenBackward(x: Matrix, d: Context, gradY: Matrix,
                             vjpY: Matrix -> Option<Matrix>, vjpYHat: Matrix -> Option<Matrix>)
    returns (y: Matrix, r: Result<Grads, WrapperError>)
    requires BackwardReady(x, d.v, d, gradY, vjpY, vjpYHat)
    ensures y == d.y
    ensures r == BackwardRule(x, d.v, d, gradY, vjpY, vjpYHat)
    ensures r.Ok? ==> IsShape(r.value.x, |x|, Width(x))
  {
    var ctx := new FunctionCtx();
    y := CustomGradForward(ctx, x, d);
    r := CustomGradBackward(ctx, gradY, vjpY, vjpYHat);
  }
}
