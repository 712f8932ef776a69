/**
 * The polynomial test objectives used as base solvers in the minimisation experiments
 * (`sphere`, `rosenbrock`, `rosenbrock_separate`) and the solver that wraps them.
 * Each objective maps a batch `[bs, n]` to one value per row, shape `[bs, 1]`.
 */
module TestFunctions {
  import opened Wrappers
  import opened Tensors

  datatype TestFunctionError = AssertionFailed | KeyError(key: string)

  // ---------------------------------------------------------------- squares

  /** `q ** 2` */
  function Sq(q: real): real
  {
    q * q
  }

  /** Real multiplication, with the sign rule for two factors of the same sign. */
  function Mul(a: real, b: real): (r: real)
    ensures (a > 0.0 && b > 0.0) || (a < 0.0 && b < 0.0) ==> r > 0.0
  {
    a * b
  }

  /** A square is never negative, and positive away from zero. */
  lemma SqSign(q: real)
    ensures Sq(q) >= 0.0
    ensures q != 0.0 ==> Sq(q) > 0.0
  {
    var m := Mul(q, q);
  }

  // ---------------------------------------------------------------- sphere

  /** Sum of the squares of a row. */
  function SumSquares(row: seq<real>): real
  {
    if |row| == 0 then 0.0 else Sq(row[0]) + SumSquares(row[1..])
  }

  /** `sphere`: the sum of squares of each row, one column. */
  function Sphere(x: Matrix): (r: Matrix)
    ensures IsShape(r, |x|, 1)
    ensures forall i :: 0 <= i < |x| ==> r[i][0] == SumSquares(x[i])
  {
    seq(|x|, i requires 0 <= i < |x| => [SumSquares(x[i])])
  }

  /** A sum of squares is never negative and vanishes exactly on the zero row. */
  lemma {:induction false} SumSquaresZeroIff(row: seq<real>)
    ensures SumSquares(row) >= 0.0
    ensures SumSquares(row) == 0.0 <==> forall j :: 0 <= j < |row| ==> row[j] == 0.0
  {
    if |row| > 0 {
      SqSign(row[0]);
      SumSquaresZeroIff(row[1..]);
      if SumSquares(row) == 0.0 {
        assert row[0] == 0.0;
        forall j | 0 <= j < |row| ensures row[j] == 0.0 {
          if j > 0 { assert row[j] == row[1..][j - 1]; }
        }
      }
      if forall j :: 0 <= j < |row| ==> row[j] == 0.0 {
        forall j | 0 <= j < |row| - 1 ensures row[1..][j] == 0.0 {
          assert row[1..][j] == row[j + 1];
        }
      }
    }
  }

  /** Every value `sphere` returns is non-negative, and it is zero exactly on all-zero rows. */
  lemma SphereMinimum(x: Matrix, i: nat)
    requires i < |x|
    ensures Sphere(x)[i][0] >= 0.0
    ensures Sphere(x)[i][0] == 0.0 <==> forall j :: 0 <= j < |x[i]| ==> x[i][j] == 0.0
  {
    SumSquaresZeroIff(x[i]);
  }

  // ---------------------------------------------------------------- rosenbrock

  /** One Rosenbrock term over the pair `(a, b)`: `100 (b - a^2)^2 + (1 - a)^2`. */
  function RosenTerm(a: real, b: real): real
  {
    100.0 * Sq(b - Sq(a)) + Sq(1.0 - a)
  }

  /** A Rosenbrock term is non-negative and vanishes only at `(1, 1)`. */
  lemma RosenTermZeroIff(a: real, b: real)
    ensures RosenTerm(a, b) >= 0.0
    ensures RosenTerm(a, b) == 0.0 <==> a == 1.0 && b == 1.0
  {
    SqSign(b - Sq(a));
    SqSign(1.0 - a);
    if a == 1.0 {
      assert Sq(a) == 1.0;
    }
  }

  /** A pair function that, like a Rosenbrock term, is non-negative and vanishes exactly at `(1, 1)`. */
  ghost predicate MinimalAtOnes(t: (real, real) -> real)
  {
    forall a: real, b: real :: t(a, b) >= 0.0 && (t(a, b) == 0.0 <==> a == 1.0 && b == 1.0)
  }

  /** The instance of `MinimalAtOnes` at one pair. */
  lemma MinimalAt(t: (real, real) -> real, a: real, b: real)
    requires MinimalAtOnes(t)
    ensures t(a, b) >= 0.0 && (t(a, b) == 0.0 <==> a == 1.0 && b == 1.0)
  {
  }

  lemma RosenTermMinimalAtOnes()
    ensures MinimalAtOnes(RosenTerm)
  {
    forall a: real, b: real ensures RosenTerm(a, b) >= 0.0 && (RosenTerm(a, b) == 0.0 <==> a == 1.0 && b == 1.0) {
      RosenTermZeroIff(a, b);
    }
  }

  predicate AllOnes(row: seq<real>)
  {
    forall j :: 0 <= j < |row| ==> row[j] == 1.0
  }

  /** A row is all ones when its first `k` elements are ones and the rest is all ones. */
  lemma AllOnesPrepend(row: seq<real>, k: nat)
    requires k <= |row|
    requires forall j :: 0 <= j < k ==> row[j] == 1.0
    requires AllOnes(row[k..])
    ensures AllOnes(row)
  {
    forall j | k <= j < |row| ensures row[j] == 1.0 {
      assert row[j] == row[k..][j - k];
    }
  }

  /** The tail of an all-ones row is all ones. */
  lemma AllOnesDrop(row: seq<real>, k: nat)
    requires k <= |row| && AllOnes(row)
    ensures AllOnes(row[k..])
  {
    forall j | 0 <= j < |row| - k ensures row[k..][j] == 1.0 {
      assert row[k..][j] == row[j + k];
    }
  }

  // ------------------------------------------- sums over overlapping and disjoint pairs

  /** The sum of `t` over the `n - 1` overlapping pairs `(x_i, x_{i+1})` of a row. */
  function OverlappingPairSum(t: (real, real) -> real, row: seq<real>): real
  {
    if |row| < 2 then 0.0 else t(row[0], row[1]) + OverlappingPairSum(t, row[1..])
  }

  /** The sum of `t` over the disjoint pairs `(x_{2i}, x_{2i+1})` of a row of even length. */
  function DisjointPairSum(t: (real, real) -> real, row: seq<real>): real
    requires |row| % 2 == 0
  {
    if |row| == 0 then 0.0 else t(row[0], row[1]) + DisjointPairSum(t, row[2..])
  }

  lemma {:induction false} OverlappingNonnegative(t: (real, real) -> real, row: seq<real>)
    requires MinimalAtOnes(t)
    ensures OverlappingPairSum(t, row) >= 0.0
  {
    if |row| >= 2 {
      OverlappingNonnegative(t, row[1..]);
      MinimalAt(t, row[0], row[1]);
    }
  }

  /** On a row of at least two elements, the overlapping sum vanishes exactly at the all-ones row. */
  lemma {:induction false} OverlappingZeroIff(t: (real, real) -> real, row: seq<real>)
    requires MinimalAtOnes(t) && |row| >= 2
    ensures OverlappingPairSum(t, row) == 0.0 <==> AllOnes(row)
  {
    var rest := row[1..];
    OverlappingNonnegative(t, rest);
    MinimalAt(t, row[0], row[1]);
    if |rest| >= 2 {
      OverlappingZeroIff(t, rest);
    }
    if OverlappingPairSum(t, row) == 0.0 {
      assert t(row[0], row[1]) == 0.0;
      AllOnesPrepend(row, 1);
    }
    if AllOnes(row) {
      AllOnesDrop(row, 1);
      assert t(row[0], row[1]) == 0.0;
    }
  }

  lemma {:induction false} DisjointNonnegative(t: (real, real) -> real, row: seq<real>)
    requires MinimalAtOnes(t) && |row| % 2 == 0
    ensures DisjointPairSum(t, row) >= 0.0
  {
    if |row| > 0 {
      DisjointNonnegative(t, row[2..]);
      MinimalAt(t, row[0], row[1]);
    }
  }

  /** The disjoint sum vanishes exactly at the all-ones row. */
  lemma {:induction false} DisjointZeroIff(t: (real, real) -> real, row: seq<real>)
    requires MinimalAtOnes(t) && |row| % 2 == 0
    ensures DisjointPairSum(t, row) == 0.0 <==> AllOnes(row)
  {
    if |row| > 0 {
      var rest := row[2..];
      DisjointNonnegative(t, rest);
      DisjointZeroIff(t, rest);
      MinimalAt(t, row[0], row[1]);
      if DisjointPairSum(t, row) == 0.0 {
        assert t(row[0], row[1]) == 0.0;
        AllOnesPrepend(row, 2);
      }
      if AllOnes(row) {
        AllOnesDrop(row, 2);
        assert t(row[0], row[1]) == 0.0;
      }
    }
  }

  /**
   * The disjoint pairs are a subset of the overlapping ones, so with non-negative terms the
   * disjoint sum never exceeds the overlapping sum.
   */
  lemma {:induction false} DisjointBelowOverlapping(t: (real, real) -> real, row: seq<real>)
    requires MinimalAtOnes(t) && |row| % 2 == 0
    ensures DisjointPairSum(t, row) <= OverlappingPairSum(t, row)
  {
    if |row| > 0 {
      var rest := row[2..];
      DisjointBelowOverlapping(t, rest);
      assert row[1..][1..] == rest;
      if |row| >= 4 {
        MinimalAt(t, row[1], row[2]);
      }
    }
  }

  // ---------------------------------------------------------------- rosenbrock

  /** `rosenbrock` on one row: the Rosenbrock terms over the overlapping pairs. */
  function RosenbrockRow(row: seq<real>): real
  {
    OverlappingPairSum(RosenTerm, row)
  }

  /** `rosenbrock`: one value per row, one column. */
  function Rosenbrock(x: Matrix): (r: Matrix)
    ensures IsShape(r, |x|, 1)
    ensures forall i :: 0 <= i < |x| ==> r[i][0] == RosenbrockRow(x[i])
  {
    seq(|x|, i requires 0 <= i < |x| => [RosenbrockRow(x[i])])
  }

  /**
   * `rosenbrock` is non-negative, and on a row of at least two elements it is zero exactly
   * at the all-ones row, its unique minimiser.
   */
  lemma RosenbrockMinimum(row: seq<real>)
    ensures RosenbrockRow(row) >= 0.0
    ensures |row| >= 2 ==> (RosenbrockRow(row) == 0.0 <==> AllOnes(row))
  {
    RosenTermMinimalAtOnes();
    OverlappingNonnegative(RosenTerm, row);
    if |row| >= 2 {
      OverlappingZeroIff(RosenTerm, row);
    }
  }

  // ---------------------------------------------------------------- rosenbrock_separate

  /** `rosenbrock_separate` on one row of even length: the Rosenbrock terms over the disjoint pairs. */
  function RosenbrockSeparateRow(row: seq<real>): real
    requires |row| % 2 == 0
  {
    DisjointPairSum(RosenTerm, row)
  }

  /** `rosenbrock_separate`: fails its assertion unless the last dimension is even. */
  function RosenbrockSeparate(x: Matrix): (r: Result<Matrix, TestFunctionError>)
    requires IsShape(x, |x|, Width(x))
    ensures r.Err? <==> Width(x) % 2 != 0
    ensures r.Err? ==> r.error == AssertionFailed
    ensures r.Ok? ==> IsShape(r.value, |x|, 1)
    ensures r.Ok? ==> forall i :: 0 <= i < |x| ==> r.value[i][0] == RosenbrockSeparateRow(x[i])
  {
    if Width(x) % 2 != 0 then Err(AssertionFailed)
    else Ok(seq(|x|, i requires 0 <= i < |x| => [RosenbrockSeparateRow(x[i])]))
  }

  /** `rosenbrock_separate` is non-negative and zero exactly at the all-ones row. */
  lemma RosenbrockSeparateMinimum(row: seq<real>)
    requires |row| % 2 == 0
    ensures RosenbrockSeparateRow(row) >= 0.0
    ensures RosenbrockSeparateRow(row) == 0.0 <==> AllOnes(row)
  {
    RosenTermMinimalAtOnes();
    DisjointNonnegative(RosenTerm, row);
    DisjointZeroIff(RosenTerm, row);
  }

  /** In dimension 2 the two Rosenbrock variants compute the same single term. */
  lemma RosenbrockVariantsAgreeInDim2(row: seq<real>)
    requires |row| == 2
    ensures RosenbrockSeparateRow(row) == RosenbrockRow(row) == RosenTerm(row[0], row[1])
  {
    assert DisjointPairSum(RosenTerm, row[2..]) == 0.0;
    assert OverlappingPairSum(RosenTerm, row[1..]) == 0.0;
  }

  /** `rosenbrock_separate` never exceeds `rosenbrock` on the same row. */
  lemma RosenbrockSeparateBelowRosenbrock(row: seq<real>)
    requires |row| % 2 == 0
    ensures RosenbrockSeparateRow(row) <= RosenbrockRow(row)
  {
    RosenTermMinimalAtOnes();
    DisjointBelowOverlapping(RosenTerm, row);
  }

  // ---------------------------------------------------------------- the solver

  /** The objectives a `TestFunctionSolver` can be configured with (`rastrigin` is not modelled). */
  datatype TestFunction = SphereFn | RosenbrockFn | RosenbrockSeparateFn

  function Apply(f: TestFunction, x: Matrix): (r: Result<Matrix, TestFunctionError>)
    requires IsShape(x, |x|, Width(x))
  {
    match f
    case SphereFn => Ok(Sphere(x))
    case RosenbrockFn => Ok(Rosenbrock(x))
    case RosenbrockSeparateFn => RosenbrockSeparate(x)
  }

  /**
   * `TestFunctionSolver`: one learnable parameter `"x"` of shape `(dim,)`, no fixed ones;
   * `Forward` ignores the task and applies the objective to `theta["x"]`.
   */
  datatype TestFunctionSolver = TestFunctionSolver(dim: nat, f: TestFunction)
  {
    function ParamsLearn(): (p: map<string, seq<nat>>)
      ensures p.Keys == {"x"} && p["x"] == [dim]
    {
      map["x" := [dim]]
    }

    function ParamsFix(): (p: map<string, seq<nat>>)
      ensures p.Keys == {}
    {
      map[]
    }

    function Forward<Task>(tau: Task, theta: map<string, Matrix>): (r: Result<Matrix, TestFunctionError>)
      requires "x" in theta ==> IsShape(theta["x"], |theta["x"]|, Width(theta["x"]))
      ensures "x" !in theta ==> r == Err(KeyError("x"))
      ensures "x" in theta ==> r == Apply(f, theta["x"])
      ensures r.Ok? ==> IsShape(r.value, |theta["x"]|, 1)
    {
      if "x" in theta then Apply(f, theta["x"]) else Err(KeyError("x"))
    }
  }
}
