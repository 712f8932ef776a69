/**
 * Real-valued tensors: a batch of rows (`Matrix`, shape `[rows, cols]`) and a general
 * tensor kept as its shape and its row-major data, with the few operations the core uses.
 * Floating point is replaced by real arithmetic throughout.
 */
module Tensors {

  /** A two-dimensional tensor as its rows. */
  type Matrix = seq<seq<real>>

  /** A tensor of any rank: its shape and its elements in row-major order. */
  datatype Tensor = Tensor(shape: seq<nat>, data: seq<real>)

  predicate IsShape(m: Matrix, rows: nat, cols: nat)
  {
    |m| == rows && forall i :: 0 <= i < |m| ==> |m[i]| == cols
  }

  predicate SameShape(a: Matrix, b: Matrix)
  {
    |a| == |b| && forall i :: 0 <= i < |a| ==> |a[i]| == |b[i]|
  }

  /** The length of the rows; a matrix without rows has width 0. */
  function Width(m: Matrix): nat
  {
    if |m| == 0 then 0 else |m[0]|
  }

  /** Number of elements of a tensor of the given shape (1 for the empty shape). */
  function Prod(shape: seq<nat>): nat
  {
    if |shape| == 0 then 1 else shape[0] * Prod(shape[1..])
  }

  function Zeros(rows: nat, cols: nat): (r: Matrix)
    ensures IsShape(r, rows, cols)
    ensures forall i, j :: 0 <= i < rows && 0 <= j < cols ==> r[i][j] == 0.0
  {
    seq(rows, i => seq(cols, j => 0.0))
  }

  function Add(a: Matrix, b: Matrix): (r: Matrix)
    requires SameShape(a, b)
    ensures SameShape(r, a) && SameShape(r, b)
    ensures forall i, j :: 0 <= i < |r| && 0 <= j < |r[i]| ==> r[i][j] == a[i][j] + b[i][j]
  {
    seq(|a|, i requires 0 <= i < |a| => seq(|a[i]|, j requires 0 <= j < |a[i]| => a[i][j] + b[i][j]))
  }

  function Sub(a: Matrix, b: Matrix): (r: Matrix)
    requires SameShape(a, b)
    ensures SameShape(r, a) && SameShape(r, b)
    ensures forall i, j :: 0 <= i < |r| && 0 <= j < |r[i]| ==> r[i][j] == a[i][j] - b[i][j]
  {
    seq(|a|, i requires 0 <= i < |a| => seq(|a[i]|, j requires 0 <= j < |a[i]| => a[i][j] - b[i][j]))
  }

  /** Multiplication of every element by the scalar `c`. */
  function Scale(c: real, a: Matrix): (r: Matrix)
    ensures SameShape(r, a)
    ensures forall i, j :: 0 <= i < |r| && 0 <= j < |r[i]| ==> r[i][j] == c * a[i][j]
  {
    seq(|a|, i requires 0 <= i < |a| => seq(|a[i]|, j requires 0 <= j < |a[i]| => c * a[i][j]))
  }

  /** Division of every element by the non-zero scalar `c`. */
  function DivScalar(a: Matrix, c: real): (r: Matrix)
    requires c != 0.0
    ensures SameShape(r, a)
    ensures forall i, j :: 0 <= i < |r| && 0 <= j < |r[i]| ==> r[i][j] == a[i][j] / c
  {
    seq(|a|, i requires 0 <= i < |a| => seq(|a[i]|, j requires 0 <= j < |a[i]| => a[i][j] / c))
  }

  /** The inner product of two rows of equal length. */
  function Dot(u: seq<real>, w: seq<real>): real
    requires |u| == |w|
  {
    if |u| == 0 then 0.0 else u[0] * w[0] + Dot(u[1..], w[1..])
  }

  /** Row-major flattening: the rows one after another. */
  function Flatten(m: Matrix): seq<real>
  {
    if |m| == 0 then [] else m[0] + Flatten(m[1..])
  }

  lemma {:induction false} FlattenLength(m: Matrix, cols: nat)
    requires IsShape(m, |m|, cols)
    ensures |Flatten(m)| == |m| * cols
  {
    if |m| > 0 {
      FlattenLength(m[1..], cols);
    }
  }

  /** Element `(i, k)` of a `[rows, cols]` matrix sits at `i * cols + k` once flattened. */
  lemma {:induction false} FlattenAt(m: Matrix, cols: nat, i: nat, k: nat)
    requires IsShape(m, |m|, cols) && i < |m| && k < cols
    ensures |Flatten(m)| == |m| * cols
    ensures i * cols + k < |Flatten(m)| && Flatten(m)[i * cols + k] == m[i][k]
  {
    FlattenLength(m, cols);
    FlattenLength(m[1..], cols);
    if i > 0 {
      FlattenAt(m[1..], cols, i - 1, k);
      assert i * cols + k == cols + ((i - 1) * cols + k);
    }
  }
}
