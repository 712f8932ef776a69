/**
 * Linear-system tasks in their two representations: a dense one, whose matrix is a
 * `[rows, cols]` tensor, and a sparse one, whose matrix is a compressed-sparse-row (CSR)
 * triple `(rowPtr, colIdx, values)`.  The conversions between them, `petsc2torch` and
 * `torch2petsc`, and the equality of each representation are modelled here.
 */
module Tasks {
  import opened Wrappers
  import opened Tensors

  // ---------------------------------------------------------------------------------
  // Compressed sparse rows
  // ---------------------------------------------------------------------------------

  /**
   * A sparse matrix in CSR form: the entries of row `i` sit at the indices
   * `rowPtr[i] .. rowPtr[i + 1]` of `colIdx` (their columns) and `values`.
   */
  datatype Csr = Csr(rows: nat, cols: nat, rowPtr: seq<nat>, colIdx: seq<nat>, values: seq<real>)

  /** The row pointers delimit consecutive, non-overlapping slices of the entry arrays. */
  predicate Structured(c: Csr)
  {
    && |c.rowPtr| == c.rows + 1
    && c.rowPtr[0] == 0
    && (forall i, i' :: 0 <= i <= i' <= c.rows ==> c.rowPtr[i] <= c.rowPtr[i'])
    && c.rowPtr[c.rows] == |c.colIdx| == |c.values|
  }

  /** An entry is a column index with its value. */
  type Entry = (nat, real)

  /** The entries of row `i`, in storage order. */
  function RowSlice(c: Csr, i: nat): (es: seq<Entry>)
    requires Structured(c) && i < c.rows
    ensures |es| == c.rowPtr[i + 1] - c.rowPtr[i]
    ensures forall k :: 0 <= k < |es| ==> es[k] == (c.colIdx[c.rowPtr[i] + k], c.values[c.rowPtr[i] + k])
  {
    seq(c.rowPtr[i + 1] - c.rowPtr[i], k requires 0 <= k < c.rowPtr[i + 1] - c.rowPtr[i] =>
      (c.colIdx[c.rowPtr[i] + k], c.values[c.rowPtr[i] + k]))
  }

  /** Column indices strictly increase along the sequence (so no column repeats). */
  predicate SortedCols(es: seq<Entry>)
  {
    forall p, q :: 0 <= p < q < |es| ==> es[p].0 < es[q].0
  }

  /**
   * The representation invariant of an assembled AIJ matrix: well-formed row pointers,
   * column indices inside the matrix, and strictly increasing columns within each row.
   */
  predicate ValidCsr(c: Csr)
  {
    && Structured(c)
    && (forall k :: 0 <= k < |c.colIdx| ==> c.colIdx[k] < c.cols)
    && (forall i :: 0 <= i < c.rows ==> SortedCols(RowSlice(c, i)))
  }

  /** No stored entry is an explicit zero. */
  predicate NoStoredZeros(c: Csr)
  {
    forall k :: 0 <= k < |c.values| ==> c.values[k] != 0.0
  }

  /** The value stored for column `j`, or 0 if the entries store none. */
  function Lookup(es: seq<Entry>, j: nat): real
  {
    if |es| == 0 then 0.0 else if es[0].0 == j then es[0].1 else Lookup(es[1..], j)
  }

  lemma {:induction false} LookupAt(es: seq<Entry>, p: nat)
    requires SortedCols(es) && p < |es|
    ensures Lookup(es, es[p].0) == es[p].1
  {
    if p > 0 {
      assert es[0].0 < es[p].0;
      assert es[1..][p - 1] == es[p];
      LookupAt(es[1..], p - 1);
    }
  }

  lemma {:induction false} LookupMissing(es: seq<Entry>, j: nat)
    requires forall p :: 0 <= p < |es| ==> es[p].0 != j
    ensures Lookup(es, j) == 0.0
  {
    if |es| > 0 {
      LookupMissing(es[1..], j);
    }
  }

  /** `sparse_csr_tensor(rowPtr, colIdx, values, size).to_dense()` */
  function CsrToDense(c: Csr): (d: Matrix)
    requires ValidCsr(c)
    ensures IsShape(d, c.rows, c.cols)
  {
    seq(c.rows, i requires 0 <= i < c.rows => seq(c.cols, j requires 0 <= j < c.cols => Lookup(RowSlice(c, i), j)))
  }

  /** A stored entry of row `i` is found at its place in the dense matrix. */
  lemma CsrToDenseFound(c: Csr, i: nat, k: nat)
    requires ValidCsr(c) && i < c.rows && c.rowPtr[i] <= k < c.rowPtr[i + 1]
    ensures c.colIdx[k] < c.cols && CsrToDense(c)[i][c.colIdx[k]] == c.values[k]
  {
    var es := RowSlice(c, i);
    assert es[k - c.rowPtr[i]] == (c.colIdx[k], c.values[k]);
    LookupAt(es, k - c.rowPtr[i]);
  }

  /** A position that row `i` stores nothing for is 0 in the dense matrix. */
  lemma CsrToDenseAbsent(c: Csr, i: nat, j: nat)
    requires ValidCsr(c) && i < c.rows && j < c.cols
    requires forall k :: c.rowPtr[i] <= k < c.rowPtr[i + 1] ==> c.colIdx[k] != j
    ensures CsrToDense(c)[i][j] == 0.0
  {
    var es := RowSlice(c, i);
    forall p | 0 <= p < |es|
      ensures es[p].0 != j
    {
      assert es[p].0 == c.colIdx[c.rowPtr[i] + p];
    }
    LookupMissing(es, j);
  }

  // ---------------------------------------------------------------------------------
  // Dense to CSR
  // ---------------------------------------------------------------------------------

  /** The non-zero elements of `row` from column `from` on, left to right. */
  function Nonzeros(row: seq<real>, from: nat): (es: seq<Entry>)
    requires from <= |row|
    ensures forall q :: 0 <= q < |es| ==> from <= es[q].0 < |row| && es[q].1 == row[es[q].0] && es[q].1 != 0.0
    ensures SortedCols(es)
    decreases |row| - from
  {
    if from == |row| then []
    else if row[from] != 0.0 then [(from, row[from])] + Nonzeros(row, from + 1)
    else Nonzeros(row, from + 1)
  }

  /** Looking a column up among the non-zeros gives back the element of the row. */
  lemma {:induction false} LookupNonzeros(row: seq<real>, from: nat, j: nat)
    requires from <= |row|
    ensures Lookup(Nonzeros(row, from), j) == if from <= j < |row| then row[j] else 0.0
    decreases |row| - from
  {
    if from < |row| {
      LookupNonzeros(row, from + 1, j);
      if row[from] != 0.0 {
        LookupCons((from, row[from]), Nonzeros(row, from + 1), j);
      }
    }
  }

  /** Looking a column up in a list with a head entry in front. */
  lemma LookupCons(h: Entry, rest: seq<Entry>, j: nat)
    ensures Lookup([h] + rest, j) == if h.0 == j then h.1 else Lookup(rest, j)
  {
    assert ([h] + rest)[1..] == rest;
  }

  /** The entries of the first `n` rows, row after row. */
  function Entries(a: Matrix, n: nat): seq<Entry>
    requires n <= |a|
  {
    if n == 0 then [] else Entries(a, n - 1) + Nonzeros(a[n - 1], 0)
  }

  /** `a.to_sparse_csr()`: the non-zero elements in row-major order. */
  function DenseToCsr(a: Matrix): (c: Csr)
    ensures c.rows == |a| && c.cols == Width(a)
  {
    var e := Entries(a, |a|);
    Csr(|a|, Width(a),
        seq(|a| + 1, i requires 0 <= i <= |a| => |Entries(a, i)|),
        seq(|e|, k requires 0 <= k < |e| => e[k].0),
        seq(|e|, k requires 0 <= k < |e| => e[k].1))
  }

  lemma {:induction false} EntriesPrefix(a: Matrix, i: nat, n: nat)
    requires i <= n <= |a|
    ensures |Entries(a, i)| <= |Entries(a, n)| && Entries(a, n)[..|Entries(a, i)|] == Entries(a, i)
    decreases n
  {
    if i < n {
      EntriesPrefix(a, i, n - 1);
      assert Entries(a, n) == Entries(a, n - 1) + Nonzeros(a[n - 1], 0);
    }
  }

  /** Every entry produced lies inside the matrix and is non-zero. */
  lemma {:induction false} EntriesInside(a: Matrix, n: nat)
    requires IsShape(a, |a|, Width(a)) && n <= |a|
    ensures forall q :: 0 <= q < |Entries(a, n)| ==> Entries(a, n)[q].0 < Width(a) && Entries(a, n)[q].1 != 0.0
  {
    if n > 0 {
      EntriesInside(a, n - 1);
      assert |a[n - 1]| == Width(a);
    }
  }

  lemma DenseToCsrStructured(a: Matrix)
    ensures Structured(DenseToCsr(a))
  {
    var c := DenseToCsr(a);
    forall i, i' | 0 <= i <= i' <= c.rows
      ensures c.rowPtr[i] <= c.rowPtr[i']
    {
      EntriesPrefix(a, i, i');
    }
  }

  /** The stored entries of the CSR form are the row-major list of non-zeros. */
  lemma DenseAllEntries(a: Matrix)
    ensures |DenseToCsr(a).colIdx| == |DenseToCsr(a).values|
    ensures AllEntries(DenseToCsr(a)) == Entries(a, |a|)
  {
    var c, e := DenseToCsr(a), Entries(a, |a|);
    forall k | 0 <= k < |e|
      ensures AllEntries(c)[k] == e[k]
    {
    }
  }

  /** The row pointer of row `i` counts the non-zeros of the rows before it. */
  lemma DenseRowPtr(a: Matrix, i: nat)
    requires i <= |a|
    ensures |DenseToCsr(a).rowPtr| == |a| + 1 && DenseToCsr(a).rowPtr[i] == |Entries(a, i)|
  {
  }

  /** Row `i` is the slice `rowPtr[i] .. rowPtr[i + 1]` of all stored entries. */
  lemma RowSliceOfAll(c: Csr, i: nat)
    requires Structured(c) && i < c.rows
    ensures c.rowPtr[i] <= c.rowPtr[i + 1] <= |AllEntries(c)|
    ensures RowSlice(c, i) == AllEntries(c)[c.rowPtr[i]..c.rowPtr[i + 1]]
  {
    assert c.rowPtr[i + 1] <= c.rowPtr[c.rows];
  }

  /** The entries of row `i` occupy `|Entries(a, i)| .. |Entries(a, i + 1)|` of the row-major list. */
  lemma EntriesRow(a: Matrix, i: nat)
    requires i < |a|
    ensures |Entries(a, i)| + |Nonzeros(a[i], 0)| == |Entries(a, i + 1)| <= |Entries(a, |a|)|
    ensures Entries(a, |a|)[|Entries(a, i)|..|Entries(a, i + 1)|] == Nonzeros(a[i], 0)
  {
    EntriesPrefix(a, i + 1, |a|);
    var e1 := Entries(a, i + 1);
    assert e1 == Entries(a, i) + Nonzeros(a[i], 0);
    assert Entries(a, |a|)[..|e1|] == e1;
    assert e1[|Entries(a, i)|..] == Nonzeros(a[i], 0);
  }

  /** Row `i` of the CSR form holds exactly the non-zeros of row `i` of the dense matrix. */
  lemma DenseRowSlice(a: Matrix, i: nat)
    requires i < |a|
    ensures Structured(DenseToCsr(a))
    ensures RowSlice(DenseToCsr(a), i) == Nonzeros(a[i], 0)
  {
    DenseLayout(a, i);
    RowSliceOfEntries(DenseToCsr(a), a, i);
  }

  /** The CSR form of `a` is laid out by `Entries`: its pointers around row `i` and its entries. */
  lemma DenseLayout(a: Matrix, i: nat)
    requires i < |a|
    ensures var c := DenseToCsr(a);
      && Structured(c) && c.rows == |a|
      && c.rowPtr[i] == |Entries(a, i)| && c.rowPtr[i + 1] == |Entries(a, i + 1)|
      && AllEntries(c) == Entries(a, |a|)
  {
    var j := i + 1;
    DenseToCsrStructured(a);
    DenseRowPtr(a, i);
    DenseRowPtr(a, j);
    DenseAllEntries(a);
  }

  /** A CSR matrix whose row pointers and entries are those of `Entries(a, _)` has `a`'s rows. */
  lemma RowSliceOfEntries(c: Csr, a: Matrix, i: nat)
    requires i < |a| && Structured(c) && c.rows == |a|
    requires c.rowPtr[i] == |Entries(a, i)| && c.rowPtr[i + 1] == |Entries(a, i + 1)|
    requires AllEntries(c) == Entries(a, |a|)
    ensures RowSlice(c, i) == Nonzeros(a[i], 0)
  {
    EntriesRow(a, i);
    RowSliceOfAll(c, i);
  }

  /** `to_sparse_csr` yields a valid CSR matrix that stores no zero. */
  lemma DenseToCsrValid(a: Matrix)
    requires IsShape(a, |a|, Width(a))
    ensures ValidCsr(DenseToCsr(a)) && NoStoredZeros(DenseToCsr(a))
  {
    DenseToCsrStructured(a);
    EntriesInside(a, |a|);
    var c := DenseToCsr(a);
    forall i | 0 <= i < c.rows
      ensures SortedCols(RowSlice(c, i))
    {
      DenseRowSlice(a, i);
    }
  }

  /** Dense to CSR and back is the identity. */
  lemma DenseRoundTrip(a: Matrix)
    requires IsShape(a, |a|, Width(a))
    ensures ValidCsr(DenseToCsr(a)) && CsrToDense(DenseToCsr(a)) == a
  {
    DenseToCsrValid(a);
    var d := CsrToDense(DenseToCsr(a));
    forall i | 0 <= i < |a|
      ensures d[i] == a[i]
    {
      DenseRowSlice(a, i);
      forall j | 0 <= j < |a[i]|
        ensures d[i][j] == a[i][j]
      {
        LookupNonzeros(a[i], 0, j);
      }
    }
  }

  // ---------------------------------------------------------------------------------
  // CSR to dense to CSR
  // ---------------------------------------------------------------------------------

  /** Strictly increasing columns inside `[lo, hi)` number at most `hi - lo`. */
  lemma {:induction false} SortedLength(es: seq<Entry>, lo: int, hi: int)
    requires SortedCols(es)
    requires forall q :: 0 <= q < |es| ==> lo <= es[q].0 < hi
    ensures |es| <= if lo <= hi then hi - lo else 0
  {
    if |es| > 0 {
      var rest := es[1..];
      forall q | 0 <= q < |rest|
        ensures es[0].0 + 1 <= rest[q].0 < hi
      {
        assert rest[q] == es[q + 1];
      }
      SortedLength(rest, es[0].0 + 1, hi);
    }
  }

  /** A sorted, zero-free list of entries that reads back as `row` is its list of non-zeros. */
  lemma {:induction false} NonzerosUnique(row: seq<real>, from: nat, es: seq<Entry>)
    requires from <= |row| && SortedCols(es)
    requires forall q :: 0 <= q < |es| ==> from <= es[q].0 < |row| && es[q].1 != 0.0
    requires forall j :: from <= j < |row| ==> row[j] == Lookup(es, j)
    ensures Nonzeros(row, from) == es
    decreases |row| - from
  {
    if from == |row| {
      SortedLength(es, from, |row|);
    } else if |es| > 0 && es[0].0 == from {
      TakeHead(row, from, es);
      var next, rest := from + 1, es[1..];
      assert Nonzeros(row, next) == rest by {
        NonzerosUnique(row, next, rest);
      }
      NonzerosHead(row, from, es);
    } else {
      SkipColumn(row, from, es);
      var next := from + 1;
      assert Nonzeros(row, next) == es by {
        NonzerosUnique(row, next, es);
      }
      NonzerosSkip(row, from, es);
    }
  }

  /** When the first entry is at column `from`, the other entries read back as the rest of the row. */
  lemma TakeHead(row: seq<real>, from: nat, es: seq<Entry>)
    requires from < |row| && SortedCols(es) && |es| > 0 && es[0].0 == from
    requires forall q :: 0 <= q < |es| ==> from <= es[q].0 < |row| && es[q].1 != 0.0
    requires forall j :: from <= j < |row| ==> row[j] == Lookup(es, j)
    ensures row[from] == es[0].1 != 0.0 && SortedCols(es[1..])
    ensures forall q :: 0 <= q < |es[1..]| ==> from + 1 <= es[1..][q].0 < |row| && es[1..][q].1 != 0.0
    ensures forall j :: from + 1 <= j < |row| ==> row[j] == Lookup(es[1..], j)
  {
    var rest := es[1..];
    forall q | 0 <= q < |rest|
      ensures from + 1 <= rest[q].0 < |row| && rest[q].1 != 0.0
    {
      assert rest[q] == es[q + 1];
    }
    assert row[from] == Lookup(es, from);
  }

  /** A non-zero at column `from` goes in front of the non-zeros after it. */
  lemma NonzerosHead(row: seq<real>, from: nat, es: seq<Entry>)
    requires from < |row| && |es| > 0 && es[0] == (from, row[from]) && row[from] != 0.0
    requires Nonzeros(row, from + 1) == es[1..]
    ensures Nonzeros(row, from) == es
  {
    assert es == [es[0]] + es[1..];
  }

  /** A zero at column `from` adds nothing to the non-zeros after it. */
  lemma NonzerosSkip(row: seq<real>, from: nat, es: seq<Entry>)
    requires from < |row| && row[from] == 0.0 && Nonzeros(row, from + 1) == es
    ensures Nonzeros(row, from) == es
  {
  }

  /** When no entry is at column `from`, that element is zero and the entries start after it. */
  lemma SkipColumn(row: seq<real>, from: nat, es: seq<Entry>)
    requires from < |row| && SortedCols(es) && !(|es| > 0 && es[0].0 == from)
    requires forall q :: 0 <= q < |es| ==> from <= es[q].0 < |row| && es[q].1 != 0.0
    requires forall j :: from <= j < |row| ==> row[j] == Lookup(es, j)
    ensures row[from] == 0.0
    ensures forall q :: 0 <= q < |es| ==> from + 1 <= es[q].0
  {
    forall q | 0 <= q < |es|
      ensures from + 1 <= es[q].0
    {
      if q > 0 {
        assert es[0].0 < es[q].0;
      }
    }
    LookupMissing(es, from);
  }

  /** All stored entries as (column, value) pairs, in storage order. */
  function AllEntries(c: Csr): (es: seq<Entry>)
    requires |c.colIdx| == |c.values|
    ensures |es| == |c.colIdx|
  {
    seq(|c.colIdx|, k requires 0 <= k < |c.colIdx| => (c.colIdx[k], c.values[k]))
  }

  /** Row `i` of the dense matrix re-compresses to the entries row `i` stores. */
  lemma DenseRowEntries(c: Csr, i: nat)
    requires ValidCsr(c) && NoStoredZeros(c) && i < c.rows
    ensures Nonzeros(CsrToDense(c)[i], 0) == RowSlice(c, i)
  {
    var d := CsrToDense(c);
    var es := RowSlice(c, i);
    assert c.rowPtr[i + 1] <= c.rowPtr[c.rows];
    forall q | 0 <= q < |es|
      ensures 0 <= es[q].0 < |d[i]| && es[q].1 != 0.0
    {
      assert es[q].0 == c.colIdx[c.rowPtr[i] + q];
    }
    NonzerosUnique(d[i], 0, es);
  }

  lemma AllEntriesSplit(c: Csr, i: nat)
    requires Structured(c) && i < c.rows
    ensures c.rowPtr[i] <= c.rowPtr[i + 1] <= |AllEntries(c)|
    ensures AllEntries(c)[..c.rowPtr[i + 1]] == AllEntries(c)[..c.rowPtr[i]] + RowSlice(c, i)
  {
    assert c.rowPtr[i + 1] <= c.rowPtr[c.rows];
  }

  /** The rows of the dense matrix re-compress to the stored entries of the first `n` rows. */
  lemma EntriesOfDense(c: Csr, n: nat)
    requires ValidCsr(c) && NoStoredZeros(c) && n <= c.rows
    ensures Entries(CsrToDense(c), n) == AllEntries(c)[..c.rowPtr[n]]
  {
    var d := CsrToDense(c);
    forall i | 0 <= i < c.rows
      ensures Nonzeros(d[i], 0) == RowSlice(c, i)
    {
      DenseRowEntries(c, i);
    }
    EntriesOfRows(c, d, n);
  }

  /** Rows that re-compress one by one to the rows of `c` re-compress together to its entries. */
  lemma {:induction false} EntriesOfRows(c: Csr, d: Matrix, n: nat)
    requires Structured(c) && |d| == c.rows && n <= c.rows
    requires forall i :: 0 <= i < c.rows ==> Nonzeros(d[i], 0) == RowSlice(c, i)
    ensures Entries(d, n) == AllEntries(c)[..c.rowPtr[n]]
  {
    if n > 0 {
      var all, m := AllEntries(c), n - 1;
      var lo, hi := c.rowPtr[m], c.rowPtr[n];
      assert lo <= hi <= |all| && all[..hi] == all[..lo] + RowSlice(c, m) by {
        AllEntriesSplit(c, m);
      }
      EntriesOfRows(c, d, m);
      EntriesStep(d, n);
    }
  }

  lemma EntriesStep(a: Matrix, n: nat)
    requires 0 < n <= |a|
    ensures Entries(a, n) == Entries(a, n - 1) + Nonzeros(a[n - 1], 0)
  {
  }

  /**
   * A valid CSR matrix without stored zeros survives the trip to dense and back
   * unchanged (with at least one row, so that the dense form keeps the column count).
   */
  lemma CsrRoundTrip(c: Csr)
    requires ValidCsr(c) && NoStoredZeros(c) && c.rows > 0
    ensures DenseToCsr(CsrToDense(c)) == c
  {
    CsrRoundTripRowPtr(c);
    CsrRoundTripEntries(c);
  }

  lemma CsrRoundTripRowPtr(c: Csr)
    requires ValidCsr(c) && NoStoredZeros(c)
    ensures DenseToCsr(CsrToDense(c)).rowPtr == c.rowPtr
  {
    var r := DenseToCsr(CsrToDense(c));
    forall i | 0 <= i <= c.rows
      ensures r.rowPtr[i] == c.rowPtr[i]
    {
      EntriesOfDense(c, i);
      assert c.rowPtr[i] <= c.rowPtr[c.rows];
    }
  }

  lemma CsrRoundTripEntries(c: Csr)
    requires ValidCsr(c) && NoStoredZeros(c)
    ensures DenseToCsr(CsrToDense(c)).colIdx == c.colIdx
    ensures DenseToCsr(CsrToDense(c)).values == c.values
  {
    var d := CsrToDense(c);
    EntriesOfDense(c, c.rows);
    DenseAllEntries(d);
    assert AllEntries(c)[..c.rowPtr[c.rows]] == AllEntries(c);
    SameEntries(DenseToCsr(d), c);
  }

  /** Two entry arrays with the same (column, value) pairs are the same arrays. */
  lemma SameEntries(r: Csr, c: Csr)
    requires |r.colIdx| == |r.values| && |c.colIdx| == |c.values| && AllEntries(r) == AllEntries(c)
    ensures r.colIdx == c.colIdx && r.values == c.values
  {
    forall k | 0 <= k < |c.colIdx|
      ensures r.colIdx[k] == c.colIdx[k] && r.values[k] == c.values[k]
    {
      assert AllEntries(r)[k] == AllEntries(c)[k];
    }
  }

  // ---------------------------------------------------------------------------------
  // The sparse matrix object
  // ---------------------------------------------------------------------------------

  /**
   * A sparse AIJ matrix built in place: created empty with a size and a number of
   * non-zeros to preallocate, filled from CSR arrays, then assembled.
   */
  class AijMatrix {
    var rows: nat
    var cols: nat
    var nnz: nat
    var rowPtr: seq<nat>
    var colIdx: seq<nat>
    var values: seq<real>
    var assembled: bool

    /** `Mat().createAIJ(size=(rows, cols), nnz=nnz)`: an empty matrix. */
    constructor CreateAij(rows: nat, cols: nat, nnz: nat)
      ensures this.rows == rows && this.cols == cols && this.nnz == nnz
      ensures rowPtr == seq(rows + 1, _ => 0) && colIdx == [] && values == []
      ensures !assembled
    {
      this.rows := rows;
      this.cols := cols;
      this.nnz := nnz;
      rowPtr := seq(rows + 1, _ => 0);
      colIdx := [];
      values := [];
      assembled := false;
    }

    /** The matrix as a CSR triple. */
    function Contents(): Csr
      reads this
    {
      Csr(rows, cols, rowPtr, colIdx, values)
    }

    /** `setValuesCSR(I, J, V)` on a matrix that holds no entries yet. */
    method SetValuesCsr(rp: seq<nat>, ci: seq<nat>, vs: seq<real>)
      requires colIdx == [] && ValidCsr(Csr(rows, cols, rp, ci, vs))
      modifies this
      ensures Contents() == Csr(old(rows), old(cols), rp, ci, vs)
      ensures nnz == old(nnz) && assembled == old(assembled)
    {
      rowPtr, colIdx, values := rp, ci, vs;
    }

    method Assemble()
      modifies this
      ensures assembled && Contents() == old(Contents()) && nnz == old(nnz)
    {
      assembled := true;
    }
  }

  // ---------------------------------------------------------------------------------
  // Tasks
  // ---------------------------------------------------------------------------------

  /** The parameters a task was generated from; carried along, never interpreted. */
  datatype TaskParams = TaskParams(fields: seq<(string, real)>)

  /** A linear system `a x = b` with dense tensors, tolerance and iteration cap. */
  datatype TorchTask = TorchTask(params: Option<TaskParams>, a: Matrix, b: seq<real>,
                                 x: Option<seq<real>>, rtol: real, maxiter: int)

  /** The same system with a sparse matrix and plain scalars. */
  datatype PetscTask = PetscTask(params: Option<TaskParams>, a: Csr, b: seq<real>,
                                 x: Option<seq<real>>, rtol: real, maxiter: int)

  /** Raised when `None` is passed where a tensor or a vector was expected. */
  datatype EqError = NoneOperand

  function Abs(r: real): real
  {
    if r < 0.0 then -r else r
  }

  /** `np.isclose(p, q)` with its default tolerances `rtol = 1e-5`, `atol = 1e-8`. */
  predicate IsClose(p: real, q: real)
  {
    Abs(p - q) <= 0.00000001 + 0.00001 * Abs(q)
  }

  /**
   * `Mat.equal` on assembled AIJ matrices: the same size and the same storage, that is the same
   * row pointers (so the same number of stored entries), column indices and values. A stored
   * zero therefore makes two matrices with the same values unequal.
   */
  predicate MatEqual(m: Csr, n: Csr)
  {
    && m.rows == n.rows && m.cols == n.cols
    && m.rowPtr == n.rowPtr && m.colIdx == n.colIdx && m.values == n.values
  }

  /** Equality of dense tasks: every field but `params`, with absent ground truths equal. */
  predicate TorchEq(s: TorchTask, o: TorchTask)
  {
    s.a == o.a && s.b == o.b && s.x == o.x && s.rtol == o.rtol && s.maxiter == o.maxiter
  }

  /** Equality of sparse tasks: `rtol` up to `IsClose`, `params` not compared. */
  predicate PetscEq(s: PetscTask, o: PetscTask)
  {
    MatEqual(s.a, o.a) && s.b == o.b && s.x == o.x && IsClose(s.rtol, o.rtol) && s.maxiter == o.maxiter
  }

  /**
   * `PyTorchLinearSystemTask.__eq__` as written: the conjunction is evaluated left to
   * right, and a ground truth present on one side only reaches `torch.equal` with `None`.
   */
  function TorchEqAsWritten(s: TorchTask, o: TorchTask): (r: Result<bool, EqError>)
    ensures r.Err? <==> s.a == o.a && s.b == o.b && s.x.None? != o.x.None?
    ensures r.Ok? ==> (r.value <==> TorchEq(s, o))
  {
    if s.a != o.a || s.b != o.b then Ok(false)
    else if s.x.None? && o.x.None? then Ok(s.rtol == o.rtol && s.maxiter == o.maxiter)
    else if s.x.None? || o.x.None? then Err(NoneOperand)
    else Ok(s.x.value == o.x.value && s.rtol == o.rtol && s.maxiter == o.maxiter)
  }

  /** `PETScLinearSystemTask.__eq__` as written, with the same mixed-`None` failure. */
  function PetscEqAsWritten(s: PetscTask, o: PetscTask): (r: Result<bool, EqError>)
    ensures r.Err? <==> MatEqual(s.a, o.a) && s.b == o.b && s.x.None? != o.x.None?
    ensures r.Ok? ==> (r.value <==> PetscEq(s, o))
  {
    if !MatEqual(s.a, o.a) || s.b != o.b then Ok(false)
    else if s.x.None? && o.x.None? then Ok(IsClose(s.rtol, o.rtol) && s.maxiter == o.maxiter)
    else if s.x.None? || o.x.None? then Err(NoneOperand)
    else Ok(s.x.value == o.x.value && IsClose(s.rtol, o.rtol) && s.maxiter == o.maxiter)
  }

  /** `petsc2torch`: the dense matrix of the same size; every other field is carried over. */
  function Petsc2Torch(p: PetscTask): (t: TorchTask)
    requires ValidCsr(p.a)
    ensures IsShape(t.a, p.a.rows, p.a.cols)
    ensures t.params == p.params && t.b == p.b && t.x == p.x
    ensures t.rtol == p.rtol && t.maxiter == p.maxiter
  {
    TorchTask(p.params, CsrToDense(p.a), p.b, p.x, p.rtol, p.maxiter)
  }

  /** The task `torch2petsc` builds: `params` is not passed on. */
  function SparseOf(t: TorchTask): (p: PetscTask)
    requires IsShape(t.a, |t.a|, Width(t.a))
    ensures ValidCsr(p.a) && NoStoredZeros(p.a)
    ensures p.params.None? && p.b == t.b && p.x == t.x && p.rtol == t.rtol && p.maxiter == t.maxiter
  {
    DenseToCsrValid(t.a);
    PetscTask(None, DenseToCsr(t.a), t.b, t.x, t.rtol, t.maxiter)
  }

  /** `torch2petsc`: compress the dense matrix, fill a fresh AIJ matrix with it, assemble it. */
  method Torch2Petsc(t: TorchTask) returns (p: PetscTask)
    requires IsShape(t.a, |t.a|, Width(t.a))
    ensures p == SparseOf(t)
  {
    var sp := DenseToCsr(t.a);
    DenseToCsrValid(t.a);
    var m := new AijMatrix.CreateAij(sp.rows, sp.cols, |sp.values|);
    m.SetValuesCsr(sp.rowPtr, sp.colIdx, sp.values);
    m.Assemble();
    p := PetscTask(None, m.Contents(), t.b, t.x, t.rtol, t.maxiter);
  }

  // ---------------------------------------------------------------------------------
  // Properties of equality and conversion
  // ---------------------------------------------------------------------------------

  /** Dense-task equality is an equivalence that never looks at `params`. */
  lemma TorchEqEquivalence(s: TorchTask, o: TorchTask, u: TorchTask, ps: Option<TaskParams>)
    ensures TorchEq(s, s)
    ensures TorchEq(s, o) ==> TorchEq(o, s)
    ensures TorchEq(s, o) && TorchEq(o, u) ==> TorchEq(s, u)
    ensures TorchEq(s, o) <==> TorchEq(s.(params := ps), o)
  {
  }

  /** Sparse-task equality is reflexive and ignores `params`. */
  lemma PetscEqIgnoresParams(s: PetscTask, o: PetscTask, ps: Option<TaskParams>)
    ensures PetscEq(s, s)
    ensures PetscEq(s, o) <==> PetscEq(s.(params := ps), o)
  {
    assert Abs(s.rtol - s.rtol) == 0.0;
  }

  /**
   * `Mat.equal` is finer than equality of values: equal matrices hold the same values, and
   * matrices that store no zero and hold the same values are equal.
   */
  lemma MatEqualValues(m: Csr, n: Csr)
    requires ValidCsr(m) && ValidCsr(n)
    ensures MatEqual(m, n) ==> CsrToDense(m) == CsrToDense(n)
    ensures m.rows > 0 && NoStoredZeros(m) && NoStoredZeros(n) && CsrToDense(m) == CsrToDense(n)
            ==> MatEqual(m, n)
  {
    if m.rows > 0 && NoStoredZeros(m) && NoStoredZeros(n) && CsrToDense(m) == CsrToDense(n) {
      CsrRoundTrip(m);
      CsrRoundTrip(n);
    }
  }

  /** The 1×1 matrix storing an explicit `0`. */
  function StoredZero(): Csr
  {
    Csr(1, 1, [0, 1], [0], [0.0])
  }

  /** The 1×1 matrix storing nothing. */
  function NoneStored(): Csr
  {
    Csr(1, 1, [0, 0], [], [])
  }

  lemma StoredZeroValid()
    ensures ValidCsr(StoredZero()) && ValidCsr(NoneStored())
  {
    assert RowSlice(StoredZero(), 0) == [(0, 0.0)];
    assert RowSlice(NoneStored(), 0) == [];
  }

  lemma StoredZeroDense()
    ensures ValidCsr(StoredZero()) && ValidCsr(NoneStored())
    ensures CsrToDense(StoredZero()) == [[0.0]] && CsrToDense(NoneStored()) == [[0.0]]
  {
    StoredZeroValid();
    var dz, de := CsrToDense(StoredZero()), CsrToDense(NoneStored());
    assert RowSlice(StoredZero(), 0) == [(0, 0.0)];
    assert RowSlice(NoneStored(), 0) == [];
    assert dz[0][0] == Lookup([(0, 0.0)], 0) == 0.0;
    assert de[0][0] == Lookup([], 0) == 0.0;
    assert dz[0] == [0.0] == de[0];
  }

  /** A stored zero: the two 1×1 matrices hold the same value, yet `Mat.equal` tells them apart. */
  lemma StoredZeroUnequal()
    ensures ValidCsr(StoredZero()) && ValidCsr(NoneStored())
    ensures CsrToDense(StoredZero()) == CsrToDense(NoneStored()) == [[0.0]]
    ensures !MatEqual(StoredZero(), NoneStored())
  {
    StoredZeroDense();
  }

  /**
   * `np.isclose` holds of a value and itself, of values within the absolute tolerance `1e-8`,
   * and of values within the relative tolerance `1e-5` of the second one.
   */
  lemma IsCloseTolerances(p: real, q: real)
    ensures IsClose(p, p)
    ensures Abs(p - q) <= 0.00000001 ==> IsClose(p, q)
    ensures Abs(p - q) <= 0.00001 * Abs(q) ==> IsClose(p, q)
  {
    assert Abs(q) >= 0.0;
  }

  /** `np.isclose` is not symmetric: it scales the tolerance by its second argument only. */
  lemma IsCloseAsymmetric()
    ensures IsClose(0.0, 0.00000001000005) && !IsClose(0.00000001000005, 0.0)
  {
  }

  /** A dense task survives `torch2petsc` then `petsc2torch`, losing only its `params`. */
  lemma TorchRoundTrip(t: TorchTask)
    requires IsShape(t.a, |t.a|, Width(t.a))
    ensures Petsc2Torch(SparseOf(t)) == t.(params := None)
    ensures TorchEq(Petsc2Torch(SparseOf(t)), t)
  {
    DenseRoundTrip(t.a);
  }

  /**
   * `petsc2torch` then `torch2petsc` keeps the values of a sparse task's matrix; the task
   * comes back equal (and, but for `params`, identical) exactly when it stores no explicit zero.
   */
  lemma PetscRoundTrip(p: PetscTask)
    requires ValidCsr(p.a) && p.a.rows > 0
    ensures CsrToDense(SparseOf(Petsc2Torch(p)).a) == CsrToDense(p.a)
    ensures PetscEq(SparseOf(Petsc2Torch(p)), p) <==> NoStoredZeros(p.a)
    ensures NoStoredZeros(p.a) ==> SparseOf(Petsc2Torch(p)) == p.(params := None)
  {
    PetscRoundTripValues(p);
    var q := SparseOf(Petsc2Torch(p));
    assert Abs(p.rtol - p.rtol) == 0.0;
    if NoStoredZeros(p.a) {
      PetscRoundTripExact(p);
    }
  }

  lemma PetscRoundTripValues(p: PetscTask)
    requires ValidCsr(p.a) && p.a.rows > 0
    ensures CsrToDense(SparseOf(Petsc2Torch(p)).a) == CsrToDense(p.a)
  {
    var d := Petsc2Torch(p).a;
    DenseRoundTrip(d);
    assert Width(d) == p.a.cols;
    var q := SparseOf(Petsc2Torch(p));
    assert q.a == DenseToCsr(d);
    assert CsrToDense(q.a) == CsrToDense(p.a);
  }

  lemma PetscRoundTripExact(p: PetscTask)
    requires ValidCsr(p.a) && NoStoredZeros(p.a) && p.a.rows > 0
    ensures SparseOf(Petsc2Torch(p)) == p.(params := None)
  {
    CsrRoundTrip(p.a);
  }

  // ---------------------------------------------------------------------------------
  // The diagonal system diag(1, 2, 3) x = [1, 2, 3]
  // ---------------------------------------------------------------------------------

  function DiagCsr(): Csr
  {
    Csr(3, 3, [0, 1, 2, 3], [0, 1, 2], [1.0, 2.0, 3.0])
  }

  function DiagDense(): Matrix
  {
    [[1.0, 0.0, 0.0], [0.0, 2.0, 0.0], [0.0, 0.0, 3.0]]
  }

  function SparseFixture(): PetscTask
  {
    PetscTask(None, DiagCsr(), [1.0, 2.0, 3.0], None, 0.000001, 100)
  }

  function DenseFixture(): TorchTask
  {
    TorchTask(None, DiagDense(), [1.0, 2.0, 3.0], None, 0.000001, 100)
  }

  lemma DiagCsrValid()
    ensures ValidCsr(DiagCsr()) && NoStoredZeros(DiagCsr())
  {
    var c := DiagCsr();
    forall i | 0 <= i < 3
      ensures SortedCols(RowSlice(c, i))
    {
      assert |RowSlice(c, i)| == 1;
    }
  }

  lemma DiagDenseOfCsr()
    ensures ValidCsr(DiagCsr()) && CsrToDense(DiagCsr()) == DiagDense()
  {
    DiagCsrValid();
    var c, d := DiagCsr(), CsrToDense(DiagCsr());
    forall i | 0 <= i < 3
      ensures d[i] == DiagDense()[i]
    {
      assert RowSlice(c, i) == [(i, c.values[i])];
      forall j | 0 <= j < 3
        ensures d[i][j] == DiagDense()[i][j]
      {
        assert d[i][j] == Lookup([(i, c.values[i])], j);
        if i == j {
          LookupAt([(i, c.values[i])], 0);
        } else {
          LookupMissing([(i, c.values[i])], j);
        }
        assert DiagDense()[i][j] == if i == j then c.values[i] else 0.0;
      }
    }
  }

  /** `petsc2torch` on the sparse fixture gives a task equal to the dense fixture. */
  lemma FixturePetsc2Torch()
    ensures ValidCsr(SparseFixture().a)
    ensures TorchEqAsWritten(DenseFixture(), Petsc2Torch(SparseFixture())) == Ok(true)
  {
    DiagDenseOfCsr();
  }

  /** `torch2petsc` on the dense fixture rebuilds exactly the sparse fixture's matrix. */
  lemma FixtureTorch2Petsc()
    ensures IsShape(DiagDense(), 3, 3)
    ensures SparseOf(DenseFixture()).a == DiagCsr()
    ensures PetscEqAsWritten(SparseFixture(), SparseOf(DenseFixture())) == Ok(true)
  {
    DiagDenseOfCsr();
    DiagCsrValid();
    CsrRoundTrip(DiagCsr());
  }

  /** With a ground truth on one side only, `__eq__` as written raises instead of answering. */
  lemma EqAsWrittenRaisesOnOneSidedTruth()
    ensures ValidCsr(SparseFixture().a)
    ensures TorchEqAsWritten(DenseFixture(), DenseFixture().(x := Some([1.0, 1.0, 1.0]))) == Err(NoneOperand)
    ensures PetscEqAsWritten(SparseFixture().(x := Some([1.0, 1.0, 1.0])), SparseFixture()) == Err(NoneOperand)
    ensures !TorchEq(DenseFixture(), DenseFixture().(x := Some([1.0, 1.0, 1.0])))
    ensures !PetscEq(SparseFixture().(x := Some([1.0, 1.0, 1.0])), SparseFixture())
  {
    DiagCsrValid();
  }
}
