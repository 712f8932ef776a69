/**
 * `ThetaConstructor`: cuts the flat encoding `theta` (`[bs, enc_dim]`) into the named, shaped
 * solver parameters. Parameter after parameter, in the order of `params`, it reads the next
 * `w` columns (`w` is the encoder's `enc_dim` when the parameter has an encoder/decoder, the
 * number of elements of its shape otherwise), decodes them when there is a decoder, reshapes
 * them to `(-1, *shape)`, and finally stores the whole of `theta` under `"enc"`.
 */
module Constructors {
  import opened Wrappers
  import opened Tensors

  /** An instantiated encoder/decoder: how many columns it reads and its `decode` map. */
  datatype EncDec = EncDec(encDim: nat, decode: Matrix -> Tensor)

  /** The configuration of one parameter: its shape and, optionally, an encoder/decoder. */
  datatype ParamConfig = ParamConfig(shape: seq<nat>, encdec: Option<EncDec>)

  /** `params`, in its iteration order. */
  type Params = seq<(string, ParamConfig)>

  /**
   * The exception `forward` raised on the named parameter: `reshape` failed, or the slice of
   * `theta` could not be taken because its bound was not an integer.
   */
  datatype ConstructError = ReshapeFailed(name: string) | SliceBoundNotInteger(name: string)

  /** A dictionary has each key once. */
  predicate DistinctNames(params: Params)
  {
    forall i, j :: 0 <= i < j < |params| ==> params[i].0 != params[j].0
  }

  function Names(params: Params): (names: set<string>)
    ensures forall i :: 0 <= i < |params| ==> params[i].0 in names
    ensures forall k :: k in names ==> exists i :: 0 <= i < |params| && params[i].0 == k
  {
    set i | 0 <= i < |params| :: params[i].0
  }

  /** A tensor `theta` is rectangular: every row has `Width(theta)` columns. */
  predicate Rectangular(theta: Matrix)
  {
    IsShape(theta, |theta|, Width(theta))
  }

  // ---------------------------------------------------------------- the encoder/decoder table

  /** `self.encdecs`: one entry per parameter whose configuration has an `encdec`. */
  function EncDecsOf(params: Params): (m: map<string, EncDec>)
    requires DistinctNames(params)
    ensures forall k :: k in m <==> exists i :: 0 <= i < |params| && params[i].0 == k && params[i].1.encdec.Some?
    ensures forall i :: 0 <= i < |params| && params[i].1.encdec.Some? ==> m[params[i].0] == params[i].1.encdec.value
  {
    if |params| == 0 then map[]
    else
      var init := params[..|params| - 1];
      var rest := EncDecsOf(init);
      assert forall i :: 0 <= i < |init| ==> init[i] == params[i];
      var (k, cfg) := params[|params| - 1];
      match cfg.encdec
      case Some(e) => rest[k := e]
      case None => rest
  }

  // ---------------------------------------------------------------- widths and offsets

  /** The number of columns of `theta` parameter `p` consumes. */
  function ParamWidth(encdecs: map<string, EncDec>, p: (string, ParamConfig)): nat
  {
    if p.0 in encdecs then encdecs[p.0].encDim else Prod(p.1.shape)
  }

  /**
   * A parameter without an encoder/decoder and with the empty shape: its width `np.prod(())` is
   * the float `1.0`, and slicing `theta` with a float bound raises `TypeError`.
   */
  predicate FloatBound(encdecs: map<string, EncDec>, p: (string, ParamConfig))
  {
    p.0 !in encdecs && |p.1.shape| == 0
  }

  /** The exception raised on parameter `p` when its entry cannot be built. */
  function ParamError(encdecs: map<string, EncDec>, p: (string, ParamConfig)): (e: ConstructError)
    ensures e.name == p.0
    ensures e.SliceBoundNotInteger? <==> FloatBound(encdecs, p)
  {
    if FloatBound(encdecs, p) then SliceBoundNotInteger(p.0) else ReshapeFailed(p.0)
  }

  /** The value of `idx` when parameter `k` is reached: the widths of the parameters before it. */
  function Offset(params: Params, encdecs: map<string, EncDec>, k: nat): nat
    requires k <= |params|
  {
    if k == 0 then 0 else Offset(params, encdecs, k - 1) + ParamWidth(encdecs, params[k - 1])
  }

  lemma OffsetStep(params: Params, encdecs: map<string, EncDec>, k: nat)
    requires k < |params|
    ensures Offset(params, encdecs, k + 1) == Offset(params, encdecs, k) + ParamWidth(encdecs, params[k])
  {
  }

  /** The offsets only grow. */
  lemma {:induction false} OffsetMonotone(params: Params, encdecs: map<string, EncDec>, i: nat, j: nat)
    requires i <= j <= |params|
    ensures Offset(params, encdecs, i) <= Offset(params, encdecs, j)
  {
    if i < j {
      OffsetMonotone(params, encdecs, i, j - 1);
    }
  }

  /**
   * Parameter `i` reads the columns `[Offset(i), Offset(i) + w_i)`: the slices of two different
   * parameters are disjoint, and the later one starts at or after the end of the earlier one.
   */
  lemma {:induction false} SlicesDisjoint(params: Params, encdecs: map<string, EncDec>, i: nat, j: nat)
    requires i < j < |params|
    ensures Offset(params, encdecs, i) + ParamWidth(encdecs, params[i]) <= Offset(params, encdecs, j)
  {
    OffsetMonotone(params, encdecs, i + 1, j);
    OffsetStep(params, encdecs, i);
  }

  lemma {:induction false} OwnerBelow(params: Params, encdecs: map<string, EncDec>, c: nat, k: nat)
    requires k <= |params| && c < Offset(params, encdecs, k)
    ensures exists j :: (0 <= j < k &&
      Offset(params, encdecs, j) <= c < Offset(params, encdecs, j) + ParamWidth(encdecs, params[j]))
  {
    OffsetStep(params, encdecs, k - 1);
    if c < Offset(params, encdecs, k - 1) {
      OwnerBelow(params, encdecs, c, k - 1);
    }
  }

  /** Each column below the total width belongs to the slice of exactly one parameter. */
  lemma ColumnOwner(params: Params, encdecs: map<string, EncDec>, c: nat)
    requires c < Offset(params, encdecs, |params|)
    ensures exists k :: (0 <= k < |params| &&
      Offset(params, encdecs, k) <= c < Offset(params, encdecs, k) + ParamWidth(encdecs, params[k]))
    ensures forall k, l :: (0 <= k < l < |params| &&
      Offset(params, encdecs, k) <= c < Offset(params, encdecs, k) + ParamWidth(encdecs, params[k])
      ==> !(Offset(params, encdecs, l) <= c < Offset(params, encdecs, l) + ParamWidth(encdecs, params[l])))
  {
    OwnerBelow(params, encdecs, c, |params|);
    forall k, l | 0 <= k < l < |params|
      ensures Offset(params, encdecs, k) + ParamWidth(encdecs, params[k]) <= Offset(params, encdecs, l)
    {
      SlicesDisjoint(params, encdecs, k, l);
    }
  }

  // ---------------------------------------------------------------- slicing and reshaping

  /** Python's clipping of a slice bound to a length. */
  function Clip(c: nat, n: nat): (r: nat)
    ensures r <= n && r <= c
    ensures r == c || r == n
  {
    if c <= n then c else n
  }

  /** `theta[:, lo:hi]`, with bounds past the last column clipped as Python does. */
  function Columns(theta: Matrix, lo: nat, hi: nat): (r: Matrix)
    requires Rectangular(theta) && lo <= hi
    ensures IsShape(r, |theta|, Clip(hi, Width(theta)) - Clip(lo, Width(theta)))
    ensures forall b, j :: 0 <= b < |theta| && 0 <= j < |r[b]| ==> r[b][j] == theta[b][lo + j]
  {
    var n := Width(theta);
    var l, h := Clip(lo, n), Clip(hi, n);
    assert l <= h;
    seq(|theta|, b requires 0 <= b < |theta| => theta[b][l..h])
  }

  /** A `[rows, cols]` matrix as a tensor. */
  function AsTensor(m: Matrix, cols: nat): Tensor
  {
    Tensor([|m|, cols], Flatten(m))
  }

  /** `theta.unsqueeze(-1)`: shape `[bs, enc_dim, 1]`, same elements. */
  function Unsqueeze(theta: Matrix): Tensor
  {
    Tensor([|theta|, Width(theta), 1], Flatten(theta))
  }

  /**
   * `t.reshape(-1, *shape)`: succeeds when the elements fill a whole number of `shape` blocks;
   * the leading size `-1` is ambiguous, and rejected, when `shape` holds no elements.
   */
  function Reshape(t: Tensor, shape: seq<nat>): Option<Tensor>
  {
    var p := Prod(shape);
    if p > 0 && |t.data| % p == 0 then Some(Tensor([|t.data| / p] + shape, t.data)) else None
  }

  /**
   * `reshape` succeeds exactly when the shape has elements and they divide the element count;
   * it keeps the data, infers one leading dimension, and the sizes multiply to the element count.
   */
  lemma ReshapeSpec(t: Tensor, shape: seq<nat>)
    ensures var r := Reshape(t, shape);
      && (r.Some? <==> Prod(shape) > 0 && |t.data| % Prod(shape) == 0)
      && (r.Some? ==> r.value.data == t.data && |r.value.shape| >= 1 && r.value.shape[1..] == shape)
      && (r.Some? ==> Prod(r.value.shape) == |t.data|)
  {
    var p := Prod(shape);
    if p > 0 && |t.data| % p == 0 {
      var res := Tensor([|t.data| / p] + shape, t.data);
      assert res.shape[1..] == shape;
      assert Prod(res.shape) == |t.data| / p * p;
    }
  }

  /** The value handed to `reshape` for parameter `p` read from `off`: decoded, or the raw slice. */
  function Decoded(theta: Matrix, encdecs: map<string, EncDec>, p: (string, ParamConfig), off: nat): Tensor
    requires Rectangular(theta)
  {
    var w := ParamWidth(encdecs, p);
    var slice := Columns(theta, off, off + w);
    if p.0 in encdecs then encdecs[p.0].decode(slice)
    else AsTensor(slice, Clip(off + w, Width(theta)) - Clip(off, Width(theta)))
  }

  /** The entry of parameter `k`, or `None` when its slice cannot be taken or its `reshape` fails. */
  function EntryAt(theta: Matrix, params: Params, encdecs: map<string, EncDec>, k: nat): Option<Tensor>
    requires Rectangular(theta) && k < |params|
  {
    if FloatBound(encdecs, params[k]) then None
    else Reshape(Decoded(theta, encdecs, params[k], Offset(params, encdecs, k)), params[k].1.shape)
  }

  /** The entry of parameter `k` is the value read at its offset, reshaped. */
  lemma EntryAtIs(theta: Matrix, params: Params, encdecs: map<string, EncDec>, k: nat, off: nat, value: Tensor)
    requires Rectangular(theta) && k < |params| && off == Offset(params, encdecs, k)
    requires !FloatBound(encdecs, params[k])
    requires value == Decoded(theta, encdecs, params[k], off)
    ensures EntryAt(theta, params, encdecs, k) == Reshape(value, params[k].1.shape)
  {
  }

  // ---------------------------------------------------------------- the constructed dictionary

  /** `theta_dict` after the first `k` iterations of the loop. */
  function BuildPrefix(theta: Matrix, params: Params, encdecs: map<string, EncDec>, k: nat)
    : Result<map<string, Tensor>, ConstructError>
    requires Rectangular(theta) && k <= |params|
  {
    if k == 0 then Ok(map[])
    else
      match BuildPrefix(theta, params, encdecs, k - 1)
      case Err(e) => Err(e)
      case Ok(m) =>
        match EntryAt(theta, params, encdecs, k - 1)
        case None => Err(ParamError(encdecs, params[k - 1]))
        case Some(t) => Ok(m[params[k - 1].0 := t])
  }

  /** `ThetaConstructor.forward(theta)` as a function of the configuration. */
  function Construct(theta: Matrix, params: Params, encdecs: map<string, EncDec>): Result<map<string, Tensor>, ConstructError>
    requires Rectangular(theta)
  {
    match BuildPrefix(theta, params, encdecs, |params|)
    case Err(e) => Err(e)
    case Ok(m) => Ok(m["enc" := Unsqueeze(theta)])
  }

  lemma {:induction false} BuildPrefixKeys(theta: Matrix, params: Params, encdecs: map<string, EncDec>, k: nat)
    requires Rectangular(theta) && k <= |params|
    requires BuildPrefix(theta, params, encdecs, k).Ok?
    ensures forall key :: key in BuildPrefix(theta, params, encdecs, k).value <==>
      exists i :: 0 <= i < k && params[i].0 == key
  {
    if k > 0 {
      BuildPrefixKeys(theta, params, encdecs, k - 1);
    }
  }

  /**
   * A successful result has one key per parameter plus `"enc"`, and `"enc"` holds the whole
   * of `theta` with a trailing axis, whatever the parameters are (a parameter named `"enc"`
   * is overwritten).
   */
  lemma ConstructKeys(theta: Matrix, params: Params, encdecs: map<string, EncDec>)
    requires Rectangular(theta) && Construct(theta, params, encdecs).Ok?
    ensures Construct(theta, params, encdecs).value.Keys == Names(params) + {"enc"}
    ensures Construct(theta, params, encdecs).value["enc"] == Unsqueeze(theta)
  {
    BuildPrefixKeys(theta, params, encdecs, |params|);
  }

  lemma {:induction false} BuildPrefixEntry(theta: Matrix, params: Params, encdecs: map<string, EncDec>, k: nat, i: nat)
    requires Rectangular(theta) && DistinctNames(params) && i < k <= |params|
    requires BuildPrefix(theta, params, encdecs, k).Ok?
    ensures EntryAt(theta, params, encdecs, i).Some?
    ensures params[i].0 in BuildPrefix(theta, params, encdecs, k).value
    ensures BuildPrefix(theta, params, encdecs, k).value[params[i].0] == EntryAt(theta, params, encdecs, i).value
  {
    if i < k - 1 {
      BuildPrefixEntry(theta, params, encdecs, k - 1, i);
    }
  }

  /** Every parameter other than `"enc"` is stored under its name as its own reshaped slice. */
  lemma ConstructEntry(theta: Matrix, params: Params, encdecs: map<string, EncDec>, i: nat)
    requires Rectangular(theta) && DistinctNames(params) && i < |params| && params[i].0 != "enc"
    requires Construct(theta, params, encdecs).Ok?
    ensures EntryAt(theta, params, encdecs, i).Some?
    ensures params[i].0 in Construct(theta, params, encdecs).value
    ensures Construct(theta, params, encdecs).value[params[i].0] == EntryAt(theta, params, encdecs, i).value
  {
    BuildPrefixEntry(theta, params, encdecs, |params|, i);
  }

  lemma {:induction false} BuildPrefixOk(theta: Matrix, params: Params, encdecs: map<string, EncDec>, k: nat)
    requires Rectangular(theta) && k <= |params|
    ensures BuildPrefix(theta, params, encdecs, k).Ok? <==>
      forall i :: 0 <= i < k ==> EntryAt(theta, params, encdecs, i).Some?
  {
    if k > 0 {
      BuildPrefixOk(theta, params, encdecs, k - 1);
    }
  }

  lemma {:induction false} BuildPrefixFirstError(theta: Matrix, params: Params, encdecs: map<string, EncDec>, k: nat, i: nat)
    requires Rectangular(theta) && i < k <= |params|
    requires EntryAt(theta, params, encdecs, i).None?
    requires forall j :: 0 <= j < i ==> EntryAt(theta, params, encdecs, j).Some?
    ensures BuildPrefix(theta, params, encdecs, k) == Err(ParamError(encdecs, params[i]))
  {
    if i < k - 1 {
      BuildPrefixFirstError(theta, params, encdecs, k - 1, i);
    } else {
      BuildPrefixOk(theta, params, encdecs, i);
    }
  }

  /** Once an entry has failed, the loop never resumes: the error is the result. */
  lemma {:induction false} BuildPrefixErrorPersists(theta: Matrix, params: Params, encdecs: map<string, EncDec>, k: nat, n: nat)
    requires Rectangular(theta) && k <= n <= |params|
    requires BuildPrefix(theta, params, encdecs, k).Err?
    ensures BuildPrefix(theta, params, encdecs, n) == BuildPrefix(theta, params, encdecs, k)
  {
    if k < n {
      BuildPrefixErrorPersists(theta, params, encdecs, k, n - 1);
    }
  }

  lemma StepSucceeds(theta: Matrix, params: Params, encdecs: map<string, EncDec>, i: nat, m: map<string, Tensor>)
    requires Rectangular(theta) && i < |params|
    requires BuildPrefix(theta, params, encdecs, i) == Ok(m) && EntryAt(theta, params, encdecs, i).Some?
    ensures BuildPrefix(theta, params, encdecs, i + 1) == Ok(m[params[i].0 := EntryAt(theta, params, encdecs, i).value])
  {
  }

  lemma StepFails(theta: Matrix, params: Params, encdecs: map<string, EncDec>, i: nat, m: map<string, Tensor>)
    requires Rectangular(theta) && i < |params|
    requires BuildPrefix(theta, params, encdecs, i) == Ok(m) && EntryAt(theta, params, encdecs, i).None?
    ensures Construct(theta, params, encdecs) == Err(ParamError(encdecs, params[i]))
  {
    BuildPrefixErrorPersists(theta, params, encdecs, i + 1, |params|);
  }

  /**
   * The construction succeeds exactly when every parameter's `reshape` succeeds, and otherwise
   * fails naming the first parameter whose `reshape` fails.
   */
  lemma ConstructErrors(theta: Matrix, params: Params, encdecs: map<string, EncDec>, i: nat)
    requires Rectangular(theta)
    ensures Construct(theta, params, encdecs).Ok? <==>
      forall j :: 0 <= j < |params| ==> EntryAt(theta, params, encdecs, j).Some?
    ensures i < |params| && EntryAt(theta, params, encdecs, i).None? &&
            (forall j :: 0 <= j < i ==> EntryAt(theta, params, encdecs, j).Some?)
            ==> Construct(theta, params, encdecs) == Err(ParamError(encdecs, params[i]))
  {
    BuildPrefixOk(theta, params, encdecs, |params|);
    if i < |params| && EntryAt(theta, params, encdecs, i).None? &&
       (forall j :: 0 <= j < i ==> EntryAt(theta, params, encdecs, j).Some?) {
      BuildPrefixFirstError(theta, params, encdecs, |params|, i);
    }
  }

  /**
   * A scalar parameter without an encoder/decoder, reached with every earlier entry built, makes
   * `forward` raise on the slice bound rather than on `reshape`.
   */
  lemma FloatBoundRaises(theta: Matrix, params: Params, encdecs: map<string, EncDec>, i: nat)
    requires Rectangular(theta) && i < |params| && FloatBound(encdecs, params[i])
    requires forall j :: 0 <= j < i ==> EntryAt(theta, params, encdecs, j).Some?
    ensures Construct(theta, params, encdecs) == Err(SliceBoundNotInteger(params[i].0))
  {
    ConstructErrors(theta, params, encdecs, i);
  }

  // ---------------------------------------------------------------- columns past the parameters

  /** Two tensors of the same shape whose rows agree on every column below `n`. */
  predicate AgreeBelow(theta: Matrix, theta': Matrix, n: nat)
  {
    && Rectangular(theta) && Rectangular(theta')
    && |theta| == |theta'| && Width(theta) == Width(theta')
    && forall b, c :: 0 <= b < |theta| && 0 <= c < n && c < Width(theta) ==> theta[b][c] == theta'[b][c]
  }

  /** A slice of columns below `n` is the same in two tensors that agree below `n`. */
  lemma ColumnsAgree(theta: Matrix, theta': Matrix, lo: nat, hi: nat, n: nat)
    requires AgreeBelow(theta, theta', n) && lo <= hi <= n
    ensures Columns(theta, lo, hi) == Columns(theta', lo, hi)
  {
    var r, r' := Columns(theta, lo, hi), Columns(theta', lo, hi);
    forall b | 0 <= b < |r|
      ensures r[b] == r'[b]
    {
      assert forall j :: 0 <= j < |r[b]| ==> r[b][j] == theta[b][lo + j] == theta'[b][lo + j] == r'[b][j];
    }
  }

  /**
   * Parameter `k`'s entry reads only the columns below the total width of `params`: it is the
   * same for two tensors that agree there.
   */
  lemma EntryAtBelowTotal(theta: Matrix, theta': Matrix, params: Params, encdecs: map<string, EncDec>, k: nat)
    requires k < |params| && AgreeBelow(theta, theta', Offset(params, encdecs, |params|))
    ensures EntryAt(theta, params, encdecs, k) == EntryAt(theta', params, encdecs, k)
  {
    var off, w := Offset(params, encdecs, k), ParamWidth(encdecs, params[k]);
    OffsetStep(params, encdecs, k);
    OffsetMonotone(params, encdecs, k + 1, |params|);
    ColumnsAgree(theta, theta', off, off + w, Offset(params, encdecs, |params|));
    assert Decoded(theta, encdecs, params[k], off) == Decoded(theta', encdecs, params[k], off);
  }

  lemma EntriesBelowTotal(theta: Matrix, theta': Matrix, params: Params, encdecs: map<string, EncDec>)
    requires AgreeBelow(theta, theta', Offset(params, encdecs, |params|))
    ensures forall i :: 0 <= i < |params| ==> EntryAt(theta, params, encdecs, i) == EntryAt(theta', params, encdecs, i)
  {
    forall i | 0 <= i < |params|
      ensures EntryAt(theta, params, encdecs, i) == EntryAt(theta', params, encdecs, i)
    {
      EntryAtBelowTotal(theta, theta', params, encdecs, i);
    }
  }

  /** Two tensors whose first `k` entries are the same give the same dictionary after `k` steps. */
  lemma {:induction false} BuildPrefixSame(theta: Matrix, theta': Matrix, params: Params, encdecs: map<string, EncDec>, k: nat)
    requires Rectangular(theta) && Rectangular(theta') && k <= |params|
    requires forall i :: 0 <= i < k ==> EntryAt(theta, params, encdecs, i) == EntryAt(theta', params, encdecs, i)
    ensures BuildPrefix(theta, params, encdecs, k) == BuildPrefix(theta', params, encdecs, k)
  {
    if k > 0 {
      var j := k - 1;
      BuildPrefixSame(theta, theta', params, encdecs, j);
      assert EntryAt(theta, params, encdecs, j) == EntryAt(theta', params, encdecs, j);
    }
  }

  /**
   * The columns of `theta` past the total width of `params` reach the result only through
   * `"enc"`: changing them leaves the error, or every other entry, as it was.
   */
  lemma ConstructBelowTotal(theta: Matrix, theta': Matrix, params: Params, encdecs: map<string, EncDec>)
    requires AgreeBelow(theta, theta', Offset(params, encdecs, |params|))
    ensures Construct(theta, params, encdecs).Err? ==> Construct(theta', params, encdecs) == Construct(theta, params, encdecs)
    ensures Construct(theta, params, encdecs).Ok? ==>
      && Construct(theta', params, encdecs).Ok?
      && Construct(theta, params, encdecs).value - {"enc"} == Construct(theta', params, encdecs).value - {"enc"}
  {
    EntriesBelowTotal(theta, theta', params, encdecs);
    BuildPrefixSame(theta, theta', params, encdecs, |params|);
    ConstructOfSamePrefix(theta, theta', params, encdecs);
  }

  /** Two tensors with the same dictionary after the loop differ in the result only at `"enc"`. */
  lemma ConstructOfSamePrefix(theta: Matrix, theta': Matrix, params: Params, encdecs: map<string, EncDec>)
    requires Rectangular(theta) && Rectangular(theta')
    requires BuildPrefix(theta, params, encdecs, |params|) == BuildPrefix(theta', params, encdecs, |params|)
    ensures Construct(theta, params, encdecs).Err? ==> Construct(theta', params, encdecs) == Construct(theta, params, encdecs)
    ensures Construct(theta, params, encdecs).Ok? ==>
      && Construct(theta', params, encdecs).Ok?
      && Construct(theta, params, encdecs).value - {"enc"} == Construct(theta', params, encdecs).value - {"enc"}
  {
    var b := BuildPrefix(theta, params, encdecs, |params|);
    if b.Ok? {
      assert Construct(theta, params, encdecs).value - {"enc"} == b.value - {"enc"};
      assert Construct(theta', params, encdecs).value - {"enc"} == b.value - {"enc"};
    }
  }

  // ---------------------------------------------------------------- layout without a decoder

  lemma MulBounds(w: int, d: int)
    requires w > 0
    ensures d >= 1 ==> w * d >= w
    ensures d <= -1 ==> w * d <= -w
  {
  }

  /** `(n·w) / w == n` and `(n·w) % w == 0` for `w > 0`. */
  lemma DivExact(n: nat, w: nat)
    requires w > 0
    ensures (n * w) / w == n && (n * w) % w == 0
  {
    var q: int, r: int := (n * w) / w, (n * w) % w;
    assert w * q + r == n * w;
    assert w * (n - q) == r;
    MulBounds(w, n - q);
  }

  /** Without a decoder, and inside `theta`, the value reshaped is the `[bs, w]` slice itself. */
  lemma PlainDecoded(theta: Matrix, encdecs: map<string, EncDec>, p: (string, ParamConfig), off: nat)
    requires Rectangular(theta) && p.0 !in encdecs && off + Prod(p.1.shape) <= Width(theta)
    ensures var w := Prod(p.1.shape);
            IsShape(Columns(theta, off, off + w), |theta|, w) &&
            Decoded(theta, encdecs, p, off) == AsTensor(Columns(theta, off, off + w), w)
  {
  }

  /**
   * Element `b·w + j` of the flattened `[bs, w]` slice at `off` is `theta[b][off + j]`: row `b`
   * of an entry without a decoder holds, in row-major order, the columns `[off, off + w)` of `theta[b]`.
   */
  lemma FlatSliceAt(theta: Matrix, off: nat, w: nat, b: nat, j: nat)
    requires Rectangular(theta) && off + w <= Width(theta) && b < |theta| && j < w
    ensures b * w + j < |Flatten(Columns(theta, off, off + w))|
    ensures Flatten(Columns(theta, off, off + w))[b * w + j] == theta[b][off + j]
  {
    var slice := Columns(theta, off, off + w);
    FlattenAt(slice, w, b, j);
    assert slice[b][j] == theta[b][off + j];
  }

  /** A parameter without a decoder whose slice lies inside `theta` is its slice, reshaped. */
  lemma PlainEntry(theta: Matrix, params: Params, encdecs: map<string, EncDec>, i: nat)
    requires Rectangular(theta) && i < |params| && params[i].0 !in encdecs
    requires |params[i].1.shape| > 0 && Prod(params[i].1.shape) > 0
    requires Offset(params, encdecs, i) + Prod(params[i].1.shape) <= Width(theta)
    ensures var off, w := Offset(params, encdecs, i), Prod(params[i].1.shape);
            var slice := Columns(theta, off, off + w);
            IsShape(slice, |theta|, w) &&
            EntryAt(theta, params, encdecs, i) == Some(Tensor([|theta|] + params[i].1.shape, Flatten(slice)))
  {
    var off, w := Offset(params, encdecs, i), Prod(params[i].1.shape);
    var slice := Columns(theta, off, off + w);
    PlainDecoded(theta, encdecs, params[i], off);
    EntryAtIs(theta, params, encdecs, i, off, AsTensor(slice, w));
    ReshapeSlice(slice, w, params[i].1.shape);
  }

  /** A `[bs, w]` slice reshaped to `(-1, *shape)` with `w` elements per `shape` block. */
  lemma ReshapeSlice(slice: Matrix, w: nat, shape: seq<nat>)
    requires IsShape(slice, |slice|, w) && Prod(shape) == w && w > 0
    ensures Reshape(AsTensor(slice, w), shape) == Some(Tensor([|slice|] + shape, Flatten(slice)))
  {
    FlattenLength(slice, w);
    DivExact(|slice|, w);
  }

  /** `row[Offset(0):Offset(1)] + ... + row[Offset(k-1):Offset(k)]`: the slices of the first `k` parameters, joined. */
  function Joined(row: seq<real>, params: Params, encdecs: map<string, EncDec>, k: nat): seq<real>
    requires k <= |params| && Offset(params, encdecs, k) <= |row|
  {
    if k == 0 then []
    else
      OffsetMonotone(params, encdecs, k - 1, k);
      Joined(row, params, encdecs, k - 1) + row[Offset(params, encdecs, k - 1)..Offset(params, encdecs, k)]
  }

  /** Joining the slices in parameter order gives back `theta[b][:Σw]`: nothing skipped, nothing repeated. */
  lemma {:induction false} JoinedSlices(row: seq<real>, params: Params, encdecs: map<string, EncDec>, k: nat)
    requires k <= |params| && Offset(params, encdecs, k) <= |row|
    ensures Joined(row, params, encdecs, k) == row[..Offset(params, encdecs, k)]
  {
    if k > 0 {
      OffsetMonotone(params, encdecs, k - 1, k);
      JoinedSlices(row, params, encdecs, k - 1);
      PrefixJoin(row, Offset(params, encdecs, k - 1), Offset(params, encdecs, k));
    }
  }

  lemma PrefixJoin(row: seq<real>, a: nat, c: nat)
    requires a <= c <= |row|
    ensures row[..a] + row[a..c] == row[..c]
  {
  }

  // ---------------------------------------------------------------- the module

  /** `ThetaConstructor`: the parameter configuration and the encoders/decoders built from it. */
  class ThetaConstructor {
    const params: Params
    const encdecs: map<string, EncDec>

    /** `__init__`: keeps `params` and instantiates one encoder/decoder per configured `encdec`. */
    constructor(params: Params)
      requires DistinctNames(params)
      ensures this.params == params && this.encdecs == EncDecsOf(params)
    {
      this.params := params;
      this.encdecs := EncDecsOf(params);
    }

    /**
     * One parameter of the loop in `forward`: its decoder's `enc_dim` columns from `idx`, decoded,
     * or without a decoder its `prod(shape)` columns as they are; for the empty shape that width
     * is the float `1.0` and the slice raises.
     */
    method ReadParam(theta: Matrix, p: (string, ParamConfig), idx: nat)
      returns (r: Result<(nat, Tensor), ConstructError>)
      requires Rectangular(theta)
      ensures r.Err? <==> FloatBound(encdecs, p)
      ensures r.Err? ==> r.error == SliceBoundNotInteger(p.0)
      ensures r.Ok? ==> r.value == (ParamWidth(encdecs, p), Decoded(theta, encdecs, p, idx))
    {
      var (k, v) := p;
      if k in encdecs {
        var encDim := encdecs[k].encDim;
        r := Ok((encDim, encdecs[k].decode(Columns(theta, idx, idx + encDim))));
      } else if |v.shape| == 0 {
        r := Err(SliceBoundNotInteger(k));
      } else {
        var encDim := Prod(v.shape);
        var slice := Columns(theta, idx, idx + encDim);
        r := Ok((encDim, AsTensor(slice, Clip(idx + encDim, Width(theta)) - Clip(idx, Width(theta)))));
      }
    }

    /** `forward(theta)`: the loop over `params` with the running offset `idx`. */
    method Forward(theta: Matrix) returns (r: Result<map<string, Tensor>, ConstructError>)
      requires Rectangular(theta)
      ensures r == Construct(theta, params, encdecs)
    {
      var thetaDict: map<string, Tensor> := map[];
      var idx := 0;
      var i := 0;
      while i < |params|
        invariant 0 <= i <= |params|
        invariant idx == Offset(params, encdecs, i)
        invariant BuildPrefix(theta, params, encdecs, i) == Ok(thetaDict)
      {
        var (k, v) := params[i];
        var read := ReadParam(theta, params[i], idx);
        if read.Err? {
          StepFails(theta, params, encdecs, i, thetaDict);
          return Err(read.error);
        }
        var (encDim, param) := read.value;
        var entry := Reshape(param, v.shape);
        EntryAtIs(theta, params, encdecs, i, idx, param);
        if entry.None? {
          StepFails(theta, params, encdecs, i, thetaDict);
          return Err(ParamError(encdecs, params[i]));
        }
        StepSucceeds(theta, params, encdecs, i, thetaDict);
        thetaDict := thetaDict[k := entry.value];
        OffsetStep(params, encdecs, i);
        idx := idx + encDim;
        i := i + 1;
      }
      thetaDict := thetaDict["enc" := Unsqueeze(theta)];
      r := Ok(thetaDict);
    }
  }
}
