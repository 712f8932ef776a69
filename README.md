# nigbms core in Dafny

nigbms trains neural "solver-parameter" generators through a black-box linear or test-function
solver. The solver's gradient is replaced by a cheaper estimator. This project models the
numerical core of that scheme over the reals and proves properties of it:

- **`Wrapper`** (`nigbms/modules/wrapper.py`) models the directional-derivative primitive `jvp`. It
  has a dual-number branch and forward and central finite-difference branches.
- **`Wrapper`** also models the custom autograd node `register_custom_grad_fn`:
  - its `forward` stores the estimator context and returns the solver value `d["y"]`;
  - its `backward` returns one of four gradient estimates chosen by `grad_type`: the exact
    gradient, the forward gradient, the surrogate's exact gradient, or the control-variate
    combination.
- **`SphereJvp`** (`wrapper.py` with `minimize_testfunctions.py`) holds the worked instances of
  `jvp` on the sphere objective.
  - Central differences are exact for every step.
  - Forward differences carry a bias of exactly `eps · |v|²`.
  - For `x = [3, 4]` and `v = [1, 0]`, the result is `y = 25` and `dvf = 6`.
- **`Constructors`** (`nigbms/modules/constructors.py`) models `ThetaConstructor`. It cuts the flat
  parameter batch `theta` into consecutive column slices, one per named solver parameter. Each
  slice is decoded (if the parameter has an encoder) and reshaped. The raw batch is added under
  `"enc"`.
- **`Tasks`** (`nigbms/modules/tasks.py`) models the linear-system task:
  - its dense and sparse (compressed-sparse-row) representations;
  - the equality of each representation;
  - the conversions `petsc2torch` and `torch2petsc`.
- **`TestFunctions`** (`nigbms/train/minimize_testfunctions.py`) models `sphere`, `rosenbrock`,
  `rosenbrock_separate` and `TestFunctionSolver`.
- **`Tensors`** and **`Wrappers`** hold shared definitions: matrices as sequences of rows, the few
  tensor operations used, and `Option`/`Result`.

Modelling choices:
- Python exceptions become `Err` values of a `Result`.
- Autograd's `grad` becomes an oracle of type `Matrix -> Option<Matrix>`, where `None` means that
  autograd raised.
- The dual-number evaluation in `jvp` becomes an oracle `ad`.
- `ThetaConstructor.forward` and `torch2petsc` change state step by step, so they are methods:
  - `Constructors.ThetaConstructor.Forward` is a loop that advances `idx` and fills the
    dictionary.
  - `Tasks.Torch2Petsc` creates, fills and assembles an `AijMatrix` object.
  - Each method is proved equal to a specification function (`Construct`, `SparseOf`), and the
    lemmas are stated about that function.
- Under `f_hat_true` and `cv_fwd`, a failure of the surrogate's autograd call is not recovered,
  unlike the zero-gradient recovery described for the project. The model follows the code:
  `nigbms/modules/wrapper.py:84` computes the surrogate's gradient outside any `try`, so the
  failure propagates (`Err(AutogradFailure)`). Only `f_true` (`wrapper.py:60-68`) substitutes
  zeros.

## Model

| member | source | states |
|---|---|---|
| Wrapper.ParseJvpType | nigbms/modules/wrapper.py:10-29 | `jvp_type` selects forward AD, forward FD or central FD exactly when it is that string, and any other string is kept as an unsupported type |
| Wrapper.Jvp | nigbms/modules/wrapper.py:9-31 | it raises `NotImplementedError` iff the type is unsupported; forward AD returns the dual-number oracle's pair; both FD branches return `y = f(x)`; forward FD gives `dvf = (f(x+eps·v) − f(x))/eps` and central FD gives `(f(x+eps·v) − f(x−eps·v))/(2·eps)` elementwise, with the output's shape |
| Wrapper.EvalPoints | nigbms/modules/wrapper.py:17-26 | forward FD evaluates `f` at two points and central FD at three; the other branches evaluate none of their own |
| Wrapper.JvpDependsOnlyOnEvalPoints | nigbms/modules/wrapper.py:17-26 | two objectives that agree at the evaluation points give the same finite-difference `jvp` result |
| Wrapper.CentralIsMeanOfForward | nigbms/modules/wrapper.py:17-26 | the central difference is the mean of the forward differences with steps `eps` and `−eps` |
| Wrapper.PlusNegatedStep | nigbms/modules/wrapper.py:19-25 | `x + (−eps)·v` is `x − eps·v`, so the backward point of the central difference is the forward step with a negated step |
| Wrapper.RowDots | nigbms/modules/wrapper.py:73 | `torch.sum(grad_y * dvf, dim=1)` is the row-wise inner product |
| Wrapper.ScaleRows | nigbms/modules/wrapper.py:73 | the column of inner products scales each row of `v` elementwise |
| Wrapper.Reshape3At | nigbms/modules/wrapper.py:74 | `reshape(Nv, bs, in_dim)` puts flat element `(a·bs + b)·in_dim + c` at `[a][b][c]` |
| Wrapper.MeanAxis0 | nigbms/modules/wrapper.py:74 | the mean over the first axis of `Nv` stacked `[bs, in_dim]` matrices has shape `[bs, in_dim]` |
| Wrapper.FwdGrad | nigbms/modules/wrapper.py:73-74 | the forward gradient has shape `[bs, in_dim]` taken from `x`, whatever `Nv` is |
| Wrapper.ReplicasAt | nigbms/modules/wrapper.py:73-74 | replica `n` of sample `b` is row `n·bs + b` of the product: the replica index is outermost |
| Wrapper.SumToReplicaSum | nigbms/modules/wrapper.py:74 | the sum over the first axis of the reshaped tensor is the sum of the replica terms of sample `b` |
| Wrapper.FwdGradAt | nigbms/modules/wrapper.py:73-74 | `out[b][k] = (1/Nv)·Σ_{n<Nv} ⟨grad_y[n·bs+b], dvf[n·bs+b]⟩ · v[n·bs+b][k]` |
| Wrapper.FwdGradSingleReplica | nigbms/modules/wrapper.py:73-74 | with `Nv = 1` there is no averaging: `out[b][k] = ⟨grad_y[b], dvf[b]⟩ · v[b][k]` |
| Wrapper.ParseGradType | nigbms/modules/wrapper.py:58-89 | `grad_type` selects each of the four estimators exactly when it is that string, and any other string is kept as unsupported |
| Wrapper.BackwardRule | nigbms/modules/wrapper.py:52-96 | it fails iff the type is unsupported or the surrogate's autograd call raises on a path that reaches line 84, and the error says which; `f_true` returns autograd's gradient, or zeros of `x`'s shape when it raises; `f_fwd` returns the forward gradient of `v·v_scale`; `f_hat_true` returns the surrogate gradient divided by `Nv`; every result has `x`'s shape and a `None` second gradient |
| Wrapper.DotSub | nigbms/modules/wrapper.py:73-80 | the inner product is linear in its second argument |
| Wrapper.ReplicaSumSub | nigbms/modules/wrapper.py:73-81 | the replica sum of `dvf − dvf_hat` is the difference of the replica sums |
| Wrapper.FwdGradSub | nigbms/modules/wrapper.py:73-81 | the forward gradient from `dvf − dvf_hat` equals `f_fwd − f_hat_fwd` elementwise |
| Wrapper.CvFwdIsSurrogatePlusErrorEstimate | nigbms/modules/wrapper.py:89-93 | `cv_fwd = f_fwd − (f_hat_fwd − f_hat_true)` is the surrogate's exact gradient over `Nv` plus a forward-gradient estimate of the error `dvf − dvf_hat` |
| Wrapper.CvFwdExactSurrogate | nigbms/modules/wrapper.py:89-93 | with an exact surrogate (`dvf_hat = dvf`), `cv_fwd` returns exactly the surrogate's gradient divided by `Nv` |
| Wrapper.SubCancels | nigbms/modules/wrapper.py:92 | `a − (a − h) = h` elementwise, the cancellation inside `cv_fwd` |
| Wrapper.FunctionCtx.constructor | nigbms/modules/wrapper.py:34-36 | a fresh autograd context holds no estimator context and no saved tensors |
| Wrapper.CustomGradForward | nigbms/modules/wrapper.py:36-49 | `forward` stores `d` in the context, saves exactly `[x, d["v"]]`, and returns `d["y"]` unchanged |
| Wrapper.CustomGradBackward | nigbms/modules/wrapper.py:52-56 | `backward` unpacks the saved `x`, `v` and `d`; its gradient for `x` has the saved `x`'s shape, `d` gets none, and it raises iff the gradient type is unsupported or the surrogate's autograd call raises where it is needed |
| Wrapper.ForwardThenBackward | nigbms/modules/wrapper.py:36-96 | the forward value is `d["y"]` whatever the gradient type, and the backward pass that follows applies the backward rule to the very `x` and `v` that were saved |
| SphereJvp.SphereDerivative | nigbms/train/minimize_testfunctions.py:27-28 | the analytic derivative of `sphere` along `v` has one column per row, `2·⟨x_i, v_i⟩` |
| SphereJvp.SumSquaresShift | nigbms/train/minimize_testfunctions.py:27-28 | `Σ(a + e·b)² = Σa² + 2e·⟨a,b⟩ + e²·Σb²` |
| SphereJvp.PlusRowSumSquares | nigbms/modules/wrapper.py:19-24 | the sum of squares of a row of `x + eps·v`, expanded in `eps` |
| SphereJvp.SphereCentralRow | nigbms/modules/wrapper.py:24-26 | `sphere(x+eps·v) − sphere(x−eps·v) = 2eps · 2⟨x,v⟩` row by row |
| SphereJvp.SphereForwardRow | nigbms/modules/wrapper.py:18-20 | `sphere(x+eps·v) − sphere(x) = eps · (2⟨x,v⟩ + eps·|v|²)` row by row |
| SphereJvp.CentralFromDifferences | nigbms/modules/wrapper.py:22-26 | whenever the central numerator is `2eps` times a target, central FD returns that target as `dvf` |
| SphereJvp.ForwardFromDifferences | nigbms/modules/wrapper.py:17-20 | whenever the forward numerator is `eps` times a target, forward FD returns that target as `dvf` |
| SphereJvp.SphereCentralFDExact | nigbms/modules/wrapper.py:22-26 | on `sphere`, central FD returns `(sphere(x), 2⟨x,v⟩)` exactly, for every non-zero `eps` |
| SphereJvp.SphereForwardFDBias | nigbms/modules/wrapper.py:17-20 | on `sphere`, forward FD returns `dvf = 2⟨x,v⟩ + eps·|v|²`: the error is linear in `eps` |
| SphereJvp.SphereCentralMatchesForwardAD | nigbms/modules/wrapper.py:10-26 | if the dual-number oracle is correct on `sphere`, central FD and forward AD return the same result |
| SphereJvp.SphereJvpExample | nigbms/modules/wrapper.py:17-26 | for `x = [[3, 4]]` and `v = [[1, 0]]`, central FD gives `y = 25` and `dvf = 6`, and forward FD gives `dvf = 6 + eps` |
| Constructors.Names | nigbms/modules/constructors.py:20 | the key set of the parameter configuration is exactly the set of its names |
| Constructors.EncDecsOf | nigbms/modules/constructors.py:15 | `encdecs` has a key exactly for the parameters whose config has an encoder, mapped to that encoder |
| Constructors.OffsetStep | nigbms/modules/constructors.py:28 | `idx` grows by the width of each parameter it passes |
| Constructors.OffsetMonotone | nigbms/modules/constructors.py:19-28 | the running offset never decreases |
| Constructors.SlicesDisjoint | nigbms/modules/constructors.py:19-28 | the column slice of an earlier parameter ends at or before the start of any later one |
| Constructors.OwnerBelow | nigbms/modules/constructors.py:19-28 | every column below the offset after `k` parameters lies in the slice of one of those parameters |
| Constructors.ColumnOwner | nigbms/modules/constructors.py:19-28 | every column below the total width belongs to exactly one parameter's slice |
| Constructors.Clip | nigbms/modules/constructors.py:23-26 | a slice bound past the end of the row stops at the end, as Python slicing does |
| Constructors.Columns | nigbms/modules/constructors.py:23-26 | `theta[:, lo:hi]` keeps every row and the clipped columns, element for element |
| Constructors.ReshapeSpec | nigbms/modules/constructors.py:27 | `reshape(-1, *shape)` succeeds iff the shape's size is positive and divides the element count; the data is kept, one leading dimension is inferred, and the sizes multiply to the element count |
| Constructors.BuildPrefixKeys | nigbms/modules/constructors.py:19-27 | after `k` steps the dictionary's keys are exactly the first `k` names |
| Constructors.ConstructKeys | nigbms/modules/constructors.py:17-30 | the result's keys are all parameter names plus `"enc"`, and `"enc"` holds `theta.unsqueeze(-1)` |
| Constructors.BuildPrefixEntry | nigbms/modules/constructors.py:21-27 | after `k` steps each of the first `k` names holds its own decoded and reshaped slice |
| Constructors.ConstructEntry | nigbms/modules/constructors.py:17-30 | each parameter not named `"enc"` holds its own decoded and reshaped slice in the result |
| Constructors.BuildPrefixOk | nigbms/modules/constructors.py:19-28 | the first `k` steps succeed iff each of their reshapes succeeds |
| Constructors.ParamError | nigbms/modules/constructors.py:24-27 | the exception raised on a parameter names it, and is the float slice bound's `TypeError` exactly for a scalar parameter without an encoder, otherwise the failed `reshape` |
| Constructors.BuildPrefixFirstError | nigbms/modules/constructors.py:19-28 | the loop fails with the exception of the first parameter whose slice or reshape fails |
| Constructors.BuildPrefixErrorPersists | nigbms/modules/constructors.py:19-28 | once the loop has failed, later parameters do not change the error |
| Constructors.StepSucceeds | nigbms/modules/constructors.py:27-28 | a successful step inserts the entry under the parameter's name |
| Constructors.StepFails | nigbms/modules/constructors.py:24-27 | a failing slice or reshape makes the whole construction fail with that parameter's exception |
| Constructors.ConstructErrors | nigbms/modules/constructors.py:17-30 | the construction succeeds iff every parameter's slice and reshape succeed, and otherwise raises the first failing parameter's exception |
| Constructors.FloatBoundRaises | nigbms/modules/constructors.py:24-26 | a scalar parameter without an encoder, reached without an earlier failure, makes `forward` raise on the float slice bound `np.prod(()) = 1.0` |
| Constructors.ColumnsAgree | nigbms/modules/constructors.py:23-26 | a column slice below `n` is the same for two tensors of one shape that agree on every column below `n` |
| Constructors.EntryAtBelowTotal | nigbms/modules/constructors.py:20-28 | each parameter's entry is the same for two tensors of one shape that agree on the columns below the total width of the parameters |
| Constructors.EntriesBelowTotal | nigbms/modules/constructors.py:20-28 | so is every parameter's entry at once |
| Constructors.BuildPrefixSame | nigbms/modules/constructors.py:20-28 | two tensors whose first `k` entries are the same give the same dictionary, or the same error, after `k` loop steps |
| Constructors.ConstructOfSamePrefix | nigbms/modules/constructors.py:29-30 | two tensors with the same dictionary after the loop give the same error, or results that differ at most in `"enc"` |
| Constructors.ConstructBelowTotal | nigbms/modules/constructors.py:17-30 | the columns of `theta` past the total width reach the result only through `"enc"`: changing them keeps the error, or every entry other than `"enc"` |
| Constructors.PlainDecoded | nigbms/modules/constructors.py:25-26 | a parameter without an encoder takes exactly `prod(shape)` columns starting at its offset |
| Constructors.PlainEntry | nigbms/modules/constructors.py:25-27 | an entry without an encoder whose slice lies inside `theta` is `Some` tensor of shape `[bs] + shape` over the flattened `[bs, prod(shape)]` slice at its offset |
| Constructors.FlatSliceAt | nigbms/modules/constructors.py:25-27 | element `b·w + j` of that flattened slice is `theta[b][offset + j]` |
| Constructors.ReshapeSlice | nigbms/modules/constructors.py:27 | reshaping a `[bs, prod(shape)]` slice gives shape `[bs] + shape` over the row-major data |
| Constructors.JoinedSlices | nigbms/modules/constructors.py:19-28 | the slices of the parameters, concatenated, are exactly the row up to the total offset |
| Constructors.ThetaConstructor.constructor | nigbms/modules/constructors.py:12-15 | the constructor keeps the parameter configuration and builds `encdecs` from it |
| Constructors.ThetaConstructor.ReadParam | nigbms/modules/constructors.py:21-26 | the loop body as a method, proved against `ParamWidth` and `Decoded`: it raises exactly for a scalar parameter without an encoder (float slice bound); otherwise the width it returns is `ParamWidth`, the one `Offset` advances by, and the value is `Decoded`, the one `EntryAt` reshapes |
| Constructors.ThetaConstructor.Forward | nigbms/modules/constructors.py:17-30 | the loop over the parameters, advancing `idx` and filling the dictionary in place, returns the construction that the lemmas above describe |
| Tasks.RowSlice | nigbms/modules/tasks.py:83-84 | row `i` of a CSR matrix is the entries at `rowPtr[i] .. rowPtr[i+1]` |
| Tasks.CsrToDense | nigbms/modules/tasks.py:82-84 | the dense matrix has the sparse matrix's size |
| Tasks.CsrToDenseFound | nigbms/modules/tasks.py:84 | `A[i][colIdx[k]] = values[k]` for each stored index `k` of row `i` |
| Tasks.CsrToDenseAbsent | nigbms/modules/tasks.py:84 | a position that row `i` stores nothing for is 0 |
| Tasks.Nonzeros | nigbms/modules/tasks.py:98 | the non-zeros of a row, with strictly increasing columns, each at its own column and value |
| Tasks.LookupNonzeros | nigbms/modules/tasks.py:98 | looking up any column among a row's non-zeros gives back that row's element |
| Tasks.DenseToCsr | nigbms/modules/tasks.py:98 | the CSR form has the dense matrix's row and column counts |
| Tasks.EntriesPrefix | nigbms/modules/tasks.py:98 | the entries of the first `i` rows are a prefix of the entries of the first `n ≥ i` rows (row-major order) |
| Tasks.EntriesInside | nigbms/modules/tasks.py:98 | every stored column is below the column count and every stored value is non-zero |
| Tasks.DenseToCsrStructured | nigbms/modules/tasks.py:98-101 | `row_ptr` has length rows+1, starts at 0, is non-decreasing, and ends at nnz |
| Tasks.DenseRowSlice | nigbms/modules/tasks.py:98 | row `i` of the CSR form holds exactly the non-zeros of row `i` of the dense matrix |
| Tasks.DenseToCsrValid | nigbms/modules/tasks.py:98-104 | `to_sparse_csr` yields a valid CSR matrix (sorted columns within each row) that stores no zero |
| Tasks.DenseRoundTrip | nigbms/modules/tasks.py:84-104 | dense → CSR → dense is the identity |
| Tasks.NonzerosUnique | nigbms/modules/tasks.py:83-98 | a sorted, zero-free list of entries that reads back as a row is that row's list of non-zeros |
| Tasks.EntriesOfRows | nigbms/modules/tasks.py:84-98 | dense rows that each re-compress to the matching CSR row re-compress together to the CSR matrix's stored entries, up to any row |
| Tasks.EntriesOfDense | nigbms/modules/tasks.py:84-98 | re-compressing the dense form of a zero-free CSR matrix gives back its stored entries row by row |
| Tasks.CsrRoundTrip | nigbms/modules/tasks.py:83-104 | CSR → dense → CSR is the identity on valid matrices without stored zeros |
| Tasks.AijMatrix.CreateAij | nigbms/modules/tasks.py:99 | `createAIJ` makes an empty, unassembled matrix of the given size and preallocation |
| Tasks.AijMatrix.SetValuesCsr | nigbms/modules/tasks.py:100-104 | `setValuesCSR` on an empty matrix makes its contents the given CSR arrays |
| Tasks.AijMatrix.Assemble | nigbms/modules/tasks.py:105 | `assemble` marks the matrix assembled and leaves its contents alone |
| Tasks.TorchEqAsWritten | nigbms/modules/tasks.py:46-53 | it raises iff `A` and `b` are equal and `x` is present on one side only; otherwise it answers the corrected equality |
| Tasks.PetscEqAsWritten | nigbms/modules/tasks.py:65-72 | the same for the sparse task, with matrices compared by `Mat.equal` (storage) and `rtol` by `np.isclose` |
| Tasks.Petsc2Torch | nigbms/modules/tasks.py:81-93 | the dense matrix has the sparse one's size, and `params`, `b`, `x` (absent stays absent), `rtol` and `maxiter` are carried over unchanged |
| Tasks.SparseOf | nigbms/modules/tasks.py:97-108 | the task `torch2petsc` builds has a valid, zero-free CSR matrix, no `params`, and `b`, `x`, `rtol` and `maxiter` carried over |
| Tasks.Torch2Petsc | nigbms/modules/tasks.py:97-108 | compressing, creating, filling and assembling the matrix step by step yields exactly that task |
| Tasks.TorchEqEquivalence | nigbms/modules/tasks.py:46-53 | dense-task equality is reflexive, symmetric and transitive, and never looks at `params` |
| Tasks.PetscEqIgnoresParams | nigbms/modules/tasks.py:65-72 | sparse-task equality is reflexive and ignores `params` |
| Tasks.MatEqualValues | nigbms/modules/tasks.py:67 | `A.equal` (same size, row pointers, column indices and values) implies equal values everywhere, and matrices with at least one row, no stored zero and equal values are `A.equal` |
| Tasks.StoredZeroUnequal | nigbms/modules/tasks.py:67 | a 1×1 matrix storing an explicit `0` and the 1×1 matrix storing nothing hold the same values, yet `A.equal` tells them apart |
| Tasks.IsCloseTolerances | nigbms/modules/tasks.py:70 | `np.isclose(p, q)` holds for `p == q`, for `|p - q| <= 1e-8`, and for `|p - q| <= 1e-5·|q|` |
| Tasks.IsCloseAsymmetric | nigbms/modules/tasks.py:70 | `np.isclose` is not symmetric: `isclose(0, 1.000005e-8)` holds but `isclose(1.000005e-8, 0)` does not |
| Tasks.TorchRoundTrip | nigbms/modules/tasks.py:81-108 | `petsc2torch(torch2petsc(t))` is `t` with `params` dropped, hence equal to `t` |
| Tasks.PetscRoundTrip | nigbms/modules/tasks.py:81-108 | `torch2petsc(petsc2torch(p))` holds the same values as `p`; it compares equal to `p` exactly when `p` stores no explicit zero, and is then `p` itself but for `params` |
| Tasks.DiagCsrValid | tests/modules/test_tasks.py:9-20 | the fixture matrix `diag(1, 2, 3)` in CSR form is valid and stores no zero |
| Tasks.DiagDenseOfCsr | tests/modules/test_tasks.py:9-29 | the sparse fixture's matrix, made dense, is the dense fixture's matrix |
| Tasks.FixturePetsc2Torch | tests/modules/test_tasks.py:32-33 | `petsc2torch` of the sparse fixture equals the dense fixture, and `__eq__` answers `True` without raising |
| Tasks.FixtureTorch2Petsc | tests/modules/test_tasks.py:36-37 | `torch2petsc` of the dense fixture rebuilds exactly the CSR triple `([0,1,2,3], [0,1,2], [1,2,3])`, and `__eq__` answers `True` |
| Tasks.EqAsWrittenRaisesOnOneSidedTruth | nigbms/modules/tasks.py:50-69 | with a ground truth on one side only, both `__eq__` methods raise, where the corrected equality answers `False` |
| TestFunctions.Sphere | nigbms/train/minimize_testfunctions.py:27-28 | `sphere` returns one value per row, the sum of its squares |
| TestFunctions.SumSquaresZeroIff | nigbms/train/minimize_testfunctions.py:27-28 | a sum of squares is non-negative and is zero iff the row is all zeros |
| TestFunctions.SphereMinimum | nigbms/train/minimize_testfunctions.py:27-28 | each value of `sphere` is ≥ 0, with equality iff its row is all zeros |
| TestFunctions.RosenTermZeroIff | nigbms/train/minimize_testfunctions.py:34-42 | a Rosenbrock term `100(b − a²)² + (1 − a)²` is ≥ 0 and zero iff `a = b = 1` |
| TestFunctions.OverlappingZeroIff | nigbms/train/minimize_testfunctions.py:32-34 | a sum over overlapping pairs of such terms is zero iff the row is all ones |
| TestFunctions.DisjointZeroIff | nigbms/train/minimize_testfunctions.py:39-42 | a sum over disjoint pairs of such terms is zero iff the row is all ones |
| TestFunctions.DisjointBelowOverlapping | nigbms/train/minimize_testfunctions.py:32-42 | the disjoint-pair sum never exceeds the overlapping-pair sum |
| TestFunctions.Rosenbrock | nigbms/train/minimize_testfunctions.py:31-34 | `rosenbrock` returns one value per row, the sum over the `n − 1` overlapping pairs |
| TestFunctions.RosenbrockMinimum | nigbms/train/minimize_testfunctions.py:31-34 | `rosenbrock` is ≥ 0 and, for `n ≥ 2`, zero exactly at the all-ones row |
| TestFunctions.RosenbrockSeparate | nigbms/train/minimize_testfunctions.py:37-42 | `rosenbrock_separate` fails its assertion iff the last dimension is odd; otherwise it returns one value per row, the sum over the `n/2` disjoint pairs |
| TestFunctions.RosenbrockSeparateMinimum | nigbms/train/minimize_testfunctions.py:37-42 | `rosenbrock_separate` is ≥ 0 and zero exactly at the all-ones row |
| TestFunctions.RosenbrockVariantsAgreeInDim2 | nigbms/train/minimize_testfunctions.py:31-42 | in dimension 2 both variants compute the same single term |
| TestFunctions.RosenbrockSeparateBelowRosenbrock | nigbms/train/minimize_testfunctions.py:31-42 | `rosenbrock_separate` never exceeds `rosenbrock` on the same row |
| TestFunctions.TestFunctionSolver.ParamsLearn | nigbms/train/minimize_testfunctions.py:53 | the one learnable parameter is `"x"`, of shape `(dim,)` |
| TestFunctions.TestFunctionSolver.ParamsFix | nigbms/train/minimize_testfunctions.py:53 | there are no fixed parameters |
| TestFunctions.TestFunctionSolver.Forward | nigbms/train/minimize_testfunctions.py:56-57 | `forward` ignores the task and returns the objective applied to `theta["x"]`, or a `KeyError` when `"x"` is missing |

## Left out

- The dual-number branch of `jvp` (`wrapper.py:10-15`) is an oracle parameter `ad`. PyTorch's forward-mode AD is not modelled.
- Autograd's `grad` (`wrapper.py:61-66,84`) is an oracle from the upstream gradient to the vector-Jacobian product, with `None` standing for a raised exception. The computation graph is not modelled.
- `WrappedSolver` (`wrapper.py:99-118`) is not modelled: its `_setup` has no body, and its `forward` returns names that are never defined.
- Wrapper.Jvp and Wrapper.BackwardRule: broadcasting and shape errors of the tensor operations are not modelled. The shapes the code needs are stated as preconditions (`JvpReady`, `BackwardReady`).
- Wrapper.Jvp: `eps = 0` (division by zero gives `inf`/`nan` in floating point) is excluded by its precondition.
- Wrapper.BackwardRule: `Nv = 0` is excluded. Reshaping zero rows into `(0, bs, in_dim)` and taking the mean of an empty axis give `nan` in floating point.
- Floating point is replaced by real arithmetic throughout. Rounding, `inf`, `nan` and the `float32` default dtype of `torch.tensor(1e-6)` (`test_tasks.py:27`) are not modelled.
- Tasks.PetscEqAsWritten: `np.isclose` is modelled with its default tolerances over the reals. PETSc's own behaviour on matrices or vectors of different sizes is not modelled; they compare unequal.
- The sine, FFT and interpolation encoders and decoders (`constructors.py:33-148`) are not modelled. An encoder is its `enc_dim` and an abstract `decode` function.
- Hydra's `instantiate` (`constructors.py:15`) is the identity on an encoder configuration.
- Constructors.ParamWidth: `np.prod(())` is the float `1.0` in the source. The model gives a scalar parameter the integer width `1`; that width is never used, because the slice with the float bound raises first (`Constructors.FloatBound`, `Constructors.SliceBoundNotInteger`).
- The key order of the `TensorDict` is not modelled: the result is a map.
- Matrices are sequences of rows, so a matrix with no rows loses its column count. For this reason the CSR round trip `Tasks.CsrRoundTrip` assumes at least one row.
- Tasks.CsrRoundTrip: an AIJ matrix that stores explicit zeros does not come back with the same storage. It holds the same values, but `A.equal` then answers `False` (`Tasks.PetscRoundTrip`).
- PETSc object mechanics beyond the create–fill–assemble order are not modelled: communicators, preallocation errors, `Vec.createWithArray`, and device transfers.
- The `problem` placeholder field of the sparse task is not modelled. It is never compared and never set by the conversions.
- The `TaskParams` hierarchy is an opaque record that is only carried along.
- `MinimizeTestFunctionTask` and `OpenFOAMTask` are not modelled. They are plain records that none of the modelled code reads.
- `rastrigin` (`minimize_testfunctions.py:45-48`) is not modelled: it uses the cosine.
- `main` and `plot_results` (`minimize_testfunctions.py:61-168`) are not modelled. They are optimiser loops, logging, plotting and file output.
- `nigbms/train/poisson1d.py` is not part of this model. It is training orchestration.
- `nigbms/configs/modules/solvers/configs.py` is not part of this model. It only registers configuration records.
- TestFunctions.TestFunctionSolver.Forward: `eval` of the configured function name is replaced by the enumeration `TestFunction`.

## Findings

| source | as written | input that shows it | evidently intended | confidence | as-written member | corrected member |
|---|---|---|---|---|---|---|
| nigbms/modules/tasks.py:50 | when exactly one task has a ground truth `x`, `torch.equal(self.x, other.x)` is called with `None` and raises `TypeError` | two copies of the dense test task that differ only in `x = None` versus `x = [1, 1, 1]` | the tasks compare unequal (`False`) | high, not executed | Tasks.TorchEqAsWritten | Tasks.TorchEq |
| nigbms/modules/tasks.py:69 | when exactly one task has a ground truth `x`, `self.x.equal(other.x)` is called on or with `None` and raises | two copies of the sparse test task that differ only in `x = [1, 1, 1]` versus `x = None` | the tasks compare unequal (`False`) | high, not executed | Tasks.PetscEqAsWritten | Tasks.PetscEq |
