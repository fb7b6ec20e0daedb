# alan_simplified: log-probability trees, K reduction and the P/Q structure check

This project models two parts of the `alan_simplified` importance-sampling library in Dafny and proves their properties.

- **The `LP_Plate` tree** (`alan_simplified/LP.py`, `LogProb` module). Every node holds three things:
  - `lps`: a dictionary from names to log-probability tensors or nested plates;
  - `active_platedims`: the active plate axes, innermost last;
  - `Kdims`: a dictionary from every latent variable's name to its own K (sample) axis.
- **Its three operations**, each a function over this value:
  - `minus_logQ`: the importance weight `log P - log Q`, recursively through shared sub-plates;
  - `minus_logK`: subtracts `log K` from every entry;
  - `sum`: collapses the tree post-order.
- **The K reduction behind `sum`** (`Reduction` module): `einsum_args` and `reduce_Ks`.
  - `reduce_Ks` eliminates every K axis along a contraction path.
  - At each step it removes the selected tensors from the working list and appends their log-sum-exp.
  - It sums out exactly those Ks that no remaining tensor still carries.
  - Both are loop methods, proved equal to the functions (`EinsumOperands`, `Reduced`) that the rest of the model uses.
- **The structure checker** (`alan_simplified/checking.py`, `Checking` module). It checks that the target model P, the proposal Q and the data agree:
  - on names at every plate level;
  - on the kind of every entry (distribution, group, plate);
  - on every distribution's support.

The data are abstracted as follows.

- **Dictionaries** are association lists (`Dicts` module), in insertion order.
  - Order matters: the contraction path indexes `[*lps.values()]`, and every loop stops at the first failing name in iteration order.
  - The trees are valid (`LogProb.Valid`, `Checking.DistinctDicts`) when keys are unique, as in a Python dictionary.
- **Axes**: an axis is an identity plus a size. Datatype equality stands for Python's `is`.
- **Tensors**: a tensor is its named axes, its count of positional dimensions and a symbolic `Term` for its values (`Tensors` module).
  - Subtraction, `- log(K)`, the log-sum-exp of a sum and the plate sum are term constructors.
  - This states the numeric operations exactly, without floating point.
- **Failures**: every assertion and exception of the source is an `Err`/`Fail` value with its own error constructor.
- **The path search**: `opt_einsum`'s contract-path search is the `planner` parameter. `PlannerFits` assumes it returns a path that fits the list it is given: every step is a non-empty set of distinct, valid positions.

The node-local parts of two recursions are function-typed parameters. The generic recursions are `SumWith` over a `NodeStep`, `DiffWith` over a `HeadCheck` and a `NodeBuild`, and `NormEntries` over an `EntryStep`. The source's operations are these recursions instantiated with their own steps:

- `Sum` uses `SumStep(planner)`;
- `MinusLogQ` uses `QMismatch` and `Rebuild`;
- `MinusLogK` uses `NormStep(kdims)`.

This keeps the lemmas about the recursion apart from the lemmas about each node.

## Model

| member | source | states |
|---|---|---|
| `LogProb.FirstOrphan` | alan_simplified/LP.py:24-25 | finds no position exactly when every K name is a name of `lps`; otherwise the position of a K name that is missing |
| `LogProb.NewLPPlate` | alan_simplified/LP.py:9-29 | the constructor succeeds iff every K name names a log-probability (not conversely); it stores exactly the given lps, plate axes and Kdims; on failure it names a K that has no log-probability |
| `LogProb.FirstKdimClash` | alan_simplified/LP.py:39-40 | finds no name iff every K name of P maps, in Q, to the very same axis |
| `LogProb.FirstStranger` | alan_simplified/LP.py:43-46 | no error iff every name of Q is in P with an entry of the same kind; otherwise the error is MissingInP or KindMismatch for such a name |
| `LogProb.QMismatchMatched` | alan_simplified/LP.py:34-46 | the head assertions of `minus_logQ` pass iff P and Q have equal plate axes, the same K axis under every name, and every Q name in P with the same kind |
| `LogProb.DiffEntries` | alan_simplified/LP.py:49-59 | on success, the new entries have P's names, in P's order |
| `LogProb.DiffEntriesAccepts` | alan_simplified/LP.py:50-59 | the entry loop succeeds iff the difference of every sub-plate that P and Q share succeeds |
| `LogProb.DiffEntriesValues` | alan_simplified/LP.py:50-59 | each new entry is P's tensor minus Q's tensor, the difference of the shared sub-plates, or P's entry unchanged |
| `LogProb.DiffEntriesValid` | alan_simplified/LP.py:50-59 | every sub-plate in the new entries is valid when P's sub-plates and the shared sub-plates' differences are |
| `LogProb.MinusLogQUnfold` | alan_simplified/LP.py:61 | on a valid P, `minus_logQ` succeeds iff its assertions and its entry loop do, and the final `LP_Plate` construction never raises |
| `LogProb.MinusLogQShape` | alan_simplified/LP.py:49-61 | the result has exactly P's names in P's order, P's plate axes and P's Kdims |
| `LogProb.MinusLogQValid` | alan_simplified/LP.py:31-61 | the result on valid trees is itself a valid tree at every level |
| `LogProb.MinusLogQAccepts` | alan_simplified/LP.py:31-61 | `minus_logQ` succeeds iff the trees are congruent: the head assertions hold at the top and, recursively, at every shared sub-plate |
| `LogProb.MinusLogQValues` | alan_simplified/LP.py:49-61 | entry by entry: a tensor in both becomes P minus Q; a sub-plate in both becomes the recursive `minus_logQ` of the pair; a name only in P is passed through; kinds never differ |
| `LogProb.DiffEntriesAsWritten` | alan_simplified/LP.py:50-59 | as written, the entry loop fails only at a sub-plate of P whose name is in Q |
| `LogProb.DiffEntriesAsWrittenAgrees` | alan_simplified/LP.py:50-59 | the loop as written succeeds iff no sub-plate of P shares its name with Q, and then agrees with the recursive difference |
| `LogProb.MinusLogQAsWrittenFails` | alan_simplified/LP.py:57 | as written, `minus_logQ` succeeds iff the assertions pass and no sub-plate name is shared; where it succeeds it equals the recursive `minus_logQ` |
| `LogProb.MinusLogQAsWrittenCounterexample` | alan_simplified/LP.py:57 | a tree with one empty sub-plate, weighted against itself, makes the code as written raise, while the recursion returns the tree |
| `LogProb.FirstForeign` | alan_simplified/LP.py:73-76 | finds no axis iff no axis of the tensor belongs to the given set; otherwise an axis in both |
| `LogProb.NormEntry` | alan_simplified/LP.py:68-78 | one entry succeeds iff its name has a K axis of positive size, it is a tensor, and it carries no other K axis; the result is `lp - log(K.size)`; each failure names the entry |
| `LogProb.NormEntries` | alan_simplified/LP.py:67-79 | on success the loop yields one entry per entry of the node |
| `LogProb.NormEntriesKeys` | alan_simplified/LP.py:67-79 | the loop keeps every entry's name in place |
| `LogProb.NormEntriesValues` | alan_simplified/LP.py:67-79 | each entry of the loop's result is what the step made of the entry at the same position |
| `LogProb.NormEntriesAccepts` | alan_simplified/LP.py:67-79 | the loop succeeds iff the step succeeds on every entry |
| `LogProb.NormEntriesFails` | alan_simplified/LP.py:67-79 | a failing loop raises the error of the first entry whose step fails; every earlier entry succeeded |
| `LogProb.NormStepAccepts` | alan_simplified/LP.py:68-78 | the step of `minus_logK` accepts every entry iff every entry can be normalised |
| `LogProb.NormItemOk` | alan_simplified/LP.py:68-78 | an accepted entry is a tensor with a K axis, and it becomes that tensor minus the log of its K size under the same name |
| `LogProb.MinusLogKUnfold` | alan_simplified/LP.py:80 | on a valid tree the final construction of `minus_logK` never raises |
| `LogProb.MinusLogKAccepts` | alan_simplified/LP.py:63-80 | on a valid tree `minus_logK` succeeds iff every entry has its K axis (of positive size), is a tensor and carries no other name's K axis |
| `LogProb.MinusLogKValues` | alan_simplified/LP.py:63-80 | each result entry is P's tensor minus the log of its own K size under the same name; plate axes and Kdims are kept |
| `LogProb.MinusLogKValid` | alan_simplified/LP.py:80 | after `minus_logK` the names with a K axis are exactly the entry names, and a valid tree stays valid |
| `LogProb.MinusLogKFails` | alan_simplified/LP.py:68-78 | a failing `minus_logK` on a valid tree raises the error of the first entry that cannot be normalised |
| `LogProb.SumInnermost` | alan_simplified/LP.py:101-102 | with no plate the tensor is returned unchanged; otherwise only the innermost plate axis is summed out, and it fails when the tensor lacks that axis |
| `LogProb.SumEntries` | alan_simplified/LP.py:92-98 | on success the loop yields one tensor per entry |
| `LogProb.SumEntriesValues` | alan_simplified/LP.py:92-98 | a tensor entry is kept as it is; a sub-plate entry is replaced by its own sum |
| `LogProb.SumEntriesAccepts` | alan_simplified/LP.py:92-98 | the loop succeeds iff every sub-plate's sum succeeds |
| `LogProb.SumSummands` | alan_simplified/LP.py:85-104 | below the optional plate sum over the innermost plate, the node's sum holds each summand of the summed entries exactly once: all Ks are reduced jointly |
| `LogProb.SumAxes` | alan_simplified/LP.py:100-104 | after a non-empty path the sum carries exactly the entries' axes that are neither a K axis of the node nor its innermost plate |
| `Tensors.UnifyDims` | alan_simplified/LP.py:119 | `unify_dims`: a duplicate-free list of exactly the tensors' axes |
| `Tensors.Subtract` | alan_simplified/LP.py:55 | `lp - lq` carries the union of the operands' axes |
| `Tensors.LogSumExpSum` | alan_simplified/LP.py:164-166 | the result carries exactly the group's axes minus the summed Ks, without repetition; Ks the group lacks are ignored |
| `Tensors.SumOver` | alan_simplified/LP.py:102 | the plate sum is defined iff the tensor carries the plate, and it removes exactly that axis |
| `Reduction.IndexIn` | alan_simplified/LP.py:120 | `dim_to_idx[x]` is the position of the first occurrence of `x` |
| `Reduction.IndexInBijective` | alan_simplified/LP.py:120 | on the duplicate-free unified axes, `dim_to_idx` numbers the axes 0..n-1, each axis by its own position |
| `Reduction.EinsumOperands` | alan_simplified/LP.py:107-133 | `einsum_args` fails iff a tensor has positional dimensions; it returns 2·n+1 arguments; the output axes are exactly the axes not summed |
| `Reduction.EinsumOperandsMeaning` | alan_simplified/LP.py:119-133 | arguments alternate each operand (axes made positional) and its index list, which lists that tensor's axes in order; the last list holds exactly the indices of the axes not summed |
| `Reduction.EinsumArgs` | alan_simplified/LP.py:107-133 | the loop method returns exactly `EinsumOperands` |
| `Reduction.Selected` | alan_simplified/LP.py:149 | `lps_to_reduce` holds the tensors at the step's positions, in the step's order |
| `Reduction.Partition` | alan_simplified/LP.py:149-150 | a step splits the working list: every tensor is selected or kept, exactly once, and |step| tensors leave |
| `Reduction.RestMembers` | alan_simplified/LP.py:150 | the kept tensors are exactly those at positions outside the step |
| `Reduction.Dropped` | alan_simplified/LP.py:153 | `_Ks_to_sum` holds exactly the requested Ks that no kept tensor carries |
| `Reduction.Step` | alan_simplified/LP.py:147-156 | one step shrinks the working list by |step| - 1 |
| `Reduction.StepNewTensor` | alan_simplified/LP.py:149-156 | the kept tensors stay in order, followed by one new tensor; its axes are the union of the selected tensors' axes minus the Ks no kept tensor carries; a K still carried by a kept tensor is not eliminated |
| `Reduction.StepAxes` | alan_simplified/LP.py:153-156 | a step removes from the list's axes exactly the Ks that no kept tensor carries |
| `Reduction.StepSummands` | alan_simplified/LP.py:156 | a step neither loses nor duplicates a summand |
| `Reduction.RunPathAxes` | alan_simplified/LP.py:147-156 | along a path only requested Ks ever disappear |
| `Reduction.RunPathSummands` | alan_simplified/LP.py:147-156 | along a path every input summand is kept exactly once |
| `Reduction.RunPathClears` | alan_simplified/LP.py:153-159 | when a non-empty path ends with one tensor, that tensor carries none of the Ks |
| `Reduction.ReduceKs` | alan_simplified/LP.py:135-162 | the loop method returns exactly `Reduced` |
| `Reduction.ReductionFails` | alan_simplified/LP.py:142-162 | `reduce_Ks` fails on repeated Ks and on positional dimensions; otherwise it succeeds iff the path leaves exactly one tensor |
| `Reduction.ReductionSummands` | alan_simplified/LP.py:147-162 | the result, with nested log-sum-exps flattened, holds every input exactly once |
| `Reduction.ReductionEmptyPath` | alan_simplified/LP.py:159-162 | with an empty path the single input is returned unreduced |
| `Reduction.ReductionEliminatesKs` | alan_simplified/LP.py:153-162 | after a non-empty path the result carries exactly the input axes that are not requested Ks |
| `Checking.MismatchNames` | alan_simplified/checking.py:21-28 | passes iff the two name sets are equal; the P-only set is reported when non-empty, the Q-and-data-only set only otherwise (and is then non-empty) |
| `Checking.MismatchNamesExample` | alan_simplified/checking.py:23-28 | with a name missing on each side, only the P-only name is reported |
| `Checking.CheckSupport` | alan_simplified/checking.py:9-13 | passes iff the supports are equal; the failure names the variable and both supports |
| `Checking.CheckSupportAsWritten` | alan_simplified/checking.py:9-13 | as written, passes iff the supports are equal |
| `Checking.CheckSupportAsWrittenCounterexample` | alan_simplified/checking.py:13 | on differing supports the code as written raises a NameError for `nameP` instead of its message |
| `Checking.CheckMembers` | alan_simplified/checking.py:17-19 | the member loop passes iff every member of P has the same support in Q |
| `Checking.CheckPQGroup` | alan_simplified/checking.py:15-19 | a group passes iff P and Q map every name to the same support, which covers both the names and the supports |
| `Checking.Leaves` | alan_simplified/checking.py:43 | `tree_values(data)` has exactly the names of the tensors directly in this plate's data |
| `Checking.CheckDataIsDist` | alan_simplified/checking.py:51-54 | passes iff every data name is a single distribution in P; a failure is a data-kind error naming this plate, or a missing name |
| `Checking.LookupP` | alan_simplified/checking.py:60 | `P.prog[name]` finds the entry filed under the name, and only a missing name finds nothing |
| `Checking.DataAreDists` | alan_simplified/checking.py:49-54 | the data check passes iff every data name maps to a distribution in P |
| `Checking.PlateNames` | alan_simplified/checking.py:41-44 | the name check passes iff P's names are exactly Q's names together with the data's |
| `Checking.QEntryMatches` | alan_simplified/checking.py:57-76 | one entry of Q passes iff P has an entry of the same kind under that name (equal support, same group, matching sub-plate), and the rest pass |
| `Checking.QEntriesMatch` | alan_simplified/checking.py:57-76 | the entry loop passes iff every entry of Q corresponds to P's entry |
| `Checking.PlateMatches` | alan_simplified/checking.py:32-76 | `check_PQ_plate` passes iff P, Q and the data match at every level: names, data kinds and entry kinds |
| `Checking.MatchesNames` | alan_simplified/checking.py:44-76 | matching trees have equal name sets at every nesting level |
| `Checking.PlateNamesEverywhere` | alan_simplified/checking.py:32-76 | when `check_PQ_plate` passes, the name sets match at every nesting level |
| `Checking.PEntriesAsWrittenBlind` | alan_simplified/checking.py:57-76 | the entry loop as written never reports a kind or support mismatch |
| `Checking.PlateAsWrittenBlind` | alan_simplified/checking.py:57-76 | `check_PQ_plate` as written never reports a kind or support mismatch, at any level |
| `Checking.PlateAsWrittenMissesSupport` | alan_simplified/checking.py:57 | P and Q differ in one support: the code as written passes, the intended check fails with the support mismatch |
| `Checking.PlateAsWrittenNeedsData` | alan_simplified/checking.py:76 | a sub-plate without data: the code as written raises KeyError, the intended check passes |

## Left out

- **Floating point.** Tensor values, `math.log`, `logsumexp_dims` and the plate sum are symbolic terms. No real arithmetic is modelled.
- **The contraction-path search.** `opt_einsum.contract_path` (LP.py:145) is the `planner` parameter. That its path fits the list is an assumption (`PlannerFits`), not a proof, and the cost optimisation is not modelled.
- **`checkpoint`.** `checkpoint(..., use_reentrant=False)` (LP.py:156) only controls autodiff memory. It is a plain call of the step.
- **The `.utils` helpers**, which are not part of this model: `generic_dims`, `unify_dims`, `generic_order`, `is_dimtensor`, `assert_unique_dim_iter`. They are specified as:
  - the tensor's axes;
  - a duplicate-free union in first-occurrence order;
  - `Shape` of the positional copy;
  - `positional == 0`;
  - `Distinct`.
- **Axis order of broadcast results.** The order of a broadcast result's axes belongs to the runtime. The model uses first-occurrence order, so contracts about axes speak of sets.
- **Positional dimensions of a broadcast.** Subtracting tensors with positional dimensions takes the larger count, not a broadcast shape.
- **The `Plate`, `Group`, `Dist` and `tree_values` internals** are not part of this model.
  - A support is an opaque value compared with `==`.
  - Data is a dictionary of tensors and nested dictionaries.
  - A sub-plate with no data dictionary has no data (`SubData`).
- **`examples/predictive_example.py`** is a driver script: sampling, parameter binding and printing. It has no logic to model.
- **Error messages** are error constructors with the names involved, not formatted strings.
- **`mismatch_names` reporting.** It reports only the P-only names when there are any, and the Q-only names otherwise, as the code does. It never reports both sets at once.
- **Unreachable failures.**
  - `MissingKey` in `CheckMembers` and `CheckQEntries` cannot happen after the name check, a `KeyError` in the code.
  - `Combine`, `SumStep` and `Sum` have no ensures of their own. What they compute is stated by `SumEntriesValues`, `SumSummands` and `SumAxes`.
- **`SubtractLog`, `MinusLogQ`, `MinusLogK`, `DiffWith` and `Reduced`** have no ensures of their own either. Their meaning is stated by the lemmas in the table.
- **`MinusLogKAccepts` and `MinusLogKFails`** need a valid tree. On an invalid one, the final construction can also raise `KdimWithoutLp`.
- **Immutability.** The receiver is never modified: the tree is a value, so this holds by construction and is not stated separately.

## Findings

| source | as written | input that shows it | evidently intended | confidence | as-written member | corrected member |
|---|---|---|---|---|---|---|
| alan_simplified/LP.py:57 | a shared sub-plate calls `lp.difference(lq)`, which `LP_Plate` does not define, so it raises AttributeError | P = Q = a tree with one empty sub-plate `x` | recurse with `lp.minus_logQ(lq)` | not executed; high | `LogProb.MinusLogQAsWrittenCounterexample` | `LogProb.MinusLogQAccepts` |
| alan_simplified/checking.py:57 | the loop iterates `P.prog.items()` and compares every entry of P with itself, so kind and support mismatches are never found | P = {a: Dist(support 1)}, Q = {a: Dist(support 2)}, no data | iterate `Q.prog.items()`, as the comment at line 56 and the messages at lines 62, 68 and 75 say | not executed; high | `Checking.PlateAsWrittenMissesSupport` | `Checking.PlateMatches` |
| alan_simplified/checking.py:13 | the message reads the undefined `nameP`, so a support mismatch raises NameError | supports 1 and 2 for `x` | report `name` and both supports | not executed; high | `Checking.CheckSupportAsWrittenCounterexample` | `Checking.CheckSupport` |
| alan_simplified/checking.py:76 | `data[name]` raises KeyError when a sub-plate has no data dictionary | P = Q = {p: Plate({})}, data = {} | a sub-plate without data is checked against empty data | not executed; medium | `Checking.PlateAsWrittenNeedsData` | `Checking.PlateMatches` |
