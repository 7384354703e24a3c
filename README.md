# numbagg NaN-aware kernels and grouped reduction, in Dafny

This project models two pieces of numbagg, a library of NaN-aware
reductions over numeric arrays.

1. The flat-buffer kernels of `numbagg/funcs.py`: `allnan`, `anynan`,
   `count`, `nansum`, `nanmean`, `nanvar`, `nanstd`, `nanargmax`,
   `nanargmin`, `nanmax` and `nanmin`. Each one walks the flattened input and
   returns one scalar. NaN counts as missing data. The arg-extremum kernels
   return the sentinel `-1` when nothing is present. `nanmax` and `nanmin`
   return NaN in that case.
2. `group_func`, which `group_wrapper(func)` in `numbagg/grouped.py` builds.
   It gives every one of the `out.size` groups a buffer seeded with one NaN.
   It appends each value to the buffer of its label when the label is
   non-negative. It then writes `func(buffer)` into `out[i]`.

Elements are modelled by `Floats.F = NaN | NegInf | PosInf | Fin(r: real)`.
The comparisons `Lt`, `Le`, `Gt`, `Ge` and `Eq` follow IEEE 754: any
comparison with NaN is false. Finite values are exact reals, so the model
has no rounding.

Modules:

- `Floats` (Floats.dfy): the element type and the IEEE comparisons.
- `Reductions` (Reductions.dfy): reference definitions and the lemmas proved
  about them. `Present` gives the non-NaN elements in order. `CountOf`,
  `SumOf`, `MeanOf`, `VarOf` and `StdOf` are defined from it.
- `Funcs` (Funcs.dfy): one method per kernel. Each has the loops,
  accumulators, early `break`s and sentinels of the source. Each is proved
  against `Reductions`, or against the property the source promises, stated
  outright.
- `Grouped` (Grouped.dfy): `GroupFunc` takes the aggregate `func` as a
  parameter. It keeps `grouped` as a local `seq<seq<F>>` and writes `out`,
  an `array<F>`, in place. `Positions`, `Members` and `Group` specify which
  values land in which buffer, and in what order.

Two behaviours of the source are worth stating plainly.

- `zip` at numbagg/grouped.py:26 stops at the shorter of labels and values,
  and `group_func` itself never compares their lengths. Any shape check would
  sit in the `groupndreduce` decorator, which is not part of this model (see
  "## Left out"). `Grouped.ZipLength` and `Grouped.GroupZipTruncation` model
  the truncation.
- `anynan` is not the negation of `allnan` on non-empty input: `[NaN]` makes
  both true (`Reductions.HasNaNNotComplementOfAllNaN`). What holds is that
  allnan implies anynan on non-empty input (`Reductions.AllNaNImpliesHasNaN`).

## Model

| member | source | states |
|---|---|---|
| Funcs.AllNan | numbagg/funcs.py:7-13 | result is true iff every element is NaN (so true on empty input); the early `break` at the first present element does not change this |
| Funcs.AnyNan | numbagg/funcs.py:17-23 | result is true iff some element is NaN (so false on empty input), with the early `break` |
| Reductions.AllNaNImpliesHasNaN | numbagg/funcs.py:7-23 | on non-empty input, allnan implies anynan |
| Reductions.HasNaNNotComplementOfAllNaN | numbagg/funcs.py:7-23 | `[NaN]` is both all-NaN and has a NaN, so anynan is not the negation of allnan |
| Funcs.Count | numbagg/funcs.py:27-32 | the counter equals the number of present (non-NaN) elements and lies in [0, \|a\|] |
| Reductions.CountBounds | numbagg/funcs.py:27-32 | 0 <= count <= \|a\|; count == \|a\| iff no element is NaN; count == 0 iff every element is NaN |
| Funcs.NanSum | numbagg/funcs.py:36-41 | the result is the sum of the present elements |
| Reductions.SumOfCases | numbagg/funcs.py:36-41 | nansum is 0 when nothing is present and the plain sum when nothing is NaN; these are facts about the model's `SumOf`, which reads an infinity as 0 and which the kernels use only on inputs with no infinities |
| Funcs.SumAndCount | numbagg/funcs.py:46-51 | the first loop of nanmean, nanvar and nanstd yields the sum and the number of the present elements |
| Funcs.NanMean | numbagg/funcs.py:45-55 | the result is the sum divided by the count when the count is positive, and NaN otherwise |
| Reductions.MeanOfCases | numbagg/funcs.py:45-55 | nanmean is NaN iff every element is NaN, and the plain mean when nothing is NaN; the value clause is about the model's `MeanOf`, which the kernels use only on inputs with no infinities |
| Reductions.MeanBounds | numbagg/funcs.py:45-55 | the mean of the present elements lies between any lower and upper bound of their values |
| Funcs.SquaredDeviationPass | numbagg/funcs.py:92-96 | the second pass yields the sum of squared deviations of the present elements from the mean |
| Funcs.NanVar | numbagg/funcs.py:81-99 | the result is the two-pass population variance (ddof 0) of the present elements, NaN when the count does not exceed ddof |
| Reductions.VarOfCases | numbagg/funcs.py:58-99 | nanvar and nanstd are NaN iff every element is NaN; otherwise the model's variance is finite and non-negative (the kernels use it only on inputs with no infinities, where numpy agrees) |
| Reductions.VarOfConstant | numbagg/funcs.py:81-99 | nanvar is 0 when something is present and every present element is the same finite value |
| Funcs.NanStd | numbagg/funcs.py:59-77 | the result is `sqrt` of nanvar, for `sqrt` given as a parameter, and NaN when nothing is present |
| Funcs.NanArgMax | numbagg/funcs.py:103-118 | -1 iff every element is NaN (empty included); otherwise the index of a present element that is >= every present element, and every present element before it is strictly smaller, so it is the first maximum, including the first `-inf` found by the second pass |
| Funcs.NanArgMin | numbagg/funcs.py:122-135 | symmetric to NanArgMax: -1 iff all NaN; otherwise the first index of a smallest present element, including the first `+inf` found by the second pass |
| Funcs.NanMax | numbagg/funcs.py:139-148 | NaN iff every element is NaN; otherwise an element of the input that is >= every present element, `-inf` included |
| Funcs.NanMin | numbagg/funcs.py:152-161 | NaN iff every element is NaN; otherwise an element of the input that is <= every present element, `+inf` included |
| Reductions.ExtremumUnique | numbagg/funcs.py:103-161 | two present elements that both bound every present element from above are equal, so the contracts of nanmax and nanargmax pin one value |
| Reductions.PresentSeed | numbagg/grouped.py:23-24 | a leading NaN is not a present element |
| Reductions.NaNSeedHarmless | numbagg/grouped.py:23-32 | prepending a NaN changes none of count, nansum, nanmean, nanvar and nanstd |
| Reductions.SeedOnly | numbagg/grouped.py:23-24 | the buffer `[NaN]` has count 0 and sum 0, and NaN mean, variance and standard deviation |
| Grouped.GroupFunc | numbagg/grouped.py:18-32 | needs every non-negative label reached by `zip` to be below `out.size`; afterwards every slot `out[g]`, for g in [0, out.size), is `func` of `[NaN]` followed by the values labelled g, in order of appearance; nothing but `out` changes |
| Grouped.PositionsExact | numbagg/grouped.py:26-28 | a position is in group g's list iff zip reaches it and its label is g; the list is strictly increasing (order of appearance) |
| Grouped.MembersAtPositions | numbagg/grouped.py:26-28 | the values of group g are exactly the values at group g's positions, in that order |
| Grouped.PositionLandsOnce | numbagg/grouped.py:26-28 | a position zip reaches lands in the buffer of its own label and in no other; a negative label puts it in no buffer |
| Grouped.GroupZipTruncation | numbagg/grouped.py:19-26 | only the first min(\|labels\|, \|values\|) positions matter to any group |
| Grouped.MembersFinite | numbagg/grouped.py:26-28 | when no value with a non-negative label is infinite, every group buffer is free of infinities, so it meets the requirement of the sum-based kernels |
| Grouped.EmptyGroup | numbagg/grouped.py:23-32 | a group with no values yields 0 under nansum and NaN under nanmean and nanstd |
| Grouped.MeanExample | numbagg/grouped.py:18-32 | values [10, 20, 30, 40] with labels [0, 1, 0, -1] give groups [10, 30] and [20], both with mean 20; 40 is in no group |
| Grouped.GroupNanMean | numbagg/grouped.py:37 | when no value landing in a group is infinite: with nanmean as `func`, each slot is the mean of its group's values, without the seed |
| Grouped.GroupNanSum | numbagg/grouped.py:38 | when no value landing in a group is infinite: with nansum as `func`, each slot is the sum of its group's values, without the seed |
| Grouped.GroupNanStd | numbagg/grouped.py:39 | when no value landing in a group is infinite: with nanstd as `func`, each slot is the standard deviation of its group's values, without the seed |

## Left out

- The `ndreduce` and `groupndreduce` decorators (numbagg/funcs.py:3, numbagg/grouped.py:6) are not part of this model. So are axis handling, broadcasting, the dtype signature tables and the compiled-kernel cache behind them. They are JIT plumbing. Every kernel takes the already-flattened input as a `seq<F>`. `ravel` at numbagg/grouped.py:19-20 is assumed already done.
- float32 versus float64, rounding and overflow are not modelled. Finite elements are exact reals.
- Funcs.NanSum: requires an input with no infinities, because IEEE addition of infinities (`inf + -inf` is NaN) is not modelled.
- Funcs.SumAndCount: requires an input with no infinities, for the same reason; its loop is the first pass of nanmean, nanvar and nanstd.
- Funcs.SquaredDeviationPass: requires an input with no infinities, for the same reason; with an infinity the source's `ai - amean` would be inf or NaN.
- Funcs.NanMean: requires an input with no infinities, for the same reason.
- Funcs.NanVar: requires an input with no infinities, for the same reason.
- Funcs.NanStd: requires an input with no infinities. `np.sqrt` is a parameter `sqrt: real -> real` that the model does not interpret. The source repeats nanvar's two loops inside nanstd; the model calls `NanVar` instead, which gives the same result.
- Funcs.Count: the result is an unbounded integer, not an int64. No input that fits in memory can reach the int64 limit.
- Grouped.GroupNanMean: requires that no value landing in a group is infinite, because the nanmean definition does not model infinity arithmetic (`np.nanmean` of `[inf, 1]` is inf).
- Grouped.GroupNanSum: requires that no value landing in a group is infinite, for the same reason (`np.nansum` of `[inf]` is inf).
- Grouped.GroupNanStd: requires that no value landing in a group is infinite, for the same reason (`np.nanstd` of `[inf]` is NaN).
- Grouped.GroupNanMean: the source binds numpy's `np.nanmean`, a library function the model cannot see. The model uses nanmean from `Reductions` instead. The same holds for Grouped.GroupNanSum (`np.nansum`) and Grouped.GroupNanStd (`np.nanstd`).
- Grouped.GroupFunc: the source raises IndexError at `grouped[l]` (numbagg/grouped.py:28) for a label at or above `out.size`, before the write loop, so `out` stays untouched. The model rules this case out by a precondition instead of modelling the exception.
- Grouped.GroupFunc: `grouped` is a sequence of sequences, not a list of mutable lists. Each inner list is created fresh and never shared, so no aliasing is lost.
- `median` and `nanmedian`, with their selection algorithm, are not part of the modelled files.
- The strict policy, which raises an error on empty or all-NaN input, is not implemented by the modelled code. Only the `-1` sentinel and NaN results are modelled.
