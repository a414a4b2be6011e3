# Fare transformation, modelled in Dafny

This project models the fare transformation of the revpy revenue-management
library, as found in `revpy/fare_transformation.py`. It covers three functions:

- **`calc_fare_transformation`** takes nested fare classes (highest fare
  first), their demand forecasts and an optional capacity. It builds the
  cumulative-demand curve Q and the total-revenue curve TR. It reduces them
  to the efficient nesting strategies and returns each class's adjusted
  (marginal) fare and adjusted (incremental) demand. Classes that were
  removed get NaN.
- **`efficient_strategies`** is the recursive reduction. Each pass computes
  marginal fares against the previous strategy and patches the top class and
  the 0/0 cases. It stops when no marginal fare is negative. Otherwise it
  drops the negative strategies and recurses.
- **`fare_trafo_decorator`** adapts any protection-level optimizer. The
  optimizer runs on the efficient classes only, and its levels are scattered
  back to one slot per class.

The model is purely functional, like the source: the source is vectorised
numpy with no loops and no state kept between calls, so there are no loops
to model. The in-place writes are a sequence update (`adjusted_fares[0] = ...`) and
two comprehensions (`Q[Q > cap] = cap` and `adjusted_fares[isnan] = -1`).

Representation choices:

- Floats are `real`.
- A float division is `ExtReal.Div`. It gives `Finite`, `PosInf`, `NegInf` or
  `NaN`, following IEEE division by zero.
- A NaN slot in an output vector is `None`.
- Exceptions are `Err` values:
  - `UnsupportedFareStructure`;
  - `InvalidFareOrder`, from the fare-order check;
  - `IndexError`, from `fares[0]` or `adjusted_demand[0]` on an empty vector;
  - `ShapeMismatch`, when the optimizer returns a number of levels other than
    the number of efficient classes (an assumption about `fill_nan`, see
    "Left out").

Modules:

- `ExtReal`: extended-real division and the float comparisons `>= 0` and `< 0`.
- `Indexing`: the numpy indexing primitives, namely `np.arange`, `v[idx]`,
  `np.where`, `~np.isnan`, and `fill_nan` with its round trip.
- `Aggregation`: `cumsum`, the capacity clip, `fares * Q` and first
  differences.
- `Reducer`: one pass of `efficient_strategies` and the recursion.
- `FareTransformation`: `calc_fare_transformation`.
- `OptimizerAdapter`: the wrapper returned by `fare_trafo_decorator`. The
  optimizer is a function-valued first argument.
- `WorkedCases`: the transformation computed on two concrete fare structures.

### Behaviour worth knowing

- **Fares 100, 80, 60 with demands 10, 20, 30.** No class is removed, yet the
  adjusted fares are the marginal revenues 100, 70 and 40 (lines 54-55), not
  the fares themselves (`WorkedCases.NoClassRemoved`).
- **Fares 100, 80, 75, 50 with demands 10, 5, 100, 30.** The first pass gives
  the marginal fares 100, 40, 74.25 and -1375/30, so lines 74-77 remove only
  the last class and the second pass keeps the other three
  (`WorkedCases.InefficientLastClass`).
- **Removed classes get NaN protection levels, not 0.** The wrapper scatters
  the optimizer's levels with `fill_nan` at lines 101-102
  (`OptimizerAdapter.ProtectionLevels`).
- **A negative top fare raises `IndexError`.** Every pass removes position 0
  (lines 74-77), the curve becomes empty, and `adjusted_demand[0]` on line 58
  raises (`Reducer.ReduceRejectsNegativeTop`, `FareTransformation.SucceedsIff`).
- **The all-zero fallback at lines 103-106 is dead code**, although its
  comment says it handles the case of no efficient strategy. Whenever the
  transformation returns, at least one class is efficient
  (`OptimizerAdapter.FallbackUnreachable`).
- **Degenerate inputs.** With negative demands or a negative capacity, a
  surviving adjusted fare can be `+inf` (lines 55 and 69,
  `Reducer.DroppedIff`). On non-negative demands and capacity every survivor
  is finite (`FareTransformation.FiniteOnWellFormedInput`).

## Model

| member | source | states |
|---|---|---|
| ExtReal.Div | revpy/fare_transformation.py:55 | The quotient is finite exactly when the denominator is non-zero, and then it times the denominator gives the numerator. Over zero it is +inf, -inf or NaN as the numerator is positive, negative or zero. |
| ExtReal.AtLeastZero | revpy/fare_transformation.py:69 | The float comparison `x >= 0` on an extended real: true on non-negative finite values and on +inf, false on negative values, -inf and NaN. |
| ExtReal.BelowZero | revpy/fare_transformation.py:74 | The float comparison `x < 0` on an extended real: true on negative finite values and on -inf, false on non-negative values, +inf and NaN. |
| ExtReal.ComparisonsSplit | revpy/fare_transformation.py:69-77 | `x >= 0` and `x < 0` never both hold, and one of them holds exactly when `x` is not NaN, so NaN is the only value that is neither efficient nor removed. |
| Indexing.Range | revpy/fare_transformation.py:65-66 | `np.arange(0, n)` has length n and holds k at position k. |
| Indexing.Select | revpy/fare_transformation.py:75-77 | `v[idx]` has one entry per index, and entry k is `v[idx[k]]`. |
| Indexing.Where | revpy/fare_transformation.py:74-77 | The positions of a mask are in range and strictly increasing. A position is listed exactly when the mask holds there. A mask with a false entry lists fewer positions than its length. |
| Indexing.WhereFirst | revpy/fare_transformation.py:74-77 | A mask that holds at position 0 lists position 0 first. |
| Indexing.IncreasingUnique | revpy/fare_transformation.py:74-77 | Two strictly increasing index vectors with the same elements are equal. |
| Indexing.FillNan | revpy/fare_transformation.py:35-39 | `fill_nan(size, idx, vals)` has length size. A slot is present exactly when its position is in idx. For increasing idx, slot `idx[k]` holds `vals[k]`. |
| Indexing.FillNanRoundTrip | revpy/fare_transformation.py:35-39 | Reading back a `fill_nan` result gives the inputs. Its present positions are idx, and gathering them gives vals. |
| Indexing.FillNanRange | revpy/fare_transformation.py:35-39 | Scattering onto the first positions fills them in order and leaves the rest NaN. |
| Indexing.Present | revpy/fare_transformation.py:93 | `~np.isnan` holds exactly on the present slots. |
| Indexing.Gather | revpy/fare_transformation.py:98-100 | `v[idx]` on present slots has one value per index, and each is the value in its slot. |
| Indexing.PresentValues | revpy/fare_transformation.py:98-99 | `v[~isnan(v)]` holds, in slot order, the values of the present slots. |
| Aggregation.CumSum | revpy/fare_transformation.py:22 | `cumsum` keeps the length of the demand vector. |
| Aggregation.CumulativeDemand | revpy/fare_transformation.py:22-26 | Q keeps the length of the demand vector. |
| Aggregation.CumulativeDemandAt | revpy/fare_transformation.py:22-26 | Q at class i is the sum of the demands up to class i, replaced by the capacity when it exceeds it. So Q never exceeds the capacity. |
| Aggregation.CumulativeDemandMonotone | revpy/fare_transformation.py:22-26 | With non-negative demands and a non-negative capacity (or none), Q is non-negative and non-decreasing. |
| Aggregation.TotalRevenue | revpy/fare_transformation.py:29 | TR keeps the length of Q. |
| Aggregation.NegativeFaresLose | revpy/fare_transformation.py:29 | With every fare negative, each revenue has the sign opposite to its cumulative demand. |
| Aggregation.Increments | revpy/fare_transformation.py:54 | The first differences keep the length. |
| Aggregation.IncrementsOfCumSum | revpy/fare_transformation.py:22-54 | The first differences of the running sum of the demands are the demands. |
| Aggregation.SumOfIncrements | revpy/fare_transformation.py:54 | The first differences of a non-empty vector add up to its last entry. |
| Reducer.RawFares | revpy/fare_transformation.py:54-55 | There is one quotient per position. |
| Reducer.AdjustedFares | revpy/fare_transformation.py:54-62 | After the patches no adjusted fare is NaN. The top fare is the highest fare whenever the top revenue is the highest fare times the top demand. |
| Reducer.KeepMask | revpy/fare_transformation.py:74-77 | The keep mask has one entry per strategy. |
| Reducer.Efficient | revpy/fare_transformation.py:69 | `all(adjusted_fares >= 0)`: every adjusted fare compares at least zero, the base case of the recursion. |
| Reducer.DropsSome | revpy/fare_transformation.py:73-79 | A pass that is not efficient keeps strictly fewer strategies. This is why the recursion terminates. |
| Reducer.Reduce | revpy/fare_transformation.py:51-79 | An empty Q raises IndexError. On success, the result's fares and demands are those of its own Q and TR, and none of the fares is negative. The result is non-empty and no longer than Q, and its indices are a subset of the given ones. |
| Reducer.EfficientStrategies | revpy/fare_transformation.py:51-79 | With `indices=None`, the survivors are an increasing selection of the positions of Q. The returned Q and TR are the input Q and TR at those positions. |
| Reducer.Passes | revpy/fare_transformation.py:68-79 | The recursion makes at most n+1 calls, and at most n when it succeeds. |
| Reducer.DroppedIff | revpy/fare_transformation.py:54-62 | A strategy is dropped exactly when its marginal fare is negative or 0/0, with the top position deferring to the highest fare. An adjusted fare is +inf exactly when the demand increment is zero below the top and the revenue increment is positive. |
| Reducer.PassShrinks | revpy/fare_transformation.py:69-79 | A pass keeps every strategy exactly when it is efficient. |
| Reducer.ReduceTracksPositions | revpy/fare_transformation.py:72-79 | When the input Q and TR are an increasing selection of an original curve, so are the returned ones, at the returned indices. |
| Reducer.ReduceKeepsTop | revpy/fare_transformation.py:58-79 | With a non-negative highest fare equal to the top revenue per unit, the reduction succeeds. It keeps the top position first, with the highest fare as its adjusted fare. |
| Reducer.ReduceRejectsNegativeTop | revpy/fare_transformation.py:58-79 | With a negative highest fare, and every revenue of sign opposite to its demand, the reduction raises IndexError. |
| Reducer.NegativeTopDropped | revpy/fare_transformation.py:55-62 | Under those conditions the top adjusted fare is negative. |
| Reducer.ReduceFixedPoint | revpy/fare_transformation.py:68-71 | Reducing the returned Q and TR again returns the same result at once. |
| Reducer.AdjustedDemandTelescopes | revpy/fare_transformation.py:54-71 | The returned adjusted demands add up to the last surviving cumulative demand. |
| Reducer.KeptAreFinite | revpy/fare_transformation.py:54-62 | On a curve with strictly decreasing fares and non-negative, non-decreasing Q, every kept adjusted fare is finite. Every kept position below the top has a positive demand increment. |
| FareTransformation.FaresDecreasing | revpy/fare_transformation.py:19 | What `check_fares_decreasing` accepts, read as strictly decreasing fares from the highest class down (its definition is not part of this model). |
| FareTransformation.Reduction | revpy/fare_transformation.py:21-33 | On success the survivors are an increasing selection of the classes. The reduced Q and TR are the classes' own Q and TR. |
| FareTransformation.CalcFareTransformation | revpy/fare_transformation.py:9-48 | An unsupported structure raises first, then unordered fares. On success every output has one slot per class, the four-tuple comes exactly with `return_all`, and the adjusted fare and demand of a class are present together. |
| FareTransformation.Expand | revpy/fare_transformation.py:35-48 | Each output has one slot per class, present exactly at the survivors, and the Q and TR outputs exist exactly with `return_all`. |
| FareTransformation.Unfold | revpy/fare_transformation.py:15-48 | On valid input with a non-negative top fare, the result is the scattered reduction. The reduction keeps class 0 at its own fare. |
| FareTransformation.ReductionKeepsTop | revpy/fare_transformation.py:29-33 | With a non-negative top fare the reduction succeeds and keeps class 0 first at its own fare. |
| FareTransformation.SucceedsIff | revpy/fare_transformation.py:15-33 | The transformation returns exactly when the structure is supported, the fares are strictly decreasing, there is a class, and the top fare is not negative. Otherwise, on a valid structure with ordered fares, it raises IndexError. |
| FareTransformation.ExpandRoundTrip | revpy/fare_transformation.py:35-48 | The scattered outputs hold each survivor's values in its slot. Reading the present slots back gives the survivors and their values. |
| FareTransformation.TopSurvives | revpy/fare_transformation.py:29-39 | The top class is never NaN, and its adjusted fare is its own fare. |
| FareTransformation.Survivors | revpy/fare_transformation.py:32-39 | The present slots are exactly the reduction's survivors, in order. They hold the survivors' adjusted fares and demands. |
| FareTransformation.PresentFaresNonNegative | revpy/fare_transformation.py:32-69 | No present adjusted fare is negative or NaN. |
| FareTransformation.EfficientCurves | revpy/fare_transformation.py:41-48 | With `return_all`, Q and TR are present exactly where the adjusted fare is, and hold the class's own Q and TR. |
| FareTransformation.AdjustedDemandSum | revpy/fare_transformation.py:32-39 | The present adjusted demands add up to Q at the last efficient class. |
| FareTransformation.FiniteFrontier | revpy/fare_transformation.py:21-33 | With non-negative demands and capacity, every survivor's adjusted fare is finite. Its adjusted demand is positive below the top. |
| FareTransformation.SurvivorCurve | revpy/fare_transformation.py:22-33 | An increasing selection of a well-formed curve keeps only finite fares in a pass. |
| FareTransformation.FiniteOnWellFormedInput | revpy/fare_transformation.py:9-48 | With non-negative demands and capacity, no present adjusted fare is infinite. Every present adjusted demand below the top is positive. |
| FareTransformation.EfficientIsFixedPoint | revpy/fare_transformation.py:51-79 | Reducing the efficient Q and TR again removes nothing. |
| OptimizerAdapter.NotNan | revpy/fare_transformation.py:93 | `~np.isnan` holds on the present, non-NaN slots. |
| OptimizerAdapter.Zeros | revpy/fare_transformation.py:86-87 | The default deviations are n zeros. |
| OptimizerAdapter.PrepareCall | revpy/fare_transformation.py:85-100 | The optimizer call takes one fare, demand and deviation per efficient class. Its positions are an increasing selection of the classes. |
| OptimizerAdapter.FareTrafoWrapper | revpy/fare_transformation.py:82-110 | On success there is one protection level per class. |
| OptimizerAdapter.OptimizerSeesEfficientOnly | revpy/fare_transformation.py:86-100 | On valid input the call is made on exactly the reduction's survivors, top class first, with their adjusted fares and demands. It uses the given deviations at those positions, or zeros. |
| OptimizerAdapter.NoNanSurvivor | revpy/fare_transformation.py:93 | When no present fare is NaN, `~np.isnan` is the presence mask. |
| OptimizerAdapter.FallbackUnreachable | revpy/fare_transformation.py:96-106 | The all-zero fallback is never taken. |
| OptimizerAdapter.ProtectionLevels | revpy/fare_transformation.py:96-102 | On valid input with a non-negative top fare, the wrapper succeeds exactly when the optimizer returns one level per efficient class. Then slot `positions[k]` holds level k, and removed classes are NaN. |
| OptimizerAdapter.PrepareCallRaises | revpy/fare_transformation.py:86-90 | The optimizer call is prepared exactly when the transformation returns; when it raises, its error is passed on unchanged. |
| OptimizerAdapter.WrapperRaisesWithTransformation | revpy/fare_transformation.py:89-90 | The transformation's exceptions propagate unchanged: when it raises, the wrapper raises the same error, and otherwise the wrapper's only error is a level vector of the wrong length. Unordered fares raise InvalidFareOrder, and ordered fares that are empty or have a negative top raise IndexError, whatever the optimizer. |
| OptimizerAdapter.WrapperOnCall | revpy/fare_transformation.py:96-102 | Unfolding step used by `ProtectionLevels`: the wrapper's call branch once the call's arguments are fixed. |
| OptimizerAdapter.OneCallOnly | revpy/fare_transformation.py:96-106 | The wrapper depends on the optimizer only through its one call. Optimizers agreeing on that call give the same result. |
| WorkedCases.InefficientLastClass | revpy/fare_transformation.py:9-48 | Fares 100, 80, 75, 50 with demands 10, 5, 100, 30 give adjusted fares 100, 40, 74.25, NaN and adjusted demands 10, 5, 100, NaN. |
| WorkedCases.NoClassRemoved | revpy/fare_transformation.py:9-48 | Fares 100, 80, 60 with demands 10, 20, 30 give adjusted fares 100, 70, 40 and adjusted demands 10, 20, 30. |
| WorkedCases.ExampleCurves | revpy/fare_transformation.py:22-29 | Q is 10, 15, 115, 145 and TR is 1000, 1200, 8625, 7250. |
| WorkedCases.SecondCurves | revpy/fare_transformation.py:22-29 | Q is 10, 30, 60 and TR is 1000, 2400, 3600. |
| WorkedCases.ExampleReduction | revpy/fare_transformation.py:51-79 | The first example's reduction takes two passes and keeps positions 0, 1 and 2. |
| WorkedCases.FirstPass | revpy/fare_transformation.py:54-62 | The first pass's marginal fares are 100, 40, 74.25 and -1375/30. |
| WorkedCases.SecondPass | revpy/fare_transformation.py:54-62 | The second pass's marginal fares are 100, 40 and 74.25, with demands 10, 5 and 100. |
| WorkedCases.SinglePass | revpy/fare_transformation.py:51-71 | The second example's reduction stops after one pass. |
| WorkedCases.DropLast | revpy/fare_transformation.py:73-79 | A pass that is negative only at the last of four positions recurses on the first three. |
| WorkedCases.TwoPasses | revpy/fare_transformation.py:68-79 | A drop of the last position followed by an efficient pass gives that pass's result. |
| WorkedCases.ReduceStops | revpy/fare_transformation.py:68-71 | Unfolding step used by the worked cases: the base-case branch of `efficient_strategies`, returning the pass's own fares, demands, Q, TR and indices. |
| WorkedCases.ReduceRecurses | revpy/fare_transformation.py:73-79 | Unfolding step used by the worked cases: the recursive branch of `efficient_strategies`, recursing on the kept positions. |
| WorkedCases.Pipeline | revpy/fare_transformation.py:29-43 | When the survivors are the first classes, the output is their values followed by NaN. |
| WorkedCases.DecreasingOf4 | revpy/fare_transformation.py:19 | Four strictly decreasing fares pass the fare-order check. |
| WorkedCases.DecreasingOf3 | revpy/fare_transformation.py:19 | Three strictly decreasing fares pass the fare-order check. |

## Left out

- Floating-point rounding is not modelled. Arithmetic is exact on reals; IEEE infinities and NaN from division are modelled.
- The `np.isnan(adjusted_demand[0])` test on line 58 is not modelled. On real numbers the demand increment is never NaN.
- FareTransformation.CalcFareTransformation requires fares and demands of equal length. numpy broadcasting, or its error for mismatched shapes, is not modelled.
- OptimizerAdapter.FareTrafoWrapper: `fill_nan` is assumed to raise (`ShapeMismatch`) when the optimizer returns a number of levels other than the number of efficient classes. A numpy scatter `a[idx] = vals` would instead broadcast a single level or a scalar to every efficient slot; that case is not modelled, and `OptimizerAdapter.ProtectionLevels`' "succeeds exactly when" rests on the assumption. The wrapper also requires `sigmas`, when given, to have one entry per class.
- Fares, demands and capacity are modelled as float arrays. Integer dtypes are not modelled: with an integer `demands`, `Q` is an integer array, the masked write `Q[Q > cap] = cap` on line 26 truncates a fractional capacity (cap 20.5 gives 20), and the integer product `fares*Q` on line 29 wraps on overflow.
- `check_fares_decreasing` and `fill_nan` are defined in `revpy/helpers.py`, which is not part of this model. The fare check is modelled as "strictly decreasing, else InvalidFareOrder". `fill_nan(size, idx, vals)` is modelled as `vals[k]` at `idx[k]` and NaN elsewhere.
- The optimizer is an arbitrary pure function. Its own exceptions and side effects are not modelled.
- The decorator's closure is modelled as `FareTrafoWrapper`, with the optimizer as its first argument.
- A NaN or infinite fare or demand given as input is not modelled, because inputs are real numbers.
- `revpy/lp_solve.py`, `revpy/mfrm.py`, `revpy/revpy.py` and `setup.py` are not part of this model.
