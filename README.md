# Signal detection and ROC aggregation, modelled in Dafny

This project models the core of a small signal-detection-theory toolkit.
It has two parts.

* **Rates of one condition** (`src/SignalDetection.py`). A `SignalDetection`
  holds the four cells of a 2x2 outcome table: hits, misses, false alarms and
  correct rejections. From them it derives the hit rate
  `hits / (hits + misses)` and the false-alarm rate
  `falseAlarm / (falseAlarm + correctRejections)`. Each rate is 0 when its
  denominator is 0. The counts are set in the constructor and no code in the
  program reassigns them, so the model is a `datatype` with pure functions (`signal_detection.dfy`, module
  `Detection`).
* **The ROC aggregator** (`src/Experiment.py`). An `Experiment` keeps an
  append-only list of (measurement, label) pairs. It turns the list into ROC
  points (false-alarm rate, hit rate) and stable-sorts them ascending by
  false-alarm rate. Then it integrates the curve with the composite
  trapezoidal rule. The model is a `class Experiment` whose `conditions` field
  is a `seq` that `AddCondition` reassigns (`experiment.dfy`, module
  `Experiments`). `SortedRocPoints` fills an array with the points in a loop
  and sorts it in place with a stable insertion sort. `ComputeAuc`
  accumulates the area in an index loop.

The specification of the curve is in `roc.dfy` (module `Roc`), as functions
on values:

* `SortByFa` is insertion sort written as a function. It is proved sorted,
  a permutation of its input, and stable. Stability means that for every
  false-alarm rate `k`, the points with rate `k` keep their order
  (`WithFa(SortByFa(s), k) == WithFa(s, k)`). `SortByFaCharacterised` shows
  that sorted-and-stable determines the output, so `SortByFa` is the order
  Python's stable `list.sort` produces.
* `TrapezoidArea` is the trapezoidal sum, accumulated from the left like the
  loop. It is proved equal to an independent first-segment-first sum, and
  bounded by the x-extent of the curve.

`scenarios.dfy` (module `ExperimentScenarios`) holds client methods. They
replay the source's worked cases using only the contracts above: area 1/2 on
the diagonal, area 1 for the perfect detector, a missing label stored as
`None`, and the three error paths.

Modelling decisions:

* Counts and rates are Dafny `real`. Python accepts `int` or `float` counts;
  integers embed exactly. Float rounding is not modelled, so the tests'
  `assertAlmostEqual(..., places=3)` becomes exact equality.
* The runtime `isinstance` check in `add_condition` becomes the argument type
  `Candidate = Measurement(sdt) | NotAMeasurement`. The error path can then
  be stated.
* Both failures of the source are a `ValueError`, with different messages.
  The model keeps that: `Error.ValueError(message)` carries the source's
  exact message strings.
* The label is `Option<string>`, with `None` as the default parameter value
  like the source's `label=None`. The field is called `name` because `label`
  is a Dafny keyword.
* The source stores a reference to each `SignalDetection`, a plain object
  whose attributes a caller could reassign. No code in the program assigns the
  counts after construction, so the model stores each measurement by value
  (see "## Left out" for what that does not capture).
* `SortedRocPoints` and `ComputeAuc` have no `modifies` clause. Dafny
  therefore enforces that they leave `conditions` unchanged.

## Model

| member | source | states |
|---|---|---|
| `Detection.HitRate` | src/SignalDetection.py:12-15 | 0 when hits + misses is 0; otherwise the result times (hits + misses) is exactly hits, i.e. the exact quotient |
| `Detection.FalseAlarmRate` | src/SignalDetection.py:17-20 | 0 when falseAlarm + correctRejections is 0; otherwise the exact quotient falseAlarm / (falseAlarm + correctRejections) |
| `Detection.RatesInUnitInterval` | src/SignalDetection.py:12-20 | with non-negative counts both rates lie in [0, 1] |
| `Detection.SaturatedRates` | src/SignalDetection.py:13-20 | positive hits and no misses give hit rate exactly 1; no hits give exactly 0; the same for false alarms |
| `Detection.RatesAreLocal` | src/SignalDetection.py:12-20 | the hit rate depends only on hits and misses; the false-alarm rate only on false alarms and correct rejections |
| `Roc.SortByFaSorted` | src/Experiment.py:25-26 | the sorted points are non-decreasing in false-alarm rate |
| `Roc.SortByFaPermutes` | src/Experiment.py:26 | the sort returns a permutation of its input (equal multisets, equal length) |
| `Roc.SortByFaStable` | src/Experiment.py:26 | for every rate k, the points with rate k appear in the same order before and after the sort |
| `Roc.SortedStableUnique` | src/Experiment.py:26 | two sorted sequences that agree on the subsequence of every rate are equal |
| `Roc.SortByFaCharacterised` | src/Experiment.py:26 | a sequence is sorted and stable with respect to s exactly when it equals SortByFa(s) (both directions) |
| `Roc.SortByFaKeepsSorted` | src/Experiment.py:26 | an already sorted sequence is returned unchanged |
| `Roc.SortByFaIdempotent` | src/Experiment.py:26 | sorting twice equals sorting once |
| `Roc.InsertByFaSplits` | src/Experiment.py:26 | an insertion pass puts the new point right after the last point whose rate is not larger than its own |
| `Roc.TrapezoidOrderIrrelevant` | src/Experiment.py:37-43 | the left-to-right trapezoidal sum equals the independently defined first-segment-first sum |
| `Roc.SegmentBounds` | src/Experiment.py:39-41 | one trapezoid with non-decreasing x and heights in [0, 1] has area between 0 and its width |
| `Roc.TrapezoidAreaBounds` | src/Experiment.py:37-43 | over points ascending in x with heights in [0, 1], the area lies between 0 and last x minus first x |
| `Roc.TieOrderChangesArea` | src/TestExperiment.py:82-89 | (0,0),(0,1),(1,1) give area 1, but swapping the two points at x = 0 gives 1/2, so the tie order matters |
| `Experiments.InsertLast` | src/Experiment.py:26 | one in-place pass leaves a[..i+1] equal to InsertByFa(old a[..i], old a[i]) and nothing past i changed |
| `Experiments.InsertionSortByFa` | src/Experiment.py:26 | the in-place sort leaves the array equal to SortByFa of its old contents |
| `Experiments.Experiment.constructor` | src/Experiment.py:8-9 | a new experiment has no conditions |
| `Experiments.Experiment.AddCondition` | src/Experiment.py:11-14 | a non-measurement is refused with the source's ValueError message and nothing is stored; otherwise exactly (sdt, name) is appended and earlier entries are unchanged, with name None by default |
| `Experiments.Experiment.SortedRocPoints` | src/Experiment.py:17-29 | ValueError when there are no conditions; otherwise two lists of length = number of conditions, false-alarm list non-decreasing, zipped pairs a permutation of the conditions' (fa, hit) points, ties in registration order, equal to the stable sort of the points |
| `Experiments.Experiment.ComputeAuc` | src/Experiment.py:31-43 | ValueError when there are no conditions; otherwise the trapezoidal area of the sorted curve; 0 for a single condition |
| `Experiments.AreaUnderCurveInUnitInterval` | src/Experiment.py:31-43 | with non-negative counts the area under the curve lies in [0, 1] |
| `ExperimentScenarios.DiagonalAuc` | src/TestExperiment.py:75-80 | conditions at (0,0) and (1,1) give area exactly 0.5 |
| `ExperimentScenarios.PerfectAuc` | src/TestExperiment.py:82-89 | conditions at (0,0), (0,1), (1,1) registered in that order give area exactly 1.0 |
| `ExperimentScenarios.UnlabelledCondition` | src/TestExperiment.py:37-42 | a condition added without a label is stored with label None |
| `ExperimentScenarios.InvalidConditionRejected` | src/TestExperiment.py:44-46 | adding a value that is not a measurement fails with the source's ValueError message and leaves the experiment with no conditions |
| `ExperimentScenarios.EmptyPointsRejected` | src/TestExperiment.py:68-70 | asking an empty experiment for its sorted points fails with the source's ValueError message |
| `ExperimentScenarios.EmptyAucRejected` | src/TestExperiment.py:91-93 | asking an empty experiment for its area fails with the source's ValueError message |

## Left out

- `d_prime` and `criterion` (src/SignalDetection.py:22-32): they call scipy's standard-normal quantile function, a foreign floating-point routine with infinite and not-a-number results at rates 0 and 1. None of that has a counterpart in exact real arithmetic.
- `plot_roc_curve` (src/Experiment.py:45-65): plotting and display only.
- The demonstration block of src/SignalDetection.py:35-49 and src/test.py: scripts that print values.
- Floating-point rounding: rates and areas are exact reals.
- `Experiments.Experiment.ComputeAuc`: returns the real 0.0 for a single condition, where the source returns the integer 0 (its accumulator starts as an `int`). The two are equal as numbers.
- `Detection.HitRate` and `Detection.FalseAlarmRate`: return the real 0.0 at their zero-denominator fallback, where the source returns the integer 0 (src/SignalDetection.py:14,19); that integer then also appears in the lists of `sorted_roc_points`. The two are equal as numbers.
- Aliasing of registered measurements: the model copies each measurement into the experiment at registration, while the source keeps a reference (src/Experiment.py:14). A caller who reassigns the attributes of a registered `SignalDetection` afterwards changes what the source's later `sorted_roc_points` and `compute_auc` return; the model does not capture that.
- Python's type freedom for counts and labels: counts are reals (no strings or NaN), and a label is an optional string, not an arbitrary object.
