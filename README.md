# Linear regression trainer of main.cpp, modelled in Dafny

The program fits the line `y = w*x + b` to (size, price) pairs by full-batch
gradient descent. This project models its core in three modules:

- `Dataset` (dataset.dfy): the `MyData` container. It holds two 100-slot
  columns (`size` is the feature, `price` the target), a fill count and
  running extrema. The extrema start at the sentinels `1e8` / `-1e8`.
  `AddData` appends a pair and moves the extrema. `DataFeatureScaling`
  rescales the stored values in place by `to/(max-min)+from`. The getters
  expose the columns and the count.
- `Neurons` (neuron.dfy): the `Neuron` class, with weight `w` and bias `b`.
  - Its forward pass composes `getSigma`, `getActFunc` and `getY`. The last
    two are the identity, so the pass is `w*x+b`.
  - `dE_dw` and `dE_db` are the per-example gradients.
  - `UpdateOneGDStep` accumulates both gradients over all `NUM_EXAMPLES`
    slots and moves `(w, b)` by `alpha` times their average.
- `Training` (training.dfy):
  - `MeanSquaredError` is the halved mean of the squared errors over the
    filled slots.
  - `Train` is the loop of `main`. It applies at most `TRAINIG_COUNT` steps
    and keeps each step while the error goes down. On the first step that
    does not lower the error, it rolls `(w, b)` back and stops.

Imperative code stays imperative:

- `MyData` and `Neuron` are classes whose methods update their fields and
  arrays.
- The loops are `for`/`while` loops with invariants. Each loop is proved
  against a pure specification function: `ScaledColumn`, `GradWSum` /
  `GradBSum` with `Step`, `SquaredErrorSum` with `Mse`, and `Descend`.

Properties are proved about those functions as lemmas. They are:

- extrema tracking;
- the scaled range;
- dE_dw and dE_db being the derivatives in w and b of the per-example
  loss E = (y - y_target)²/2;
- fixed points at a perfect fit;
- the loop never ending worse than its baseline and accepting strictly
  decreasing errors.

All arithmetic is on mathematical reals.

## Model

| member | source | states |
|---|---|---|
| Dataset.MyData.constructor | main.cpp:14-20 | starts empty (count 0) with both minima at +1e8 and both maxima at -1e8; the extrema then track the (empty) contents; unfilled slots are unspecified |
| Dataset.MyData.AddData | main.cpp:22-40 | succeeds exactly when a free slot exists. On success: the pair goes into slot count, count grows by one, the stored sequences gain the pair at the end, each extremum moves only if the new value is strictly beyond it, and tracking extrema stay tracking. On refusal nothing changes |
| Dataset.AsWrittenGuardAdmitsOverflow | main.cpp:24-27 | the guard as written (`count > NUM_EXAMPLES`) admits every reachable count; at count == 100 it admits the insertion the corrected guard refuses |
| Dataset.AsWrittenWritesPastEnd | main.cpp:24-35 | on a full MyData (count == 100) the as-written guard admits the call, and the slot it then writes, index count, equals the length of both columns: one past their end |
| Dataset.RunningMinIsMinimum | main.cpp:29-31 | the value built by the "lower when strictly smaller" updates is at most the start value and every element, and equals the start value or one of the elements |
| Dataset.RunningMaxIsMaximum | main.cpp:30-32 | the same for the "raise when strictly larger" updates: an upper bound of the start value and every element, attained by one of them |
| Dataset.TracksAppend | main.cpp:29-35 | the four conditional updates applied to an appended pair keep the extrema equal to the running extrema of the stored columns |
| Dataset.TrueExtremaWithinSentinels | main.cpp:16-19 | when every stored value lies within ±1e8, the sentinel-started extrema of a non-empty column are values actually stored |
| Dataset.MyData.DataFeatureScaling | main.cpp:42-62 | refuses (returns false, changes nothing) exactly when from >= to. Otherwise each column's first count slots become (v - min) * (to/(max-min) + from), the other slots are untouched, and for from == 0 with tracking extrema every scaled value lies in [0, to] |
| Dataset.ScaledColumnStep | main.cpp:54-59 | scaling one more slot extends the scaled prefix by exactly that slot |
| Dataset.ScaledValueRange | main.cpp:51-58 | for 0 <= from < to, a value within [min, max] is mapped into [0, to + from*(max-min)] |
| Dataset.ScaleAgreesWithMinMaxAtZero | main.cpp:51-56 | with from == 0 the factor gives the textbook min-max map onto [0, to] |
| Dataset.ScaleDisagreesWithMinMax | main.cpp:51 | with from != 0 it does not: mapping [0, 1] onto [1, 2] sends 1 to 3 instead of 2 |
| Dataset.ScaledStoredWithinRange | main.cpp:51-58 | scaling with from == 0 by the sentinel-started running extrema keeps every stored value in [0, to] |
| Dataset.MyData.GetSize | main.cpp:64 | returns the 100-slot feature column itself |
| Dataset.MyData.GetPrice | main.cpp:65 | returns the 100-slot target column itself |
| Dataset.MyData.GetCount | main.cpp:66 | returns the fill count, which is at most 100 |
| Neurons.Neuron.constructor | main.cpp:83-85 | sets w and b to the given weight and bias |
| Neurons.Neuron.FeedForward | main.cpp:87-93 | the identity activation and output make the forward pass the line w*x+b |
| Neurons.Neuron.DEdW | main.cpp:99-108 | the chain-rule product equals x*(y - y_target) |
| Neurons.Neuron.DEdB | main.cpp:109-117 | the chain-rule product equals y - y_target |
| Neurons.GradientExample | main.cpp:87-117 | at w=2, b=1, x=3 with target 10 the output is 7 and the gradients are -9 and -3 |
| Neurons.Neuron.UpdateOneGDStep | main.cpp:119-140 | the new (w, b) is the old pair minus alpha times the dE_dw / dE_db sums over all 100 slots, divided by 100; the data is only read |
| Neurons.PerfectFitHasZeroGradient | main.cpp:127-135 | when the line passes through every example both gradient sums are zero |
| Neurons.PerfectFitIsFixedPoint | main.cpp:119-140 | a line through every example is left unchanged by the step, for every alpha |
| Neurons.GradWSumSplit | main.cpp:127-135 | the dE_dw sum over the columns is the sum over the first k slots plus the sum over the remaining slots |
| Neurons.UnfilledSlotMovesStep | main.cpp:127-139 | the step reads slots beyond the filled ones: with one stored example (1, 1), a further slot holding (2, 5) gives a different step than the stored example alone |
| Neurons.GradBSumSplit | main.cpp:127-135 | the same split for the dE_db sum |
| Training.Abs | main.cpp:4 | ABS returns x or -x, whichever is non-negative |
| Training.SquaredErrorShiftW | main.cpp:99-108 | dE_dw is the derivative in w of E = (y - y_target)²/2: moving w by h changes the squared error (y - y_target)² by exactly 2*h*dE_dw + h*h*x*x, so E changes by h*dE_dw + h*h*x*x/2 |
| Training.SquaredErrorShiftB | main.cpp:109-117 | dE_db is the derivative in b of E = (y - y_target)²/2: moving b by h changes the squared error (y - y_target)² by exactly 2*h*dE_db + h*h, so E changes by h*dE_db + h*h/2 |
| Training.SquaredErrorSumSlopeW | main.cpp:127-135 | summed over the examples: moving w by h changes the squared-error sum by 2*h*(dE_dw sum) + h*h*(sum of x*x) |
| Training.SquaredErrorSumSlopeB | main.cpp:127-135 | moving b by h changes the squared-error sum by 2*h*(dE_db sum) + h*h*(number of examples) |
| Training.SquaredErrorSumNonNegative | main.cpp:175-180 | the accumulated total of squared errors is never negative |
| Training.MseNonNegative | main.cpp:182 | the halved mean is never negative, so ABS leaves it unchanged |
| Training.PerfectFitHasZeroError | main.cpp:168-183 | a line through every example has zero squared-error total |
| Training.MeanSquaredError | main.cpp:168-183 | returns the squared errors of the first count slots, summed and divided by 2*count; the result is non-negative |
| Training.Train | main.cpp:197-220 | the final (w, b), error variable, exit index and exit reason are those of the loop specification Descend, started from the initial pair and its error. The final error is the error of the final pair, no larger than the initial one, and the index stays within the budget |
| Training.DescendNeverWorse | main.cpp:202-220 | the loop ends on a pair whose error is the final error variable and no larger than the baseline, after at most 100 iterations. Exhausting the budget means 100 accepted steps; a Converged exit means one more step would not lower the error |
| Training.DescendAcceptedDecrease | main.cpp:208-218 | the errors of the accepted pairs run from the baseline to the final error, one per accepted step, and strictly decrease |
| Training.DescendStopsAtPerfectFit | main.cpp:205-216 | started on a line through all 100 slots, the loop rolls back its first step and ends Converged on that line with error zero |

## Left out

- `loadData` reads a file (main.cpp:147-166). It is I/O and not modelled, and neither is `printStatus` or any console output. `Train` starts from whatever the `MyData` holds.
- Single-precision rounding, overflow, infinities and NaN are not modelled. All values are reals. The sentinel `(float)1e8` is exact in single precision.
- Training.MeanSquaredError requires at least one stored pair. With count == 0 the source divides 0 by 0 and gets NaN. That can happen in `main` when loading fails.
- Dataset.MyData.DataFeatureScaling requires max != min for both columns, as the source's first two asserts do. The third assert (`from < to`) is modelled as the refusal at main.cpp:48-49 that a build without asserts runs.
- Neurons.Neuron.UpdateOneGDStep is proved for the `feedForward(float*, float*)` overload. That overload writes through its output pointer, and the model reads the returned value of `FeedForward` instead.
- The unused `input` and `output` fields of `Neuron`, the NULL default arguments of `dE_dw` / `dE_db` and the default `alpha = 1.0f` of `updateOneGDStep` are not modelled. Every call in the source passes real pointers, and the one call of `updateOneGDStep` (main.cpp:205) passes alpha explicitly as 1.0f.
- Dataset.MyData.DataFeatureScaling reads the two minima once before its loop. The source re-reads the fields on every iteration, and they never change there.
- `main` itself (main.cpp:185-226) is modelled only from line 197 on. The call `dataFeatureScaling(0.0f, 1.0f)` before the loop is covered by DataFeatureScaling's contract with from == 0 and to == 1.

## Findings

| source | as written | input that shows it | evidently intended | confidence | as-written member | corrected member |
|---|---|---|---|---|---|---|
| main.cpp:24 | `if(count > NUM_EXAMPLES)` refuses only when count exceeds 100 | a 101st `addData` call, with count == 100, passes the guard and writes `size[100]` and `price[100]`, one past the end of both arrays | `count >= NUM_EXAMPLES`: refuse once all 100 slots are filled | high; not executed | Dataset.AsWrittenWritesPastEnd | Dataset.MyData.AddData |
