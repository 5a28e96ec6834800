/*
 * The trainer of main.cpp: the mean squared error of a Neuron over the
 * filled part of a MyData, and the accept/rollback loop of main that applies
 * at most TRAINIG_COUNT gradient steps, keeping a step only while it lowers
 * the error and restoring the last kept (w, b) on the first step that does not.
 */
module Training {
  import opened Dataset
  import opened Neurons

  /** The iteration budget of the loop (TRAINIG_COUNT). */
  const TrainingCount: nat := 100

  /** The learning rate main passes to updateOneGDStep. */
  const LearningRate: real := 1.0

  /** The ABS macro. */
  function Abs(x: real): (r: real)
    ensures r >= 0.0 && (r == x || r == -x)
  {
    if x < 0.0 then -x else x
  }

  function Square(e: real): real { e * e }

  /** A square is non-negative. */
  lemma SquareNonNegative(e: real)
    ensures 0.0 <= Square(e)
  {
  }

  /** Expanding the square of a shifted error. */
  lemma SquareOfShift(e: real, k: real)
    ensures Square(e + k) - Square(e) == 2.0 * k * e + Square(k)
  {
  }

  /** The squared error of the line w*x+b on one example. */
  function SquaredError(w: real, b: real, x: real, t: real): real
  {
    Square(w * x + b - t)
  }

  /** The sum of squared errors of the line w*x+b over the examples (xs[i], ts[i]). */
  function SquaredErrorSum(w: real, b: real, xs: seq<real>, ts: seq<real>): real
    requires |xs| == |ts|
    decreases |xs|
  {
    if |xs| == 0 then 0.0
    else
      var n := |xs| - 1;
      SquaredErrorSum(w, b, xs[..n], ts[..n]) + SquaredError(w, b, xs[n], ts[n])
  }

  /** A sum of squared errors is never negative. */
  lemma {:induction false} SquaredErrorSumNonNegative(w: real, b: real, xs: seq<real>, ts: seq<real>)
    requires |xs| == |ts|
    ensures SquaredErrorSum(w, b, xs, ts) >= 0.0
    decreases |xs|
  {
    if |xs| > 0 {
      var n := |xs| - 1;
      SquaredErrorSumNonNegative(w, b, xs[..n], ts[..n]);
      SquareNonNegative(w * xs[n] + b - ts[n]);
      assert SquaredErrorSum(w, b, xs, ts)
             == SquaredErrorSum(w, b, xs[..n], ts[..n]) + SquaredError(w, b, xs[n], ts[n]);
    }
  }

  /** Extending the examples by slot i, holding (x, t), adds the square of
      that slot's error e. */
  lemma SquaredErrorSumExtend(w: real, b: real, xs: seq<real>, ts: seq<real>, i: nat, x: real, t: real, e: real)
    requires |xs| == |ts| && i < |xs| && x == xs[i] && t == ts[i]
    requires e == w * x + b - t
    ensures SquaredErrorSum(w, b, xs[..i + 1], ts[..i + 1])
            == SquaredErrorSum(w, b, xs[..i], ts[..i]) + e * e
  {
    assert xs[..i + 1][..i] == xs[..i] && ts[..i + 1][..i] == ts[..i];
  }

  /** The mean squared error (halved) of the line w*x+b over a non-empty set
      of examples. */
  function Mse(w: real, b: real, xs: seq<real>, ts: seq<real>): real
    requires |xs| == |ts| > 0
  {
    HalfMean(SquaredErrorSum(w, b, xs, ts), |xs|)
  }

  /** A total divided by twice the number of terms. */
  function HalfMean(total: real, count: nat): real
    requires count > 0
  {
    total / (2.0 * count as real)
  }

  /** The mean squared error is never negative, so the ABS in the loop's
      comparison never changes its value. */
  lemma MseNonNegative(w: real, b: real, xs: seq<real>, ts: seq<real>)
    requires |xs| == |ts| > 0
    ensures Mse(w, b, xs, ts) >= 0.0
    ensures Abs(Mse(w, b, xs, ts)) == Mse(w, b, xs, ts)
  {
    SquaredErrorSumNonNegative(w, b, xs, ts);
    QuotientNonNegative(SquaredErrorSum(w, b, xs, ts), 2.0 * |xs| as real);
    assert Mse(w, b, xs, ts) == SquaredErrorSum(w, b, xs, ts) / (2.0 * |xs| as real);
  }

  lemma QuotientNonNegative(a: real, c: real)
    requires a >= 0.0 && c > 0.0
    ensures a / c >= 0.0
  {
  }

  /** The sum of the squared inputs. */
  function SumOfSquares(xs: seq<real>): real
    decreases |xs|
  {
    if |xs| == 0 then 0.0 else SumOfSquares(xs[..|xs| - 1]) + Square(xs[|xs| - 1])
  }

  /** d is the change of a sum of squares when one parameter moves by h:
      the linear term 2*h*g, with g the matching gradient sum, plus the
      curvature term h*h*s. */
  predicate Slope(d: real, h: real, g: real, s: real)
  {
    d == 2.0 * h * g + h * h * s
  }

  /** dE_dw is the derivative in w of the per-example loss: moving w by h
      changes the squared error by exactly 2*h*dE_dw plus h*h*x*x (the half
      squared error E by half of that). */
  lemma SquaredErrorShiftW(w: real, b: real, x: real, t: real, h: real)
    ensures Slope(SquaredError(w + h, b, x, t) - SquaredError(w, b, x, t),
                  h, Neuron.DEdW(x, w * x + b, t), Square(x))
  {
    var e := w * x + b - t;
    assert (w + h) * x + b - t == e + h * x;
    SquareOfShift(e, h * x);
    assert 2.0 * (h * x) * e == 2.0 * h * (x * e);
    assert Square(h * x) == h * h * Square(x);
  }

  /** dE_db is the derivative in b of the per-example loss: moving b by h
      changes the squared error by exactly 2*h*dE_db plus h*h. */
  lemma SquaredErrorShiftB(w: real, b: real, x: real, t: real, h: real)
    ensures Slope(SquaredError(w, b + h, x, t) - SquaredError(w, b, x, t),
                  h, Neuron.DEdB(w * x + b, t), 1.0)
  {
    var e := w * x + b - t;
    assert w * x + (b + h) - t == e + h;
    SquareOfShift(e, h);
  }

  /** Slopes add up: the identities of a prefix and of one more example give
      the identity of the whole. */
  lemma SlopeStep(a1: real, a0: real, e1: real, e0: real, g: real, g1: real, s: real, s1: real, h: real,
                  sumA1: real, sumA0: real, sumG: real, sumS: real)
    requires Slope(a1 - a0, h, g, s)
    requires Slope(e1 - e0, h, g1, s1)
    requires sumA1 == a1 + e1
    requires sumA0 == a0 + e0
    requires sumG == g + g1
    requires sumS == s + s1
    ensures Slope(sumA1 - sumA0, h, sumG, sumS)
  {
  }

  /** The gradient sums are the slopes of the squared-error sum: moving w by
      h changes it by 2*h*GradWSum plus h*h times the sum of squared inputs. */
  lemma {:induction false} SquaredErrorSumSlopeW(w: real, b: real, xs: seq<real>, ts: seq<real>, h: real)
    requires |xs| == |ts|
    ensures Slope(SquaredErrorSum(w + h, b, xs, ts) - SquaredErrorSum(w, b, xs, ts),
                  h, GradWSum(w, b, xs, ts), SumOfSquares(xs))
    decreases |xs|
  {
    if |xs| > 0 {
      var n := |xs| - 1;
      var px, pt, x, t := xs[..n], ts[..n], xs[n], ts[n];
      SquaredErrorSumSlopeW(w, b, px, pt, h);
      SquaredErrorShiftW(w, b, x, t, h);
      GradWSumLast(w, b, xs, ts, n, x, t);
      SlopeStep(SquaredErrorSum(w + h, b, px, pt), SquaredErrorSum(w, b, px, pt),
                SquaredError(w + h, b, x, t), SquaredError(w, b, x, t),
                GradWSum(w, b, px, pt), Neuron.DEdW(x, w * x + b, t),
                SumOfSquares(px), Square(x), h,
                SquaredErrorSum(w + h, b, xs, ts), SquaredErrorSum(w, b, xs, ts),
                GradWSum(w, b, xs, ts), SumOfSquares(xs));
    }
  }

  /** Moving b by h changes the squared-error sum by 2*h*GradBSum plus
      h*h times the number of examples. */
  lemma {:induction false} SquaredErrorSumSlopeB(w: real, b: real, xs: seq<real>, ts: seq<real>, h: real)
    requires |xs| == |ts|
    ensures Slope(SquaredErrorSum(w, b + h, xs, ts) - SquaredErrorSum(w, b, xs, ts),
                  h, GradBSum(w, b, xs, ts), |xs| as real)
    decreases |xs|
  {
    if |xs| > 0 {
      var n := |xs| - 1;
      var px, pt, x, t := xs[..n], ts[..n], xs[n], ts[n];
      SquaredErrorSumSlopeB(w, b, px, pt, h);
      SquaredErrorShiftB(w, b, x, t, h);
      GradBSumLast(w, b, xs, ts, n, x, t);
      SlopeStep(SquaredErrorSum(w, b + h, px, pt), SquaredErrorSum(w, b, px, pt),
                SquaredError(w, b + h, x, t), SquaredError(w, b, x, t),
                GradBSum(w, b, px, pt), Neuron.DEdB(w * x + b, t),
                |px| as real, 1.0, h,
                SquaredErrorSum(w, b + h, xs, ts), SquaredErrorSum(w, b, xs, ts),
                GradBSum(w, b, xs, ts), |xs| as real);
    }
  }

  /** meanSquaredError: the halved mean of the squared errors over the first
      count (filled) slots only. The source divides by 2*count, so a MyData
      with no examples is excluded. */
  method MeanSquaredError(n: Neuron, d: MyData) returns (mse: real)
    requires d.Valid() && d.count > 0
    ensures mse == Mse(n.w, n.b, d.size[..d.count], d.price[..d.count])
    ensures mse >= 0.0
  {
    var total := 0.0;
    var arrSize := d.GetSize();
    var arrPrice := d.GetPrice();
    var dCount := d.GetCount();
    for i := 0 to dCount
      invariant total == SquaredErrorSum(n.w, n.b, arrSize[..i], arrPrice[..i])
    {
      var x := arrSize[i];
      var yTarget := arrPrice[i];
      var y := n.FeedForward(x);
      SquaredErrorSumExtend(n.w, n.b, arrSize[..], arrPrice[..], i, x, yTarget, y - yTarget);
      total := total + (y - yTarget) * (y - yTarget);
    }
    MseNonNegative(n.w, n.b, arrSize[..dCount], arrPrice[..dCount]);
    mse := HalfMean(total, dCount);
  }

  /** How the loop ends: a step that did not lower the error was rolled back
      (Converged), or the budget ran out while every step improved (Exhausted). */
  datatype Outcome = Converged | Exhausted

  /** The result of the loop: the final parameters, the final value of the
      error variable, the loop index at exit, how it ended, and the errors of
      the parameter pairs it accepted in order (the baseline first). */
  datatype Fit = Fit(params: Params, mse: real, steps: nat, outcome: Outcome, accepted: seq<real>)

  /** The loop of main from iteration i on, with last accepted parameters p
      and last accepted error msePrev, over the columns xs, ts of which the
      first count slots are filled. */
  function Descend(xs: seq<real>, ts: seq<real>, count: nat, p: Params, msePrev: real, i: nat): Fit
    requires |xs| == |ts| == NumExamples && 0 < count <= NumExamples && i <= TrainingCount
    decreases TrainingCount - i
  {
    if i == TrainingCount then Fit(p, msePrev, i, Exhausted, [msePrev])
    else
      var q := Step(p, LearningRate, xs, ts);
      var mse := Mse(q.w, q.b, xs[..count], ts[..count]);
      if Abs(mse) >= Abs(msePrev) then Fit(p, msePrev, i, Converged, [msePrev])
      else
        var rest := Descend(xs, ts, count, q, mse, i + 1);
        rest.(accepted := [msePrev] + rest.accepted)
  }

  predicate StrictlyDecreasing(s: seq<real>)
  {
    forall i, j :: 0 <= i < j < |s| ==> s[j] < s[i]
  }

  /** A value above the head of a strictly decreasing sequence extends it. */
  lemma PrependDecreasing(x: real, s: seq<real>)
    requires |s| > 0 && s[0] < x && StrictlyDecreasing(s)
    ensures StrictlyDecreasing([x] + s)
  {
    forall a, c | 0 <= a < c < |s| + 1 ensures ([x] + s)[c] < ([x] + s)[a] {
      if a == 0 {
        assert s[c - 1] <= s[0];
      }
    }
  }

  /** Started from an accepted pair and its error, the loop ends on a pair
      whose error is its final error and no worse than the start; it runs at
      most the budget; the errors it accepts strictly decrease; it stops
      early only after a step that did not lower the error. */
  lemma {:induction false} DescendNeverWorse(xs: seq<real>, ts: seq<real>, count: nat, p: Params, msePrev: real, i: nat)
    requires |xs| == |ts| == NumExamples && 0 < count <= NumExamples && i <= TrainingCount
    requires msePrev == Mse(p.w, p.b, xs[..count], ts[..count])
    ensures var f := Descend(xs, ts, count, p, msePrev, i);
      f.mse == Mse(f.params.w, f.params.b, xs[..count], ts[..count]) &&
      f.mse <= msePrev &&
      i <= f.steps <= TrainingCount &&
      (f.outcome == Exhausted ==> f.steps == TrainingCount) &&
      (f.outcome == Converged ==>
         var q := Step(f.params, LearningRate, xs, ts);
         Mse(q.w, q.b, xs[..count], ts[..count]) >= f.mse)
    decreases TrainingCount - i
  {
    if i < TrainingCount {
      var q := Step(p, LearningRate, xs, ts);
      var mse := Mse(q.w, q.b, xs[..count], ts[..count]);
      MseNonNegative(q.w, q.b, xs[..count], ts[..count]);
      MseNonNegative(p.w, p.b, xs[..count], ts[..count]);
      if Abs(mse) < Abs(msePrev) {
        DescendNeverWorse(xs, ts, count, q, mse, i + 1);
      }
    }
  }

  /** The accepted errors start at the baseline, end at the final error, one
      per accepted step, and strictly decrease. */
  lemma {:induction false} DescendAcceptedDecrease(xs: seq<real>, ts: seq<real>, count: nat, p: Params, msePrev: real, i: nat)
    requires |xs| == |ts| == NumExamples && 0 < count <= NumExamples && i <= TrainingCount
    requires msePrev == Mse(p.w, p.b, xs[..count], ts[..count])
    ensures var f := Descend(xs, ts, count, p, msePrev, i);
      |f.accepted| == f.steps - i + 1 &&
      f.accepted[0] == msePrev && f.accepted[|f.accepted| - 1] == f.mse &&
      StrictlyDecreasing(f.accepted)
    decreases TrainingCount - i
  {
    if i < TrainingCount {
      var q := Step(p, LearningRate, xs, ts);
      var mse := Mse(q.w, q.b, xs[..count], ts[..count]);
      MseNonNegative(q.w, q.b, xs[..count], ts[..count]);
      MseNonNegative(p.w, p.b, xs[..count], ts[..count]);
      if Abs(mse) < Abs(msePrev) {
        DescendAcceptedDecrease(xs, ts, count, q, mse, i + 1);
        DescendNeverWorse(xs, ts, count, q, mse, i + 1);
        PrependDecreasing(msePrev, Descend(xs, ts, count, q, mse, i + 1).accepted);
      }
    }
  }

  /** A line through every example has zero squared-error sum. */
  lemma {:induction false} PerfectFitHasZeroError(w: real, b: real, xs: seq<real>, ts: seq<real>)
    requires |xs| == |ts|
    requires forall i :: 0 <= i < |xs| ==> w * xs[i] + b == ts[i]
    ensures SquaredErrorSum(w, b, xs, ts) == 0.0
    decreases |xs|
  {
    if |xs| > 0 {
      var n := |xs| - 1;
      PerfectFitHasZeroError(w, b, xs[..n], ts[..n]);
    }
  }

  /** Started on a line through all NUM_EXAMPLES slots, the loop rolls back
      its very first step: the step leaves the line where it is, the error
      does not go down, and the loop ends Converged on the starting pair with
      error zero. */
  lemma DescendStopsAtPerfectFit(xs: seq<real>, ts: seq<real>, count: nat, p: Params, i: nat)
    requires |xs| == |ts| == NumExamples && 0 < count <= NumExamples && i < TrainingCount
    requires forall k :: 0 <= k < |xs| ==> p.w * xs[k] + p.b == ts[k]
    ensures var f := Descend(xs, ts, count, p, Mse(p.w, p.b, xs[..count], ts[..count]), i);
      f.params == p && f.mse == 0.0 && f.steps == i && f.outcome == Converged
  {
    PerfectFitIsFixedPoint(p, LearningRate, xs, ts);
    PerfectFitHasZeroError(p.w, p.b, xs[..count], ts[..count]);
  }

  /** The loop of main (main.cpp lines 197-220): the baseline error and parameters, then up to
      TRAINIG_COUNT steps, each kept while it lowers the error and rolled back
      (ending the loop) on the first that does not. Returns the final error
      variable, the loop index at exit and how the loop ended. */
  method Train(n: Neuron, d: MyData) returns (mse: real, i: nat, outcome: Outcome)
    requires d.Valid() && d.count > 0
    modifies n
    ensures var f := Descend(d.size[..], d.price[..], d.count, Params(old(n.w), old(n.b)),
                             Mse(old(n.w), old(n.b), d.size[..d.count], d.price[..d.count]), 0);
      Params(n.w, n.b) == f.params && mse == f.mse && i == f.steps && outcome == f.outcome
    ensures mse == Mse(n.w, n.b, d.size[..d.count], d.price[..d.count])
    ensures mse <= Mse(old(n.w), old(n.b), d.size[..d.count], d.price[..d.count])
    ensures i <= TrainingCount
  {
    ghost var xs, ts, count := d.size[..], d.price[..], d.count;
    var msePrev := MeanSquaredError(n, d);
    var wPrev := n.w;
    var bPrev := n.b;
    ghost var goal := Descend(xs, ts, count, Params(wPrev, bPrev), msePrev, 0);
    DescendNeverWorse(xs, ts, count, Params(wPrev, bPrev), msePrev, 0);
    i := 0;
    mse := msePrev;
    outcome := Exhausted;
    while i < TrainingCount
      invariant i <= TrainingCount
      invariant n.w == wPrev && n.b == bPrev && mse == msePrev
      invariant msePrev == Mse(wPrev, bPrev, xs[..count], ts[..count])
      invariant Descend(xs, ts, count, Params(wPrev, bPrev), msePrev, i).(accepted := []) == goal.(accepted := [])
    {
      n.UpdateOneGDStep(d, LearningRate);
      mse := MeanSquaredError(n, d);
      assert d.size[..] == xs && d.price[..] == ts;
      assert d.size[..d.count] == xs[..count] && d.price[..d.count] == ts[..count];
      if Abs(mse) >= Abs(msePrev) {
        assert Descend(xs, ts, count, Params(wPrev, bPrev), msePrev, i).(accepted := [])
               == Fit(Params(wPrev, bPrev), msePrev, i, Converged, []);
        mse := msePrev;
        n.w := wPrev;
        n.b := bPrev;
        outcome := Converged;
        break;
      }
      msePrev := mse;
      wPrev := n.w;
      bPrev := n.b;
      i := i + 1;
    }
    assert Params(n.w, n.b) == goal.params && mse == goal.mse && i == goal.steps && outcome == goal.outcome;
    assert d.size[..] == xs && d.price[..] == ts;
    assert d.size[..d.count] == xs[..count] && d.price[..d.count] == ts[..count];
  }
}
