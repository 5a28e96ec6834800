/*
 * The linear unit of the trainer (class Neuron in main.cpp): a weight w and
 * a bias b, a forward pass whose activation and output maps are both the
 * identity, per-example gradients of the half squared error, and one
 * full-batch gradient-descent step over all NUM_EXAMPLES slots of a MyData.
 */
module Neurons {
  import opened Dataset

  /** A (weight, bias) pair. */
  datatype Params = Params(w: real, b: real)

  class Neuron {
    var w: real
    var b: real

    constructor (weight: real, bias: real)
      ensures w == weight && b == bias
    {
      w := weight;
      b := bias;
    }

    /** The weighted input. */
    function GetSigma(x: real): real
      reads this
    {
      w * x + b
    }

    /** The activation function: the identity. */
    function GetActFunc(sigma: real): real
    {
      sigma
    }

    /** The output map: the identity. */
    function GetY(f: real): real
    {
      f
    }

    /** The forward pass: because activation and output are the identity,
        the unit is the straight line w*x+b. */
    function FeedForward(x: real): (y: real)
      reads this
      ensures y == w * x + b
    {
      GetY(GetActFunc(GetSigma(x)))
    }

    /** dE/dw by the chain rule dSigma/dw * df/dSigma * dy/df * dE/dy, whose
        middle factors are 1: it is x*(y - yTarget). */
    static function DEdW(x: real, y: real, yTarget: real): (g: real)
      ensures g == x * (y - yTarget)
    {
      var dSigmaDw := x;
      var dfDSigma := 1.0;
      var dyDf := 1.0;
      var dEDy := y - yTarget;
      dSigmaDw * dfDSigma * dyDf * dEDy
    }

    /** dE/db by the same chain, with dSigma/db = 1: it is y - yTarget. */
    static function DEdB(y: real, yTarget: real): (g: real)
      ensures g == y - yTarget
    {
      var dSigmaDb := 1.0;
      var dfDSigma := 1.0;
      var dyDf := 1.0;
      var dEDy := y - yTarget;
      dSigmaDb * dfDSigma * dyDf * dEDy
    }

    /** One full-batch step: gradients accumulated over all NUM_EXAMPLES
        slots (filled or not) with the current (w, b), then both parameters
        moved by alpha times the averaged gradient. The data is only read. */
    method UpdateOneGDStep(d: MyData, alpha: real)
      requires d.Valid()
      modifies this
      ensures Params(w, b) == Step(Params(old(w), old(b)), alpha, d.size[..], d.price[..])
    {
      var arrSize := d.GetSize();
      var arrPrice := d.GetPrice();
      var gradW := 0.0;
      var gradB := 0.0;
      for i := 0 to NumExamples
        invariant gradW == GradWSum(w, b, arrSize[..i], arrPrice[..i])
        invariant gradB == GradBSum(w, b, arrSize[..i], arrPrice[..i])
      {
        var x := arrSize[i];
        var yTarget := arrPrice[i];
        var y := FeedForward(x);
        assert arrSize[..i + 1][..i] == arrSize[..i] && arrPrice[..i + 1][..i] == arrPrice[..i];
        gradW := gradW + DEdW(x, y, yTarget);
        gradB := gradB + DEdB(y, yTarget);
      }
      assert arrSize[..NumExamples] == arrSize[..] && arrPrice[..NumExamples] == arrPrice[..];
      w := w - alpha * gradW / (NumExamples as real);
      b := b - alpha * gradB / (NumExamples as real);
    }
  }

  /** The sum of dE_dw over the examples (xs[i], ts[i]) at parameters (w, b). */
  function GradWSum(w: real, b: real, xs: seq<real>, ts: seq<real>): real
    requires |xs| == |ts|
    decreases |xs|
  {
    if |xs| == 0 then 0.0
    else
      var n := |xs| - 1;
      GradWSum(w, b, xs[..n], ts[..n]) + Neuron.DEdW(xs[n], w * xs[n] + b, ts[n])
  }

  /** The sum of dE_db over the examples (xs[i], ts[i]) at parameters (w, b). */
  function GradBSum(w: real, b: real, xs: seq<real>, ts: seq<real>): real
    requires |xs| == |ts|
    decreases |xs|
  {
    if |xs| == 0 then 0.0
    else
      var n := |xs| - 1;
      GradBSum(w, b, xs[..n], ts[..n]) + Neuron.DEdB(w * xs[n] + b, ts[n])
  }

  /** The last example's share of the dE_dw sum, with that example named x, t. */
  lemma GradWSumLast(w: real, b: real, xs: seq<real>, ts: seq<real>, n: nat, x: real, t: real)
    requires |xs| == |ts| == n + 1 && x == xs[n] && t == ts[n]
    ensures GradWSum(w, b, xs, ts) == GradWSum(w, b, xs[..n], ts[..n]) + Neuron.DEdW(x, w * x + b, t)
  {
  }

  /** The last example's share of the dE_db sum, with that example named x, t. */
  lemma GradBSumLast(w: real, b: real, xs: seq<real>, ts: seq<real>, n: nat, x: real, t: real)
    requires |xs| == |ts| == n + 1 && x == xs[n] && t == ts[n]
    ensures GradBSum(w, b, xs, ts) == GradBSum(w, b, xs[..n], ts[..n]) + Neuron.DEdB(w * x + b, t)
  {
  }

  /** The parameters after one step of updateOneGDStep over the columns
      xs, ts (both of length NUM_EXAMPLES in the source). */
  function Step(p: Params, alpha: real, xs: seq<real>, ts: seq<real>): Params
    requires |xs| == |ts|
  {
    Params(p.w - alpha * GradWSum(p.w, p.b, xs, ts) / (NumExamples as real),
           p.b - alpha * GradBSum(p.w, p.b, xs, ts) / (NumExamples as real))
  }

  /** The worked example: with w=2, b=1, x=3 and target 10 the unit outputs
      7 and the gradients are -9 and -3. */
  lemma GradientExample(n: Neuron)
    requires n.w == 2.0 && n.b == 1.0
    ensures n.FeedForward(3.0) == 7.0
    ensures Neuron.DEdW(3.0, n.FeedForward(3.0), 10.0) == -9.0
    ensures Neuron.DEdB(n.FeedForward(3.0), 10.0) == -3.0
  {
  }

  /** When the line fits every example exactly both gradient sums vanish. */
  lemma {:induction false} PerfectFitHasZeroGradient(w: real, b: real, xs: seq<real>, ts: seq<real>)
    requires |xs| == |ts|
    requires forall i :: 0 <= i < |xs| ==> w * xs[i] + b == ts[i]
    ensures GradWSum(w, b, xs, ts) == 0.0 && GradBSum(w, b, xs, ts) == 0.0
  {
    if |xs| > 0 {
      var n := |xs| - 1;
      PerfectFitHasZeroGradient(w, b, xs[..n], ts[..n]);
    }
  }

  /** A perfectly fitting line is a fixed point of the gradient step, for
      every learning rate. */
  lemma PerfectFitIsFixedPoint(p: Params, alpha: real, xs: seq<real>, ts: seq<real>)
    requires |xs| == |ts|
    requires forall i :: 0 <= i < |xs| ==> p.w * xs[i] + p.b == ts[i]
    ensures Step(p, alpha, xs, ts) == p
  {
    PerfectFitHasZeroGradient(p.w, p.b, xs, ts);
  }

  /** The step reads slots past the filled ones: with one stored example
      (1, 1), a second slot holding (2, 5) moves the step away from where the
      stored example alone would take it. */
  lemma UnfilledSlotMovesStep()
    ensures Step(Params(0.0, 0.0), 1.0, [1.0, 2.0], [1.0, 5.0]) != Step(Params(0.0, 0.0), 1.0, [1.0], [1.0])
  {
    assert GradBSum(0.0, 0.0, [1.0, 2.0], [1.0, 5.0]) == -6.0 by {
      assert [1.0, 2.0][..1] == [1.0] && [1.0, 5.0][..1] == [1.0];
    }
    assert GradBSum(0.0, 0.0, [1.0], [1.0]) == -1.0;
  }

  /** The dE_dw sum over all NUM_EXAMPLES slots is the sum over the filled
      prefix plus the sum over the unfilled tail. */
  lemma {:induction false} GradWSumSplit(w: real, b: real, xs: seq<real>, ts: seq<real>, k: nat)
    requires |xs| == |ts| && k <= |xs|
    ensures GradWSum(w, b, xs, ts) == GradWSum(w, b, xs[..k], ts[..k]) + GradWSum(w, b, xs[k..], ts[k..])
    decreases |xs|
  {
    if |xs| == k {
      assert xs[..k] == xs && ts[..k] == ts;
    } else {
      var n := |xs| - 1;
      var xt, tt := xs[k..], ts[k..];
      var m := |xt| - 1;
      GradWSumSplit(w, b, xs[..n], ts[..n], k);
      assert xs[..n][..k] == xs[..k] && ts[..n][..k] == ts[..k];
      assert xs[..n][k..] == xt[..m] && ts[..n][k..] == tt[..m];
      GradWSumLast(w, b, xs, ts, n, xs[n], ts[n]);
      GradWSumLast(w, b, xt, tt, m, xs[n], ts[n]);
    }
  }

  /** The same split for the dE_db sum. */
  lemma {:induction false} GradBSumSplit(w: real, b: real, xs: seq<real>, ts: seq<real>, k: nat)
    requires |xs| == |ts| && k <= |xs|
    ensures GradBSum(w, b, xs, ts) == GradBSum(w, b, xs[..k], ts[..k]) + GradBSum(w, b, xs[k..], ts[k..])
    decreases |xs|
  {
    if |xs| == k {
      assert xs[..k] == xs && ts[..k] == ts;
    } else {
      var n := |xs| - 1;
      var xt, tt := xs[k..], ts[k..];
      var m := |xt| - 1;
      GradBSumSplit(w, b, xs[..n], ts[..n], k);
      assert xs[..n][..k] == xs[..k] && ts[..n][..k] == ts[..k];
      assert xs[..n][k..] == xt[..m] && ts[..n][k..] == tt[..m];
      GradBSumLast(w, b, xs, ts, n, xs[n], ts[n]);
      GradBSumLast(w, b, xt, tt, m, xs[n], ts[n]);
    }
  }
}
