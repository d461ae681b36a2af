/**
 Option defaulting and the scalar helpers of network.go: the sigmoid derivative,
 the initial weight drawn from `math/rand`, and the (constant) initial bias.
 */
module Defaults {
  import opened NetTypes

  const DefaultInputsCount: int := 5
  const DefaultOutputsCount: int := 2
  const DefaultHiddenLayersSizes: seq<int> := [15, 7]
  const DefaultLearningRate: real := 0.5

  /** An options record that defaulting leaves as it is. */
  ghost predicate Normalized(o: Options)
  {
    && o.inputsCount != 0
    && o.outputsCount != 0
    && |o.hiddenLayersSizes| > 0
    && o.activationFunc.Some?
    && o.activationFuncDerivative.Some?
    && 0.0 < o.learningRate <= 1.0
  }

  /** `y * (1 - y)`: the derivative of the logistic function expressed through its value `y`. */
  function SigmoidDerivative(y: real): (d: real)
    ensures 0.0 <= y <= 1.0 ==> 0.0 <= d <= 0.25
    ensures y < 0.0 || y > 1.0 ==> d < 0.0
  {
    SigmoidDerivativeBounds(y);
    y * (1.0 - y)
  }

  lemma SigmoidDerivativeBounds(y: real)
    ensures y * (1.0 - y) <= 0.25
    ensures 0.0 <= y <= 1.0 ==> 0.0 <= y * (1.0 - y)
    ensures y < 0.0 || y > 1.0 ==> y * (1.0 - y) < 0.0
  {
    CompleteSquare(y);
    SquareNonNegative(y - 0.5);
    if y < 0.0 {
      MulNegativePositive(y, 1.0 - y);
    } else if y > 1.0 {
      MulNegativePositive(1.0 - y, y);
    } else {
      MulNonNegative(y, 1.0 - y);
    }
  }

  lemma CompleteSquare(y: real)
    ensures y * (1.0 - y) == 0.25 - (y - 0.5) * (y - 0.5)
  {
  }

  lemma SquareNonNegative(a: real)
    ensures 0.0 <= a * a
  {
    if a < 0.0 {
      MulNonNegative(-a, -a);
    } else {
      MulNonNegative(a, a);
    }
  }

  lemma MulNonNegative(a: real, b: real)
    requires 0.0 <= a && 0.0 <= b
    ensures 0.0 <= a * b
  {
  }

  lemma MulNegativePositive(a: real, b: real)
    requires a < 0.0 < b
    ensures a * b < 0.0 && b * a < 0.0
  {
  }

  /**
   `setDefaultOptions`. `sigmoid` stands for the package's `Sigmoid`, which is
   left abstract. Only zero counts and an empty hidden-size list are replaced;
   a learning rate outside (0, 1] becomes 0.5; everything else passes through.
   */
  function SetDefaults(o: Options, sigmoid: real -> real): (r: Options)
    ensures Normalized(r)
    ensures Normalized(o) ==> r == o
    ensures r.inputsCount == (if o.inputsCount == 0 then DefaultInputsCount else o.inputsCount)
    ensures r.outputsCount == (if o.outputsCount == 0 then DefaultOutputsCount else o.outputsCount)
    ensures r.hiddenLayersSizes == (if |o.hiddenLayersSizes| == 0 then DefaultHiddenLayersSizes else o.hiddenLayersSizes)
    ensures o.activationFunc.Some? ==> r.activationFunc == o.activationFunc
    ensures o.activationFunc.None? ==> r.activationFunc == Some(sigmoid)
    ensures o.activationFuncDerivative.Some? ==> r.activationFuncDerivative == o.activationFuncDerivative
    ensures o.activationFuncDerivative.None? ==> r.activationFuncDerivative == Some(SigmoidDerivative)
    ensures r.learningRate == (if 0.0 < o.learningRate <= 1.0 then o.learningRate else DefaultLearningRate)
  {
    var o1 := if o.inputsCount == 0 then o.(inputsCount := DefaultInputsCount) else o;
    var o2 := if |o1.hiddenLayersSizes| == 0 then o1.(hiddenLayersSizes := o1.hiddenLayersSizes + [15, 7]) else o1;
    var o3 := if o2.outputsCount == 0 then o2.(outputsCount := DefaultOutputsCount) else o2;
    var o4 := if o3.activationFunc.None? then o3.(activationFunc := Some(sigmoid)) else o3;
    var o5 := if o4.activationFuncDerivative.None? then o4.(activationFuncDerivative := Some(SigmoidDerivative)) else o4;
    if o5.learningRate <= 0.0 || o5.learningRate > 1.0 then o5.(learningRate := DefaultLearningRate) else o5
  }

  /** Applying the defaults twice is the same as applying them once. */
  lemma SetDefaultsIdempotent(o: Options, sigmoid: real -> real)
    ensures SetDefaults(SetDefaults(o, sigmoid), sigmoid) == SetDefaults(o, sigmoid)
  {
  }

  /** `randomWeight`: `0.5 - u` for a draw `u` of `rand.Float64()`, which lies in [0, 1). */
  function RandomWeight(u: real): (w: real)
    requires 0.0 <= u < 1.0
    ensures -0.5 < w <= 0.5
    ensures u == 0.5 - w
  {
    0.5 - u
  }

  /** `randomBias`: despite its name, always zero. */
  function RandomBias(): real
  {
    0.0
  }
}
