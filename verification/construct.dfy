/**
 `NewNeuralNetwork`: defaults applied, then an input layer, one hidden layer per
 entry of `HiddenLayersSizes`, and an output layer, each fully connected from
 the one before it.
 */
module Construct {
  import opened NetTypes
  import opened Defaults
  import opened Arena
  import opened Builder
  import opened BuildInvariant

  /** The network with no layers, nodes or links that construction starts from. */
  function Empty(o: Options): (r: Network)
    ensures r.options == o && |r.layers| == 0 && |r.nodes| == 0
  {
    Network([], [], [], o)
  }

  /** The three building loops of `NewNeuralNetwork` for options already defaulted. */
  function Assemble(o: Options, rand: nat -> real): (r: Network)
    requires Draws(rand)
    ensures r.options == o
    ensures |r.layers| == |o.hiddenLayersSizes| + 2
    ensures KindsInOrder(r.layers)
    ensures |r.layers[0].nodes| == Count(o.inputsCount)
    ensures forall k :: 0 < k < |r.layers| - 1 ==> |r.layers[k].nodes| == Count(o.hiddenLayersSizes[k - 1])
    ensures |r.layers[|r.layers| - 1].nodes| == Count(o.outputsCount)
  {
    var n0 := Empty(o);
    var n1 := BuildLayer(n0, Input, o.inputsCount, rand);
    var n2 := BuildHidden(n1, o.hiddenLayersSizes, rand);
    var r := BuildLayer(n2, Output, o.outputsCount, rand);
    assert n2.layers[0] == n1.layers[0] by {
      assert n2.layers[0] == n2.layers[..1][0];
    }
    forall k | 0 < k < |r.layers| - 1
      ensures r.layers[k].kind == Hidden && |r.layers[k].nodes| == Count(o.hiddenLayersSizes[k - 1])
    {
      assert r.layers[k] == n2.layers[k];
    }
    r
  }

  /**
   `NewNeuralNetwork(opts)`; `sigmoid` stands for `Sigmoid` and `rand(k)` for the
   k-th value `rand.Float64()` returns, which is drawn for the k-th link created.
   */
  function NewNetwork(opts: Options, sigmoid: real -> real, rand: nat -> real): (r: Network)
    requires Draws(rand)
    ensures r.options == SetDefaults(opts, sigmoid)
    ensures |r.layers| == |r.options.hiddenLayersSizes| + 2
    ensures KindsInOrder(r.layers)
    ensures |r.layers[0].nodes| == Count(r.options.inputsCount)
    ensures forall k :: 0 < k < |r.layers| - 1 ==> |r.layers[k].nodes| == Count(r.options.hiddenLayersSizes[k - 1])
    ensures |r.layers[|r.layers| - 1].nodes| == Count(r.options.outputsCount)
  {
    Assemble(SetDefaults(opts, sigmoid), rand)
  }

  /** The network built is layered, its links carry the weights drawn for them, and its biases are zero. */
  lemma NewNetworkLayered(opts: Options, sigmoid: real -> real, rand: nat -> real)
    requires Draws(rand)
    ensures Layered(NewNetwork(opts, sigmoid, rand))
    ensures DrawnWeights(NewNetwork(opts, sigmoid, rand), rand)
  {
    var o := SetDefaults(opts, sigmoid);
    var n0 := Empty(o);
    assert NewNetwork(opts, sigmoid, rand) == Assemble(o, rand);
    assert Layered(n0);
    BuildLayerLayered(n0, Input, o.inputsCount, rand);
    var n1 := BuildLayer(n0, Input, o.inputsCount, rand);
    BuildHiddenLayered(n1, o.hiddenLayersSizes, rand);
    var n2 := BuildHidden(n1, o.hiddenLayersSizes, rand);
    BuildLayerLayered(n2, Output, o.outputsCount, rand);
  }

  /** Every initial weight lies in (-0.5, 0.5], every bias is zero. */
  lemma NewNetworkWeights(opts: Options, sigmoid: real -> real, rand: nat -> real)
    requires Draws(rand)
    ensures forall l :: 0 <= l < |NewNetwork(opts, sigmoid, rand).links| ==>
              -0.5 < NewNetwork(opts, sigmoid, rand).links[l].weight <= 0.5
    ensures forall i :: 0 <= i < |NewNetwork(opts, sigmoid, rand).nodes| ==>
              NewNetwork(opts, sigmoid, rand).nodes[i].bias == 0.0
  {
    NewNetworkLayered(opts, sigmoid, rand);
  }

  /**
   The network is complete in the sense `Use` relies on exactly when the
   (defaulted) output count is positive: a negative count survives the defaults
   and builds an empty output layer.
   */
  lemma NewNetworkWellFormed(opts: Options, sigmoid: real -> real, rand: nat -> real)
    requires Draws(rand)
    ensures WellFormed(NewNetwork(opts, sigmoid, rand)) <==> SetDefaults(opts, sigmoid).outputsCount > 0
  {
    NewNetworkLayered(opts, sigmoid, rand);
  }
}
