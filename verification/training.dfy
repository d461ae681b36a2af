/**
 One `BackPropagation` step on a complete network is the delta rule: each link
 into node j of layer k moves by rate * error_j * f'(value_j) * value of its source.
 */
module DeltaRule {
  import opened NetTypes
  import opened Arena
  import opened Forward
  import opened Backprop
  import opened UpdateRule
  import opened ErrorRule

  /** The outputs of a complete network on `input`, by the reference. */
  ghost function RefOutputs(net: Network, input: seq<real>): (o: seq<real>)
    requires WellFormed(net)
    requires |input| == |net.layers[0].nodes|
    ensures |o| == |LastIds(net)|
  {
    LayerValues(net, input, net.options.activationFunc.value, |net.layers| - 1)
  }

  /** A complete network can be trained on any input of the right length and long enough targets. */
  lemma WellFormedTrainable(net: Network, input: seq<real>, targets: seq<real>)
    requires WellFormed(net)
    requires |input| == |net.layers[0].nodes|
    requires |LastIds(net)| <= |targets|
    ensures Trainable(net, input, targets)
  {
  }

  /** The forward pass inside `BackPropagation` of a complete network, by the reference. */
  lemma PassMatches(net: Network, input: seq<real>)
    requires WellFormed(net)
    requires |input| == |net.layers[0].nodes|
    ensures Runnable(net, input)
    ensures Pass(net, input).outputs == RefOutputs(net, input)
    ensures forall k, j :: 0 <= k < |net.layers| && 0 <= j < |net.layers[k].nodes| ==>
              Get(Pass(net, input).values, net.layers[k].nodes[j]) == LayerValues(net, input, net.options.activationFunc.value, k)[j]
  {
    UseMatchesLayers(net, input);
    EvaluateMatchesLayers(net, input);
  }

  /** The update of back link `p` of node (k, j), in terms of the step's maps. */
  lemma RuleGain(net: Network, st: Step, k: nat, j: nat, p: nat)
    requires Connected(net)
    requires 1 <= k < |net.layers| && j < |net.layers[k].nodes|
    requires p < |NodeAt(net, k, j).backLinks|
    ensures p < |net.layers[k - 1].nodes|
    ensures NodeAt(net, k, j).backLinks[p] < |net.links|
    ensures var l := NodeAt(net, k, j).backLinks[p];
            var x := net.layers[k].nodes[j];
            UpdateFrom(net, net.links, st, 1)[l].weight ==
              net.links[l].weight +
              Delta(st.rate, Get(st.errors, x), st.deriv(Get(st.values, x)), Get(st.values, net.layers[k - 1].nodes[p]))
  {
    IdBounds(net, k, j);
    assert BackFrom(net, k, j);
    UpdateAll(net, st);
  }

  /** The links `BackPropagation` returns are those of the update loop run with its error and value maps. */
  lemma BackPropagationLinks(net: Network, input: seq<real>, targets: seq<real>)
    requires Trainable(net, input, targets)
    ensures BackPropagation(net, input, targets).links ==
              UpdateFrom(net, net.links,
                Step(Errors(net, Pass(net, input).outputs, targets), Pass(net, input).values, DerivOf(net), net.options.learningRate), 1)
  {
  }

  /**
   Every back link of node j of layer k > 0 moves by
   `rate * error * f'(value of the node) * value of the source`, with the error
   and values those of the reference.
   */
  lemma BackPropagationRule(net: Network, input: seq<real>, targets: seq<real>, k: nat, j: nat, p: nat)
    requires WellFormed(net)
    requires |input| == |net.layers[0].nodes|
    requires |LastIds(net)| <= |targets|
    requires 1 <= k < |net.layers| && j < |net.layers[k].nodes|
    requires p < |NodeAt(net, k, j).backLinks|
    ensures Trainable(net, input, targets)
    ensures p < |net.layers[k - 1].nodes|
    ensures NodeAt(net, k, j).backLinks[p] < |net.links|
    ensures var l := NodeAt(net, k, j).backLinks[p];
            var act := net.options.activationFunc.value;
            BackPropagation(net, input, targets).links[l].weight ==
              net.links[l].weight +
              Delta(net.options.learningRate,
                    ErrorsRef(net, targets, RefOutputs(net, input), k)[j],
                    net.options.activationFuncDerivative.value(LayerValues(net, input, act, k)[j]),
                    LayerValues(net, input, act, k - 1)[p])
  {
    WellFormedTrainable(net, input, targets);
    var act := net.options.activationFunc.value;
    var pass := Pass(net, input);
    var errors := Errors(net, pass.outputs, targets);
    var st := Step(errors, pass.values, DerivOf(net), net.options.learningRate);
    BackPropagationLinks(net, input, targets);
    RuleGain(net, st, k, j, p);
    var x := net.layers[k].nodes[j];
    assert pass.outputs == RefOutputs(net, input) && Get(pass.values, x) == LayerValues(net, input, act, k)[j]
        && Get(pass.values, net.layers[k - 1].nodes[p]) == LayerValues(net, input, act, k - 1)[p] by {
      PassMatches(net, input);
    }
    assert Get(errors, x) == ErrorsRef(net, targets, pass.outputs, k)[j] by {
      ErrorsMatch(net, pass.outputs, targets);
    }
  }

  /** Every link is a back link of some node beyond the first layer, so the rule above covers all weights. */
  lemma EveryLinkIsBackLink(net: Network, l: nat)
    requires Connected(net)
    requires l < |net.links|
    ensures exists k, j, p :: 1 <= k < |net.layers| && 0 <= j < |net.layers[k].nodes| &&
              0 <= p < |NodeAt(net, k, j).backLinks| && NodeAt(net, k, j).backLinks[p] == l
  {
    assert LinkListed(net, l);
    var to := net.links[l].toId;
    var k, j := Locate(net, to);
    var p :| 0 <= p < |net.nodes[to - 1].backLinks| && net.nodes[to - 1].backLinks[p] == l;
    assert k != 0;
    assert NodeAt(net, k, j).backLinks[p] == l;
  }

  /** The layer and position at which id `x` is listed. */
  lemma Locate(net: Network, x: nat) returns (k: nat, j: nat)
    requires IdsDense(net)
    requires 1 <= x <= |net.nodes|
    ensures k < |net.layers| && j < |net.layers[k].nodes| && net.layers[k].nodes[j] == x
  {
    k := 0;
    while Offset(net.layers, k + 1) < x
      invariant k < |net.layers|
      invariant Offset(net.layers, k) < x
      decreases |net.layers| - k
    {
      if k + 1 == |net.layers| {
        assert false;
      }
      k := k + 1;
    }
    j := x - Offset(net.layers, k) - 1;
  }

  /**
   A training step keeps a complete network complete, so the delta rule above
   applies again to the next call of a training loop.
   */
  lemma BackPropagationWellFormed(net: Network, input: seq<real>, targets: seq<real>)
    requires WellFormed(net)
    requires Trainable(net, input, targets)
    ensures WellFormed(BackPropagation(net, input, targets))
  {
    ReweightedWellFormed(net, BackPropagation(net, input, targets));
  }
}
