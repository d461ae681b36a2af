/**
 `BackPropagation`: the output errors, the errors carried back through the
 hidden layers, and the weight update of every back link, as Go runs them on
 its maps. Only link weights change.
 */
module Backprop {
  import opened NetTypes
  import opened Arena
  import opened Forward

  /** What `BackPropagation` needs to run without a panic. */
  predicate Trainable(net: Network, input: seq<real>, targets: seq<real>)
  {
    && |net.layers| > 0
    && ArenaSafe(net)
    && Runnable(net, input)
    && |LastIds(net)| <= |targets|
    && (|input| == |net.layers[0].nodes| ==> |LastIds(net)| <= net.options.outputsCount)
    && (|input| != |net.layers[0].nodes| ==> |LastIds(net)| == 0)
    && (net.options.activationFuncDerivative.Some? ||
        forall k, j :: 1 <= k < |net.layers| && 0 <= j < |net.layers[k].nodes| ==> NodeAt(net, k, j).backLinks == [])
  }

  /**
   The derivative. When none is set no node beyond the input layer has a back
   link (`Trainable`), so the identity below is never applied.
   */
  function DerivOf(net: Network): real -> real
  {
    if net.options.activationFuncDerivative.Some? then net.options.activationFuncDerivative.value else y => y
  }

  /** Output node `i` of the last layer gets the error target minus output at position `i`, in order. */
  function OutputErrors(errors: map<nat, real>, ids: seq<nat>, targets: seq<real>, outputs: seq<real>): map<nat, real>
    requires |ids| <= |targets| && |ids| <= |outputs|
    decreases |ids|
  {
    if |ids| == 0 then errors
    else OutputErrors(errors[ids[0] := targets[0] - outputs[0]], ids[1..], targets[1..], outputs[1..])
  }

  /** For each forward link in order, the node's error grows by the target's error times the weight. */
  function NodeErrors(net: Network, errors: map<nat, real>, id: nat, links: seq<nat>): map<nat, real>
    requires IndicesValid(net, links)
    decreases |links|
  {
    if |links| == 0 then errors
    else
      var link := net.links[links[0]];
      NodeErrors(net, errors[id := Get(errors, id) + Get(errors, link.toId) * link.weight], id, links[1..])
  }

  /** The nodes of layer `k` from position `j` on. */
  function LayerErrors(net: Network, errors: map<nat, real>, k: nat, j: nat): map<nat, real>
    requires ArenaSafe(net)
    requires k < |net.layers|
    decreases |net.layers[k].nodes| - j
  {
    if j >= |net.layers[k].nodes| then errors
    else
      var id := net.layers[k].nodes[j];
      LayerErrors(net, NodeErrors(net, errors, id, net.nodes[id - 1].links), k, j + 1)
  }

  /** The layers `k`, `k - 1`, …, 1, from the back; the input layer gets no error. */
  function HiddenErrors(net: Network, errors: map<nat, real>, k: int): map<nat, real>
    requires ArenaSafe(net)
    requires k < |net.layers|
    decreases k
  {
    if k <= 0 then errors
    else HiddenErrors(net, LayerErrors(net, errors, k, 0), k - 1)
  }

  /** The change of one weight: rate times the node's error times the derivative at the node's value times the source's value. */
  function Delta(rate: real, error: real, slope: real, input: real): real
  {
    rate * error * slope * input
  }

  /** The factors of the update that stay fixed while the weights change. */
  datatype Step = Step(errors: map<nat, real>, values: map<nat, real>, deriv: real -> real, rate: real)

  /** Each back link of node `id`, in order, has its `Delta` added to its weight. */
  function NodeUpdate(links: seq<Link>, st: Step, id: nat, backLinks: seq<nat>): (r: seq<Link>)
    requires forall p :: 0 <= p < |backLinks| ==> backLinks[p] < |links|
    ensures |r| == |links|
    ensures forall l :: 0 <= l < |links| ==> r[l].fromId == links[l].fromId && r[l].toId == links[l].toId
    decreases |backLinks|
  {
    if |backLinks| == 0 then links
    else
      var l := backLinks[0];
      var delta := Delta(st.rate, Get(st.errors, id), st.deriv(Get(st.values, id)), Get(st.values, links[l].fromId));
      NodeUpdate(links[l := links[l].(weight := links[l].weight + delta)], st, id, backLinks[1..])
  }

  /** The nodes of layer `k` from position `j` on. */
  function LayerUpdate(net: Network, links: seq<Link>, st: Step, k: nat, j: nat): (r: seq<Link>)
    requires ArenaSafe(net) && |links| == |net.links|
    requires k < |net.layers|
    ensures |r| == |links|
    ensures forall l :: 0 <= l < |links| ==> r[l].fromId == links[l].fromId && r[l].toId == links[l].toId
    decreases |net.layers[k].nodes| - j
  {
    if j >= |net.layers[k].nodes| then links
    else
      var id := net.layers[k].nodes[j];
      LayerUpdate(net, NodeUpdate(links, st, id, net.nodes[id - 1].backLinks), st, k, j + 1)
  }

  /** The layers from `k` on. */
  function UpdateFrom(net: Network, links: seq<Link>, st: Step, k: nat): (r: seq<Link>)
    requires ArenaSafe(net) && |links| == |net.links|
    ensures |r| == |links|
    ensures forall l :: 0 <= l < |links| ==> r[l].fromId == links[l].fromId && r[l].toId == links[l].toId
    decreases |net.layers| - k
  {
    if k >= |net.layers| then links
    else UpdateFrom(net, LayerUpdate(net, links, st, k, 0), st, k + 1)
  }

  /** The errors `BackPropagation` computes, from the outputs and values of the forward pass. */
  function Errors(net: Network, outputs: seq<real>, targets: seq<real>): map<nat, real>
    requires ArenaSafe(net)
    requires |net.layers| > 0
    requires |LastIds(net)| <= |targets| && |LastIds(net)| <= |outputs|
  {
    HiddenErrors(net, OutputErrors(map[], LastIds(net), targets, outputs), |net.layers| - 2)
  }

  /**
   The forward pass as `BackPropagation` sees it: a `nil` slice and a `nil` map
   when it fails, and otherwise `OutputsCount` outputs. On a connected network
   with an activation function the map holds every node's reference value and
   the outputs begin with the last layer's reference values.
   */
  function Pass(net: Network, input: seq<real>): (r: FullResult)
    requires Runnable(net, input)
    ensures |net.layers| == 0 || |input| != |net.layers[0].nodes| ==> r.outputs == [] && r.values == map[]
    ensures |net.layers| > 0 && |input| == |net.layers[0].nodes| ==> |r.outputs| == net.options.outputsCount
    ensures Connected(net) && net.options.activationFunc.Some? && |net.layers| > 0 && |input| == |net.layers[0].nodes| ==>
              && (forall k, j :: 0 <= k < |net.layers| && 0 <= j < |net.layers[k].nodes| ==>
                    Get(r.values, net.layers[k].nodes[j]) == LayerValues(net, input, net.options.activationFunc.value, k)[j])
              && (|net.layers| >= 2 ==>
                    forall i :: 0 <= i < |net.layers[|net.layers| - 1].nodes| ==>
                      r.outputs[i] == LayerValues(net, input, net.options.activationFunc.value, |net.layers| - 1)[i])
  {
    EvaluateMatchesWhenConnected(net, input);
    match Evaluate(net, input)
    case None => FullResult([], map[])
    case Some(full) => full
  }

  /** `BackPropagation(inputValues, targetValues)`: one training step, returning the updated network. */
  function BackPropagation(net: Network, input: seq<real>, targets: seq<real>): (r: Network)
    requires Trainable(net, input, targets)
    ensures r.layers == net.layers && r.nodes == net.nodes && r.options == net.options
    ensures |r.links| == |net.links|
    ensures forall l :: 0 <= l < |net.links| ==>
              r.links[l].fromId == net.links[l].fromId && r.links[l].toId == net.links[l].toId
  {
    var pass := Pass(net, input);
    var errors := Errors(net, pass.outputs, targets);
    var st := Step(errors, pass.values, DerivOf(net), net.options.learningRate);
    net.(links := UpdateFrom(net, net.links, st, 1))
  }
}
