/**
 The forward pass, `useWithFullResult` and `Use`, as Go runs it on the values
 map, and the layer-by-layer reference it computes on a connected network.
 */
module Forward {
  import opened NetTypes
  import opened Arena

  /** What `useWithFullResult` returns when it does not return `nil, nil`. */
  datatype FullResult = FullResult(outputs: seq<real>, values: map<nat, real>)

  /** What `useWithFullResult` needs to run without a panic once the input length matches. */
  predicate Runnable(net: Network, input: seq<real>)
  {
    |net.layers| > 0 && |input| == |net.layers[0].nodes| ==>
      && ArenaSafe(net)
      && net.options.outputsCount >= 0
      && (|net.layers| >= 2 ==> |net.layers[|net.layers| - 1].nodes| <= net.options.outputsCount)
      && (net.options.activationFunc.Some? || forall k :: 1 <= k < |net.layers| ==> |net.layers[k].nodes| == 0)
  }

  /**
   The activation function. When none is set no node beyond the input layer
   exists (`Runnable`), so the identity below is never applied.
   */
  function ActOf(net: Network): real -> real
  {
    if net.options.activationFunc.Some? then net.options.activationFunc.value else x => x
  }

  predicate IndicesValid(net: Network, backLinks: seq<nat>)
  {
    forall p :: 0 <= p < |backLinks| ==> backLinks[p] < |net.links|
  }

  /** For each back link in order, the node's entry grows by the source's value times the weight, plus the node's bias. */
  function AccumulateInto(net: Network, values: map<nat, real>, id: nat, backLinks: seq<nat>, bias: real): map<nat, real>
    requires IndicesValid(net, backLinks)
    decreases |backLinks|
  {
    if |backLinks| == 0 then values
    else
      var link := net.links[backLinks[0]];
      var next := values[id := Get(values, id) + (Get(values, link.fromId) * link.weight + bias)];
      AccumulateInto(net, next, id, backLinks[1..], bias)
  }

  /** One node of a layer after the first: accumulate, then apply the activation. */
  function EvalNode(net: Network, values: map<nat, real>, id: nat, act: real -> real): map<nat, real>
    requires ArenaSafe(net)
    requires 1 <= id <= |net.nodes|
  {
    var n := net.nodes[id - 1];
    var summed := AccumulateInto(net, values, id, n.backLinks, n.bias);
    summed[id := act(Get(summed, id))]
  }

  /** The nodes of layer `k` from position `j` on. */
  function EvalLayer(net: Network, values: map<nat, real>, k: nat, j: nat, act: real -> real): map<nat, real>
    requires ArenaSafe(net)
    requires k < |net.layers|
    decreases |net.layers[k].nodes| - j
  {
    if j >= |net.layers[k].nodes| then values
    else EvalLayer(net, EvalNode(net, values, net.layers[k].nodes[j], act), k, j + 1, act)
  }

  /** The layers from `k` on. */
  function EvalFrom(net: Network, values: map<nat, real>, k: nat, act: real -> real): map<nat, real>
    requires ArenaSafe(net)
    decreases |net.layers| - k
  {
    if k >= |net.layers| then values
    else EvalFrom(net, EvalLayer(net, values, k, 0, act), k + 1, act)
  }

  /** Each input node's entry is set to the input value at its position, in order. */
  function LoadInputs(values: map<nat, real>, ids: seq<nat>, input: seq<real>): map<nat, real>
    requires |ids| == |input|
    decreases |ids|
  {
    if |ids| == 0 then values
    else LoadInputs(values[ids[0] := input[0]], ids[1..], input[1..])
  }

  /** `result`: `OutputsCount` zeros, the first ones overwritten by the last layer's values when it is not the input layer. */
  function Outputs(net: Network, values: map<nat, real>): seq<real>
    requires net.options.outputsCount >= 0
  {
    if |net.layers| >= 2 then
      var last := net.layers[|net.layers| - 1].nodes;
      seq(net.options.outputsCount, i requires 0 <= i < net.options.outputsCount => if i < |last| then Get(values, last[i]) else 0.0)
    else
      seq(net.options.outputsCount, i => 0.0)
  }

  /** `useWithFullResult`; `None` stands for its `nil, nil`. */
  function Evaluate(net: Network, input: seq<real>): (r: Option<FullResult>)
    requires Runnable(net, input)
    ensures r.None? <==> |net.layers| == 0 || |input| != |net.layers[0].nodes|
    ensures r.Some? ==> |r.value.outputs| == net.options.outputsCount
    ensures r.Some? && |net.layers| == 1 ==> forall i :: 0 <= i < |r.value.outputs| ==> r.value.outputs[i] == 0.0
  {
    if |net.layers| == 0 || |input| != |net.layers[0].nodes| then None
    else
      var values := EvalFrom(net, LoadInputs(map[], net.layers[0].nodes, input), 1, ActOf(net));
      Some(FullResult(Outputs(net, values), values))
  }

  /** `Use`: the outputs only, `None` for Go's `nil`. */
  function Use(net: Network, input: seq<real>): (r: Option<seq<real>>)
    requires Runnable(net, input)
    ensures r.None? <==> |net.layers| == 0 || |input| != |net.layers[0].nodes|
    ensures r.Some? ==> |r.value| == net.options.outputsCount
  {
    match Evaluate(net, input)
    case None => None
    case Some(full) => Some(full.outputs)
  }

  // ---------------------------------------------------------------------------
  // The reference: each layer's values from the previous layer's

  /** The weights of the links at the given indices. */
  function WeightsOf(net: Network, backLinks: seq<nat>): (w: seq<real>)
    requires IndicesValid(net, backLinks)
    ensures |w| == |backLinks|
  {
    seq(|backLinks|, p requires 0 <= p < |backLinks| => net.links[backLinks[p]].weight)
  }

  /** The bias added once for each of `n` incoming links. */
  function PerLink(n: nat, bias: real): real
  {
    (n as real) * bias
  }

  /** The weighted sum `x[0]*w[0] + ... + x[n-1]*w[n-1]`. */
  function Dot(x: seq<real>, w: seq<real>): real
    requires |x| == |w|
  {
    if |x| == 0 then 0.0 else x[0] * w[0] + Dot(x[1..], w[1..])
  }

  /**
   The values of layer `k`: the input for the first layer; otherwise each node
   applies the activation to the weighted sum of the previous layer's values
   plus its bias counted once per incoming link.
   */
  ghost function LayerValues(net: Network, input: seq<real>, act: real -> real, k: nat): (v: seq<real>)
    requires Connected(net)
    requires k < |net.layers| && |input| == |net.layers[0].nodes|
    ensures |v| == |net.layers[k].nodes|
  {
    if k == 0 then input
    else
      var prev := LayerValues(net, input, act, k - 1);
      seq(|net.layers[k].nodes|, j requires 0 <= j < |net.layers[k].nodes| => NodeValue(net, prev, act, k, j))
  }

  /** The value of node `j` of layer `k > 0` given the values `prev` of layer `k - 1`. */
  ghost function NodeValue(net: Network, prev: seq<real>, act: real -> real, k: nat, j: nat): real
    requires Connected(net)
    requires 0 < k < |net.layers| && j < |net.layers[k].nodes|
    requires |prev| == |net.layers[k - 1].nodes|
  {
    assert BackFrom(net, k, j);
    var n := NodeAt(net, k, j);
    act(Dot(prev, WeightsOf(net, n.backLinks)) + PerLink(|prev|, n.bias))
  }

  // ---------------------------------------------------------------------------
  // One node: the accumulation loop sums the weighted inputs and the bias per link

  /** What the accumulation loop adds: per link, the source's value times the weight, plus the bias. */
  function Contribution(net: Network, values: map<nat, real>, backLinks: seq<nat>, bias: real): real
    requires IndicesValid(net, backLinks)
    decreases |backLinks|
  {
    if |backLinks| == 0 then 0.0
    else
      var link := net.links[backLinks[0]];
      (Get(values, link.fromId) * link.weight + bias) + Contribution(net, values, backLinks[1..], bias)
  }

  /** No link among `backLinks` starts at `id`. */
  ghost predicate NotFrom(net: Network, backLinks: seq<nat>, id: nat)
    requires IndicesValid(net, backLinks)
  {
    forall p :: 0 <= p < |backLinks| ==> net.links[backLinks[p]].fromId != id
  }

  /** The contribution reads only the values of the links' sources. */
  lemma {:induction false} ContributionFrame(net: Network, a: map<nat, real>, b: map<nat, real>, backLinks: seq<nat>, bias: real)
    requires IndicesValid(net, backLinks)
    requires forall p :: 0 <= p < |backLinks| ==> Get(a, net.links[backLinks[p]].fromId) == Get(b, net.links[backLinks[p]].fromId)
    ensures Contribution(net, a, backLinks, bias) == Contribution(net, b, backLinks, bias)
    decreases |backLinks|
  {
    if |backLinks| > 0 {
      ContributionFrame(net, a, b, backLinks[1..], bias);
    }
  }

  /** `r` is `values` with the entry of `x` set to `v`. */
  ghost predicate UpdatedAt(r: map<nat, real>, values: map<nat, real>, x: nat, v: real)
  {
    && x in r && r[x] == v
    && forall y :: y != x ==> (y in r <==> y in values) && (y in r ==> r[y] == values[y])
  }

  /**
   Accumulating into `id` from links that do not start at `id` changes only the
   entry of `id`, which grows by the contribution.
   */
  lemma {:induction false} AccumulateIntoSum(net: Network, values: map<nat, real>, id: nat, backLinks: seq<nat>, bias: real)
    requires IndicesValid(net, backLinks)
    requires NotFrom(net, backLinks, id)
    ensures Get(AccumulateInto(net, values, id, backLinks, bias), id) == Get(values, id) + Contribution(net, values, backLinks, bias)
    ensures forall y :: y != id ==>
              (y in AccumulateInto(net, values, id, backLinks, bias) <==> y in values) &&
              (y in values ==> AccumulateInto(net, values, id, backLinks, bias)[y] == values[y])
    decreases |backLinks|
  {
    if |backLinks| > 0 {
      var link := net.links[backLinks[0]];
      var next := values[id := Get(values, id) + (Get(values, link.fromId) * link.weight + bias)];
      var t0 := Get(values, link.fromId) * link.weight + bias;
      AccumulateIntoSum(net, next, id, backLinks[1..], bias);
      ContributionFrame(net, next, values, backLinks[1..], bias);
      assert Get(next, id) == Get(values, id) + t0;
      assert Contribution(net, values, backLinks, bias) == t0 + Contribution(net, values, backLinks[1..], bias);
    }
  }

  /** One node's step: its entry becomes the activation of its old entry plus the contribution; nothing else changes. */
  lemma EvalNodeSum(net: Network, values: map<nat, real>, id: nat, act: real -> real)
    requires ArenaSafe(net)
    requires 1 <= id <= |net.nodes|
    requires NotFrom(net, net.nodes[id - 1].backLinks, id)
    ensures UpdatedAt(EvalNode(net, values, id, act), values, id,
              act(Get(values, id) + Contribution(net, values, net.nodes[id - 1].backLinks, net.nodes[id - 1].bias)))
  {
    var n := net.nodes[id - 1];
    AccumulateIntoSum(net, values, id, n.backLinks, n.bias);
  }

  /** When the sources' values are `x`, the contribution is the weighted sum plus the bias once per link. */
  lemma {:induction false} ContributionDot(net: Network, values: map<nat, real>, backLinks: seq<nat>, bias: real, x: seq<real>)
    requires IndicesValid(net, backLinks)
    requires |x| == |backLinks|
    requires forall p :: 0 <= p < |backLinks| ==> Get(values, net.links[backLinks[p]].fromId) == x[p]
    ensures Contribution(net, values, backLinks, bias) == Dot(x, WeightsOf(net, backLinks)) + PerLink(|x|, bias)
    decreases |backLinks|
  {
    if |backLinks| > 0 {
      ContributionDot(net, values, backLinks[1..], bias, x[1..]);
      assert WeightsOf(net, backLinks)[1..] == WeightsOf(net, backLinks[1..]);
    }
  }

  // ---------------------------------------------------------------------------
  // The input layer

  lemma {:induction false} LoadInputsValues(values: map<nat, real>, ids: seq<nat>, input: seq<real>)
    requires |ids| == |input|
    requires forall a, b :: 0 <= a < b < |ids| ==> ids[a] != ids[b]
    ensures forall j :: 0 <= j < |ids| ==> ids[j] in LoadInputs(values, ids, input) && LoadInputs(values, ids, input)[ids[j]] == input[j]
    ensures forall x :: x !in ids ==> (x in LoadInputs(values, ids, input) <==> x in values)
    ensures forall x :: x !in ids && x in values ==> LoadInputs(values, ids, input)[x] == values[x]
    decreases |ids|
  {
    if |ids| > 0 {
      LoadInputsValues(values[ids[0] := input[0]], ids[1..], input[1..]);
      var r := LoadInputs(values, ids, input);
      forall j | 0 <= j < |ids|
        ensures ids[j] in r && r[ids[j]] == input[j]
      {
        if j > 0 {
          assert ids[j] == ids[1..][j - 1];
          assert input[j] == input[1..][j - 1];
        } else {
          assert ids[0] !in ids[1..];
        }
      }
    }
  }

  // ---------------------------------------------------------------------------
  // The layers: what the values map holds part way through the pass

  /** Every node of the layers before `k` holds its reference value. */
  ghost predicate KnownBelow(net: Network, input: seq<real>, act: real -> real, values: map<nat, real>, k: nat)
    requires Connected(net)
    requires |net.layers| > 0 && |input| == |net.layers[0].nodes|
    requires k <= |net.layers|
  {
    forall k' :: 0 <= k' < k ==> KnownLayer(net, input, act, values, k')
  }

  /** Every node of layer `k` holds its reference value. */
  ghost predicate KnownLayer(net: Network, input: seq<real>, act: real -> real, values: map<nat, real>, k: nat)
    requires Connected(net)
    requires k < |net.layers| && |input| == |net.layers[0].nodes|
  {
    forall j :: 0 <= j < |net.layers[k].nodes| ==> Get(values, net.layers[k].nodes[j]) == LayerValues(net, input, act, k)[j]
  }

  /** The first `j` nodes of layer `k` hold their reference values. */
  ghost predicate KnownIn(net: Network, input: seq<real>, act: real -> real, values: map<nat, real>, k: nat, j: nat)
    requires Connected(net)
    requires k < |net.layers| && j <= |net.layers[k].nodes|
    requires |input| == |net.layers[0].nodes|
  {
    forall j' :: 0 <= j' < j ==> Get(values, net.layers[k].nodes[j']) == LayerValues(net, input, act, k)[j']
  }

  /** Nodes from position `j` of layer `k` on have no entry yet. */
  ghost predicate UnsetFrom(net: Network, values: map<nat, real>, k: nat, j: nat)
  {
    forall k', j' :: k <= k' < |net.layers| && 0 <= j' < |net.layers[k'].nodes| && (k' > k || j' >= j) ==>
      net.layers[k'].nodes[j'] !in values
  }

  /** The sources of node (k, j) are the nodes of layer k - 1, none of them (k, j) itself, holding their reference values. */
  lemma SourcesKnown(net: Network, input: seq<real>, act: real -> real, values: map<nat, real>, k: nat, j: nat)
    requires Connected(net)
    requires 0 < k < |net.layers| && j < |net.layers[k].nodes|
    requires |input| == |net.layers[0].nodes|
    requires KnownBelow(net, input, act, values, k)
    ensures |NodeAt(net, k, j).backLinks| == |LayerValues(net, input, act, k - 1)|
    ensures IndicesValid(net, NodeAt(net, k, j).backLinks)
    ensures NotFrom(net, NodeAt(net, k, j).backLinks, net.layers[k].nodes[j])
    ensures forall p :: 0 <= p < |NodeAt(net, k, j).backLinks| ==>
              Get(values, net.links[NodeAt(net, k, j).backLinks[p]].fromId) == LayerValues(net, input, act, k - 1)[p]
  {
    var n := NodeAt(net, k, j);
    assert BackFrom(net, k, j);
    assert KnownLayer(net, input, act, values, k - 1);
    IdBounds(net, k, j);
    forall p | 0 <= p < |n.backLinks|
      ensures net.links[n.backLinks[p]].fromId != net.layers[k].nodes[j]
    {
      IdsUnique(net, k - 1, p, k, j);
    }
  }

  lemma LayerValuesAt(net: Network, input: seq<real>, act: real -> real, k: nat, j: nat)
    requires Connected(net)
    requires 0 < k < |net.layers| && j < |net.layers[k].nodes|
    requires |input| == |net.layers[0].nodes|
    ensures IndicesValid(net, NodeAt(net, k, j).backLinks)
    ensures |NodeAt(net, k, j).backLinks| == |LayerValues(net, input, act, k - 1)|
    ensures LayerValues(net, input, act, k)[j] ==
              act(Dot(LayerValues(net, input, act, k - 1), WeightsOf(net, NodeAt(net, k, j).backLinks)) +
                  PerLink(|LayerValues(net, input, act, k - 1)|, NodeAt(net, k, j).bias))
  {
    assert BackFrom(net, k, j);
  }

  /** A node whose sources hold `prev` and which has no entry yet gets `act` of the weighted sum plus its biases. */
  lemma NodeGets(net: Network, values: map<nat, real>, x: nat, act: real -> real, prev: seq<real>, v: real)
    requires ArenaSafe(net)
    requires 1 <= x <= |net.nodes|
    requires |net.nodes[x - 1].backLinks| == |prev|
    requires IndicesValid(net, net.nodes[x - 1].backLinks)
    requires NotFrom(net, net.nodes[x - 1].backLinks, x)
    requires forall p :: 0 <= p < |prev| ==> Get(values, net.links[net.nodes[x - 1].backLinks[p]].fromId) == prev[p]
    requires x !in values
    requires v == act(Dot(prev, WeightsOf(net, net.nodes[x - 1].backLinks)) + PerLink(|prev|, net.nodes[x - 1].bias))
    ensures UpdatedAt(EvalNode(net, values, x, act), values, x, v)
  {
    var n := net.nodes[x - 1];
    EvalNodeSum(net, values, x, act);
    ContributionDot(net, values, n.backLinks, n.bias, prev);
    var c := Contribution(net, values, n.backLinks, n.bias);
    var d := Dot(prev, WeightsOf(net, n.backLinks)) + PerLink(|prev|, n.bias);
    assert c == d;
    assert Get(values, x) == 0.0;
    assert Get(values, x) + c == d;
  }

  /** What the node at (k, j), with id `x`, reads when it is evaluated: the reference values `prev` of layer k - 1. */
  lemma NodeInputs(net: Network, input: seq<real>, act: real -> real, values: map<nat, real>, k: nat, j: nat,
                   x: nat, prev: seq<real>)
    requires Connected(net)
    requires 0 < k < |net.layers| && j < |net.layers[k].nodes|
    requires |input| == |net.layers[0].nodes|
    requires KnownBelow(net, input, act, values, k)
    requires x == net.layers[k].nodes[j]
    requires prev == LayerValues(net, input, act, k - 1)
    ensures 1 <= x <= |net.nodes|
    ensures |net.nodes[x - 1].backLinks| == |prev|
    ensures IndicesValid(net, net.nodes[x - 1].backLinks)
    ensures NotFrom(net, net.nodes[x - 1].backLinks, x)
    ensures forall p :: 0 <= p < |prev| ==> Get(values, net.links[net.nodes[x - 1].backLinks[p]].fromId) == prev[p]
  {
    IdBounds(net, k, j);
    SourcesKnown(net, input, act, values, k, j);
  }

  /** The reference value `v` of node (k, j), with id `x`, in terms of the node's own back links and bias. */
  lemma NodeReference(net: Network, input: seq<real>, act: real -> real, k: nat, j: nat, x: nat, prev: seq<real>, v: real)
    requires Connected(net)
    requires 0 < k < |net.layers| && j < |net.layers[k].nodes|
    requires |input| == |net.layers[0].nodes|
    requires x == net.layers[k].nodes[j]
    requires prev == LayerValues(net, input, act, k - 1)
    requires v == LayerValues(net, input, act, k)[j]
    ensures 1 <= x <= |net.nodes|
    ensures IndicesValid(net, net.nodes[x - 1].backLinks)
    ensures |net.nodes[x - 1].backLinks| == |prev|
    ensures v == act(Dot(prev, WeightsOf(net, net.nodes[x - 1].backLinks)) + PerLink(|prev|, net.nodes[x - 1].bias))
  {
    IdBounds(net, k, j);
    LayerValuesAt(net, input, act, k, j);
    assert NodeAt(net, k, j) == net.nodes[x - 1];
  }

  /** The node at (k, j), not yet set, receives its reference value. */
  lemma EvalNodeValue(net: Network, input: seq<real>, act: real -> real, values: map<nat, real>, k: nat, j: nat)
    requires Connected(net)
    requires 0 < k < |net.layers| && j < |net.layers[k].nodes|
    requires |input| == |net.layers[0].nodes|
    requires KnownBelow(net, input, act, values, k)
    requires net.layers[k].nodes[j] !in values
    ensures 1 <= net.layers[k].nodes[j] <= |net.nodes|
    ensures UpdatedAt(EvalNode(net, values, net.layers[k].nodes[j], act), values, net.layers[k].nodes[j],
              LayerValues(net, input, act, k)[j])
  {
    var x := net.layers[k].nodes[j];
    var prev := LayerValues(net, input, act, k - 1);
    var v := LayerValues(net, input, act, k)[j];
    NodeInputs(net, input, act, values, k, j, x, prev);
    NodeReference(net, input, act, k, j, x, prev, v);
    NodeGets(net, values, x, act, prev, v);
  }

  lemma EvalNodeStep(net: Network, input: seq<real>, act: real -> real, values: map<nat, real>, k: nat, j: nat)
    requires Connected(net)
    requires 0 < k < |net.layers| && j < |net.layers[k].nodes|
    requires |input| == |net.layers[0].nodes|
    requires KnownBelow(net, input, act, values, k)
    requires KnownIn(net, input, act, values, k, j)
    requires UnsetFrom(net, values, k, j)
    ensures 1 <= net.layers[k].nodes[j] <= |net.nodes|
    ensures KnownBelow(net, input, act, EvalNode(net, values, net.layers[k].nodes[j], act), k)
    ensures KnownIn(net, input, act, EvalNode(net, values, net.layers[k].nodes[j], act), k, j + 1)
    ensures UnsetFrom(net, EvalNode(net, values, net.layers[k].nodes[j], act), k, j + 1)
  {
    var x := net.layers[k].nodes[j];
    EvalNodeValue(net, input, act, values, k, j);
    var r := EvalNode(net, values, x, act);
    forall k', j' | 0 <= k' < |net.layers| && 0 <= j' < |net.layers[k'].nodes| && (k', j') != (k, j)
      ensures net.layers[k'].nodes[j'] != x
    {
      IdsUnique(net, k', j', k, j);
    }
    forall k' | 0 <= k' < k
      ensures KnownLayer(net, input, act, r, k')
    {
      assert KnownLayer(net, input, act, values, k');
    }
  }

  lemma {:induction false} EvalLayerStep(net: Network, input: seq<real>, act: real -> real, values: map<nat, real>, k: nat, j: nat)
    requires Connected(net)
    requires 0 < k < |net.layers| && j <= |net.layers[k].nodes|
    requires |input| == |net.layers[0].nodes|
    requires KnownBelow(net, input, act, values, k)
    requires KnownIn(net, input, act, values, k, j)
    requires UnsetFrom(net, values, k, j)
    ensures KnownBelow(net, input, act, EvalLayer(net, values, k, j, act), k + 1)
    ensures UnsetFrom(net, EvalLayer(net, values, k, j, act), k + 1, 0)
    decreases |net.layers[k].nodes| - j
  {
    if j < |net.layers[k].nodes| {
      EvalNodeStep(net, input, act, values, k, j);
      EvalLayerStep(net, input, act, EvalNode(net, values, net.layers[k].nodes[j], act), k, j + 1);
    } else {
      forall k' | 0 <= k' < k + 1
        ensures KnownLayer(net, input, act, values, k')
      {
        if k' == k {
          assert KnownIn(net, input, act, values, k, j);
        }
      }
    }
  }

  lemma {:induction false} EvalFromStep(net: Network, input: seq<real>, act: real -> real, values: map<nat, real>, k: nat)
    requires Connected(net)
    requires 0 < k <= |net.layers|
    requires |input| == |net.layers[0].nodes|
    requires KnownBelow(net, input, act, values, k)
    requires UnsetFrom(net, values, k, 0)
    ensures KnownBelow(net, input, act, EvalFrom(net, values, k, act), |net.layers|)
    decreases |net.layers| - k
  {
    if k < |net.layers| {
      EvalLayerStep(net, input, act, values, k, 0);
      EvalFromStep(net, input, act, EvalLayer(net, values, k, 0, act), k + 1);
    }
  }

  /** After the inputs are loaded, the input layer holds the inputs and no other node has an entry. */
  lemma LoadInputsStart(net: Network, input: seq<real>, act: real -> real)
    requires Connected(net)
    requires |net.layers| > 0 && |input| == |net.layers[0].nodes|
    ensures KnownBelow(net, input, act, LoadInputs(map[], net.layers[0].nodes, input), 1)
    ensures UnsetFrom(net, LoadInputs(map[], net.layers[0].nodes, input), 1, 0)
  {
    var ids := net.layers[0].nodes;
    forall a, b | 0 <= a < b < |ids|
      ensures ids[a] != ids[b]
    {
      IdsUnique(net, 0, a, 0, b);
    }
    LoadInputsValues(map[], ids, input);
    assert KnownLayer(net, input, act, LoadInputs(map[], ids, input), 0);
    forall k', j' | 1 <= k' < |net.layers| && 0 <= j' < |net.layers[k'].nodes|
      ensures net.layers[k'].nodes[j'] !in ids
    {
      forall j | 0 <= j < |ids|
        ensures ids[j] != net.layers[k'].nodes[j']
      {
        IdsUnique(net, 0, j, k', j');
      }
    }
  }

  /**
   On a connected network, the forward pass leaves every node holding its
   reference value, and the outputs are the last layer's values followed by
   zeros up to `OutputsCount`.
   */
  lemma EvaluateMatchesLayers(net: Network, input: seq<real>)
    requires Connected(net)
    requires Runnable(net, input)
    requires net.options.activationFunc.Some?
    requires |net.layers| > 0 && |input| == |net.layers[0].nodes|
    ensures Evaluate(net, input).Some?
    ensures forall k, j :: 0 <= k < |net.layers| && 0 <= j < |net.layers[k].nodes| ==>
              Get(Evaluate(net, input).value.values, net.layers[k].nodes[j]) ==
                LayerValues(net, input, net.options.activationFunc.value, k)[j]
    ensures |net.layers| >= 2 ==>
              forall i :: 0 <= i < |net.layers[|net.layers| - 1].nodes| ==>
                Evaluate(net, input).value.outputs[i] ==
                  LayerValues(net, input, net.options.activationFunc.value, |net.layers| - 1)[i]
    ensures forall i :: |LastIds(net)| <= i < net.options.outputsCount ==> Evaluate(net, input).value.outputs[i] == 0.0
  {
    var act := net.options.activationFunc.value;
    LoadInputsStart(net, input, act);
    EvalFromStep(net, input, act, LoadInputs(map[], net.layers[0].nodes, input), 1);
    var values := Evaluate(net, input).value.values;
    forall k, j | 0 <= k < |net.layers| && 0 <= j < |net.layers[k].nodes|
      ensures Get(values, net.layers[k].nodes[j]) == LayerValues(net, input, act, k)[j]
    {
      assert KnownLayer(net, input, act, values, k);
    }
  }

  /** For a complete network, `Use` returns exactly the output layer's reference values. */
  lemma UseMatchesLayers(net: Network, input: seq<real>)
    requires WellFormed(net)
    requires |input| == |net.layers[0].nodes|
    ensures Runnable(net, input)
    ensures Use(net, input) == Some(LayerValues(net, input, net.options.activationFunc.value, |net.layers| - 1))
  {
    EvaluateMatchesLayers(net, input);
    var last := |net.layers| - 1;
    var act := net.options.activationFunc.value;
    assert Evaluate(net, input).value.outputs == LayerValues(net, input, act, last);
  }

  /** `EvaluateMatchesLayers` for any runnable network, under the condition that makes it apply. */
  lemma EvaluateMatchesWhenConnected(net: Network, input: seq<real>)
    requires Runnable(net, input)
    ensures Connected(net) && net.options.activationFunc.Some? && |net.layers| > 0 && |input| == |net.layers[0].nodes| ==>
              && Evaluate(net, input).Some?
              && (forall k, j :: 0 <= k < |net.layers| && 0 <= j < |net.layers[k].nodes| ==>
                    Get(Evaluate(net, input).value.values, net.layers[k].nodes[j]) ==
                      LayerValues(net, input, net.options.activationFunc.value, k)[j])
              && (|net.layers| >= 2 ==>
                    forall i :: 0 <= i < |net.layers[|net.layers| - 1].nodes| ==>
                      Evaluate(net, input).value.outputs[i] ==
                        LayerValues(net, input, net.options.activationFunc.value, |net.layers| - 1)[i])
  {
    if Connected(net) && net.options.activationFunc.Some? && |net.layers| > 0 && |input| == |net.layers[0].nodes| {
      EvaluateMatchesLayers(net, input);
    }
  }
}
