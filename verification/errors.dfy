/**
 The errors `BackPropagation` computes, against a reference: the output layer's
 error is target minus output, and a hidden node's error is the weighted sum of
 the next layer's errors over its forward links.
 */
module ErrorRule {
  import opened NetTypes
  import opened Arena
  import opened Forward
  import opened Backprop

  /**
   The errors of layer `k`, for `k` the last layer or a hidden one: the
   differences to the targets for the last layer, and for the others the next
   layer's errors weighted by the node's forward links.
   */
  ghost function ErrorsRef(net: Network, targets: seq<real>, outputs: seq<real>, k: nat): (e: seq<real>)
    requires Connected(net)
    requires k < |net.layers|
    requires |LastIds(net)| <= |targets| && |LastIds(net)| <= |outputs|
    ensures |e| == |net.layers[k].nodes|
    decreases |net.layers| - k
  {
    if k == |net.layers| - 1 then
      seq(|net.layers[k].nodes|, i requires 0 <= i < |net.layers[k].nodes| => targets[i] - outputs[i])
    else
      var next := ErrorsRef(net, targets, outputs, k + 1);
      seq(|net.layers[k].nodes|, j requires 0 <= j < |net.layers[k].nodes| => NodeError(net, next, k, j))
  }

  /** The error of node `j` of layer `k` given the errors `next` of layer `k + 1`. */
  ghost function NodeError(net: Network, next: seq<real>, k: nat, j: nat): real
    requires Connected(net)
    requires k + 1 < |net.layers| && j < |net.layers[k].nodes|
    requires |next| == |net.layers[k + 1].nodes|
  {
    assert ForwardTo(net, k, j);
    Dot(next, WeightsOf(net, NodeAt(net, k, j).links))
  }

  // ---------------------------------------------------------------------------
  // One node

  /** `r` is `m` with key `x` reading `v` and every other key as before. */
  ghost predicate SetAt(r: map<nat, real>, m: map<nat, real>, x: nat, v: real)
  {
    && Get(r, x) == v
    && forall y :: y != x ==> (y in r <==> y in m) && (y in r ==> r[y] == m[y])
  }

  /** What the error loop adds for one node: `errorValues[link.ToId] * link.Weight` per forward link. */
  function Backflow(net: Network, errors: map<nat, real>, links: seq<nat>): real
    requires IndicesValid(net, links)
    decreases |links|
  {
    if |links| == 0 then 0.0
    else
      var link := net.links[links[0]];
      Get(errors, link.toId) * link.weight + Backflow(net, errors, links[1..])
  }

  ghost predicate NotTo(net: Network, links: seq<nat>, id: nat)
    requires IndicesValid(net, links)
  {
    forall q :: 0 <= q < |links| ==> net.links[links[q]].toId != id
  }

  lemma {:induction false} BackflowFrame(net: Network, a: map<nat, real>, b: map<nat, real>, links: seq<nat>)
    requires IndicesValid(net, links)
    requires forall q :: 0 <= q < |links| ==> Get(a, net.links[links[q]].toId) == Get(b, net.links[links[q]].toId)
    ensures Backflow(net, a, links) == Backflow(net, b, links)
    decreases |links|
  {
    if |links| > 0 {
      BackflowFrame(net, a, b, links[1..]);
    }
  }

  /** Accumulating into `id` from links that do not end at `id` adds the backflow to `id` and changes nothing else. */
  lemma {:induction false} NodeErrorsSum(net: Network, errors: map<nat, real>, id: nat, links: seq<nat>)
    requires IndicesValid(net, links)
    requires NotTo(net, links, id)
    ensures SetAt(NodeErrors(net, errors, id, links), errors, id, Get(errors, id) + Backflow(net, errors, links))
    decreases |links|
  {
    if |links| > 0 {
      var link := net.links[links[0]];
      var t0 := Get(errors, link.toId) * link.weight;
      var next := errors[id := Get(errors, id) + t0];
      NodeErrorsSum(net, next, id, links[1..]);
      BackflowFrame(net, next, errors, links[1..]);
      assert Backflow(net, errors, links) == t0 + Backflow(net, errors, links[1..]);
    }
  }

  /** When the targets' errors are `e`, the backflow is the weighted sum of `e`. */
  lemma {:induction false} BackflowDot(net: Network, errors: map<nat, real>, links: seq<nat>, e: seq<real>)
    requires IndicesValid(net, links)
    requires |e| == |links|
    requires forall q :: 0 <= q < |links| ==> Get(errors, net.links[links[q]].toId) == e[q]
    ensures Backflow(net, errors, links) == Dot(e, WeightsOf(net, links))
    decreases |links|
  {
    if |links| > 0 {
      BackflowDot(net, errors, links[1..], e[1..]);
      assert WeightsOf(net, links)[1..] == WeightsOf(net, links[1..]);
    }
  }

  // ---------------------------------------------------------------------------
  // The output layer

  lemma {:induction false} OutputErrorsValues(errors: map<nat, real>, ids: seq<nat>, targets: seq<real>, outputs: seq<real>)
    requires |ids| <= |targets| && |ids| <= |outputs|
    requires forall a, b :: 0 <= a < b < |ids| ==> ids[a] != ids[b]
    ensures forall i :: 0 <= i < |ids| ==>
              ids[i] in OutputErrors(errors, ids, targets, outputs) &&
              OutputErrors(errors, ids, targets, outputs)[ids[i]] == targets[i] - outputs[i]
    ensures forall x :: x !in ids ==> (x in OutputErrors(errors, ids, targets, outputs) <==> x in errors)
    ensures forall x :: x !in ids && x in errors ==> OutputErrors(errors, ids, targets, outputs)[x] == errors[x]
    decreases |ids|
  {
    if |ids| > 0 {
      OutputErrorsValues(errors[ids[0] := targets[0] - outputs[0]], ids[1..], targets[1..], outputs[1..]);
      var r := OutputErrors(errors, ids, targets, outputs);
      forall i | 0 <= i < |ids|
        ensures ids[i] in r && r[ids[i]] == targets[i] - outputs[i]
      {
        if i > 0 {
          assert ids[i] == ids[1..][i - 1];
          assert targets[i] == targets[1..][i - 1] && outputs[i] == outputs[1..][i - 1];
        } else {
          assert ids[0] !in ids[1..];
        }
      }
    }
  }

  // ---------------------------------------------------------------------------
  // The hidden layers, from the back: what the errors map holds part way through

  /** Every node of layer `k` holds its reference error. */
  ghost predicate ErrorLayerKnown(net: Network, targets: seq<real>, outputs: seq<real>, errors: map<nat, real>, k: nat)
    requires Connected(net)
    requires |LastIds(net)| <= |targets| && |LastIds(net)| <= |outputs|
    requires k < |net.layers|
  {
    forall j :: 0 <= j < |net.layers[k].nodes| ==>
      Get(errors, net.layers[k].nodes[j]) == ErrorsRef(net, targets, outputs, k)[j]
  }

  /** Every node of the layers after `k` holds its reference error. */
  ghost predicate KnownAbove(net: Network, targets: seq<real>, outputs: seq<real>, errors: map<nat, real>, k: int)
    requires Connected(net)
    requires |LastIds(net)| <= |targets| && |LastIds(net)| <= |outputs|
  {
    forall k' :: k < k' < |net.layers| && 0 <= k' ==> ErrorLayerKnown(net, targets, outputs, errors, k')
  }

  /** The first `j` nodes of layer `k` hold their reference errors. */
  ghost predicate KnownUpTo(net: Network, targets: seq<real>, outputs: seq<real>, errors: map<nat, real>, k: nat, j: nat)
    requires Connected(net)
    requires |LastIds(net)| <= |targets| && |LastIds(net)| <= |outputs|
    requires k < |net.layers| && j <= |net.layers[k].nodes|
  {
    forall j' :: 0 <= j' < j ==> Get(errors, net.layers[k].nodes[j']) == ErrorsRef(net, targets, outputs, k)[j']
  }

  /** The nodes of the layers before `k`, and those of layer `k` from position `j` on, have no entry yet. */
  ghost predicate UnsetBelow(net: Network, errors: map<nat, real>, k: nat, j: nat)
  {
    forall k', j' :: 0 <= k' <= k && k' < |net.layers| && 0 <= j' < |net.layers[k'].nodes| && (k' < k || j' >= j) ==>
      net.layers[k'].nodes[j'] !in errors
  }

  /** The targets of node (k, j)'s forward links are the nodes of layer k + 1, none of them (k, j) itself. */
  lemma TargetsKnown(net: Network, targets: seq<real>, outputs: seq<real>, errors: map<nat, real>, k: nat, j: nat)
    requires Connected(net)
    requires |LastIds(net)| <= |targets| && |LastIds(net)| <= |outputs|
    requires k + 1 < |net.layers| && j < |net.layers[k].nodes|
    requires KnownAbove(net, targets, outputs, errors, k)
    ensures IndicesValid(net, NodeAt(net, k, j).links)
    ensures |NodeAt(net, k, j).links| == |net.layers[k + 1].nodes|
    ensures NotTo(net, NodeAt(net, k, j).links, net.layers[k].nodes[j])
    ensures forall q :: 0 <= q < |NodeAt(net, k, j).links| ==>
              Get(errors, net.links[NodeAt(net, k, j).links[q]].toId) == ErrorsRef(net, targets, outputs, k + 1)[q]
  {
    var n := NodeAt(net, k, j);
    assert ForwardTo(net, k, j);
    assert ErrorLayerKnown(net, targets, outputs, errors, k + 1);
    IdBounds(net, k, j);
    forall q | 0 <= q < |n.links|
      ensures net.links[n.links[q]].toId != net.layers[k].nodes[j]
    {
      IdsUnique(net, k + 1, q, k, j);
    }
  }

  lemma ErrorsRefAt(net: Network, targets: seq<real>, outputs: seq<real>, k: nat, j: nat)
    requires Connected(net)
    requires |LastIds(net)| <= |targets| && |LastIds(net)| <= |outputs|
    requires k + 1 < |net.layers| && j < |net.layers[k].nodes|
    ensures IndicesValid(net, NodeAt(net, k, j).links)
    ensures |NodeAt(net, k, j).links| == |ErrorsRef(net, targets, outputs, k + 1)|
    ensures ErrorsRef(net, targets, outputs, k)[j] ==
              Dot(ErrorsRef(net, targets, outputs, k + 1), WeightsOf(net, NodeAt(net, k, j).links))
  {
    assert ForwardTo(net, k, j);
  }

  /** The node at (k, j), not yet set, receives its reference error. */
  lemma NodeErrorValue(net: Network, targets: seq<real>, outputs: seq<real>, errors: map<nat, real>, k: nat, j: nat)
    requires Connected(net)
    requires |LastIds(net)| <= |targets| && |LastIds(net)| <= |outputs|
    requires k + 1 < |net.layers| && j < |net.layers[k].nodes|
    requires KnownAbove(net, targets, outputs, errors, k)
    requires net.layers[k].nodes[j] !in errors
    ensures 1 <= net.layers[k].nodes[j] <= |net.nodes|
    ensures SetAt(NodeErrors(net, errors, net.layers[k].nodes[j], NodeAt(net, k, j).links), errors,
              net.layers[k].nodes[j], ErrorsRef(net, targets, outputs, k)[j])
  {
    var x := net.layers[k].nodes[j];
    IdBounds(net, k, j);
    var links := NodeAt(net, k, j).links;
    TargetsKnown(net, targets, outputs, errors, k, j);
    ErrorsRefAt(net, targets, outputs, k, j);
    NodeErrorsSum(net, errors, x, links);
    BackflowDot(net, errors, links, ErrorsRef(net, targets, outputs, k + 1));
    assert Get(errors, x) == 0.0;
  }

  lemma NodeErrorStep(net: Network, targets: seq<real>, outputs: seq<real>, errors: map<nat, real>, k: nat, j: nat)
    requires Connected(net)
    requires |LastIds(net)| <= |targets| && |LastIds(net)| <= |outputs|
    requires k + 1 < |net.layers| && j < |net.layers[k].nodes|
    requires KnownAbove(net, targets, outputs, errors, k)
    requires KnownUpTo(net, targets, outputs, errors, k, j)
    requires UnsetBelow(net, errors, k, j)
    ensures 1 <= net.layers[k].nodes[j] <= |net.nodes|
    ensures var r := NodeErrors(net, errors, net.layers[k].nodes[j], NodeAt(net, k, j).links);
            && KnownAbove(net, targets, outputs, r, k)
            && KnownUpTo(net, targets, outputs, r, k, j + 1)
            && UnsetBelow(net, r, k, j + 1)
  {
    var x := net.layers[k].nodes[j];
    NodeErrorValue(net, targets, outputs, errors, k, j);
    forall k', j' | 0 <= k' < |net.layers| && 0 <= j' < |net.layers[k'].nodes| && (k', j') != (k, j)
      ensures net.layers[k'].nodes[j'] != x
    {
      IdsUnique(net, k', j', k, j);
    }
    var r := NodeErrors(net, errors, x, NodeAt(net, k, j).links);
    forall k' | k < k' < |net.layers|
      ensures ErrorLayerKnown(net, targets, outputs, r, k')
    {
      assert ErrorLayerKnown(net, targets, outputs, errors, k');
    }
  }

  lemma {:induction false} LayerErrorsStep(net: Network, targets: seq<real>, outputs: seq<real>, errors: map<nat, real>, k: nat, j: nat)
    requires Connected(net)
    requires |LastIds(net)| <= |targets| && |LastIds(net)| <= |outputs|
    requires 0 < k && k + 1 < |net.layers| && j <= |net.layers[k].nodes|
    requires KnownAbove(net, targets, outputs, errors, k)
    requires KnownUpTo(net, targets, outputs, errors, k, j)
    requires UnsetBelow(net, errors, k, j)
    ensures KnownAbove(net, targets, outputs, LayerErrors(net, errors, k, j), k - 1)
    ensures UnsetBelow(net, LayerErrors(net, errors, k, j), k - 1, 0)
    decreases |net.layers[k].nodes| - j
  {
    if j < |net.layers[k].nodes| {
      var x := net.layers[k].nodes[j];
      NodeErrorStep(net, targets, outputs, errors, k, j);
      assert NodeAt(net, k, j).links == net.nodes[x - 1].links;
      LayerErrorsStep(net, targets, outputs, NodeErrors(net, errors, x, net.nodes[x - 1].links), k, j + 1);
    } else {
      forall k' | k - 1 < k' < |net.layers|
        ensures ErrorLayerKnown(net, targets, outputs, errors, k')
      {
        if k' == k {
          assert KnownUpTo(net, targets, outputs, errors, k, j);
        }
      }
    }
  }

  lemma {:induction false} HiddenErrorsStep(net: Network, targets: seq<real>, outputs: seq<real>, errors: map<nat, real>, k: int)
    requires Connected(net)
    requires |LastIds(net)| <= |targets| && |LastIds(net)| <= |outputs|
    requires 0 <= k && k + 1 < |net.layers|
    requires KnownAbove(net, targets, outputs, errors, k)
    requires UnsetBelow(net, errors, k, 0)
    ensures KnownAbove(net, targets, outputs, HiddenErrors(net, errors, k), 0)
    ensures UnsetBelow(net, HiddenErrors(net, errors, k), 0, 0)
    decreases k
  {
    if k > 0 {
      var next := LayerErrors(net, errors, k, 0);
      assert KnownUpTo(net, targets, outputs, errors, k, 0);
      LayerErrorsStep(net, targets, outputs, errors, k, 0);
      HiddenErrorsStep(net, targets, outputs, next, k - 1);
    } else {
      assert HiddenErrors(net, errors, k) == errors;
    }
  }

  /** The ids of the last layer are pairwise distinct. */
  lemma LastIdsDistinct(net: Network)
    requires Connected(net)
    requires |net.layers| > 0
    ensures forall a, b :: 0 <= a < b < |LastIds(net)| ==> LastIds(net)[a] != LastIds(net)[b]
  {
    var last := |net.layers| - 1;
    forall a, b | 0 <= a < b < |LastIds(net)|
      ensures LastIds(net)[a] != LastIds(net)[b]
    {
      IdsUnique(net, last, a, last, b);
    }
  }

  /** No node of an earlier layer is in the last layer. */
  lemma LastIdsAbsentBelow(net: Network)
    requires Connected(net)
    requires |net.layers| > 0
    ensures forall k, j :: 0 <= k < |net.layers| - 1 && 0 <= j < |net.layers[k].nodes| ==>
              net.layers[k].nodes[j] !in LastIds(net)
  {
    var last := |net.layers| - 1;
    forall k, j, i | 0 <= k < last && 0 <= j < |net.layers[k].nodes| && 0 <= i < |LastIds(net)|
      ensures LastIds(net)[i] != net.layers[k].nodes[j]
    {
      IdsUnique(net, last, i, k, j);
    }
  }

  /** After the output errors are set, the last layer holds its reference errors. */
  lemma OutputErrorsKnown(net: Network, targets: seq<real>, outputs: seq<real>)
    requires Connected(net)
    requires |net.layers| > 0
    requires |LastIds(net)| <= |targets| && |LastIds(net)| <= |outputs|
    ensures KnownAbove(net, targets, outputs, OutputErrors(map[], LastIds(net), targets, outputs), |net.layers| - 2)
  {
    var last := |net.layers| - 1;
    var e := OutputErrors(map[], LastIds(net), targets, outputs);
    LastIdsDistinct(net);
    OutputErrorsValues(map[], LastIds(net), targets, outputs);
    forall j | 0 <= j < |net.layers[last].nodes|
      ensures Get(e, net.layers[last].nodes[j]) == ErrorsRef(net, targets, outputs, last)[j]
    {
      assert net.layers[last].nodes[j] == LastIds(net)[j];
    }
    assert ErrorLayerKnown(net, targets, outputs, e, last);
  }

  /** After the output errors are set, no node of an earlier layer has an entry. */
  lemma OutputErrorsUnset(net: Network, targets: seq<real>, outputs: seq<real>)
    requires Connected(net)
    requires |net.layers| >= 2
    requires |LastIds(net)| <= |targets| && |LastIds(net)| <= |outputs|
    ensures UnsetBelow(net, OutputErrors(map[], LastIds(net), targets, outputs), |net.layers| - 2, 0)
  {
    LastIdsAbsentBelow(net);
    OutputErrorsValues(map[], LastIds(net), targets, outputs);
  }

  /** The error map after the backward sweep, in terms of the invariants of the sweep. */
  lemma ErrorsKnown(net: Network, outputs: seq<real>, targets: seq<real>)
    requires Connected(net)
    requires |net.layers| > 0
    requires |LastIds(net)| <= |targets| && |LastIds(net)| <= |outputs|
    ensures KnownAbove(net, targets, outputs, Errors(net, outputs, targets), if |net.layers| >= 2 then 0 else -1)
    ensures |net.layers| >= 2 ==> UnsetBelow(net, Errors(net, outputs, targets), 0, 0)
  {
    var start := OutputErrors(map[], LastIds(net), targets, outputs);
    OutputErrorsKnown(net, targets, outputs);
    if |net.layers| >= 2 {
      OutputErrorsUnset(net, targets, outputs);
      HiddenErrorsStep(net, targets, outputs, start, |net.layers| - 2);
    } else {
      assert Errors(net, outputs, targets) == start;
    }
  }

  /**
   On a connected network `BackPropagation`'s error map gives every hidden and
   output node its reference error, and the input nodes (unless they are the
   last layer) no entry at all.
   */
  lemma ErrorsMatch(net: Network, outputs: seq<real>, targets: seq<real>)
    requires Connected(net)
    requires |net.layers| > 0
    requires |LastIds(net)| <= |targets| && |LastIds(net)| <= |outputs|
    ensures forall k, j :: 0 <= k < |net.layers| && (k > 0 || k == |net.layers| - 1) && 0 <= j < |net.layers[k].nodes| ==>
              Get(Errors(net, outputs, targets), net.layers[k].nodes[j]) == ErrorsRef(net, targets, outputs, k)[j]
    ensures |net.layers| >= 2 ==>
              forall j :: 0 <= j < |net.layers[0].nodes| ==> net.layers[0].nodes[j] !in Errors(net, outputs, targets)
  {
    ErrorsKnown(net, outputs, targets);
    forall k, j | 0 <= k < |net.layers| && (k > 0 || k == |net.layers| - 1) && 0 <= j < |net.layers[k].nodes|
      ensures Get(Errors(net, outputs, targets), net.layers[k].nodes[j]) == ErrorsRef(net, targets, outputs, k)[j]
    {
      assert ErrorLayerKnown(net, targets, outputs, Errors(net, outputs, targets), k);
    }
  }
}
