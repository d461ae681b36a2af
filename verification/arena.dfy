/**
 The structural invariant of a network built by `NewNeuralNetwork`, stated on
 the arena without reference to how it was built:

 - ids are dense: node `i` of the arena has id `i + 1`, and the layers list the
   ids 1..N in order, each layer a contiguous run;
 - every link is shared: it is listed exactly once in its source's `links` and
   exactly once in its target's `backLinks`, and in no other node's lists;
 - layers are fully connected to their neighbours and to nothing else;
 - every bias is zero.
 */
module Arena {
  import opened NetTypes

  /** The number of nodes in `layers[..k]`, i.e. the last id used before layer `k`. */
  function Offset(layers: seq<Layer>, k: nat): nat
    requires k <= |layers|
  {
    if k == 0 then 0 else Offset(layers, k - 1) + |layers[k - 1].nodes|
  }

  /** All the ids of the layers, in layer order. */
  function Flatten(layers: seq<Layer>): seq<nat>
  {
    if |layers| == 0 then [] else Flatten(layers[..|layers| - 1]) + layers[|layers| - 1].nodes
  }

  /** The ids 1..n, in order. */
  function Range(n: nat): seq<nat>
  {
    seq(n, i => i + 1)
  }

  ghost predicate StrictlyIncreasing(s: seq<nat>)
  {
    forall a, b :: 0 <= a < b < |s| ==> s[a] < s[b]
  }

  ghost predicate IdsDense(net: Network)
  {
    && (forall i :: 0 <= i < |net.nodes| ==> net.nodes[i].id == i + 1)
    && Offset(net.layers, |net.layers|) == |net.nodes|
    && (forall k, j :: 0 <= k < |net.layers| && 0 <= j < |net.layers[k].nodes| ==>
          net.layers[k].nodes[j] == Offset(net.layers, k) + j + 1)
  }

  /** Every id a layer lists names a node of the arena. */
  predicate LayerIdsValid(net: Network)
  {
    forall k, j :: 0 <= k < |net.layers| && 0 <= j < |net.layers[k].nodes| ==>
      1 <= net.layers[k].nodes[j] <= |net.nodes|
  }

  /** Every link index a node holds names a link of the arena. */
  predicate LinkIndicesValid(net: Network)
  {
    forall i :: 0 <= i < |net.nodes| ==>
      && (forall q :: 0 <= q < |net.nodes[i].links| ==> net.nodes[i].links[q] < |net.links|)
      && (forall p :: 0 <= p < |net.nodes[i].backLinks| ==> net.nodes[i].backLinks[p] < |net.links|)
  }

  /** The arena stands for a pointer graph: no index dangles. */
  predicate ArenaSafe(net: Network)
  {
    LayerIdsValid(net) && LinkIndicesValid(net)
  }

  function NodeAt(net: Network, k: nat, j: nat): Node
    requires LayerIdsValid(net)
    requires k < |net.layers| && j < |net.layers[k].nodes|
  {
    net.nodes[net.layers[k].nodes[j] - 1]
  }

  /** Link `l` is listed by both of its endpoints. */
  ghost predicate LinkListed(net: Network, l: nat)
    requires l < |net.links|
  {
    var from := net.links[l].fromId;
    var to := net.links[l].toId;
    && 1 <= from <= |net.nodes|
    && 1 <= to <= |net.nodes|
    && l in net.nodes[from - 1].links
    && l in net.nodes[to - 1].backLinks
  }

  /** Each link is one object seen from both ends; a node lists only its own links, once each. */
  ghost predicate Shared(net: Network)
  {
    && LinkIndicesValid(net)
    && (forall l :: 0 <= l < |net.links| ==> LinkListed(net, l))
    && (forall i, q :: 0 <= i < |net.nodes| && 0 <= q < |net.nodes[i].links| ==>
          net.links[net.nodes[i].links[q]].fromId == i + 1)
    && (forall i, p :: 0 <= i < |net.nodes| && 0 <= p < |net.nodes[i].backLinks| ==>
          net.links[net.nodes[i].backLinks[p]].toId == i + 1)
    && (forall i :: 0 <= i < |net.nodes| ==>
          StrictlyIncreasing(net.nodes[i].links) && StrictlyIncreasing(net.nodes[i].backLinks))
  }

  /** Node `j` of layer `k > 0` has one back link from each node of layer `k - 1`, in that layer's order. */
  ghost predicate BackFrom(net: Network, k: nat, j: nat)
    requires ArenaSafe(net)
    requires 0 < k < |net.layers| && j < |net.layers[k].nodes|
  {
    var n := NodeAt(net, k, j);
    && |n.backLinks| == |net.layers[k - 1].nodes|
    && forall p :: 0 <= p < |n.backLinks| ==> net.links[n.backLinks[p]].fromId == net.layers[k - 1].nodes[p]
  }

  /** Node `j` of layer `k` (not the last) has one forward link to each node of layer `k + 1`, in order. */
  ghost predicate ForwardTo(net: Network, k: nat, j: nat)
    requires ArenaSafe(net)
    requires k + 1 < |net.layers| && j < |net.layers[k].nodes|
  {
    var n := NodeAt(net, k, j);
    && |n.links| == |net.layers[k + 1].nodes|
    && forall q :: 0 <= q < |n.links| ==> net.links[n.links[q]].toId == net.layers[k + 1].nodes[q]
  }

  /** Full connectivity between adjacent layers, and no links into the first or out of the last layer. */
  ghost predicate Adjacent(net: Network)
    requires ArenaSafe(net)
  {
    && (forall k, j :: 0 < k < |net.layers| && 0 <= j < |net.layers[k].nodes| ==> BackFrom(net, k, j))
    && (forall k, j :: 0 <= k && k + 1 < |net.layers| && 0 <= j < |net.layers[k].nodes| ==> ForwardTo(net, k, j))
    && (|net.layers| > 0 ==> NoBackLinks(net, 0))
    && (|net.layers| > 0 ==> NoForwardLinks(net, |net.layers| - 1))
  }

  ghost predicate NoBackLinks(net: Network, k: nat)
    requires ArenaSafe(net) && k < |net.layers|
  {
    forall j :: 0 <= j < |net.layers[k].nodes| ==> NodeAt(net, k, j).backLinks == []
  }

  ghost predicate NoForwardLinks(net: Network, k: nat)
    requires ArenaSafe(net) && k < |net.layers|
  {
    forall j :: 0 <= j < |net.layers[k].nodes| ==> NodeAt(net, k, j).links == []
  }

  ghost predicate ZeroBias(net: Network)
  {
    forall i :: 0 <= i < |net.nodes| ==> net.nodes[i].bias == 0.0
  }

  /** The shape of a feed-forward network, whatever its weights and biases. */
  ghost predicate Connected(net: Network)
  {
    && IdsDense(net)
    && ArenaSafe(net)
    && Shared(net)
    && Adjacent(net)
  }

  /** The invariant of a network under construction (the last layer may still be filling). */
  ghost predicate Layered(net: Network)
  {
    Connected(net) && ZeroBias(net)
  }

  /** Layer roles: input first, output last, hidden in between. */
  ghost predicate KindsInOrder(layers: seq<Layer>)
  {
    && |layers| >= 2
    && layers[0].kind == Input
    && layers[|layers| - 1].kind == Output
    && forall k :: 0 < k < |layers| - 1 ==> layers[k].kind == Hidden
  }

  /** A complete network as `NewNeuralNetwork` returns it, whose output count is its last layer's size. */
  ghost predicate WellFormed(net: Network)
  {
    && Layered(net)
    && KindsInOrder(net.layers)
    && net.options.activationFunc.Some?
    && net.options.activationFuncDerivative.Some?
    && net.options.outputsCount == |net.layers[|net.layers| - 1].nodes|
  }

  // ---------------------------------------------------------------------------
  // Facts about Offset and ids

  lemma {:induction false} OffsetMonotone(layers: seq<Layer>, a: nat, b: nat)
    requires a <= b <= |layers|
    ensures a < b ==> Offset(layers, a) + |layers[a].nodes| <= Offset(layers, b)
    ensures Offset(layers, a) <= Offset(layers, b)
    decreases b - a
  {
    if a < b {
      OffsetMonotone(layers, a, b - 1);
    }
  }

  /** Offset(k) depends only on the sizes of the layers before `k`. */
  lemma {:induction false} OffsetPrefix(a: seq<Layer>, b: seq<Layer>, k: nat)
    requires k <= |a| && k <= |b|
    requires forall i :: 0 <= i < k ==> |a[i].nodes| == |b[i].nodes|
    ensures Offset(a, k) == Offset(b, k)
  {
    if k > 0 {
      OffsetPrefix(a, b, k - 1);
    }
  }

  /** The ids of layer `k` are exactly the ones after Offset(k) and up to Offset(k + 1). */
  lemma IdBounds(net: Network, k: nat, j: nat)
    requires IdsDense(net)
    requires k < |net.layers| && j < |net.layers[k].nodes|
    ensures Offset(net.layers, k) < net.layers[k].nodes[j] <= Offset(net.layers, k + 1)
    ensures net.layers[k].nodes[j] <= |net.nodes|
  {
    OffsetMonotone(net.layers, k + 1, |net.layers|);
  }

  lemma IdsDenseValid(net: Network)
    requires IdsDense(net)
    ensures LayerIdsValid(net)
  {
    forall k, j | 0 <= k < |net.layers| && 0 <= j < |net.layers[k].nodes|
      ensures 1 <= net.layers[k].nodes[j] <= |net.nodes|
    {
      IdBounds(net, k, j);
    }
  }

  /** Ids in different positions differ: ids are unique across the whole network. */
  lemma IdsUnique(net: Network, k1: nat, j1: nat, k2: nat, j2: nat)
    requires IdsDense(net)
    requires k1 < |net.layers| && j1 < |net.layers[k1].nodes|
    requires k2 < |net.layers| && j2 < |net.layers[k2].nodes|
    requires (k1, j1) != (k2, j2)
    ensures net.layers[k1].nodes[j1] != net.layers[k2].nodes[j2]
  {
    IdBounds(net, k1, j1);
    IdBounds(net, k2, j2);
    if k1 < k2 {
      OffsetMonotone(net.layers, k1 + 1, k2);
    } else if k2 < k1 {
      OffsetMonotone(net.layers, k2 + 1, k1);
    }
  }

  lemma {:induction false} FlattenPrefix(layers: seq<Layer>, k: nat)
    requires k <= |layers|
    requires forall k', j :: 0 <= k' < |layers| && 0 <= j < |layers[k'].nodes| ==>
               layers[k'].nodes[j] == Offset(layers, k') + j + 1
    ensures Flatten(layers[..k]) == Range(Offset(layers, k))
  {
    if k > 0 {
      FlattenPrefix(layers, k - 1);
      assert layers[..k][..k - 1] == layers[..k - 1];
      var prev := Offset(layers, k - 1);
      assert Flatten(layers[..k]) == Range(prev) + layers[k - 1].nodes;
      assert Range(prev) + layers[k - 1].nodes == Range(Offset(layers, k));
    }
  }

  /** The ids listed by the layers are exactly 1..N in creation order, N the number of nodes. */
  lemma DenseIds(net: Network)
    requires IdsDense(net)
    ensures Flatten(net.layers) == Range(|net.nodes|)
    ensures forall i :: 0 <= i < |net.nodes| ==> net.nodes[i].id == i + 1
  {
    FlattenPrefix(net.layers, |net.layers|);
    assert net.layers[..|net.layers|] == net.layers;
  }

  // ---------------------------------------------------------------------------
  // One link, two views

  lemma {:induction false} StrictlyIncreasingOnce(s: seq<nat>, x: nat)
    requires StrictlyIncreasing(s)
    requires x in s
    ensures multiset(s)[x] == 1
  {
    if s[0] == x {
      assert x !in s[1..];
      assert s == [s[0]] + s[1..];
    } else {
      StrictlyIncreasingOnce(s[1..], x);
      assert s == [s[0]] + s[1..];
    }
  }

  /**
   Link `l` appears once in its source's forward list and once in its target's
   back list, and in no other node's lists.
   */
  lemma LinkSharedOnce(net: Network, l: nat)
    requires Shared(net)
    requires l < |net.links|
    ensures 1 <= net.links[l].fromId <= |net.nodes| && 1 <= net.links[l].toId <= |net.nodes|
    ensures multiset(net.nodes[net.links[l].fromId - 1].links)[l] == 1
    ensures multiset(net.nodes[net.links[l].toId - 1].backLinks)[l] == 1
    ensures forall i :: 0 <= i < |net.nodes| && i + 1 != net.links[l].fromId ==> l !in net.nodes[i].links
    ensures forall i :: 0 <= i < |net.nodes| && i + 1 != net.links[l].toId ==> l !in net.nodes[i].backLinks
  {
    assert LinkListed(net, l);
    StrictlyIncreasingOnce(net.nodes[net.links[l].fromId - 1].links, l);
    StrictlyIncreasingOnce(net.nodes[net.links[l].toId - 1].backLinks, l);
  }

  // ---------------------------------------------------------------------------
  // The invariant depends on the shape only, never on the weights

  /** `b` is `a` with other link weights: the same layers, nodes and options, and every link keeps its ends. */
  ghost predicate Reweighted(a: Network, b: Network)
  {
    && b.layers == a.layers && b.nodes == a.nodes && b.options == a.options
    && |b.links| == |a.links|
    && forall l :: 0 <= l < |a.links| ==> b.links[l].fromId == a.links[l].fromId && b.links[l].toId == a.links[l].toId
  }

  lemma ReweightedShared(a: Network, b: Network)
    requires Reweighted(a, b) && Shared(a)
    ensures ArenaSafe(b) == ArenaSafe(a)
    ensures Shared(b)
  {
    forall l | 0 <= l < |b.links|
      ensures LinkListed(b, l)
    {
      assert LinkListed(a, l);
    }
  }

  lemma ReweightedBackFrom(a: Network, b: Network)
    requires Reweighted(a, b) && ArenaSafe(a) && ArenaSafe(b) && Adjacent(a)
    ensures forall k, j :: 0 < k < |b.layers| && 0 <= j < |b.layers[k].nodes| ==> BackFrom(b, k, j)
  {
    forall k, j | 0 < k < |b.layers| && 0 <= j < |b.layers[k].nodes|
      ensures BackFrom(b, k, j)
    {
      assert BackFrom(a, k, j);
    }
  }

  lemma ReweightedForwardTo(a: Network, b: Network)
    requires Reweighted(a, b) && ArenaSafe(a) && ArenaSafe(b) && Adjacent(a)
    ensures forall k, j :: 0 <= k && k + 1 < |b.layers| && 0 <= j < |b.layers[k].nodes| ==> ForwardTo(b, k, j)
  {
    forall k, j | 0 <= k && k + 1 < |b.layers| && 0 <= j < |b.layers[k].nodes|
      ensures ForwardTo(b, k, j)
    {
      assert ForwardTo(a, k, j);
    }
  }

  /** Changing weights keeps a complete network complete. */
  lemma ReweightedWellFormed(a: Network, b: Network)
    requires Reweighted(a, b)
    requires WellFormed(a)
    ensures WellFormed(b)
  {
    ReweightedShared(a, b);
    ReweightedBackFrom(a, b);
    ReweightedForwardTo(a, b);
    var last := |a.layers| - 1;
    assert NoBackLinks(a, 0) && NoForwardLinks(a, last);
    forall j | 0 <= j < |b.layers[0].nodes| ensures NodeAt(b, 0, j).backLinks == [] {
      assert NodeAt(b, 0, j) == NodeAt(a, 0, j);
    }
    forall j | 0 <= j < |b.layers[last].nodes| ensures NodeAt(b, last, j).links == [] {
      assert NodeAt(b, last, j) == NodeAt(a, last, j);
    }
  }
}
