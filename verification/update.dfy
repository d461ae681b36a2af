/**
 The weight update of `BackPropagation` in closed form: on a connected network
 every link is adjusted exactly once, by the step computed at its target node.
 */
module UpdateRule {
  import opened NetTypes
  import opened Arena
  import opened Forward
  import opened Backprop

  /** What the update adds to link `l`, computed at its target from its source's value. */
  function Gain(net: Network, st: Step, l: nat): real
    requires l < |net.links|
  {
    var to := net.links[l].toId;
    Delta(st.rate, Get(st.errors, to), st.deriv(Get(st.values, to)), Get(st.values, net.links[l].fromId))
  }

  /** `links` has the same ends as the network's links; only weights may differ. */
  ghost predicate SameEnds(net: Network, links: seq<Link>)
  {
    && |links| == |net.links|
    && forall l :: 0 <= l < |links| ==> links[l].fromId == net.links[l].fromId && links[l].toId == net.links[l].toId
  }

  /** A node's update adds the gain to each of its back links, once, and leaves the others alone. */
  lemma {:induction false} NodeUpdateEffect(net: Network, links: seq<Link>, st: Step, id: nat, backLinks: seq<nat>)
    requires SameEnds(net, links)
    requires forall p :: 0 <= p < |backLinks| ==> backLinks[p] < |links| && net.links[backLinks[p]].toId == id
    requires StrictlyIncreasing(backLinks)
    ensures forall l :: 0 <= l < |links| ==>
              NodeUpdate(links, st, id, backLinks)[l].weight ==
                links[l].weight + (if l in backLinks then Gain(net, st, l) else 0.0)
    decreases |backLinks|
  {
    if |backLinks| > 0 {
      var l0 := backLinks[0];
      var delta := Delta(st.rate, Get(st.errors, id), st.deriv(Get(st.values, id)), Get(st.values, links[l0].fromId));
      var next := links[l0 := links[l0].(weight := links[l0].weight + delta)];
      assert delta == Gain(net, st, l0);
      assert SameEnds(net, next);
      NodeUpdateEffect(net, next, st, id, backLinks[1..]);
      assert l0 !in backLinks[1..];
      forall l | 0 <= l < |links|
        ensures l in backLinks <==> l == l0 || l in backLinks[1..]
      {
        assert backLinks == [l0] + backLinks[1..];
      }
    }
  }

  /** A node's back links are exactly the links that end at it. */
  lemma BackLinksExactly(net: Network, x: nat)
    requires Shared(net)
    requires 1 <= x <= |net.nodes|
    ensures var bl := net.nodes[x - 1].backLinks;
              forall p :: 0 <= p < |bl| ==> bl[p] < |net.links| && net.links[bl[p]].toId == x
    ensures forall l :: 0 <= l < |net.links| ==> (l in net.nodes[x - 1].backLinks <==> net.links[l].toId == x)
    ensures StrictlyIncreasing(net.nodes[x - 1].backLinks)
  {
    forall l | 0 <= l < |net.links|
      ensures l in net.nodes[x - 1].backLinks <==> net.links[l].toId == x
    {
      assert LinkListed(net, l);
    }
  }

  /** Updating layer `k` from position `j` on adds the gain to exactly the links ending at those nodes. */
  lemma {:induction false} LayerUpdateEffect(net: Network, links: seq<Link>, st: Step, k: nat, j: nat)
    requires Connected(net)
    requires SameEnds(net, links)
    requires k < |net.layers| && j <= |net.layers[k].nodes|
    ensures forall l :: 0 <= l < |links| ==>
              LayerUpdate(net, links, st, k, j)[l].weight ==
                links[l].weight + (if Offset(net.layers, k) + j < net.links[l].toId <= Offset(net.layers, k + 1) then Gain(net, st, l) else 0.0)
    decreases |net.layers[k].nodes| - j
  {
    if j < |net.layers[k].nodes| {
      var x := net.layers[k].nodes[j];
      IdBounds(net, k, j);
      var bl := net.nodes[x - 1].backLinks;
      BackLinksExactly(net, x);
      NodeUpdateEffect(net, links, st, x, bl);
      var next := NodeUpdate(links, st, x, bl);
      LayerUpdateEffect(net, next, st, k, j + 1);
    }
  }

  /** Updating the layers from `k` on adds the gain to exactly the links ending beyond layer `k - 1`. */
  lemma {:induction false} UpdateFromEffect(net: Network, links: seq<Link>, st: Step, k: nat)
    requires Connected(net)
    requires SameEnds(net, links)
    requires k <= |net.layers|
    ensures forall l :: 0 <= l < |links| ==>
              UpdateFrom(net, links, st, k)[l].weight ==
                links[l].weight + (if Offset(net.layers, k) < net.links[l].toId then Gain(net, st, l) else 0.0)
    decreases |net.layers| - k
  {
    if k < |net.layers| {
      LayerUpdateEffect(net, links, st, k, 0);
      var next := LayerUpdate(net, links, st, k, 0);
      UpdateFromEffect(net, next, st, k + 1);
    } else {
      forall l | 0 <= l < |links|
        ensures net.links[l].toId <= Offset(net.layers, k)
      {
        assert LinkListed(net, l);
      }
    }
  }

  /** The nodes of the first layer, arena positions `0 .. |layers[0]| - 1`, have no back links. */
  lemma InputNodesNoBackLinks(net: Network)
    requires Connected(net)
    requires |net.layers| > 0
    ensures Offset(net.layers, 1) == |net.layers[0].nodes|
    ensures |net.layers[0].nodes| <= |net.nodes|
    ensures forall i :: 0 <= i < |net.layers[0].nodes| ==> net.nodes[i].backLinks == []
  {
    OffsetMonotone(net.layers, 1, |net.layers|);
    forall i | 0 <= i < |net.layers[0].nodes|
      ensures net.nodes[i].backLinks == []
    {
      IdBounds(net, 0, i);
      assert net.layers[0].nodes[i] == i + 1;
      assert NoBackLinks(net, 0);
      assert NodeAt(net, 0, i).backLinks == [];
    }
  }

  /** No link ends in the first layer. */
  lemma LinksEndPastInput(net: Network, l: nat)
    requires Connected(net)
    requires |net.layers| > 0
    requires l < |net.links|
    ensures Offset(net.layers, 1) < net.links[l].toId
  {
    assert LinkListed(net, l);
    InputNodesNoBackLinks(net);
  }

  /** The update loop of `BackPropagation` adds to every link, exactly once, the gain computed at its target. */
  lemma UpdateAll(net: Network, st: Step)
    requires Connected(net)
    requires |net.layers| > 0
    ensures |UpdateFrom(net, net.links, st, 1)| == |net.links|
    ensures forall l :: 0 <= l < |net.links| ==>
              UpdateFrom(net, net.links, st, 1)[l].weight == net.links[l].weight + Gain(net, st, l)
  {
    UpdateFromEffect(net, net.links, st, 1);
    forall l | 0 <= l < |net.links|
      ensures Offset(net.layers, 1) < net.links[l].toId
    {
      LinksEndPastInput(net, l);
    }
  }
}
