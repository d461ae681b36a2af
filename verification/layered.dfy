/**
 Construction keeps the arena invariant: adding an empty layer and adding one
 node (with its links from the previous layer) both preserve `Layered`, and
 every link keeps the weight drawn for it.
 */
module BuildInvariant {
  import opened NetTypes
  import opened Defaults
  import opened Arena
  import opened Builder

  /** The ids a node of the last layer is linked from: those of the layer before it, or none. */
  function PrevLayer(net: Network): seq<nat>
  {
    if |net.layers| >= 2 then net.layers[|net.layers| - 2].nodes else []
  }

  /** Where the previous layer's nodes sit in the arena: indices `lo .. lo + m - 1`. */
  function PrevLo(net: Network): nat
    requires |net.layers| > 0
  {
    if |net.layers| >= 2 then Offset(net.layers, |net.layers| - 2) else 0
  }

  // ---------------------------------------------------------------------------
  // What one `AddNode` step does, in arena positions: node `N` (id `N + 1`) is
  // new, links `M .. M + m - 1` are new, link `M + t` runs from arena node `lo + t`.

  ghost predicate StepLayers(net: Network, r: Network)
    requires |net.layers| > 0
  {
    var K := |net.layers| - 1;
    && |r.layers| == |net.layers|
    && (forall k :: 0 <= k < K ==> r.layers[k] == net.layers[k])
    && r.layers[K] == net.layers[K].(nodes := net.layers[K].nodes + [|net.nodes| + 1])
  }

  ghost predicate StepLinks(net: Network, r: Network, lo: nat, m: nat, rand: nat -> real)
    requires Draws(rand)
  {
    var M := |net.links|;
    && |r.links| == M + m
    && (forall l :: 0 <= l < M ==> r.links[l] == net.links[l])
    && (forall l :: M <= l < M + m ==> r.links[l] == Link(lo + (l - M) + 1, |net.nodes| + 1, RandomWeight(rand(l))))
  }

  ghost predicate StepNodes(net: Network, r: Network, lo: nat, m: nat)
  {
    var N := |net.nodes|;
    var M := |net.links|;
    && |r.nodes| == N + 1
    && (forall i :: 0 <= i < N ==>
          && r.nodes[i].id == net.nodes[i].id
          && r.nodes[i].bias == net.nodes[i].bias
          && r.nodes[i].backLinks == net.nodes[i].backLinks
          && r.nodes[i].links == net.nodes[i].links + (if lo <= i < lo + m then [M + (i - lo)] else []))
    && r.nodes[N] == Node(N + 1, [], Indices(M, m), 0.0)
  }

  lemma PrevLayerShape(net: Network)
    requires IdsDense(net)
    requires |net.layers| > 0
    ensures forall t :: 0 <= t < |PrevLayer(net)| ==> PrevLayer(net)[t] == PrevLo(net) + t + 1
    ensures PrevLo(net) + |PrevLayer(net)| <= |net.nodes|
    ensures |net.layers| >= 2 ==> PrevLo(net) + |PrevLayer(net)| == Offset(net.layers, |net.layers| - 1)
    ensures Sources(net, PrevLayer(net))
    ensures Distinct(PrevLayer(net))
  {
    var K := |net.layers| - 1;
    OffsetMonotone(net.layers, K, |net.layers|);
    if K >= 1 {
      OffsetMonotone(net.layers, K - 1, K);
    }
  }

  /** `prev` is the contiguous run of ids `lo + 1 .. lo + |prev|`. */
  ghost predicate Run(net: Network, prev: seq<nat>, lo: nat)
  {
    && lo + |prev| <= |net.nodes|
    && forall t :: 0 <= t < |prev| ==> prev[t] == lo + t + 1
  }

  lemma RunSources(net: Network, prev: seq<nat>, lo: nat)
    requires Run(net, prev, lo)
    ensures Sources(net, prev) && Distinct(prev)
  {
  }

  lemma AddNodeNodeFacts(net: Network, prev: seq<nat>, lo: nat, rand: nat -> real)
    requires Draws(rand)
    requires |net.layers| > 0
    requires Run(net, prev, lo)
    requires Sources(net, prev)
    ensures StepNodes(net, AddNode(net, prev, rand), lo, |prev|)
  {
    RunSources(net, prev, lo);
    AddNodeNodes(net, prev, rand);
    NodesLinked(net, AddNode(net, prev, rand), prev, lo);
  }

  /** Nodes after one step, from what `Connect` does to each of them. */
  lemma NodesLinked(net: Network, r: Network, prev: seq<nat>, lo: nat)
    requires Run(net, prev, lo)
    requires |r.nodes| == |net.nodes| + 1
    requires forall i :: 0 <= i < |net.nodes| ==> r.nodes[i] == Linked(net.nodes[i], i, prev, |net.nodes| + 1, |net.links|)
    requires r.nodes[|net.nodes|] == Node(|net.nodes| + 1, [], Indices(|net.links|, |prev|), RandomBias())
    ensures StepNodes(net, r, lo, |prev|)
  {
    var M := |net.links|;
    var N := |net.nodes|;
    RunSources(net, prev, lo);
    forall i | 0 <= i < N
      ensures r.nodes[i] == net.nodes[i].(links := net.nodes[i].links + (if lo <= i < lo + |prev| then [M + (i - lo)] else []))
    {
      LinkedOld(net.nodes[i], i, prev, lo, N + 1, M);
    }
  }

  /** An old node gains at most the one link from itself to the new node. */
  lemma LinkedOld(n: Node, i: nat, prev: seq<nat>, lo: nat, to: nat, base: nat)
    requires Distinct(prev)
    requires forall t :: 0 <= t < |prev| ==> prev[t] == lo + t + 1
    requires i + 1 != to
    ensures Linked(n, i, prev, to, base) ==
              n.(links := n.links + (if lo <= i < lo + |prev| then [base + (i - lo)] else []))
  {
    if lo <= i < lo + |prev| {
      HitsOnce(prev, i - lo, base);
    } else {
      HitsAbsent(prev, i + 1, base);
    }
  }

  lemma AddNodeLinkFacts(net: Network, prev: seq<nat>, lo: nat, rand: nat -> real)
    requires Draws(rand)
    requires |net.layers| > 0
    requires Run(net, prev, lo)
    requires Sources(net, prev)
    ensures StepLinks(net, AddNode(net, prev, rand), lo, |prev|, rand)
  {
    LinksAppended(net, AddNode(net, prev, rand), prev, lo, rand);
  }

  /** Links appended by one step run from the previous layer, in order, to the new node. */
  lemma LinksAppended(net: Network, r: Network, prev: seq<nat>, lo: nat, rand: nat -> real)
    requires Draws(rand)
    requires Run(net, prev, lo)
    requires r.links == net.links + NewLinks(prev, |net.nodes| + 1, |net.links|, rand)
    ensures StepLinks(net, r, lo, |prev|, rand)
  {
    var M := |net.links|;
    var added := NewLinks(prev, |net.nodes| + 1, M, rand);
    forall l | M <= l < M + |prev|
      ensures r.links[l] == Link(lo + (l - M) + 1, |net.nodes| + 1, RandomWeight(rand(l)))
    {
      assert r.links[l] == added[l - M];
    }
  }

  lemma AddNodeLayerFacts(net: Network, rand: nat -> real)
    requires Draws(rand)
    requires IdsDense(net)
    requires |net.layers| > 0
    ensures Sources(net, PrevLayer(net))
    ensures StepLayers(net, AddNode(net, PrevLayer(net), rand))
  {
    PrevLayerShape(net);
    var r := AddNode(net, PrevLayer(net), rand);
    forall k | 0 <= k < |net.layers| - 1
      ensures r.layers[k] == net.layers[k]
    {
      assert r.layers[k] == r.layers[..|net.layers| - 1][k];
    }
  }

  // ---------------------------------------------------------------------------
  // The parts of Layered after one AddNode step

  lemma StepIdsDense(net: Network, r: Network, rand: nat -> real)
    requires Draws(rand)
    requires IdsDense(net) && |net.layers| > 0
    requires StepLayers(net, r)
    requires StepNodes(net, r, PrevLo(net), |PrevLayer(net)|)
    ensures IdsDense(r)
  {
    var K := |net.layers| - 1;
    forall k | 0 <= k <= K
      ensures Offset(r.layers, k) == Offset(net.layers, k)
    {
      OffsetPrefix(r.layers, net.layers, k);
    }
    assert Offset(r.layers, K + 1) == Offset(net.layers, K + 1) + 1;
    forall k, j | 0 <= k < |r.layers| && 0 <= j < |r.layers[k].nodes|
      ensures r.layers[k].nodes[j] == Offset(r.layers, k) + j + 1
    {
      if k < K || j < |net.layers[K].nodes| {
        assert r.layers[k].nodes[j] == net.layers[k].nodes[j];
      }
    }
  }

  lemma StepIndicesValid(net: Network, r: Network, rand: nat -> real)
    requires Draws(rand)
    requires LinkIndicesValid(net) && |net.layers| > 0
    requires StepLinks(net, r, PrevLo(net), |PrevLayer(net)|, rand)
    requires StepNodes(net, r, PrevLo(net), |PrevLayer(net)|)
    ensures LinkIndicesValid(r)
  {
    var N := |net.nodes|;
    var M := |net.links|;
    forall i | 0 <= i < |r.nodes|
      ensures forall q :: 0 <= q < |r.nodes[i].links| ==> r.nodes[i].links[q] < |r.links|
      ensures forall p :: 0 <= p < |r.nodes[i].backLinks| ==> r.nodes[i].backLinks[p] < |r.links|
    {
      if i < N {
        forall q | 0 <= q < |r.nodes[i].links|
          ensures r.nodes[i].links[q] < |r.links|
        {
          if q < |net.nodes[i].links| {
            assert r.nodes[i].links[q] == net.nodes[i].links[q];
          }
        }
      } else {
        assert |r.nodes[N].backLinks| == |PrevLayer(net)|;
        forall p | 0 <= p < |r.nodes[i].backLinks|
          ensures r.nodes[i].backLinks[p] < |r.links|
        {
          assert r.nodes[N].backLinks[p] == M + p;
        }
      }
    }
  }

  lemma StepListed(net: Network, r: Network, rand: nat -> real)
    requires Draws(rand)
    requires IdsDense(net) && Shared(net) && |net.layers| > 0
    requires StepLinks(net, r, PrevLo(net), |PrevLayer(net)|, rand)
    requires StepNodes(net, r, PrevLo(net), |PrevLayer(net)|)
    ensures forall l :: 0 <= l < |r.links| ==> LinkListed(r, l)
  {
    StepListedOld(net, r, rand);
    StepListedNew(net, r, rand);
  }

  /** The links that were there before are still listed by both ends. */
  lemma StepListedOld(net: Network, r: Network, rand: nat -> real)
    requires Draws(rand)
    requires IdsDense(net) && Shared(net) && |net.layers| > 0
    requires StepLinks(net, r, PrevLo(net), |PrevLayer(net)|, rand)
    requires StepNodes(net, r, PrevLo(net), |PrevLayer(net)|)
    ensures forall l :: 0 <= l < |net.links| ==> LinkListed(r, l)
  {
    forall l | 0 <= l < |net.links|
      ensures LinkListed(r, l)
    {
      assert LinkListed(net, l);
      var from := net.links[l].fromId;
      var to := net.links[l].toId;
      assert l in r.nodes[from - 1].links by {
        var q :| 0 <= q < |net.nodes[from - 1].links| && net.nodes[from - 1].links[q] == l;
        assert r.nodes[from - 1].links[q] == l;
      }
      assert r.nodes[to - 1].backLinks == net.nodes[to - 1].backLinks;
    }
  }

  /** The new links are listed by their source and by the new node. */
  lemma StepListedNew(net: Network, r: Network, rand: nat -> real)
    requires Draws(rand)
    requires IdsDense(net) && Shared(net) && |net.layers| > 0
    requires StepLinks(net, r, PrevLo(net), |PrevLayer(net)|, rand)
    requires StepNodes(net, r, PrevLo(net), |PrevLayer(net)|)
    ensures forall l :: |net.links| <= l < |r.links| ==> LinkListed(r, l)
  {
    var N := |net.nodes|;
    var M := |net.links|;
    var lo := PrevLo(net);
    var m := |PrevLayer(net)|;
    PrevLayerShape(net);
    forall l | M <= l < |r.links|
      ensures LinkListed(r, l)
    {
      var t := l - M;
      assert r.links[l].fromId == lo + t + 1;
      assert r.nodes[lo + t].links[|net.nodes[lo + t].links|] == l;
      assert |r.nodes[N].backLinks| == m;
      assert r.nodes[N].backLinks[t] == l;
    }
  }

  lemma StepEnds(net: Network, r: Network, rand: nat -> real)
    requires Draws(rand)
    requires Shared(net) && |net.layers| > 0
    requires StepLinks(net, r, PrevLo(net), |PrevLayer(net)|, rand)
    requires StepNodes(net, r, PrevLo(net), |PrevLayer(net)|)
    ensures forall i, q :: 0 <= i < |r.nodes| && 0 <= q < |r.nodes[i].links| ==>
              r.nodes[i].links[q] < |r.links| && r.links[r.nodes[i].links[q]].fromId == i + 1
    ensures forall i, p :: 0 <= i < |r.nodes| && 0 <= p < |r.nodes[i].backLinks| ==>
              r.nodes[i].backLinks[p] < |r.links| && r.links[r.nodes[i].backLinks[p]].toId == i + 1
  {
    var N := |net.nodes|;
    var M := |net.links|;
    forall i, q | 0 <= i < |r.nodes| && 0 <= q < |r.nodes[i].links|
      ensures r.nodes[i].links[q] < |r.links| && r.links[r.nodes[i].links[q]].fromId == i + 1
    {
      if q < |net.nodes[i].links| {
        assert r.nodes[i].links[q] == net.nodes[i].links[q];
      }
    }
    forall i, p | 0 <= i < |r.nodes| && 0 <= p < |r.nodes[i].backLinks|
      ensures r.nodes[i].backLinks[p] < |r.links| && r.links[r.nodes[i].backLinks[p]].toId == i + 1
    {
      if i == N {
        assert r.nodes[i].backLinks[p] == M + p;
      }
    }
  }

  lemma StepIncreasing(net: Network, r: Network, rand: nat -> real)
    requires Draws(rand)
    requires Shared(net) && |net.layers| > 0
    requires StepNodes(net, r, PrevLo(net), |PrevLayer(net)|)
    ensures forall i :: 0 <= i < |r.nodes| ==>
              StrictlyIncreasing(r.nodes[i].links) && StrictlyIncreasing(r.nodes[i].backLinks)
  {
    var N := |net.nodes|;
    forall i | 0 <= i < |r.nodes|
      ensures StrictlyIncreasing(r.nodes[i].links) && StrictlyIncreasing(r.nodes[i].backLinks)
    {
      if i < N {
        forall a, b | 0 <= a < b < |r.nodes[i].links|
          ensures r.nodes[i].links[a] < r.nodes[i].links[b]
        {
          assert r.nodes[i].links[a] == net.nodes[i].links[a];
          if b < |net.nodes[i].links| {
            assert r.nodes[i].links[b] == net.nodes[i].links[b];
          } else {
            assert net.nodes[i].links[a] < |net.links|;
          }
        }
      }
    }
  }

  lemma StepShared(net: Network, r: Network, rand: nat -> real)
    requires Draws(rand)
    requires IdsDense(net) && Shared(net) && |net.layers| > 0
    requires StepLinks(net, r, PrevLo(net), |PrevLayer(net)|, rand)
    requires StepNodes(net, r, PrevLo(net), |PrevLayer(net)|)
    requires LinkIndicesValid(r)
    ensures Shared(r)
  {
    StepListed(net, r, rand);
    StepEnds(net, r, rand);
    StepIncreasing(net, r, rand);
  }

  lemma StepBackFrom(net: Network, r: Network, rand: nat -> real)
    requires Draws(rand)
    requires IdsDense(net) && ArenaSafe(net) && Adjacent(net) && |net.layers| > 0
    requires StepLayers(net, r)
    requires StepLinks(net, r, PrevLo(net), |PrevLayer(net)|, rand)
    requires StepNodes(net, r, PrevLo(net), |PrevLayer(net)|)
    requires ArenaSafe(r)
    ensures forall k, j :: 0 < k < |r.layers| && 0 <= j < |r.layers[k].nodes| ==> BackFrom(r, k, j)
  {
    var K := |net.layers| - 1;
    var N := |net.nodes|;
    var M := |net.links|;
    PrevLayerShape(net);
    forall k, j | 0 < k < |r.layers| && 0 <= j < |r.layers[k].nodes|
      ensures BackFrom(r, k, j)
    {
      if k < K || j < |net.layers[K].nodes| {
        OldBackFrom(net, r, rand, k, j);
      } else {
        assert r.layers[k].nodes[j] == N + 1;
        assert NodeAt(r, k, j) == r.nodes[N];
        assert r.layers[k - 1] == net.layers[K - 1];
        assert net.layers[K - 1].nodes == PrevLayer(net);
        forall p | 0 <= p < |r.nodes[N].backLinks|
          ensures r.links[r.nodes[N].backLinks[p]].fromId == r.layers[k - 1].nodes[p]
        {
          assert r.nodes[N].backLinks[p] == M + p;
        }
      }
    }
  }

  lemma OldBackFrom(net: Network, r: Network, rand: nat -> real, k: nat, j: nat)
    requires Draws(rand)
    requires IdsDense(net) && ArenaSafe(net) && Adjacent(net) && |net.layers| > 0
    requires StepLayers(net, r)
    requires StepLinks(net, r, PrevLo(net), |PrevLayer(net)|, rand)
    requires StepNodes(net, r, PrevLo(net), |PrevLayer(net)|)
    requires ArenaSafe(r)
    requires 0 < k < |net.layers| && j < |net.layers[k].nodes|
    ensures j < |r.layers[k].nodes| && BackFrom(r, k, j)
  {
    var K := |net.layers| - 1;
    var x := net.layers[k].nodes[j];
    assert r.layers[k].nodes[j] == x;
    assert r.layers[k - 1] == net.layers[k - 1];
    assert BackFrom(net, k, j);
    IdBounds(net, k, j);
    var n := NodeAt(net, k, j);
    assert NodeAt(r, k, j).backLinks == n.backLinks;
    forall p | 0 <= p < |n.backLinks|
      ensures r.links[n.backLinks[p]] == net.links[n.backLinks[p]]
    {
      assert n.backLinks[p] < |net.links|;
    }
  }

  lemma StepForwardTo(net: Network, r: Network, rand: nat -> real)
    requires Draws(rand)
    requires IdsDense(net) && ArenaSafe(net) && Adjacent(net) && |net.layers| > 0
    requires StepLayers(net, r)
    requires StepLinks(net, r, PrevLo(net), |PrevLayer(net)|, rand)
    requires StepNodes(net, r, PrevLo(net), |PrevLayer(net)|)
    requires ArenaSafe(r)
    ensures forall k, j :: 0 <= k && k + 1 < |r.layers| && 0 <= j < |r.layers[k].nodes| ==> ForwardTo(r, k, j)
  {
    forall k, j | 0 <= k && k + 1 < |r.layers| && 0 <= j < |r.layers[k].nodes|
      ensures ForwardTo(r, k, j)
    {
      OldForwardTo(net, r, rand, k, j);
    }
  }

  lemma OldForwardTo(net: Network, r: Network, rand: nat -> real, k: nat, j: nat)
    requires Draws(rand)
    requires IdsDense(net) && ArenaSafe(net) && Adjacent(net) && |net.layers| > 0
    requires StepLayers(net, r)
    requires StepLinks(net, r, PrevLo(net), |PrevLayer(net)|, rand)
    requires StepNodes(net, r, PrevLo(net), |PrevLayer(net)|)
    requires ArenaSafe(r)
    requires k + 1 < |r.layers| && j < |r.layers[k].nodes|
    ensures ForwardTo(r, k, j)
  {
    if k + 2 < |net.layers| {
      OldForwardToInner(net, r, rand, k, j);
    } else {
      OldForwardToLast(net, r, rand, j);
    }
  }

  /** The forward links of a node of the old layers that is not the previous layer. */
  lemma OldForwardToInner(net: Network, r: Network, rand: nat -> real, k: nat, j: nat)
    requires Draws(rand)
    requires IdsDense(net) && ArenaSafe(net) && Adjacent(net) && |net.layers| > 0
    requires StepLayers(net, r)
    requires StepLinks(net, r, PrevLo(net), |PrevLayer(net)|, rand)
    requires StepNodes(net, r, PrevLo(net), |PrevLayer(net)|)
    requires ArenaSafe(r)
    requires k + 2 < |net.layers| && j < |r.layers[k].nodes|
    ensures ForwardTo(r, k, j)
  {
    var K := |net.layers| - 1;
    assert r.layers[k] == net.layers[k];
    assert ForwardTo(net, k, j);
    IdBounds(net, k, j);
    var before := NodeAt(net, k, j).links;
    forall q | 0 <= q < |before|
      ensures r.links[before[q]] == net.links[before[q]]
    {
      assert before[q] < |net.links|;
    }
    OffsetMonotone(net.layers, k + 1, K - 1);
    assert NodeAt(r, k, j).links == before;
    assert r.layers[k + 1] == net.layers[k + 1];
  }

  /** The forward links of a node of the previous layer: the old ones and the one to the new node. */
  lemma OldForwardToLast(net: Network, r: Network, rand: nat -> real, j: nat)
    requires Draws(rand)
    requires IdsDense(net) && ArenaSafe(net) && Adjacent(net) && |net.layers| > 0
    requires StepLayers(net, r)
    requires StepLinks(net, r, PrevLo(net), |PrevLayer(net)|, rand)
    requires StepNodes(net, r, PrevLo(net), |PrevLayer(net)|)
    requires ArenaSafe(r)
    requires |net.layers| >= 2 && j < |r.layers[|net.layers| - 2].nodes|
    ensures ForwardTo(r, |net.layers| - 2, j)
  {
    var k := |net.layers| - 2;
    var M := |net.links|;
    var lo := PrevLo(net);
    PrevLayerShape(net);
    var x := net.layers[k].nodes[j];
    assert r.layers[k] == net.layers[k];
    assert ForwardTo(net, k, j);
    IdBounds(net, k, j);
    var before := NodeAt(net, k, j).links;
    forall q | 0 <= q < |before|
      ensures r.links[before[q]] == net.links[before[q]]
    {
      assert before[q] < |net.links|;
    }
    assert x - 1 == lo + j;
    assert NodeAt(r, k, j).links == before + [M + j];
    forall q | 0 <= q < |NodeAt(r, k, j).links|
      ensures r.links[NodeAt(r, k, j).links[q]].toId == r.layers[k + 1].nodes[q]
    {
      if q < |before| {
        assert NodeAt(r, k, j).links[q] == before[q];
      }
    }
  }


  lemma StepNoEnds(net: Network, r: Network, rand: nat -> real)
    requires Draws(rand)
    requires IdsDense(net) && ArenaSafe(net) && Adjacent(net) && |net.layers| > 0
    requires StepLayers(net, r)
    requires StepNodes(net, r, PrevLo(net), |PrevLayer(net)|)
    requires ArenaSafe(r)
    ensures NoBackLinks(r, 0)
    ensures NoForwardLinks(r, |r.layers| - 1)
  {
    StepNoBackLinks(net, r, rand);
    StepNoForwardLinks(net, r, rand);
  }

  /** The input layer still has no back links, the new node included when it joins the input layer. */
  lemma StepNoBackLinks(net: Network, r: Network, rand: nat -> real)
    requires Draws(rand)
    requires IdsDense(net) && ArenaSafe(net) && Adjacent(net) && |net.layers| > 0
    requires StepLayers(net, r)
    requires StepNodes(net, r, PrevLo(net), |PrevLayer(net)|)
    requires ArenaSafe(r)
    ensures NoBackLinks(r, 0)
  {
    var K := |net.layers| - 1;
    var N := |net.nodes|;
    forall j | 0 <= j < |r.layers[0].nodes|
      ensures NodeAt(r, 0, j).backLinks == []
    {
      if K > 0 || j < |net.layers[0].nodes| {
        assert r.layers[0].nodes[j] == net.layers[0].nodes[j];
        IdBounds(net, 0, j);
        assert NodeAt(net, 0, j).backLinks == [];
      } else {
        assert NodeAt(r, 0, j) == r.nodes[N];
      }
    }
  }

  /** The last layer, new node included, still has no forward links. */
  lemma StepNoForwardLinks(net: Network, r: Network, rand: nat -> real)
    requires Draws(rand)
    requires IdsDense(net) && ArenaSafe(net) && Adjacent(net) && |net.layers| > 0
    requires StepLayers(net, r)
    requires StepNodes(net, r, PrevLo(net), |PrevLayer(net)|)
    requires ArenaSafe(r)
    ensures NoForwardLinks(r, |r.layers| - 1)
  {
    var K := |net.layers| - 1;
    var N := |net.nodes|;
    forall j | 0 <= j < |r.layers[K].nodes|
      ensures NodeAt(r, K, j).links == []
    {
      if j < |net.layers[K].nodes| {
        assert r.layers[K].nodes[j] == net.layers[K].nodes[j];
        IdBounds(net, K, j);
        assert NodeAt(net, K, j).links == [];
      } else {
        assert NodeAt(r, K, j) == r.nodes[N];
      }
    }
  }

  /** One node added to the last layer keeps the arena invariant. */
  lemma AddNodeLayered(net: Network, rand: nat -> real)
    requires Draws(rand)
    requires Layered(net)
    requires |net.layers| > 0
    ensures Sources(net, PrevLayer(net))
    ensures Layered(AddNode(net, PrevLayer(net), rand))
    ensures PrevLayer(AddNode(net, PrevLayer(net), rand)) == PrevLayer(net)
  {
    PrevLayerShape(net);
    var prev := PrevLayer(net);
    var lo := PrevLo(net);
    var r := AddNode(net, prev, rand);
    AddNodeLayerFacts(net, rand);
    AddNodeNodeFacts(net, prev, lo, rand);
    AddNodeLinkFacts(net, prev, lo, rand);
    StepIdsDense(net, r, rand);
    IdsDenseValid(r);
    StepIndicesValid(net, r, rand);
    StepShared(net, r, rand);
    StepBackFrom(net, r, rand);
    StepForwardTo(net, r, rand);
    StepNoEnds(net, r, rand);
    assert ZeroBias(r) by {
      assert r.nodes[|net.nodes|].bias == 0.0;
    }
  }

  /** One node added keeps every link at the weight drawn for its position. */
  lemma AddNodeDrawn(net: Network, rand: nat -> real)
    requires Draws(rand)
    requires IdsDense(net)
    requires |net.layers| > 0
    requires DrawnWeights(net, rand)
    ensures Sources(net, PrevLayer(net))
    ensures DrawnWeights(AddNode(net, PrevLayer(net), rand), rand)
  {
    PrevLayerShape(net);
    AddNodeLinkFacts(net, PrevLayer(net), PrevLo(net), rand);
  }

  lemma LastIdsSources(net: Network)
    requires IdsDense(net)
    ensures Sources(net, LastIds(net))
  {
    if |net.layers| > 0 {
      forall t | 0 <= t < |LastIds(net)|
        ensures 1 <= LastIds(net)[t] <= |net.nodes|
      {
        IdBounds(net, |net.layers| - 1, t);
      }
    }
  }

  /** An empty layer appended to a network keeps the invariant; its nodes will link from the old last layer. */
  lemma AppendLayerLayered(net: Network, kind: LayerType)
    requires Layered(net)
    ensures Layered(net.(layers := net.layers + [Layer(kind, [])]))
    ensures PrevLayer(net.(layers := net.layers + [Layer(kind, [])])) == LastIds(net)
  {
    AppendIdsDense(net, kind);
    AppendAdjacent(net, kind);
    AppendShared(net, kind);
  }

  lemma AppendIdsDense(net: Network, kind: LayerType)
    requires Layered(net)
    ensures IdsDense(net.(layers := net.layers + [Layer(kind, [])]))
    ensures ArenaSafe(net.(layers := net.layers + [Layer(kind, [])]))
  {
    var r := net.(layers := net.layers + [Layer(kind, [])]);
    var K := |net.layers|;
    forall k | 0 <= k <= K
      ensures Offset(r.layers, k) == Offset(net.layers, k)
    {
      OffsetPrefix(r.layers, net.layers, k);
    }
    forall k, j | 0 <= k < |r.layers| && 0 <= j < |r.layers[k].nodes|
      ensures r.layers[k].nodes[j] == Offset(r.layers, k) + j + 1
    {
      assert r.layers[k] == net.layers[k];
    }
    IdsDenseValid(r);
  }

  lemma AppendAdjacent(net: Network, kind: LayerType)
    requires Layered(net)
    ensures ArenaSafe(net.(layers := net.layers + [Layer(kind, [])]))
    ensures Adjacent(net.(layers := net.layers + [Layer(kind, [])]))
  {
    var r := net.(layers := net.layers + [Layer(kind, [])]);
    var K := |net.layers|;
    AppendIdsDense(net, kind);
    if K == 0 {
      assert |net.nodes| == 0;
    } else {
      forall k, j | 0 < k < |r.layers| && 0 <= j < |r.layers[k].nodes|
        ensures BackFrom(r, k, j)
      {
        assert r.layers[k] == net.layers[k] && r.layers[k - 1] == net.layers[k - 1];
        assert BackFrom(net, k, j);
      }
      forall k, j | 0 <= k && k + 1 < |r.layers| && 0 <= j < |r.layers[k].nodes|
        ensures ForwardTo(r, k, j)
      {
        assert r.layers[k] == net.layers[k];
        if k + 1 < K {
          assert r.layers[k + 1] == net.layers[k + 1];
          assert ForwardTo(net, k, j);
        } else {
          assert NodeAt(net, k, j).links == [];
        }
      }
      assert r.layers[0] == net.layers[0];
      assert NoBackLinks(net, 0);
      forall j | 0 <= j < |r.layers[0].nodes|
        ensures NodeAt(r, 0, j).backLinks == []
      {
        assert NodeAt(r, 0, j) == NodeAt(net, 0, j);
      }
    }
  }

  lemma AppendShared(net: Network, kind: LayerType)
    requires Layered(net)
    ensures Shared(net.(layers := net.layers + [Layer(kind, [])]))
  {
    var r := net.(layers := net.layers + [Layer(kind, [])]);
    forall l | 0 <= l < |r.links|
      ensures LinkListed(r, l)
    {
      assert LinkListed(net, l);
    }
  }

  /** `count` nodes added to the last layer keep the invariant and the drawn weights. */
  lemma {:induction false} AddNodesLayered(net: Network, count: int, rand: nat -> real)
    requires Draws(rand)
    requires Layered(net)
    requires |net.layers| > 0
    ensures Sources(net, PrevLayer(net))
    ensures Layered(AddNodes(net, PrevLayer(net), count, rand))
    ensures DrawnWeights(net, rand) ==> DrawnWeights(AddNodes(net, PrevLayer(net), count, rand), rand)
    decreases count
  {
    PrevLayerShape(net);
    if count > 0 {
      var next := AddNode(net, PrevLayer(net), rand);
      AddNodeLayered(net, rand);
      if DrawnWeights(net, rand) {
        AddNodeDrawn(net, rand);
      }
      AddNodesLayered(next, count - 1, rand);
    }
  }

  /** `buildLayer` of one layer keeps the invariant and the drawn weights. */
  lemma BuildLayerLayered(net: Network, kind: LayerType, count: int, rand: nat -> real)
    requires Draws(rand)
    requires Layered(net)
    ensures Sources(net, LastIds(net))
    ensures Layered(BuildLayer(net, kind, count, rand))
    ensures DrawnWeights(net, rand) ==> DrawnWeights(BuildLayer(net, kind, count, rand), rand)
  {
    LastIdsSources(net);
    var withLayer := net.(layers := net.layers + [Layer(kind, [])]);
    AppendLayerLayered(net, kind);
    AddNodesLayered(withLayer, count, rand);
  }

  lemma {:induction false} BuildHiddenLayered(net: Network, sizes: seq<int>, rand: nat -> real)
    requires Draws(rand)
    requires Layered(net)
    ensures Sources(net, LastIds(net))
    ensures Layered(BuildHidden(net, sizes, rand))
    ensures DrawnWeights(net, rand) ==> DrawnWeights(BuildHidden(net, sizes, rand), rand)
    decreases |sizes|
  {
    LastIdsSources(net);
    if |sizes| > 0 {
      BuildLayerLayered(net, Hidden, sizes[0], rand);
      BuildHiddenLayered(BuildLayer(net, Hidden, sizes[0], rand), sizes[1..], rand);
    }
  }
}
