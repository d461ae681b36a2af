/**
 `NewNeuralNetwork` (network.go:44-122) on the arena.

 The Go code has three nested loops: over layers, over the new layer's nodes,
 and over the previous layer's nodes, creating one shared link per pair. Each
 loop is a recursive function here: `BuildHidden`/`NewNetwork` for layers,
 `AddNodes` for nodes and `Connect` for links. The `k`-th call of
 `rand.Float64()` is `rand(k)`; it is made for the `k`-th link created, so link
 `k` gets weight `0.5 - rand(k)`.
 */
module Builder {
  import opened NetTypes
  import opened Defaults
  import opened Arena

  /** `rand` is a stream of `rand.Float64()` results, each in [0, 1). */
  ghost predicate Draws(rand: nat -> real)
  {
    forall k: nat :: 0.0 <= rand(k) < 1.0
  }

  /** Every link carries the weight drawn for its creation index. */
  ghost predicate DrawnWeights(net: Network, rand: nat -> real)
    requires Draws(rand)
  {
    forall l :: 0 <= l < |net.links| ==> net.links[l].weight == RandomWeight(rand(l))
  }

  ghost predicate Distinct(s: seq<nat>)
  {
    forall a, b :: 0 <= a < b < |s| ==> s[a] != s[b]
  }

  /** The link indices `base`, `base + 1`, ..., `base + n - 1`. */
  function Indices(base: nat, n: nat): seq<nat>
  {
    seq(n, t => base + t)
  }

  /** The ids a new node is linked from name nodes of the arena. */
  ghost predicate Sources(net: Network, prev: seq<nat>)
  {
    forall t :: 0 <= t < |prev| ==> 1 <= prev[t] <= |net.nodes|
  }

  /** The links created for `to` from each node of `prev`, the first getting index `base`. */
  function NewLinks(prev: seq<nat>, to: nat, base: nat, rand: nat -> real): seq<Link>
    requires Draws(rand)
  {
    seq(|prev|, t requires 0 <= t < |prev| => Link(prev[t], to, RandomWeight(rand(base + t))))
  }

  /** The indices, counting from `base`, of the positions where `prev` holds `id`. */
  function Hits(prev: seq<nat>, id: nat, base: nat): seq<nat>
    decreases |prev|
  {
    if |prev| == 0 then []
    else (if prev[0] == id then [base] else []) + Hits(prev[1..], id, base + 1)
  }

  /** Node `i` of the arena after `Connect` has linked `to` from every node of `prev`. */
  function Linked(n: Node, i: nat, prev: seq<nat>, to: nat, base: nat): Node
  {
    n.(links := n.links + Hits(prev, i + 1, base),
       backLinks := if i + 1 == to then n.backLinks + Indices(base, |prev|) else n.backLinks)
  }

  /** One iteration of the link loop: a fresh link `from -> to` appended to both endpoints' lists. */
  function LinkOne(net: Network, from: nat, to: nat, rand: nat -> real): (r: Network)
    requires Draws(rand)
    requires 1 <= from <= |net.nodes| && 1 <= to <= |net.nodes|
    ensures r.layers == net.layers && r.options == net.options
    ensures r.links == net.links + [Link(from, to, RandomWeight(rand(|net.links|)))]
    ensures |r.nodes| == |net.nodes|
    ensures forall i :: 0 <= i < |net.nodes| ==>
              r.nodes[i] == net.nodes[i].(
                links := net.nodes[i].links + (if i + 1 == from then [|net.links|] else []),
                backLinks := net.nodes[i].backLinks + (if i + 1 == to then [|net.links|] else []))
  {
    var l := |net.links|;
    var src := net.nodes[from - 1];
    var nodes1 := net.nodes[from - 1 := src.(links := src.links + [l])];
    var dst := nodes1[to - 1];
    var nodes2 := nodes1[to - 1 := dst.(backLinks := dst.backLinks + [l])];
    net.(nodes := nodes2, links := net.links + [Link(from, to, RandomWeight(rand(l)))])
  }

  /** After one more link (index `l`, from `prev[0]`), the rest of the loop yields the same nodes. */
  lemma LinkedStep(n: Node, n': Node, i: nat, prev: seq<nat>, to: nat, l: nat)
    requires |prev| > 0
    requires n' == n.(links := n.links + (if i + 1 == prev[0] then [l] else []),
                      backLinks := n.backLinks + (if i + 1 == to then [l] else []))
    ensures Linked(n', i, prev[1..], to, l + 1) == Linked(n, i, prev, to, l)
  {
    IndicesCons(l, |prev|);
    var a := n'.links + Hits(prev[1..], i + 1, l + 1);
    assert a == n.links + Hits(prev, i + 1, l);
    var b := if i + 1 == to then n'.backLinks + Indices(l + 1, |prev| - 1) else n'.backLinks;
    assert b == if i + 1 == to then n.backLinks + Indices(l, |prev|) else n.backLinks;
  }

  lemma IndicesCons(base: nat, n: nat)
    requires n > 0
    ensures Indices(base, n) == [base] + Indices(base + 1, n - 1)
  {
  }

  /** `LinkedStep` for every node of the arena. */
  lemma LinkedAll(before: seq<Node>, mid: seq<Node>, after: seq<Node>, prev: seq<nat>, to: nat, l: nat)
    requires |prev| > 0 && |mid| == |before| && |after| == |before|
    requires forall i :: 0 <= i < |before| ==>
               mid[i] == before[i].(links := before[i].links + (if i + 1 == prev[0] then [l] else []),
                                    backLinks := before[i].backLinks + (if i + 1 == to then [l] else []))
    requires forall i :: 0 <= i < |before| ==> after[i] == Linked(mid[i], i, prev[1..], to, l + 1)
    ensures forall i :: 0 <= i < |before| ==> after[i] == Linked(before[i], i, prev, to, l)
  {
    forall i | 0 <= i < |before|
      ensures after[i] == Linked(before[i], i, prev, to, l)
    {
      LinkedStep(before[i], mid[i], i, prev, to, l);
    }
  }

  /**
   The inner loop of network.go:68-79, 81-92 and 106-116: for each node `prev[t]`
   in order, create link `Link(prev[t], to, randomWeight())` and append its index
   to `prev[t]`'s forward links and to `to`'s back links.
   */
  function Connect(net: Network, prev: seq<nat>, to: nat, rand: nat -> real): (r: Network)
    requires Draws(rand)
    requires 1 <= to <= |net.nodes|
    requires Sources(net, prev)
    ensures r.layers == net.layers && r.options == net.options
    ensures r.links == net.links + NewLinks(prev, to, |net.links|, rand)
    ensures |r.nodes| == |net.nodes|
    ensures forall i :: 0 <= i < |net.nodes| ==> r.nodes[i] == Linked(net.nodes[i], i, prev, to, |net.links|)
    decreases |prev|
  {
    if |prev| == 0 then
      assert NewLinks(prev, to, |net.links|, rand) == [];
      assert Indices(|net.links|, 0) == [];
      net
    else
      var l := |net.links|;
      var next := LinkOne(net, prev[0], to, rand);
      assert NewLinks(prev, to, l, rand) == [Link(prev[0], to, RandomWeight(rand(l)))] + NewLinks(prev[1..], to, l + 1, rand);
      var r := Connect(next, prev[1..], to, rand);
      LinkedAll(net.nodes, next.nodes, r.nodes, prev, to, l);
      r
  }

  lemma {:induction false} HitsAbsent(prev: seq<nat>, id: nat, base: nat)
    requires id !in prev
    ensures Hits(prev, id, base) == []
    decreases |prev|
  {
    if |prev| > 0 {
      HitsAbsent(prev[1..], id, base + 1);
    }
  }

  /** Among distinct ids, `prev[t]` is hit exactly at index `base + t`. */
  lemma {:induction false} HitsOnce(prev: seq<nat>, t: nat, base: nat)
    requires Distinct(prev)
    requires t < |prev|
    ensures Hits(prev, prev[t], base) == [base + t]
    decreases |prev|
  {
    if t == 0 {
      HitsAbsent(prev[1..], prev[0], base + 1);
    } else {
      assert prev[1..][t - 1] == prev[t];
      HitsOnce(prev[1..], t - 1, base + 1);
    }
  }

  /**
   The body of the node loops of network.go:50-56, 61-95 and 100-118: a node with
   the next id and bias `randomBias()`, linked from every node of `prev`, then
   appended to the layer under construction (the last one).
   */
  function AddNode(net: Network, prev: seq<nat>, rand: nat -> real): (r: Network)
    requires Draws(rand)
    requires |net.layers| > 0
    requires Sources(net, prev)
    ensures |r.layers| == |net.layers|
    ensures r.layers[..|net.layers| - 1] == net.layers[..|net.layers| - 1]
    ensures r.layers[|r.layers| - 1] ==
              net.layers[|net.layers| - 1].(nodes := net.layers[|net.layers| - 1].nodes + [|net.nodes| + 1])
    ensures |r.nodes| == |net.nodes| + 1
    ensures r.options == net.options
    ensures r.links == net.links + NewLinks(prev, |net.nodes| + 1, |net.links|, rand)
  {
    var id := |net.nodes| + 1;
    var withNode := net.(nodes := net.nodes + [Node(id, [], [], RandomBias())]);
    var linked := Connect(withNode, prev, id, rand);
    var last := |linked.layers| - 1;
    linked.(layers := linked.layers[last := linked.layers[last].(nodes := linked.layers[last].nodes + [id])])
  }

  /** What `AddNode` does to the nodes: the old ones gain the new links, the new one has only back links. */
  lemma AddNodeNodes(net: Network, prev: seq<nat>, rand: nat -> real)
    requires Draws(rand)
    requires |net.layers| > 0
    requires Sources(net, prev)
    ensures forall i :: 0 <= i < |net.nodes| ==>
              AddNode(net, prev, rand).nodes[i] == Linked(net.nodes[i], i, prev, |net.nodes| + 1, |net.links|)
    ensures AddNode(net, prev, rand).nodes[|net.nodes|] ==
              Node(|net.nodes| + 1, [], Indices(|net.links|, |prev|), RandomBias())
  {
    var id := |net.nodes| + 1;
    var withNode := net.(nodes := net.nodes + [Node(id, [], [], RandomBias())]);
    var linked := Connect(withNode, prev, id, rand);
    HitsAbsent(prev, id, |net.links|);
    assert linked.nodes[|net.nodes|] == Linked(withNode.nodes[|net.nodes|], |net.nodes|, prev, id, |net.links|);
  }

  /** `AddNode` repeated `count` times; a negative count adds nothing. */
  function AddNodes(net: Network, prev: seq<nat>, count: int, rand: nat -> real): (r: Network)
    requires Draws(rand)
    requires |net.layers| > 0
    requires Sources(net, prev)
    ensures |r.layers| == |net.layers|
    ensures r.layers[..|net.layers| - 1] == net.layers[..|net.layers| - 1]
    ensures r.layers[|r.layers| - 1] == net.layers[|net.layers| - 1].(
              nodes := net.layers[|net.layers| - 1].nodes + Indices(|net.nodes| + 1, Count(count)))
    ensures |r.nodes| == |net.nodes| + Count(count)
    ensures r.options == net.options
    ensures net.links <= r.links
    decreases count
  {
    if count <= 0 then
      assert Indices(|net.nodes| + 1, 0) == [];
      net
    else
      var next := AddNode(net, prev, rand);
      var r := AddNodes(next, prev, count - 1, rand);
      assert Indices(|net.nodes| + 1, count) == [|net.nodes| + 1] + Indices(|net.nodes| + 2, count - 1);
      assert next.layers[..|net.layers| - 1] == net.layers[..|net.layers| - 1];
      r
  }

  /** A new layer of `count` nodes of the given kind, fully connected from the current last layer. */
  function BuildLayer(net: Network, kind: LayerType, count: int, rand: nat -> real): (r: Network)
    requires Draws(rand)
    requires Sources(net, LastIds(net))
    ensures r.layers == net.layers + [Layer(kind, Indices(|net.nodes| + 1, Count(count)))]
    ensures |r.nodes| == |net.nodes| + Count(count)
    ensures Sources(r, LastIds(r))
    ensures r.options == net.options
    ensures net.links <= r.links
  {
    var withLayer := net.(layers := net.layers + [Layer(kind, [])]);
    assert Sources(withLayer, LastIds(net));
    var r := AddNodes(withLayer, LastIds(net), count, rand);
    BuildLayerLayers(net, withLayer, r, kind, Indices(|net.nodes| + 1, Count(count)));
    LayerSources(r, |net.nodes|, Count(count));
    r
  }

  /** A last layer holding the newest `n` ids names nodes of the arena. */
  lemma LayerSources(r: Network, base: nat, n: nat)
    requires LastIds(r) == Indices(base + 1, n)
    requires |r.nodes| == base + n
    ensures Sources(r, LastIds(r))
  {
  }

  lemma BuildLayerLayers(net: Network, withLayer: Network, r: Network, kind: LayerType, ids: seq<nat>)
    requires withLayer.layers == net.layers + [Layer(kind, [])]
    requires |r.layers| == |withLayer.layers|
    requires r.layers[..|withLayer.layers| - 1] == withLayer.layers[..|withLayer.layers| - 1]
    requires r.layers[|r.layers| - 1] == withLayer.layers[|withLayer.layers| - 1].(nodes := withLayer.layers[|withLayer.layers| - 1].nodes + ids)
    ensures r.layers == net.layers + [Layer(kind, ids)]
  {
    assert withLayer.layers[..|net.layers|] == net.layers;
    assert [] + ids == ids;
    AppendLast(net.layers, r.layers, Layer(kind, ids));
  }

  lemma AppendLast(a: seq<Layer>, r: seq<Layer>, last: Layer)
    requires |r| == |a| + 1 && r[..|a|] == a && r[|a|] == last
    ensures r == a + [last]
  {
  }

  /** One hidden layer appended, then the rest: the hidden layers line up with `sizes`. */
  lemma HiddenAppend(a: seq<Layer>, b: seq<Layer>, c: seq<Layer>, base: nat, sizes: seq<int>)
    requires |sizes| > 0
    requires b == a + [Layer(Hidden, Indices(base, Count(sizes[0])))]
    requires |c| == |b| + |sizes[1..]| && c[..|b|] == b
    requires forall k :: |b| <= k < |c| ==> c[k].kind == Hidden && |c[k].nodes| == Count(sizes[1..][k - |b|])
    ensures |c| == |a| + |sizes| && c[..|a|] == a
    ensures forall k :: |a| <= k < |c| ==> c[k].kind == Hidden && |c[k].nodes| == Count(sizes[k - |a|])
  {
    assert c[..|a|] == c[..|b|][..|a|];
    assert c[|a|] == c[..|b|][|a|];
  }

  /** Links are only ever appended, so a prefix of a prefix is a prefix. */
  lemma LinksGrow(a: seq<Link>, b: seq<Link>, c: seq<Link>)
    requires a <= b && b <= c
    ensures a <= c
  {
  }

  /** The hidden-layer loop of network.go:59-97, one layer per entry of `sizes`. */
  function BuildHidden(net: Network, sizes: seq<int>, rand: nat -> real): (r: Network)
    requires Draws(rand)
    requires Sources(net, LastIds(net))
    ensures |r.layers| == |net.layers| + |sizes|
    ensures r.layers[..|net.layers|] == net.layers
    ensures forall k :: |net.layers| <= k < |r.layers| ==>
              r.layers[k].kind == Hidden && |r.layers[k].nodes| == Count(sizes[k - |net.layers|])
    ensures Sources(r, LastIds(r))
    ensures r.options == net.options
    ensures net.links <= r.links
    decreases |sizes|
  {
    if |sizes| == 0 then
      assert net.layers[..|net.layers|] == net.layers;
      net
    else
      var next := BuildLayer(net, Hidden, sizes[0], rand);
      var r := BuildHidden(next, sizes[1..], rand);
      HiddenAppend(net.layers, next.layers, r.layers, |net.nodes| + 1, sizes);
      LinksGrow(net.links, next.links, r.links);
      r
  }
}
