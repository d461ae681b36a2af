/**
 The data model of the `gnn` package: options, layers, nodes and links.

 The Go program builds a pointer graph in which every `*Link` is shared by the
 `Links` list of its source node and the `BackLinks` list of its target node.
 Here that graph is an arena: `nodes` is indexed by `id - 1`, `links` is one
 global sequence, and a node's `links`/`backLinks` are indices into it, so a
 weight written through one view is seen through the other.
 */
module NetTypes {

  /** Go's `nil`-or-value, used for optional function fields and absent results. */
  datatype Option<T> = None | Some(value: T)

  /** Go's `byte`. */
  newtype byte = x: int | 0 <= x < 256

  /** `LayerType`: input, hidden or output. */
  datatype LayerType = Input | Hidden | Output

  /** A directed weighted edge; `fromId`/`toId` are node ids. */
  datatype Link = Link(fromId: nat, toId: nat, weight: real)

  /** A node: its id, the indices of its forward links and back links, and its bias. */
  datatype Node = Node(id: nat, links: seq<nat>, backLinks: seq<nat>, bias: real)

  /** A layer lists the ids of its nodes in creation order. */
  datatype Layer = Layer(kind: LayerType, nodes: seq<nat>)

  /** `Options`; the two function fields are `None` where Go holds a nil func. */
  datatype Options = Options(
    inputsCount: int,
    outputsCount: int,
    hiddenLayersSizes: seq<int>,
    activationFunc: Option<real -> real>,
    activationFuncDerivative: Option<real -> real>,
    learningRate: real)

  datatype Network = Network(layers: seq<Layer>, nodes: seq<Node>, links: seq<Link>, options: Options)

  /** Reading a Go `map[uint64]float64`: a missing key reads as zero. */
  function Get(m: map<nat, real>, k: nat): real
  {
    if k in m then m[k] else 0.0
  }

  /** How many times a loop counting from 0 up to `n` runs: none when `n` is negative. */
  function Count(n: int): nat
  {
    if n < 0 then 0 else n
  }

  /** The ids of the last layer, or none when there are no layers. */
  function LastIds(net: Network): seq<nat>
  {
    if |net.layers| == 0 then [] else net.layers[|net.layers| - 1].nodes
  }
}
