# go-neural-network in Dafny

A model of the `gnn` package of maglink/go-neural-network, a small
fully connected feed-forward network. It also models the three helpers of its
MNIST web-explorer example. The model covers:

- **Construction** (`NewNeuralNetwork`). Options are defaulted. Then an input
  layer, one hidden layer per entry of `HiddenLayersSizes` and an output layer
  are built. Each layer is fully connected from the one before it. Node ids come
  from a counter starting at 1. Every link gets `0.5 - rand.Float64()` as its
  weight, and every bias is `randomBias()`, which is zero.
- **The forward pass** (`useWithFullResult`, `Use`). It runs on a values map
  keyed by node id, exactly as the Go code does. The bias is added once per
  incoming link, not once per node.
- **One training step** (`BackPropagation`):
  - the output errors `target - output`;
  - errors carried back through the hidden layers along forward links;
  - `link.Weight += rate * error * f'(value) * source value` for every back link.
- **The text dump** (`ToString`).
- **The explorer helpers**: `getMaxOutputIndex`, the one-hot target loop and
  `setInputValuesFromImage`.

The Go pointer graph is modelled as an arena. A network holds:

- `layers`, each listing the ids of its nodes;
- `nodes`, where the node with id `i` sits at index `i - 1`;
- one global sequence of `links`.

A node's `links` and `backLinks` are indices into that sequence. So a link is a
single object seen from both of its ends, as a shared `*Link` is in Go.

The modules follow the program:

- `NetTypes` (types.dfy): the data model.
- `Defaults` (options.dfy): `setDefaultOptions`, `SigmoidDerivative`,
  `randomWeight` and `randomBias`.
- `Arena` (arena.dfy): the structural invariant `Connected`. It says:
  - ids are dense and in layer order;
  - every link is listed once by each of its ends;
  - layer `k` is fully connected to layer `k + 1`, in order.
- `Builder` (build.dfy): the building loops of `NewNeuralNetwork`.
- `BuildInvariant` (layered.dfy): every building step keeps `Connected`.
- `Construct` (construct.dfy): `NewNeuralNetwork` and its guarantees.
- `Forward` (forward.dfy): `useWithFullResult` and `Use`, plus a layer-by-layer
  reference `LayerValues`. The two are proved to agree.
- `Backprop` (backprop.dfy): `BackPropagation` as the Go loops run it.
- `ErrorRule` (errors.dfy): the error map equals a layer-by-layer reference
  `ErrorsRef`.
- `UpdateRule` (update.dfy): every weight is updated exactly once.
- `DeltaRule` (training.dfy): one training step in closed form.
- `Printer` (print.dfy): `ToString`.
- `Explorer` (explorer.dfy): the example's helpers.

## Model

| member | source | states |
|---|---|---|
| Defaults.SetDefaults | network.go:207-227 | Only a zero input or output count and an empty hidden-size list are replaced, by 5, 2 and [15, 7]. A nil activation or derivative becomes the sigmoid or its derivative. A learning rate outside (0, 1] becomes 0.5. Every other field passes through. The result is always normalized, and an already normalized record is returned unchanged. |
| Defaults.SetDefaultsIdempotent | network.go:207-227 | Applying the defaults twice gives the same options as applying them once. |
| Defaults.SigmoidDerivative | network.go:203-205 | For a sigmoid output `y` in [0, 1] the derivative lies in [0, 1/4]. Outside [0, 1] it is negative. |
| Defaults.RandomWeight | network.go:229-231 | A draw in [0, 1) gives a weight in (-1/2, 1/2], and the draw can be recovered from the weight. |
| Builder.LinkOne | network.go:69-78 | One link is appended to the global list, with the next draw as its weight. Its index is appended to the source's forward list and to the target's back list. Nothing else changes. |
| Builder.Connect | network.go:106-116 | Linking a new node from a whole layer gives each source exactly the one new forward link. The new node gets all the new links as back links, in order, and the weights are the successive draws. |
| Builder.AddNode | network.go:62-94 | A new node with the next id joins the last layer. The links appended are exactly one per node of the previous layer, in that layer's order. |
| Builder.AddNodes | network.go:61-95 | `n` iterations add the next `max(0, n)` ids to the last layer. A negative count adds nothing. Earlier layers and links are kept. |
| Builder.BuildLayer | network.go:99-119 | A new layer of the given kind holds exactly the next `max(0, count)` ids. Earlier layers, options and links are kept. |
| Builder.BuildHidden | network.go:59-97 | One hidden layer is added per entry of the size list, each of that entry's size, after the layers already there. |
| Construct.Assemble | network.go:47-119 | The result has an input layer, hidden layers in order and an output layer. Their sizes are the (clamped) input count, the hidden sizes and the output count. |
| Construct.NewNetwork | network.go:44-122 | `NewNeuralNetwork` applies the defaults, then builds the layer shape of `Assemble` from the defaulted options. |
| Construct.NewNetworkLayered | network.go:44-122 | The built network satisfies the arena invariant and all biases are zero. Every link carries the draw made when it was created. |
| Construct.NewNetworkWeights | network.go:229-235 | Every initial weight lies in (-1/2, 1/2] and every bias is 0. |
| Construct.NewNetworkWellFormed | network.go:99-119 | The built network is complete exactly when the defaulted output count is positive. A negative count survives the defaults and builds an empty output layer. |
| BuildInvariant.AddNodeLayered | network.go:62-94 | Adding one node with its links from the previous layer preserves the arena invariant. |
| BuildInvariant.AddNodesLayered | network.go:61-95 | The node loop preserves the invariant, and the weights stay the drawn ones. |
| BuildInvariant.BuildLayerLayered | network.go:99-119 | Building a layer preserves the invariant, and the weights stay the drawn ones. |
| BuildInvariant.BuildHiddenLayered | network.go:59-97 | The hidden-layer loop preserves the invariant, and the weights stay the drawn ones. |
| BuildInvariant.AppendLayerLayered | network.go:60-96 | Starting a new, still empty layer preserves the invariant. Its nodes will be linked from the old last layer. |
| Arena.DenseIds | network.go:47-56 | Under the invariant, the layers list ids 1..N in order, and node `i` of the arena has id `i + 1`. |
| Arena.IdsUnique | network.go:52 | Two different layer positions hold different ids. |
| Arena.LinkSharedOnce | network.go:77-78 | A link is listed exactly once by its source, exactly once by its target, and by no other node. |
| Forward.Evaluate | network.go:124-156 | The result is nil exactly when there are no layers or the input length differs from the input layer. Otherwise there are `OutputsCount` outputs, and they are all zero when the network has a single layer. |
| Forward.Use | network.go:158-161 | `Use` is nil under the same two conditions. Otherwise it returns `OutputsCount` values. |
| Forward.AccumulateIntoSum | network.go:143-145 | The inner loop adds `value(source) * weight + bias` per back link to the node's entry and leaves every other entry unchanged. |
| Forward.EvalNodeSum | network.go:142-147 | Evaluating a node sets its entry to the activation of the old entry plus its contribution. No other entry changes. |
| Forward.ContributionDot | network.go:143-145 | When the sources hold `x`, the contribution is the dot product of `x` with the weights, plus the bias counted once per link. |
| Forward.LoadInputsValues | network.go:132-135 | The input loop maps each input node's id to its input value and leaves other keys alone. |
| Forward.EvaluateMatchesLayers | network.go:132-153 | On a connected network the map gives every node its layer-by-layer reference value. The outputs are the last layer's values followed by zeros. |
| Forward.UseMatchesLayers | network.go:124-161 | For a complete network, `Use` returns exactly the output layer's reference values. |
| Backprop.NodeUpdate | network.go:184-186 | Updating one node's back links changes only weights: the number of links and every link's ends stay the same. |
| Backprop.UpdateFrom | network.go:178-188 | The update loop over the layers changes only weights: the number of links and every link's ends stay the same. |
| Backprop.Pass | network.go:164 | `BackPropagation` sees an empty slice and an empty map when there are no layers or the input length is wrong, and `OutputsCount` outputs otherwise. On a connected network with an activation function, the map holds every node's reference value and the outputs begin with the output layer's reference values. |
| Backprop.BackPropagation | network.go:163-189 | A training step keeps layers, nodes (biases included), options, the number of links and each link's ends. Only weights change. |
| ErrorRule.OutputErrorsValues | network.go:167-169 | Each output node's entry becomes `target[i] - output[i]`. Other keys are untouched. |
| ErrorRule.NodeErrorsSum | network.go:172-174 | The error loop adds `error(target) * weight` over the node's forward links to its own entry and leaves every other entry unchanged. |
| ErrorRule.BackflowDot | network.go:172-174 | When the targets' errors are `e`, what is added is the dot product of `e` with the forward weights. |
| ErrorRule.ErrorsMatch | network.go:166-176 | On a connected network, every output node and every hidden node ends with its reference error: the output error, or the weighted sum of the next layer's errors. The input layer has no entry. |
| UpdateRule.NodeUpdateEffect | network.go:184-186 | A node's update adds its gain to each of its back links exactly once and leaves every other link as it was. |
| UpdateRule.LayerUpdateEffect | network.go:183-187 | Updating a layer adds the gain to exactly the links that end in that layer. |
| UpdateRule.UpdateFromEffect | network.go:178-188 | Updating from layer `k` adds the gain to exactly the links that end beyond layer `k - 1`. |
| UpdateRule.UpdateAll | network.go:178-188 | On a connected network every link's new weight is its old weight plus the gain computed at its target, applied exactly once. |
| DeltaRule.WellFormedTrainable | network.go:163-176 | A complete network never panics in `BackPropagation` for an input of the right length and enough targets. |
| DeltaRule.PassMatches | network.go:164 | On a complete network, the forward pass inside `BackPropagation` yields the reference outputs and values. |
| DeltaRule.RuleGain | network.go:184-186 | Back link `p` of node (k, j) comes from node `p` of layer `k - 1`. It moves by `rate * error(x) * f'(value(x)) * value(source)`. |
| DeltaRule.BackPropagationRule | network.go:163-189 | Every back link of a node beyond the input layer moves by `rate * ErrorsRef * f'(LayerValues) * LayerValues(source)`. These are reference errors and values, computed without the maps. |
| DeltaRule.BackPropagationWellFormed | network.go:163-189 | A training step keeps a complete network complete, so the reference update applies again on every later step of a training loop. |
| Arena.ReweightedWellFormed | network.go:178-188 | Changing only link weights, with each link keeping its ends, keeps a complete network complete. |
| DeltaRule.EveryLinkIsBackLink | network.go:178-188 | Every link is a back link of some node beyond the input layer, so the rule above covers every weight. |
| Printer.NatToString | print.go:16 | `%d` of a natural number is a non-empty string of digits, with no leading zero unless the number is 0. It has one digit exactly when the number is below 10. |
| Printer.ParseNatToString | print.go:16 | Reading the digits of `%d` back gives the number. |
| Printer.Label | print.go:12-19 | A layer label contains no newline and no `[`. |
| Printer.LabelShape | print.go:12-19 | The labels are `input   \t{`, `middle <i>\t{` with the layer index readable back, and `output  \t{`. |
| Printer.IndexListCount | print.go:20-22 | The node list `[0][1]...[n-1]` has exactly `n` opening brackets. |
| Printer.IndexListReadBack | print.go:20-22 | The node list reads back as `n` bracketed groups, and group `t` holds the numeral of `t`. |
| Printer.WeightTexts | print.go:24-26 | If the float format yields no newline, neither does the weight list. If it yields no `(`, the list has one `(` per link. |
| Printer.ToString | print.go:5-32 | A nil network prints as the empty string. Otherwise the text is empty exactly when there are no layers. |
| Printer.ToStringLines | print.go:11-29 | The text is two lines per layer: the header line (label, node list and `}`), then the weights of the middle node's forward links. |
| Printer.HeaderCounts | print.go:13-23 | Layer `k`'s header ends in `}`. Without it, the header reads back as the groups of the numerals 0..n-1, one per node of the layer, and it opens exactly `n` brackets. |
| Printer.WeightLineShape | print.go:24-28 | On a connected network the output layer's weight line is empty. Every other weight line has one entry per node of the next layer. |
| Explorer.ArgMax | examples/web-explorer/main.go:68-77 | The reference argmax is the first index of the maximum, or 0 for an empty slice. |
| Explorer.FirstMaxUnique | examples/web-explorer/main.go:71 | At most one index is the first maximum. |
| Explorer.MaxOutputIndex | examples/web-explorer/main.go:68-77 | The scan returns 0 for an empty slice. Otherwise it returns the first index holding the maximum, equal to the reference argmax. |
| Explorer.OneHot | examples/web-explorer/main.go:36-42 | Ten targets: entry `j` is 1 exactly when `j` is the label and 0 exactly when it is not. |
| Explorer.OneHotExactlyOne | examples/web-explorer/main.go:36-42 | A label in 0..9 gives exactly one 1. Any other label gives all zeros. |
| Explorer.ArgMaxOneHot | examples/web-explorer/main.go:36-42 | The argmax of a one-hot target for a label in 0..9 is that label. |
| Explorer.Scale | examples/web-explorer/main.go:81 | A pixel scaled by 1/255 lies in [0, 1], and multiplying it back by 255 gives the byte. |
| Explorer.SetInputValuesFromImage | examples/web-explorer/main.go:79-83 | The first `len(image)` inputs become the scaled pixels and the rest keep their values. |

## Left out

- general.go holds older copies of the same declarations. It is not part of this model.
- web.go (the HTTP and websocket viewer) and utils/gzip.go (download and decompression) are I/O. They are not part of this model.
- examples/simple is not part of this model.
- The rest of the web-explorer example is not part of this model: `main`, `training`'s driver loops, the data preparation and `log.Fatal`.
- Floating point: weights, values and errors are mathematical reals, so rounding, overflow, NaN and infinities are not modelled.
- `Sigmoid` uses `math.Pow`, so it is a parameter `sigmoid` of `SetDefaults` and `NewNetwork`. Nothing is assumed about it.
- `rand.Float64()` is a parameter `rand: nat -> real` whose `k`-th value is the draw for the `k`-th link created. All that is assumed is that every draw lies in [0, 1).
- Node ids are `uint64` from `atomic.AddUint64`; here they are unbounded naturals, so wrap-around after 2^64 nodes is not modelled. The atomic counter is only ever used by one goroutine.
- JSON tags and the `Network`, `From` and `To` back pointers are not modelled. The arena indices stand in for the pointers.
- Panics are preconditions:
  - `Runnable` asks for four things once the input length matches the input layer:
    - no index dangles;
    - `OutputsCount` is not negative;
    - with two or more layers, the output layer is no longer than `OutputsCount`;
    - an activation function is set whenever some layer beyond the input layer has a node.
  - `Trainable` asks for `Runnable` and these:
    - at least one layer and no dangling index;
    - at least as many targets as output-layer nodes;
    - when the input length matches, the last layer is no longer than `OutputsCount`, even when it is the only layer, because the error loop reads the outputs by that layer's positions;
    - when the input length does not match, the forward pass returns nil, so the last layer must be empty for the error loop not to index the nil outputs;
    - a derivative is set whenever some node beyond the input layer has a back link.
  - `Printable`: no empty layer, because `ToString` indexes the middle node.
  - `SetInputValuesFromImage`: the image is no longer than the input slice.
- Printer.ToStringLines: `%f` is a parameter `fmtF`. The line structure is proved under the assumption that it prints no newline.
- Printer.WeightLineShape: the count of `(` assumes that `fmtF` prints no `(`.
- Printer.WeightTexts: states the two properties above, under the same assumptions about `fmtF`.
- Forward.UseMatchesLayers: states the reference values only for complete networks, those built with a positive output count. `Evaluate` and `Use` state the nil cases and the lengths for every network.
- DeltaRule.BackPropagationRule: states the reference update only for complete networks. `BackPropagation` states for every trainable network that only weights change.
- The bias is kept, added once per link and never trained. `BackPropagation` updates only link weights, as the code does.
