# neural-net, modelled in Dafny

A model of the logic of the neural-net visualiser's JavaScript sources, with
proofs of what they promise. The project has three parts.

- **The dynamic graph engine** (`src/js/dynamic/`). It is built from:
  - sensors: plain value cells;
  - neurons: value, error and two buffers;
  - connections: a weight and a weight buffer, and a `changed` flag.
  
  The network builds these in a ring topology. Each tick first runs every
  child's `buffer`, then every child's `swap`.
- **The fixed-layer network** (`src/js/nn/`). It is made of:
  - neurons and synapses (and `Connection`, a duplicate of `Synapse`);
  - layers, fully connected from one layer to the next;
  - the network itself, which orders its passes. It runs `forward`, then
    the output errors, then the hidden errors from the last hidden layer to
    the first, then the weight updates.

  The same folder holds the `Dataset`:
  - a memoised tokeniser;
  - the text-to-samples pipeline of `processRawData`;
  - the Fisher–Yates shuffle that records positions;
  - the wrapping cursor;
  - one-hot output arrays.
- **Activations**: the tag dispatch of both `activation.js` files, and ReLU,
  leaky ReLU (capped at 1) and the polynomial sigmoid derivative.

Values, weights and errors are Dafny `real`s, which are exact. `Math.exp` is
not modelled: the logistic function is a parameter `sigmoid: real -> real`.
`Math.random` is an oracle `rand: nat -> real` read at a running draw
counter, or a single `draw: real`. The geometric tests of the dynamic
network (distance, dot product) are a given predicate `isNear`.

Objects whose fields the source updates in place are classes. These are
`DynamicNetwork.Network`, `LayeredNetwork.NeuralNetwork` and
`Datasets.Dataset`. Their neurons, connections and synapses live in an
arena, a pair of sequences that refer to each other by index. Each method is
proved equal to a pure function, and the properties are proved about those
functions:
- dynamic: `DynamicGraph` (one record at a time) and the tick phases;
- layered: `LayeredGraph` and `LayeredPasses`;
- dataset: `Tokens`, `DatasetPipeline` and the shuffle functions of
  `Datasets`.

Two behaviours of the dynamic engine are easy to mistake.
- **Activation tags.** A neuron's tag is not a fixed role. Every call of
  `addConnectionIn` resets it: NONE exactly when the neuron has one
  in-edge, SIGMOID otherwise (`src/js/dynamic/neuron.js:42-49`).
- **Neurons without inputs.** A neuron without in-edges does not keep an
  unset working value: it buffers the activation of its bias
  (`src/js/dynamic/neuron.js:54-58`).

## Model

| member | source | states |
|---|---|---|
| Maths.ReLU | src/js/maths/relu.js:3 | ReLU(x) is non-negative, at least x, and is x or 0 |
| Maths.ReLUIdempotent | src/js/maths/relu.js:3 | ReLU is x above 0 and 0 otherwise, and applying it twice is applying it once |
| Maths.ReLUDerivative | src/js/maths/relu.js:4 | the derivative is 1 exactly when x > 0 and 0 exactly when x <= 0 |
| Maths.LeakyReLU | src/js/maths/leaky_relu.js:3-7 | never above MAX; for x > 0 it is in (0, x] and is x or MAX; for x <= 0 it is x / 10 |
| Maths.LeakyReLUDerivative | src/js/maths/leaky_relu.js:8-10 | 0 exactly at MAX, ALPHA for x <= 0, 1 for other positive x (above the cap too) |
| Maths.LeakyReLUDerivativeAtActivated | src/js/maths/leaky_relu.js:5-10 | evaluated at an activated value, the derivative is 0 exactly on the capped region x >= MAX |
| Maths.LeakyReLUScenario | src/js/maths/leaky_relu.js:5-7 | LeakyReLU(-10) = -1, LeakyReLU(0.5) = 0.5, LeakyReLU(3) = 1 |
| Maths.SigmoidDerivative | src/js/maths/sigmoid.js:4 | the derivative vanishes at 0 and at 1 |
| Maths.SigmoidDerivativeSymmetric | src/js/maths/sigmoid.js:4 | symmetric about 1/2: f(x) = f(1 - x) |
| Maths.SigmoidDerivativeBound | src/js/maths/sigmoid.js:4 | at most 1/4 everywhere, and equal to 1/4 at 1/2 |
| Maths.SigmoidDerivativePositive | src/js/maths/sigmoid.js:4 | strictly positive inside (0, 1) |
| Maths.SigmoidDerivativeNonNegative | src/js/maths/sigmoid.js:4 | non-negative on [0, 1] |
| DynamicActivation.NoneIsPassThrough | src/js/dynamic/activation.js:7-25 | a NONE-tagged unit passes its input through and stops any error |
| Activation.AgreesWithDynamic | src/js/nn/activation.js:12-28 | the two copies agree on every tag, and a null tag acts like NONE |
| DynamicGraph.NewSensor | src/js/dynamic/sensor.js:9 | a sensor holds the value it is given, 0 when none is given |
| DynamicGraph.NewNeuron | src/js/dynamic/neuron.js:11-25 | a missing or empty tag becomes SIGMOID, a missing bias 0; value, error and both buffers 0; not changed; no edges |
| DynamicGraph.NewConn | src/js/dynamic/connection.js:11-21 | hasSensor holds iff an endpoint is a sensor; such an edge has weight 1, any other the draw; the buffer equals the weight; not changed |
| DynamicGraph.WithIn | src/js/dynamic/neuron.js:42-49 | the edge is appended to the in-list; the tag is NONE iff there is exactly one in-edge and SIGMOID iff not; nothing else changes |
| DynamicGraph.WithOut | src/js/dynamic/neuron.js:51-53 | the edge is appended to the out-list and nothing else changes, the tag included |
| DynamicGraph.Registered | src/js/dynamic/connection.js:24-25 | the edge is appended to the source's out-list only if the source is a neuron, and to the destination's in-list only if that is a neuron; no other node changes and no node changes kind |
| DynamicGraph.ConnReadings | src/js/dynamic/connection.js:38-49 | at weight 1, getValue is the source's value and getError against a sensor is source value minus sensor value; into a neuron with error 0 the error is 0 |
| DynamicGraph.ConnBuffered | src/js/dynamic/connection.js:51-57 | only weightBuffer can change; it does not change for a sensor edge or a zero error; otherwise it becomes weight - error * srcValue / 8 |
| DynamicGraph.ConnBufferedIdempotent | src/js/dynamic/connection.js:51-57 | buffering twice from the same readings is buffering once |
| DynamicGraph.ConnSwapped | src/js/dynamic/connection.js:59-62 | the weight becomes the buffer; changed holds iff the step was at least 0.01, measured before the write; nothing else changes |
| DynamicGraph.SwapTwiceUnchanged | src/js/dynamic/connection.js:59-62 | a second swap with no buffer between reports no change and keeps the weight |
| DynamicGraph.ChangedThresholdScenario | src/js/dynamic/connection.js:8 | a step of 0.0005 does not set changed; steps of 0.02 in either direction do |
| DynamicGraph.PinnedForever | src/js/dynamic/connection.js:19-62 | an edge touching a sensor keeps weight 1 (and buffer 1) through any sequence of buffer and swap calls |
| DynamicGraph.NeuronBuffered | src/js/dynamic/neuron.js:55-65 | valueBuffer = act(bias + input sum) and errorBuffer = error sum * derivative at the committed value; nothing else changes |
| DynamicGraph.NoneTaggedNeuron | src/js/dynamic/neuron.js:55-65 | a NONE-tagged neuron buffers bias + input sum and always error 0 |
| DynamicGraph.NoInputsBuffersBias | src/js/dynamic/neuron.js:55-59 | with no in-edges the value buffer is act(bias) |
| DynamicGraph.NeuronSwapped | src/js/dynamic/neuron.js:67-71 | value and error take the buffers; everything else, changed included, stays |
| DynamicGraph.BufferInOrder | src/js/dynamic/neural_network_dynamic.js:145 | the buffer phase keeps the graph well formed and changes no committed field |
| DynamicGraph.BufferReadsCommitted | src/js/dynamic/neuron.js:55-65 | on graphs that agree on committed fields a neuron's buffer call computes the same record |
| DynamicGraph.ConnReadsCommitted | src/js/dynamic/connection.js:51-57 | on such graphs a connection's buffer call reads the same endpoint, destination error and source value |
| DynamicGraph.BufferOrderIndependent | src/js/dynamic/neural_network_dynamic.js:145 | buffering the children one after another in any order gives the order-free description: each listed child holds what its buffer computes from the state before the phase |
| DynamicGraph.BufferPermutationInvariant | src/js/dynamic/neural_network_dynamic.js:145 | two orders of the same children give the same buffered graph |
| DynamicGraph.SwapOrderIndependent | src/js/dynamic/neural_network_dynamic.js:146 | over children without repeats, the swap phase equals its order-free description |
| DynamicGraph.TickAt | src/js/dynamic/neural_network_dynamic.js:145-146 | after a tick each listed neuron and connection holds the swap of its buffer computed from the state before the tick; the rest is unchanged |
| DynamicGraph.TickNeuron | src/js/dynamic/neural_network_dynamic.js:145-146 | a ticked neuron's value is act(bias + weighted inputs) and its error is the back-propagated sum times the derivative at its old value; tag and edges stay |
| DynamicGraph.TickSensor | src/js/dynamic/neural_network_dynamic.js:145-146 | a sensor comes out of a tick exactly as it went in |
| DynamicGraph.TickConn | src/js/dynamic/neural_network_dynamic.js:145-146 | a ticked connection keeps its ends and pinning, takes a learning step when its destination had an error and otherwise commits its buffer unchanged, and is changed iff that step is at least the threshold |
| DynamicNetwork.ShellRadius | src/js/dynamic/neural_network_dynamic.js:29-32 | every shell radius lies strictly between the inner and the outer radius |
| DynamicNetwork.RingSize | src/js/dynamic/neural_network_dynamic.js:122-133 | a ring holds floor(circumference / spacing) positions |
| DynamicNetwork.ShellTotalValue | src/js/dynamic/neural_network_dynamic.js:29-40 | the ten shells hold 1126 neurons |
| DynamicNetwork.FiltersMembership | src/js/dynamic/neural_network_dynamic.js:57-58 | the sensor, neuron and connection filters keep exactly the children of their kind |
| DynamicNetwork.Candidates | src/js/dynamic/neural_network_dynamic.js:67-77 | as intended (line 69 corrected): a candidate is another neuron of the list that passes the geometric test and is not yet connected in either direction; no repeats |
| DynamicNetwork.CandidatesAsWrittenEmpty | src/js/dynamic/neural_network_dynamic.js:69 | as written, the filter rejects every neuron, so no neuron-to-neuron edge is made |
| DynamicNetwork.TickKeepsValid | src/js/dynamic/neural_network_dynamic.js:145-146 | a tick keeps node kinds, edge lists and endpoints, and keeps every sensor edge pinned at 1 |
| DynamicNetwork.Network.AddSensor | src/js/dynamic/sensor.js:8-9 | a sensor with value 0 is appended and pushed to the children |
| DynamicNetwork.Network.AddNeuron | src/js/dynamic/neuron.js:11-25 | a default neuron is appended and pushed to the children |
| DynamicNetwork.Network.NewConnection | src/js/dynamic/connection.js:11-25 | the new edge is appended, registered at its neuron ends and pushed; a weight is drawn only when no endpoint is a sensor |
| DynamicNetwork.Network.AddInputs | src/js/dynamic/neural_network_dynamic.js:15-26 | INPUT_NEURONS sensors and neurons more, and INPUT_NEURONS new connections, each at a sensor, earlier ones kept; no draws |
| DynamicNetwork.Network.AddOutputs | src/js/dynamic/neural_network_dynamic.js:43-54 | OUTPUT_NEURONS sensors and neurons more, and OUTPUT_NEURONS new connections, each at a sensor, earlier ones kept; no draws |
| DynamicNetwork.Network.AddShells | src/js/dynamic/neural_network_dynamic.js:29-40 | ShellTotal(NEURON_SHELLS) neurons more and no sensors |
| DynamicNetwork.Network.AddRing | src/js/dynamic/neural_network_dynamic.js:34-39 | one neuron per ring position, two draws each |
| DynamicNetwork.Network.AddAll | src/js/dynamic/neural_network_dynamic.js:11-54 | from empty: INPUT + OUTPUT sensors, INPUT + 1126 + OUTPUT neurons, and INPUT + OUTPUT connections, every one at a sensor |
| DynamicNetwork.Network.TakeRefs | src/js/dynamic/neural_network_dynamic.js:57-58 | the sensor and neuron lists are the filters of the children |
| DynamicNetwork.Network.Scan | src/js/dynamic/neural_network_dynamic.js:86-98 | each picked sibling gets one new edge from v and leaves the list; picked and remaining siblings split the list |
| DynamicNetwork.Network.Pick | src/js/dynamic/neural_network_dynamic.js:91-92 | one registered edge from v to the picked sibling, one draw |
| DynamicNetwork.Network.Link | src/js/dynamic/connection.js:11-25 | exactly one connection appended, the one built from the endpoints' kinds; a draw only when neither end is a sensor |
| DynamicNetwork.ExtendedStep | src/js/dynamic/neural_network_dynamic.js:91-92 | one more pick of a fresh neuron adds one connection from v to it, registered at both ends and pushed, and nothing else changes |
| DynamicNetwork.NewEdges | src/js/dynamic/neural_network_dynamic.js:67-99 | as intended (line 69 corrected): edges from v to its candidates join two distinct listed neurons that pass the geometric test, and are fresh with a drawn weight |
| DynamicNetwork.Network.ConnectNeuron | src/js/dynamic/neural_network_dynamic.js:67-99 | as intended (line 69 corrected): each new edge joins v to a distinct candidate, neuron to neuron, passing the geometric test, fresh with a drawn weight; picked and remaining candidates split the list; at the end v has at least NEURON_CONNECTIONS_MIN out-edges, or no candidate is left, or the scan budget is spent |
| DynamicNetwork.Network.ConnectAll | src/js/dynamic/neural_network_dynamic.js:62-100 | as intended (line 69 corrected): earlier connections stay; every new one joins two distinct listed neurons that pass the geometric test, fresh with a drawn weight; the arena stays valid and the sensor and neuron lists stay |
| DynamicNetwork.Network.constructor | src/js/dynamic/neural_network_dynamic.js:10-103 | as intended (line 69 corrected): INPUT + OUTPUT sensors, INPUT + 1126 + OUTPUT neurons, the filters are the children's; the first INPUT + OUTPUT connections are at sensors and every later one joins two distinct neurons passing the geometric test; the arena is valid |
| DynamicNetwork.Network.InputTotal | src/js/dynamic/neuron.js:57-58 | the loop computes the sum of getValue over the in-edges |
| DynamicNetwork.Network.ErrorTotal | src/js/dynamic/neuron.js:62-63 | the loop computes the sum of getError over the out-edges |
| DynamicNetwork.Network.BufferNeuron | src/js/dynamic/neuron.js:55-65 | neuron i gets the buffers NeuronBuffered computes; nothing else changes |
| DynamicNetwork.Network.BufferConnection | src/js/dynamic/connection.js:51-57 | only connection c changes, to ConnBuffered of its readings |
| DynamicNetwork.Network.BufferAll | src/js/dynamic/neural_network_dynamic.js:145 | every child's buffer call, in list order |
| DynamicNetwork.Network.SwapAll | src/js/dynamic/neural_network_dynamic.js:146 | every child's swap call, in list order |
| DynamicNetwork.Network.Tick | src/js/dynamic/neural_network_dynamic.js:145-146 | the state after the tick is TickResult of the state before, and the arena stays valid |
| LayeredGraph.NewNeuron | src/js/nn/neuron.js:13-21 | value, weighted input and error 0; no edges; bias as given or 0; a missing or empty tag becomes null |
| LayeredGraph.NewSynapse | src/js/nn/synapse.js:15 | the supplied weight when there is one, else the draw |
| LayeredGraph.LinkedSpec | src/js/nn/synapse.js:16-17 | the synapse is appended to src's out-edges and dst's in-edges and nothing else changes |
| LayeredGraph.WeightedError | src/js/nn/synapse.js:47-49 | the weighted error is 0 when the destination's error is 0 and when the weight is 0: no error flows back through a zero edge or from an error-free neuron |
| LayeredGraph.Reset | src/js/nn/synapse.js:51-53 | only the weight changes: back to the supplied weight, or a new draw |
| LayeredGraph.ResetRestoresParam | src/js/nn/synapse.js:51-53 | with a supplied weight, reset gives the freshly built synapse and a second reset changes nothing |
| LayeredGraph.Weighed | src/js/nn/neuron.js:90-96 | with no in-edges nothing changes; otherwise weightedInput = bias + sum of weighted values; nothing else changes |
| LayeredGraph.Activated | src/js/nn/neuron.js:98-101 | with no in-edges nothing changes; otherwise value = act(weightedInput); nothing else changes |
| LayeredGraph.ErrorCalculated | src/js/nn/neuron.js:68-79 | an output neuron gets (value - target) * derivative, a hidden one the weighted error sum * derivative, and one with outputs and no inputs keeps its error |
| LayeredGraph.Descended | src/js/nn/neuron.js:85-87 | the weight updates change only weights |
| LayeredGraph.DescendedStep | src/js/nn/neuron.js:85-87 | each listed synapse, listed once, moves by one gradient step |
| LayeredGraph.DescendedOthers | src/js/nn/neuron.js:85-87 | a synapse not in the list keeps its weight |
| LayeredGraph.Backpropagated | src/js/nn/neuron.js:81-88 | nothing changes without in-edges; only weights ever change |
| LayeredGraph.DegreeTests | src/js/nn/neuron.js:103-113 | isOutputNeuron iff no out-edges iff not hasOutput; isInputNeuron iff no in-edges |
| LayeredPasses.WeighAllSpec | src/js/nn/layer.js:50 | after weighing a list, each listed neuron holds its weighted input from the values before the pass; no other neuron changes |
| LayeredPasses.ActivateAllSpec | src/js/nn/layer.js:51 | after activating a list, each listed neuron is activated once; no other neuron changes |
| LayeredPasses.ForwardLayerSpec | src/js/nn/layer.js:49-52 | a layer's forward weighs and activates each member over the values before the pass, even where members feed each other |
| LayeredPasses.ForwardLayerValue | src/js/nn/layer.js:49-52 | a member with in-edges ends with act(bias + weighted inputs read before the pass) |
| LayeredPasses.ForwardLayers | src/js/nn/neural_network.js:53-55 | the forward passes keep the wiring and the synapses |
| LayeredPasses.CyclesPush | src/js/nn/neural_network.js:73-76 | n + 1 rounds are n rounds, then forward, then backpropagate |
| LayeredPasses.ErrorPass | src/js/nn/neural_network.js:59-61 | the error pass changes only listed neurons and no synapse |
| LayeredPasses.ErrorPassOnlyErrors | src/js/nn/neural_network.js:59-61 | the output errors change errors only |
| LayeredPasses.HiddenPassOnlyErrors | src/js/nn/neural_network.js:62-64 | the hidden errors change errors only |
| LayeredPasses.ValuesAfterErrors | src/js/nn/neural_network.js:58-64 | the error phase changes errors only: values, biases and wiring stay |
| LayeredPasses.DescendStepAt | src/js/nn/neuron.js:81-88 | one neuron's backpropagate moves exactly the synapses entering it |
| LayeredPasses.DescendAllAt | src/js/nn/neural_network.js:68 | over distinct neurons, a synapse entering one of them moves by rate * its target's error * its source's value |
| LayeredPasses.WeightPassAt | src/js/nn/neural_network.js:66-69 | every synapse into a neuron of the layers takes one gradient step; the others stay |
| LayeredPasses.Backprop | src/js/nn/neural_network.js:57-70 | the neurons after backpropagate are those of the error phase: weights never feed back into errors |
| LayeredPasses.BackpropGradientStep | src/js/nn/neural_network.js:57-70 | each synapse's step uses the error computed in the error phase and the value before it: all errors are computed before any weight moves |
| LayeredPasses.ResetAllOthers | src/js/nn/layer.js:54-56 | a layer's reset leaves every synapse it does not name untouched |
| LayeredPasses.ResetAllKeeps | src/js/nn/layer.js:54-56 | a reset changes only weights |
| LayeredPasses.ResetAllRestores | src/js/nn/layer.js:54-56 | a named synapse with a supplied weight gets it back |
| LayeredPasses.ResetGroupsOthers | src/js/nn/neural_network.js:49-51 | the network's reset touches no synapse outside the layers' lists |
| LayeredPasses.ResetGroupsKeeps | src/js/nn/neural_network.js:49-51 | the network's reset changes only weights |
| LayeredPasses.ResetGroupsRestores | src/js/nn/neural_network.js:49-51 | every layer synapse created with a weight gets that weight back |
| LayeredPasses.ResetGroupsRegistered | src/js/nn/neural_network.js:49-51 | resetting keeps the wiring and the registration invariant |
| LayeredPasses.WithValuesSet | src/js/nn/layer.js:34-38 | the k-th neuron gets the k-th value |
| LayeredPasses.WithValuesOthers | src/js/nn/layer.js:34-38 | a neuron that receives no value is unchanged |
| LayeredPasses.PairsCount | src/js/nn/layer.js:40-47 | connect makes |srcs| * |dsts| pairs; x is the source of copies(x in srcs) * |dsts| of them and the target of |srcs| * copies(x in dsts) |
| LayeredPasses.PairsIndex | src/js/nn/layer.js:40-47 | the pair for srcs[i] and dsts[j] sits at i * |dsts| + j: source-major order |
| LayeredPasses.LinkStep | src/js/nn/synapse.js:9-17 | one synapse appended with the given weight or the draw |
| LayeredPasses.LinkAll | src/js/nn/layer.js:40-47 | one synapse per pair, no neuron added |
| LayeredPasses.LinkAllKeeps | src/js/nn/layer.js:40-47 | existing synapses stay in front and unchanged |
| LayeredPasses.LinkAllSynapseAt | src/js/nn/layer.js:43 | the j-th new synapse joins the j-th pair, has no given weight and the j-th draw |
| LayeredPasses.LinkAllEdges | src/js/nn/synapse.js:16-17 | each neuron's lists gain exactly the new synapses leaving and entering it, in link order |
| LayeredPasses.ConnectDegrees | src/js/nn/layer.js:40-47 | each src gains |dsts| out-edges per copy, each dst gains |srcs| in-edges per copy, and there are |srcs| * |dsts| new synapses |
| LayeredPasses.LinkAllRegistered | src/js/nn/synapse.js:16-17 | every synapse is listed once at each end, and those lists hold nothing else |
| LayeredPasses.LinkAllFresh | src/js/nn/synapse.js:9-17 | linking pairs into an edgeless network gives synapse j from the j-th pair with draw j, and each neuron exactly the in- and out-edges of its pairs |
| LayeredPasses.AddNeuronRegistered | src/js/nn/layer.js:20-29 | a new neuron without edges keeps the registration invariant |
| LayeredPasses.ResetAllRegistered | src/js/nn/layer.js:54-56 | a layer reset keeps the wiring and the registration invariant |
| LayeredPasses.WeightRowsSpec | src/js/nn/layer.js:68-74 | one non-empty row per neuron with outputs, in neuron order, each its out-weights; neurons without outputs add none |
| LayeredNetwork.Interior | src/js/nn/neural_network.js:39 | the indices other than the first and the last, increasing |
| LayeredNetwork.InteriorOfLayers | src/js/nn/neural_network.js:39 | for five layers the hidden layers are 1, 2, 3 |
| LayeredNetwork.LayerNeurons | src/js/nn/neural_network.js:15-21 | layer sizes 3, 4, 5, 6, 9 make 27 neurons |
| LayeredNetwork.LayerSynapses | src/js/nn/neural_network.js:29-34 | connecting only neighbouring layers makes 116 synapses |
| LayeredNetwork.LayerPairsLength | src/js/nn/neural_network.js:30-34 | the links of neighbouring layers number the sum of the products of their sizes |
| LayeredNetwork.LayerPairsIndex | src/js/nn/layer.js:40-47 | the link of member i of layer l to member j of layer l + 1 sits at the links of the earlier layers plus i * |layer l + 1| + j |
| LayeredNetwork.OutgoingJoins | src/js/nn/layer.js:40-47 | in a network laid out from fresh links, the k-th synapse in layer l's list, k = i * |layer l + 1| + j, is the fresh synapse from member i of layer l to member j of layer l + 1 |
| LayeredNetwork.Stats.constructor | src/js/nn/neural_network.js:23-26 | the cycle count starts at 0 |
| LayeredNetwork.NeuralNetwork.AddLayers | src/js/nn/neural_network.js:29 | layer l holds the next size(l) neurons; the arena is sound |
| LayeredNetwork.NeuralNetwork.LayOut | src/js/nn/neural_network.js:29-34 | from empty: the layers of the parameters, the synapses exactly the fresh links of LayerPairs in order, numbered draws, and each layer's list its block |
| LayeredNetwork.NeuralNetwork.ConnectLayers | src/js/nn/neural_network.js:30-34 | the arena after the loop is LinkAll of LayerPairs, every neuron of layer l to every neuron of layer l + 1 and nothing else; layer l's list gains exactly its block of the new synapses; the layout stays |
| LayeredNetwork.NeuralNetwork.Build | src/js/nn/neural_network.js:29-38 | the layers of the parameters; their synapses are exactly the fresh links of LayerPairs with each layer listing its block; the input values on the first layer |
| LayeredNetwork.NeuralNetwork.constructor | src/js/nn/neural_network.js:9-41 | layers from LAYERS; every synapse is a fresh link of one neighbouring-layer pair, each listed at both ends and in its source layer's block; hidden layers 1, 2, 3, output layer 4, the input values on layer 0, and cycle count 0 |
| LayeredNetwork.NeuralNetwork.SetValue | src/js/nn/neuron.js:42-44 | only that neuron's value changes |
| LayeredNetwork.NeuralNetwork.CalculateWeightedInput | src/js/nn/neuron.js:90-96 | the arena after the call is WeighStep of the one before |
| LayeredNetwork.NeuralNetwork.Activate | src/js/nn/neuron.js:98-101 | the arena after the call is ActivateStep of the one before |
| LayeredNetwork.NeuralNetwork.OutErrorSum | src/js/nn/neuron.js:75-76 | the loop computes the sum of weighted errors over the out-edges |
| LayeredNetwork.NeuralNetwork.CalculateError | src/js/nn/neuron.js:68-79 | the arena after the call is ErrorStep of the one before |
| LayeredNetwork.NeuralNetwork.BackpropagateNeuron | src/js/nn/neuron.js:81-88 | the arena after the call is DescendStep of the one before |
| LayeredNetwork.NeuralNetwork.SetWeight | src/js/nn/synapse.js:35-37 | only that synapse's weight changes, so getWeight returns the value set |
| LayeredNetwork.NeuralNetwork.ResetSynapse | src/js/nn/synapse.js:51-53 | only that synapse changes, to Reset of it |
| LayeredNetwork.NeuralNetwork.AddSynapse | src/js/nn/synapse.js:9-17 | the arena after the call is LinkStep of the one before |
| LayeredNetwork.NeuralNetwork.AddLayer | src/js/nn/layer.js:9-29 | size-or-0 new neurons are appended and the layer lists them; the arena stays sound |
| LayeredNetwork.NeuralNetwork.SetMembers | src/js/nn/layer.js:34-38 | the arena after the call is WithValues of the one before |
| LayeredNetwork.NeuralNetwork.SetValues | src/js/nn/layer.js:34-38 | the values are set; ok is false exactly when there are more values than neurons |
| LayeredNetwork.NeuralNetwork.LinkRow | src/js/nn/layer.js:42-45 | the arena is LinkAll of the links so far followed by x paired with each destination in order; one synapse and one draw per destination |
| LayeredNetwork.NeuralNetwork.LinkPairs | src/js/nn/layer.js:41-46 | the arena is LinkAll of the links so far followed by Pairs(srcs, dsts), source-major; |srcs| * |dsts| synapses and draws |
| LayeredNetwork.NeuralNetwork.Connect | src/js/nn/layer.js:40-47 | the arena is LinkAll of the links so far followed by the pairs of layer a to layer b; layer a's list gains exactly the new synapses, in order |
| LayeredNetwork.NeuralNetwork.WeighMembers | src/js/nn/layer.js:50 | the arena after the loop is WeighAll of the one before |
| LayeredNetwork.NeuralNetwork.ActivateMembers | src/js/nn/layer.js:51 | the arena after the loop is ActivateAll of the one before |
| LayeredNetwork.NeuralNetwork.LayerForward | src/js/nn/layer.js:49-52 | the arena after the call is ForwardLayer of the one before |
| LayeredNetwork.NeuralNetwork.LayerReset | src/js/nn/layer.js:54-56 | the arena after the call is ResetAll of the layer's list; one draw per synapse |
| LayeredNetwork.NeuralNetwork.LayerToJson | src/js/nn/layer.js:63-76 | the size, the given bias and activation, and WeightRows of the layer |
| LayeredNetwork.NeuralNetwork.ForwardGroups | src/js/nn/neural_network.js:54 | the arena after the loop is ForwardLayers of the groups |
| LayeredNetwork.NeuralNetwork.Forward | src/js/nn/neural_network.js:53-55 | the forward passes of all layers in index order |
| LayeredNetwork.NeuralNetwork.ResetLists | src/js/nn/neural_network.js:50 | the arena after the loop is ResetGroups of the lists |
| LayeredNetwork.NeuralNetwork.Reset | src/js/nn/neural_network.js:49-51 | every layer's reset in order, the draws running on |
| LayeredNetwork.NeuralNetwork.ErrorsOf | src/js/nn/neural_network.js:59-61 | the arena after the loop is ErrorPass with target k for the k-th neuron |
| LayeredNetwork.NeuralNetwork.HiddenErrors | src/js/nn/neural_network.js:62-64 | the hidden layers' errors, last to first, target 0 |
| LayeredNetwork.NeuralNetwork.DescendOf | src/js/nn/neural_network.js:68 | the arena after the loop is DescendAll of the one before |
| LayeredNetwork.NeuralNetwork.WeightUpdates | src/js/nn/neural_network.js:66-69 | every neuron's weight update, layer by layer |
| LayeredNetwork.NeuralNetwork.Backpropagate | src/js/nn/neural_network.js:57-70 | the arena after the call is Backprop: output errors, then hidden errors in reverse, then weight updates |
| LayeredNetwork.NeuralNetwork.Round | src/js/nn/neural_network.js:74-75 | forward, then backpropagate |
| LayeredNetwork.NeuralNetwork.Rounds | src/js/nn/neural_network.js:73-76 | n rounds: the arena after the loop is Cycles of the one before |
| LayeredNetwork.NeuralNetwork.Cycle | src/js/nn/neural_network.js:72-77 | n rounds, and the cycle count grows by exactly 1 |
| Tokens.NextFree | src/js/nn/dataset.js:94-97 | the largest unused integer not above the start; every integer above it, up to the start, is used |
| Tokens.TokenKeeps | src/js/nn/dataset.js:86-102 | one character keeps the caches consistent and earlier entries, and returns the token now in the map for it |
| Tokens.NewSymbolToken | src/js/nn/dataset.js:93-99 | a new non-digit gets the largest unused negative number |
| Tokens.TokeniseAll | src/js/nn/dataset.js:85-103 | one token per character |
| Tokens.TokeniseAllSpec | src/js/nn/dataset.js:85-103 | the caches stay consistent, earlier entries stay, and every token is the one the final map holds for its character |
| Tokens.TokensMemoised | src/js/nn/dataset.js:85-103 | two characters get the same token iff they are the same; a token is non-negative iff its character is a digit, and then it is the digit's value |
| Tokens.TokeniseRowsSpec | src/js/nn/dataset.js:46 | across lines every token is the final map's token for its character |
| Tokens.TokensAtMostNine | src/js/nn/dataset.js:89-99 | no token is above 9 |
| DatasetPipeline.SplitJoin | src/js/nn/dataset.js:44 | joining the pieces of a split gives the text back |
| DatasetPipeline.SplitOnChar | src/js/nn/dataset.js:46 | split on one character: no piece holds it, and there are two pieces or more iff it occurs |
| DatasetPipeline.Field | src/js/nn/dataset.js:45-46 | the field is the text right after the first ';' of the line, up to the next ';' or the end of the line, and holds no ';' |
| DatasetPipeline.SplitFirst | src/js/nn/dataset.js:46 | splitting on one character gives the text before its first occurrence, then the split of what follows; without one, the text alone |
| DatasetPipeline.FieldsOfCount | src/js/nn/dataset.js:45-46 | one field per line that is non-empty and holds a ';' |
| DatasetPipeline.NonNegative | src/js/nn/dataset.js:49 | every non-negative token as often as in the row, no negative one, and no longer than the row |
| DatasetPipeline.NonNegativeConcat | src/js/nn/dataset.js:49 | the filter keeps order: filtering a + b is filtering a, then b |
| DatasetPipeline.LongRowsMembers | src/js/nn/dataset.js:49-52 | a cleaned row survives iff it has at least four tokens |
| DatasetPipeline.ShiftIsDigitPermutation | src/js/nn/dataset.js:54 | the intended shift is (v + 9) mod 10, a permutation of the digits |
| DatasetPipeline.ShiftDownUndone | src/js/nn/dataset.js:54-55 | as intended: the shift keeps every token of a digit row, maps it to a digit, and the inverse shift gives the row back token by token |
| DatasetPipeline.DropOnesDeletes | src/js/nn/dataset.js:55 | as written: the 1s are deleted and nothing is shifted |
| DatasetPipeline.DropOnesCounterexample | src/js/nn/dataset.js:55 | the row 1 2 3 4 keeps 2 3 4, where the shift gives 0 1 2 3 |
| DatasetPipeline.MaxLength | src/js/nn/dataset.js:58 | no row is longer, and some row is this long |
| DatasetPipeline.MaxLengthShifted | src/js/nn/dataset.js:55-58 | shifting keeps the longest length |
| DatasetPipeline.PadLeft | src/js/nn/dataset.js:59-62 | length n: PADDING_VALUE in front, then the row |
| DatasetPipeline.LastUpTo | src/js/nn/dataset.js:72 | as intended: the last four tokens, or all when there are fewer |
| DatasetPipeline.ResizeAsWrittenAgrees | src/js/nn/dataset.js:72 | as written, the cut agrees with the intended one iff the input does not have 3 tokens; with 3 it keeps only the last |
| DatasetPipeline.ProcessAsWrittenSample | src/js/nn/dataset.js:48-78 | as written, the text "a;1111\r\nb;2345" gives the samples ([1.0], 10) and ([0.4], 5), so the output size is 11; as intended the outputs are 0 and 4 |
| DatasetPipeline.MakeSample | src/js/nn/dataset.js:65-78 | the output is the last token; the input is the up to four tokens before it, divided by 10 |
| DatasetPipeline.SampleOfRow | src/js/nn/dataset.js:55-78 | shifting, padding, splitting, cutting and scaling a row gives the sample read straight off it |
| DatasetPipeline.ProcessSpec | src/js/nn/dataset.js:48-78 | as intended (lines 55 and 72 corrected): one sample per surviving row, in order, each read off its cleaned row, all inputs one width |
| DatasetPipeline.ExpectedRanges | src/js/nn/dataset.js:55-78 | off a row of digits, the output is a digit and every input lies in [0, 1] |
| DatasetPipeline.ProcessRanges | src/js/nn/dataset.js:48-78 | as intended (lines 55 and 72 corrected): for tokenised rows every sample has a digit output, inputs in [0, 1] and the common width |
| Datasets.Pick | src/js/nn/dataset.js:173 | a draw in [0, 1) picks a position from 0 to i |
| Datasets.Picks | src/js/nn/dataset.js:172-173 | one in-range pick per round, n - 1 rounds |
| Datasets.SwapStepPermutes | src/js/nn/dataset.js:174-176 | a round moves rows without adding or losing any |
| Datasets.ShuffledPermutes | src/js/nn/dataset.js:171-178 | apart from recorded positions, the shuffled rows are the rows, each as often, whatever the picks |
| Datasets.ShuffledPositions | src/js/nn/dataset.js:171-178 | after the rounds, the rows at every visited position record that position |
| Datasets.ShuffledInPlace | src/js/nn/dataset.js:171-178 | every row that records a position is at that position |
| Datasets.ShapedPermuted | src/js/nn/dataset.js:171-178 | rows that differ only in recorded positions are shaped alike |
| Datasets.ProcessedData | src/js/nn/dataset.js:42-83 | as intended (lines 55 and 72 corrected): one row per surviving line, each shaped for training with one input width, every row but perhaps the first at its recorded position |
| Datasets.Next | src/js/nn/dataset.js:126 | the cursor stays a position of the data |
| Datasets.NextWraps | src/js/nn/dataset.js:125-127 | the cursor moves one on, and from the last back to the first |
| Datasets.AdvanceWraps | src/js/nn/dataset.js:125-127 | k <= n moves reach c + k, wrapping past the end; n moves return to c |
| Datasets.OneHotIsOneHot | src/js/nn/dataset.js:153-158 | within the size, exactly one place holds 1 and the others 0 |
| Datasets.MaxOutput | src/js/nn/dataset.js:138 | no output is larger, and some output equals it |
| Datasets.Dataset.constructor | src/js/nn/dataset.js:19-26 | empty data, empty caches, cursor 0, no cached sizes |
| Datasets.Dataset.Tokenise | src/js/nn/dataset.js:85-103 | the tokens and the new caches are TokeniseAll of the old caches |
| Datasets.Dataset.TokeniseLines | src/js/nn/dataset.js:46 | the rows and the new caches are TokeniseRows of the old caches |
| Datasets.Dataset.Swap | src/js/nn/dataset.js:174-176 | the data after the round is SwapStep of the data before |
| Datasets.Dataset.ShuffleData | src/js/nn/dataset.js:171-178 | the data after the loop is Shuffle of the data before, with n - 1 draws |
| Datasets.Dataset.ProcessRawData | src/js/nn/dataset.js:42-83 | as intended (lines 55 and 72 corrected): new data is the tokenised, processed and shuffled text; the token caches carry on |
| Datasets.Dataset.NextIndex | src/js/nn/dataset.js:125-127 | the cursor becomes Next of the old cursor |
| Datasets.Dataset.GetInputSize | src/js/nn/dataset.js:129-134 | a cached size is returned as it is; otherwise the first row's input length, cached (None on empty data) |
| Datasets.Dataset.GetOutputSize | src/js/nn/dataset.js:136-141 | a cached size is returned as it is; otherwise one more than the largest output, cached |
| Datasets.Dataset.GetOutputArray | src/js/nn/dataset.js:136-158 | OneHot at the output size; None (the throw of `new Array`) when that size is negative or is computed from empty data |
| Datasets.Dataset.SetError | src/js/nn/dataset.js:106-112 | only that row's error changes, and getError then returns it |

## Left out

- Rendering and animation: every `render`, `refresh` and `update`, the
  meshes and materials, positions and `setPosition`. The DOM helpers and the
  Three.js scene are outside the logic.
- `Dataset.bind` and its `fetch` of the data file, `onDataSelected` (it
  logs to the console and calls into the renderer), and the trivial getters
  `getData`, `getCurrentIndex` and `getDataSize`.
- `getHiddenLayerSize` (`src/js/nn/dataset.js:143-151`): it rounds a
  floating-point division, and floating-point rounding is not modelled.
- `Sigmoid` itself: `Math.exp` is a parameter. The softmax and ELU files and
  `maths/round.js` are exponential or rounding maths and are not part of
  this model.
- The rounded `stats.error` of `cycle` (`src/js/nn/neural_network.js:78`).
- `NeuralNetwork.setInput`: it calls `layer.set`, which no layer defines.
- The dynamic network's `randomise` (`src/js/dynamic/neural_network_dynamic.js:116-120`):
  it calls `sensor.randomise` and `conn.reset`, which no file of the program
  defines, so a click throws.
- The first four lines of the dynamic `update`
  (`src/js/dynamic/neural_network_dynamic.js:136-142`): they call
  `sensors[index].randomise()` and `neurons[index].drift()`, which no file of
  the program defines, so every call of `update` throws before its network
  step. `Network.Tick` models lines 145-146 as they would run if those two
  calls returned; the model does not capture the throw.
- Geometry: ring angles, jitter, positions, distances and dot products.
  Rings are counted with `RingSize`, the two jitters per position only as
  draws, and the distance and dot tests are the predicate `isNear`.
- `neuron.isConnected` (`src/js/dynamic/neural_network_dynamic.js:72`) is
  defined by no file of the program. It is modelled as "an edge already
  joins the two neurons in either direction". In the source the sibling
  filter of line 69 leaves no candidate (see Findings), so the call is never
  reached; the corrected `Candidates` of the model does call it.
- Tokens.TokeniseAll: characters are Unicode scalar values; `split('')`
  (`src/js/nn/dataset.js:86`) yields UTF-16 code units, so a character
  outside the Basic Multilingual Plane is two symbol tokens in the source and
  one in the model, which changes row lengths, the four-token filter and the
  numbering of later symbols. The same holds for `DatasetPipeline.Split`.
- Randomness: the distribution of `Math.random`. Only its range [0, 1) is
  used, and only for the shuffle.
- Floating point: NaN, Infinity and rounding are not modelled; all values
  are exact reals.
- `src/js/nn/connection.js` repeats `src/js/nn/synapse.js` line for line,
  except for rendering. Its constructor, getters, `setWeight` and `reset`
  are modelled once, by the `LayeredGraph` synapse members and
  `NeuralNetwork.AddSynapse`, `SetWeight` and `ResetSynapse`.
- DynamicNetwork.Network.constructor: the connect loop of
  `src/js/dynamic/neural_network_dynamic.js:85-99` ends only when the random
  rolls allow it. Each neuron gets at most `fuel` scans, and the contract
  does not promise the minimum out-degree when the budget runs out.
- DynamicNetwork.Network.ConnectNeuron: the same fuel bound. The exit
  condition holds only when fewer than `fuel` scans were needed.
- Maths.SigmoidDerivativeBound: proves the maximum 1/4 and that 1/2
  reaches it, but not that 1/2 is the only point that does.
- Datasets.Dataset.NextIndex: requires non-empty data. On empty data the
  source computes a remainder by zero and stores NaN.
- Datasets.Dataset.GetOutputSize: requires a cached size or non-empty data.
  On empty data the source caches `-Infinity + 1`.
- Datasets.Dataset.GetOutputArray: on empty data with no cached size the
  source caches `-Infinity`, so every later call throws, even after new
  data arrives. The model reports this call's throw as `None` and caches
  nothing.
- Datasets.Dataset.SetError: requires the index to be a position of the
  data. Out of range the source throws a TypeError.
- Datasets.Dataset.GetError: requires an index within the data. The source
  returns the row's error, which is undefined until one is set; the model
  returns None then.
- LayeredNetwork.NeuralNetwork.SetValues: with more values than neurons the
  source sets those it can and then throws. The model sets the same values
  and reports the throw as `ok == false`.

## Findings

| source | as written | input that shows it | evidently intended | confidence | as-written member | corrected member |
|---|---|---|---|---|---|---|
| src/js/dynamic/neural_network_dynamic.js:69 | the sibling filter compares `n.id` with `neuron.id`; no neuron has an `id`, so both sides are undefined and equal, and every neuron is filtered out | any network: every candidate list is empty, so no edge between two neurons is ever made | exclude only the neuron itself (`n !== neuron`) | not executed | DynamicNetwork.CandidatesAsWrittenEmpty | DynamicNetwork.Candidates |
| src/js/nn/dataset.js:55 | `filter` with the shift as its predicate keeps the tokens whose shifted value is non-zero, i.e. deletes the 1s and shifts nothing | the row 1 2 3 4 becomes 2 3 4 instead of 0 1 2 3; the text "a;1111\r\nb;2345" gives outputs 10 and 5 and output size 11, where 0 and 4 are meant | `map`: every token shifted down one modulo 10 | not executed | DatasetPipeline.ProcessAsWrittenSample | DatasetPipeline.ShiftDownUndone |
| src/js/nn/dataset.js:72 | `slice(length - 4)` with a negative start counts from the end | an input of 3 tokens (start -1) is cut to its last token instead of kept whole | keep the last four tokens, or all when there are fewer | not executed | DatasetPipeline.ResizeAsWrittenAgrees | DatasetPipeline.LastUpTo |
