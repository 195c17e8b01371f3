/**
 * The records of the fixed-layer network (nn/neuron.js, nn/synapse.js and
 * its duplicate nn/connection.js) and what each of their operations
 * computes, over an arena: neurons and synapses live in two sequences and
 * refer to each other by index.
 */
module LayeredGraph {
  import opened Wrappers
  import Act = Activation

  /** nn/neuron.js:13-21; `index` only decides visibility on screen. */
  datatype Neuron = Neuron(index: nat, bias: real, activation: Option<string>, value: real,
                           weightedInput: real, error: real, ins: seq<nat>, outs: seq<nat>)

  /** nn/synapse.js:9-15: the endpoints, the weight it was given (if any) and its weight. */
  datatype Synapse = Synapse(src: nat, dst: nat, paramWeight: Option<real>, weight: real)

  datatype Net = Net(neurons: seq<Neuron>, synapses: seq<Synapse>)

  // ---------------------------------------------------------------------
  // Construction

  /**
   * nn/neuron.js:13-21.  A missing bias is 0; `params.activation || null`
   * turns both a missing and an empty tag into no activation.
   */
  function NewNeuron(index: nat, bias: Option<real>, activation: Option<string>): (n: Neuron)
    ensures n.index == index && n.value == 0.0 && n.weightedInput == 0.0 && n.error == 0.0
    ensures n.ins == [] && n.outs == []
    ensures bias.Some? ==> n.bias == bias.value
    ensures bias.None? ==> n.bias == 0.0
    ensures n.activation.Some? <==> activation.Some? && activation.value != ""
    ensures n.activation.Some? ==> n.activation == activation
  {
    var tag := if activation.Some? && activation.value != "" then activation else None;
    Neuron(index, bias.GetOr(0.0), tag, 0.0, 0.0, 0.0, [], [])
  }

  /** nn/synapse.js:15: the supplied weight, else the draw. */
  function NewSynapse(src: nat, dst: nat, paramWeight: Option<real>, draw: real): (s: Synapse)
    ensures s.src == src && s.dst == dst && s.paramWeight == paramWeight
    ensures paramWeight.Some? ==> s.weight == paramWeight.value
    ensures paramWeight.None? ==> s.weight == draw
  {
    Synapse(src, dst, paramWeight, paramWeight.GetOr(draw))
  }

  /**
   * nn/synapse.js:16-17: synapse s becomes the last out-edge of src and then
   * the last in-edge of dst; no other neuron changes.
   */
  function Linked(neurons: seq<Neuron>, s: nat, src: nat, dst: nat): (r: seq<Neuron>)
    requires src < |neurons| && dst < |neurons|
    ensures |r| == |neurons|
  {
    var a := neurons[src := neurons[src].(outs := neurons[src].outs + [s])];
    a[dst := a[dst].(ins := a[dst].ins + [s])]
  }

  /**
   * Registration on both ends: s is appended to the out-edges of src and to
   * the in-edges of dst (both, for a self-loop), and nothing else changes.
   */
  lemma LinkedSpec(neurons: seq<Neuron>, s: nat, src: nat, dst: nat, i: nat)
    requires src < |neurons| && dst < |neurons| && i < |neurons|
    ensures Linked(neurons, s, src, dst)[i].outs == neurons[i].outs + (if i == src then [s] else [])
    ensures Linked(neurons, s, src, dst)[i].ins == neurons[i].ins + (if i == dst then [s] else [])
    ensures Linked(neurons, s, src, dst)[i].(ins := neurons[i].ins, outs := neurons[i].outs) == neurons[i]
  {
  }

  // ---------------------------------------------------------------------
  // Well-formedness and the registration invariant

  ghost predicate IndexesOk(net: Net) {
    && (forall s :: 0 <= s < |net.synapses| ==>
          net.synapses[s].src < |net.neurons| && net.synapses[s].dst < |net.neurons|)
    && (forall i :: 0 <= i < |net.neurons| ==> EdgesOk(net, net.neurons[i].ins))
    && (forall i :: 0 <= i < |net.neurons| ==> EdgesOk(net, net.neurons[i].outs))
  }

  ghost predicate EdgesOk(net: Net, es: seq<nat>) {
    forall k :: 0 <= k < |es| ==> es[k] < |net.synapses|
  }

  /** The same neurons and synapses wired the same way; only their numbers may differ. */
  ghost predicate SameShape(a: Net, b: Net) {
    && |a.neurons| == |b.neurons| && |a.synapses| == |b.synapses|
    && (forall i :: 0 <= i < |a.neurons| ==>
          a.neurons[i].ins == b.neurons[i].ins && a.neurons[i].outs == b.neurons[i].outs)
    && (forall s :: 0 <= s < |a.synapses| ==>
          a.synapses[s].src == b.synapses[s].src && a.synapses[s].dst == b.synapses[s].dst)
  }

  // ---------------------------------------------------------------------
  // Synapse reads and writes

  /** nn/synapse.js:39-41 -- getWeightedValue. */
  function WeightedValue(net: Net, s: nat): (v: real)
    requires IndexesOk(net) && s < |net.synapses|
    ensures v == net.synapses[s].weight * Input(net, s)
  {
    net.synapses[s].weight * net.neurons[net.synapses[s].src].value
  }

  /** nn/synapse.js:43-45 -- getInput. */
  function Input(net: Net, s: nat): (v: real)
    requires IndexesOk(net) && s < |net.synapses|
    ensures v == net.neurons[net.synapses[s].src].value
  {
    net.neurons[net.synapses[s].src].value
  }

  /** nn/synapse.js:47-49 -- getWeightedError. */
  function WeightedError(net: Net, s: nat): (v: real)
    requires IndexesOk(net) && s < |net.synapses|
    ensures net.neurons[net.synapses[s].dst].error == 0.0 ==> v == 0.0
    ensures net.synapses[s].weight == 0.0 ==> v == 0.0
  {
    net.synapses[s].weight * net.neurons[net.synapses[s].dst].error
  }

  /** nn/synapse.js:51-53 -- reset: the supplied weight again, else a new draw. */
  function Reset(s: Synapse, draw: real): (r: Synapse)
    ensures r.(weight := s.weight) == s
    ensures s.paramWeight.Some? ==> r.weight == s.paramWeight.value
    ensures s.paramWeight.None? ==> r.weight == draw
  {
    s.(weight := s.paramWeight.GetOr(draw))
  }

  /** A synapse given a weight is back at that weight after any reset, and stays there. */
  lemma ResetRestoresParam(s: Synapse, d1: real, d2: real)
    requires s.paramWeight.Some?
    ensures Reset(s, d1) == NewSynapse(s.src, s.dst, s.paramWeight, d2)
    ensures Reset(Reset(s, d1), d2) == Reset(s, d1)
  {
  }

  // ---------------------------------------------------------------------
  // Neuron steps

  /** Sum of getWeightedValue over a list of synapses, front to back. */
  function InputSum(net: Net, es: seq<nat>): real
    requires IndexesOk(net) && EdgesOk(net, es)
  {
    if es == [] then 0.0 else InputSum(net, es[..|es| - 1]) + WeightedValue(net, es[|es| - 1])
  }

  /** Sum of getWeightedError over a list of synapses, front to back. */
  function ErrorSum(net: Net, es: seq<nat>): real
    requires IndexesOk(net) && EdgesOk(net, es)
  {
    if es == [] then 0.0 else ErrorSum(net, es[..|es| - 1]) + WeightedError(net, es[|es| - 1])
  }

  /** nn/neuron.js:90-96 -- calculateWeightedInput on neuron i. */
  function Weighed(net: Net, i: nat): (n: Neuron)
    requires IndexesOk(net) && i < |net.neurons|
    ensures n.(weightedInput := net.neurons[i].weightedInput) == net.neurons[i]
    ensures net.neurons[i].ins == [] ==> n == net.neurons[i]
    ensures net.neurons[i].ins != [] ==>
              n.weightedInput == net.neurons[i].bias + InputSum(net, net.neurons[i].ins)
  {
    var n := net.neurons[i];
    if n.ins == [] then n else n.(weightedInput := n.bias + InputSum(net, n.ins))
  }

  /** nn/neuron.js:98-101 -- activate. */
  function Activated(sigmoid: real -> real, n: Neuron): (r: Neuron)
    ensures r.(value := n.value) == n
    ensures n.ins == [] ==> r == n
    ensures n.ins != [] ==> r.value == Act.Value(sigmoid, n.activation, n.weightedInput)
  {
    if n.ins == [] then n else n.(value := Act.Value(sigmoid, n.activation, n.weightedInput))
  }

  /**
   * nn/neuron.js:68-79 -- calculateError.  An output neuron (no out-edges)
   * compares its value with the target; a hidden one sums the weighted
   * errors downstream; one with out-edges and no in-edges keeps its error.
   */
  function ErrorCalculated(net: Net, i: nat, target: real): (n: Neuron)
    requires IndexesOk(net) && i < |net.neurons|
    ensures n.(error := net.neurons[i].error) == net.neurons[i]
    ensures net.neurons[i].outs == [] ==>
              n.error == (net.neurons[i].value - target) * Act.Derivative(net.neurons[i].activation, net.neurons[i].value)
    ensures net.neurons[i].outs != [] && net.neurons[i].ins != [] ==>
              n.error == ErrorSum(net, net.neurons[i].outs) * Act.Derivative(net.neurons[i].activation, net.neurons[i].value)
    ensures net.neurons[i].outs != [] && net.neurons[i].ins == [] ==> n == net.neurons[i]
  {
    var n := net.neurons[i];
    if n.outs == [] then n.(error := (n.value - target) * Act.Derivative(n.activation, n.value))
    else if n.ins != [] then n.(error := ErrorSum(net, n.outs) * Act.Derivative(n.activation, n.value))
    else n
  }

  /** A synapse after one gradient step: the weight drops by rate * error * input. */
  function Stepped(s: Synapse, error: real, rate: real, input: real): (r: Synapse)
    ensures r.src == s.src && r.dst == s.dst && r.paramWeight == s.paramWeight
  {
    s.(weight := s.weight - rate * error * input)
  }

  /**
   * nn/neuron.js:85-87 -- the weight updates of backpropagate applied to the
   * synapses `es` in order, for a neuron with the given error.
   */
  function Descended(net: Net, es: seq<nat>, error: real, rate: real): (r: seq<Synapse>)
    requires IndexesOk(net) && EdgesOk(net, es)
    ensures |r| == |net.synapses|
    ensures forall s :: 0 <= s < |r| ==> r[s].(weight := net.synapses[s].weight) == net.synapses[s]
    decreases |es|
  {
    if es == [] then net.synapses
    else
      var prev := Descended(net, es[..|es| - 1], error, rate);
      var s := es[|es| - 1];
      prev[s := Stepped(prev[s], error, rate, Input(net, s))]
  }

  /** A synapse the list does not name keeps its weight. */
  lemma {:induction false} DescendedOthers(net: Net, es: seq<nat>, error: real, rate: real, s: nat)
    requires IndexesOk(net) && EdgesOk(net, es) && s < |net.synapses|
    requires forall k :: 0 <= k < |es| ==> es[k] != s
    ensures Descended(net, es, error, rate)[s] == net.synapses[s]
    decreases |es|
  {
    if es != [] {
      DescendedOthers(net, es[..|es| - 1], error, rate, s);
    }
  }

  /** One more synapse at the end of the list: one more gradient step. */
  lemma DescendedLast(net: Net, es: seq<nat>, error: real, rate: real)
    requires IndexesOk(net) && EdgesOk(net, es) && es != []
    ensures var p, s := es[..|es| - 1], es[|es| - 1];
            Descended(net, es, error, rate)
            == Descended(net, p, error, rate)[s := Stepped(Descended(net, p, error, rate)[s], error, rate, Input(net, s))]
  {
  }

  /** Each listed synapse, listed once, moves by one gradient step. */
  lemma {:induction false} DescendedStep(net: Net, es: seq<nat>, error: real, rate: real, k: nat)
    requires IndexesOk(net) && EdgesOk(net, es)
    requires forall a, b :: 0 <= a < b < |es| ==> es[a] != es[b]
    requires k < |es|
    ensures Descended(net, es, error, rate)[es[k]] == Stepped(net.synapses[es[k]], error, rate, Input(net, es[k]))
    decreases |es|
  {
    var p := es[..|es| - 1];
    if k < |es| - 1 {
      assert p[k] == es[k];
      DescendedStep(net, p, error, rate, k);
      assert es[k] != es[|es| - 1];
    } else {
      forall j | 0 <= j < |p| ensures p[j] != es[k] {
        assert p[j] == es[j];
      }
      DescendedOthers(net, p, error, rate, es[k]);
    }
  }

  /** nn/neuron.js:81-88 -- backpropagate on neuron i: nothing without in-edges. */
  function Backpropagated(net: Net, i: nat, rate: real): (r: seq<Synapse>)
    requires IndexesOk(net) && i < |net.neurons|
    ensures |r| == |net.synapses|
    ensures net.neurons[i].ins == [] ==> r == net.synapses
    ensures forall s :: 0 <= s < |r| ==> r[s].(weight := net.synapses[s].weight) == net.synapses[s]
  {
    var n := net.neurons[i];
    if n.ins == [] then net.synapses else Descended(net, n.ins, n.error, rate)
  }

  /** nn/neuron.js:103-113: the three degree tests. */
  predicate HasOutput(n: Neuron) { |n.outs| > 0 }
  predicate IsOutputNeuron(n: Neuron) { |n.outs| == 0 }
  predicate IsInputNeuron(n: Neuron) { |n.ins| == 0 }

  /** An output neuron is exactly one without output; an input one has no in-edges. */
  lemma DegreeTests(n: Neuron)
    ensures IsOutputNeuron(n) <==> !HasOutput(n)
    ensures IsOutputNeuron(n) <==> n.outs == []
    ensures IsInputNeuron(n) <==> n.ins == []
  {
  }
}
