/**
 * The fixed-layer network itself (nn/neural_network.js) together with the
 * in-place operations of its layers (nn/layer.js), neurons (nn/neuron.js)
 * and synapses (nn/synapse.js): one object whose arena of neurons and
 * synapses every operation updates in place.  Each method is proved equal
 * to the pass of LayeredPasses that specifies it.
 *
 * Math.exp is not modelled: the logistic function is a parameter `sigmoid`.
 * Math.random is an oracle `rand` read at a running draw counter.
 */
module LayeredNetwork {
  import opened Wrappers
  import opened LayeredGraph
  import opened LayeredPasses
  import Act = Activation

  /** The parameters of one layer (nn/layer.js:9-19): `size || 0`, and bias and activation only when defined. */
  datatype LayerParams = LayerParams(size: Option<nat>, bias: Option<real>, activation: Option<string>)

  /**
   * A layer: its parameters, its neurons (arena indices, in creation order)
   * and the synapses its `connect` created (arena indices, in push order).
   */
  datatype Layer = Layer(params: LayerParams, members: seq<nat>, outgoing: seq<nat>)

  // nn/neural_network.js:10-21
  const INPUT: seq<real> := [1.0, 0.0, 1.0]
  const TARGET: seq<real> := [1.0, 0.0, 0.0, 0.0, 0.0, 0.0, 0.0, 0.0, 0.0]
  const LEARNING_RATE: real := 0.125
  const LAYERS: seq<LayerParams> := [
    LayerParams(Some(|INPUT|), None, None),
    LayerParams(Some(4), Some(0.0), Some(Act.SIGMOID)),
    LayerParams(Some(5), Some(0.0), Some(Act.SIGMOID)),
    LayerParams(Some(6), Some(0.0), Some(Act.SIGMOID)),
    LayerParams(Some(|TARGET|), None, Some(Act.SIGMOID))
  ]

  /** nn/layer.js:16 -- `params.size || 0`. */
  function SizeOf(p: LayerParams): nat {
    p.size.GetOr(0)
  }

  /** The indices lo, lo + 1, ..., lo + n - 1. */
  function Consecutive(lo: nat, n: nat): (r: seq<nat>)
    ensures |r| == n && forall k :: 0 <= k < n ==> r[k] == lo + k
  {
    if n == 0 then [] else Consecutive(lo, n - 1) + [lo + n - 1]
  }

  /** The neurons nn/layer.js:20-29 creates: the i-th has index i and the layer's bias and activation. */
  function NewNeurons(p: LayerParams, n: nat): (r: seq<Neuron>)
    ensures |r| == n && forall i :: 0 <= i < n ==> r[i] == NewNeuron(i, p.bias, p.activation)
  {
    seq(n, i requires 0 <= i < n => NewNeuron(i, p.bias, p.activation))
  }

  function MembersOf(layers: seq<Layer>): (r: seq<seq<nat>>)
    ensures |r| == |layers| && forall l :: 0 <= l < |r| ==> r[l] == layers[l].members
  {
    seq(|layers|, l requires 0 <= l < |layers| => layers[l].members)
  }

  function OutgoingOf(layers: seq<Layer>): (r: seq<seq<nat>>)
    ensures |r| == |layers| && forall l :: 0 <= l < |r| ==> r[l] == layers[l].outgoing
  {
    seq(|layers|, l requires 0 <= l < |layers| => layers[l].outgoing)
  }

  /**
   * nn/neural_network.js:39 -- `layers.filter((layer, i) => i !== 0 && i !== n - 1)`
   * over the first k indices of n layers.
   */
  function Interior(k: nat, n: nat): (r: seq<nat>)
    ensures forall x: nat :: x in r <==> x < k && x != 0 && x + 1 != n
    ensures forall a, b :: 0 <= a < b < |r| ==> r[a] < r[b]
    decreases k
  {
    if k == 0 then []
    else
      var p := Interior(k - 1, n);
      assert forall a :: 0 <= a < |p| ==> p[a] < k - 1 by {
        forall a | 0 <= a < |p| ensures p[a] < k - 1 {
          assert p[a] in p;
        }
      }
      if k - 1 != 0 && k != n then p + [k - 1] else p
  }

  /** A new layer adds its neurons after all the others. */
  lemma FlattenPushLayer(layers: seq<Layer>, x: Layer)
    ensures MembersOf(layers + [x]) == MembersOf(layers) + [x.members]
    ensures Flatten(MembersOf(layers + [x])) == Flatten(MembersOf(layers)) + x.members
  {
    var m := MembersOf(layers + [x]);
    assert m == MembersOf(layers) + [x.members];
    assert m[..|m| - 1] == MembersOf(layers);
  }

  /**
   * Layers made of neurons of the arena, no neuron in two places, and
   * synapse lists naming synapses of the arena.
   */
  ghost predicate LayersOk(net: Net, layers: seq<Layer>) {
    && Groups(net, MembersOf(layers))
    && NoRepeats(Flatten(MembersOf(layers)))
    && SynapseGroups(net, OutgoingOf(layers))
  }

  /** Sound layers stay sound while the arena only grows. */
  lemma LayersOkGrow(a: Net, b: Net, layers: seq<Layer>)
    requires LayersOk(a, layers) && |a.neurons| <= |b.neurons| && |a.synapses| <= |b.synapses|
    ensures LayersOk(b, layers)
  {
    var ms := MembersOf(layers);
    forall g | 0 <= g < |ms| ensures Members(b, ms[g]) {
      assert Members(a, ms[g]);
    }
  }

  /** One layer of sound layers: its neurons and its synapses are in the arena. */
  lemma LayerIn(net: Net, layers: seq<Layer>, l: nat)
    requires LayersOk(net, layers) && l < |layers|
    ensures Members(net, layers[l].members) && SynapseList(net, layers[l].outgoing)
  {
    assert MembersOf(layers)[l] == layers[l].members;
    assert OutgoingOf(layers)[l] == layers[l].outgoing;
  }

  /** Indexes from the end of an arena on repeat none of the arena's neurons, nor each other. */
  lemma ConsecutiveFresh(a: Net, flat: seq<nat>, n: nat)
    requires Members(a, flat) && NoRepeats(flat)
    ensures NoRepeats(flat + Consecutive(|a.neurons|, n))
  {
    var c := Consecutive(|a.neurons|, n);
    assert NoRepeats(c);
    NoRepeatsJoin(flat, c);
  }

  /** The neurons lo .. lo + n - 1 of an arena that has them all: distinct, and below its size. */
  lemma ConsecutiveIn(net: Net, lo: nat, n: nat)
    requires Members(net, Consecutive(lo, n))
    ensures NoRepeats(Consecutive(lo, n)) && (n > 0 ==> lo + n <= |net.neurons|)
  {
    if n > 0 {
      assert Consecutive(lo, n)[n - 1] == lo + n - 1;
    }
  }

  /** A group of arena neurons joins groups of neurons of a smaller arena. */
  lemma GroupsPush(a: Net, b: Net, gs: seq<seq<nat>>, m: seq<nat>)
    requires Groups(a, gs) && Members(b, m) && |a.neurons| <= |b.neurons|
    ensures Groups(b, gs + [m])
  {
    var all := gs + [m];
    forall g | 0 <= g < |all| ensures Members(b, all[g]) {
      if g < |gs| {
        assert all[g] == gs[g] && Members(a, gs[g]);
      }
    }
  }

  /** An empty synapse list joins lists of synapses of a smaller arena. */
  lemma SynapseGroupsPush(a: Net, b: Net, gs: seq<seq<nat>>)
    requires SynapseGroups(a, gs) && |a.synapses| <= |b.synapses|
    ensures SynapseGroups(b, gs + [[]])
  {
    var all := gs + [[]];
    forall g, k | 0 <= g < |all| && 0 <= k < |all[g]| ensures all[g][k] < |b.synapses| {
      assert all[g] == gs[g];
    }
  }

  /** A layer of n neurons appended to the arena joins sound layers soundly. */
  lemma LayersOkPush(a: Net, b: Net, layers: seq<Layer>, p: LayerParams, n: nat)
    requires LayersOk(a, layers) && |b.neurons| == |a.neurons| + n && |b.synapses| == |a.synapses|
    ensures LayersOk(b, layers + [Layer(p, Consecutive(|a.neurons|, n), [])])
  {
    var x := Layer(p, Consecutive(|a.neurons|, n), []);
    FlattenPushLayer(layers, x);
    FlattenMembers(a, MembersOf(layers));
    ConsecutiveFresh(a, Flatten(MembersOf(layers)), n);
    GroupsPush(a, b, MembersOf(layers), x.members);
    assert OutgoingOf(layers + [x]) == OutgoingOf(layers) + [[]];
    SynapseGroupsPush(a, b, OutgoingOf(layers));
  }

  /** n synapses appended to the arena and to layer l's list keep the layers sound. */
  lemma LayersOkOutgoing(a: Net, b: Net, layers: seq<Layer>, l: nat, n: nat)
    requires LayersOk(a, layers) && l < |layers|
    requires |b.neurons| == |a.neurons| && |b.synapses| == |a.synapses| + n
    ensures LayersOk(b, layers[l := layers[l].(outgoing := layers[l].outgoing + Consecutive(|a.synapses|, n))])
  {
    var next := layers[l := layers[l].(outgoing := layers[l].outgoing + Consecutive(|a.synapses|, n))];
    assert MembersOf(next) == MembersOf(layers);
    LayersOkGrow(a, b, layers);
    var os := OutgoingOf(next);
    forall g, k | 0 <= g < |os| && 0 <= k < |os[g]| ensures os[g][k] < |b.synapses| {
      if g != l || k < |layers[l].outgoing| {
        assert os[g][k] == OutgoingOf(layers)[g][k];
      }
    }
  }

  /** The neurons of the layers named by `hidden`, in that order. */
  function HiddenOf(layers: seq<Layer>, hidden: seq<nat>): (r: seq<seq<nat>>)
    requires forall k :: 0 <= k < |hidden| ==> hidden[k] < |layers|
    ensures |r| == |hidden| && forall k :: 0 <= k < |r| ==> r[k] == layers[hidden[k]].members
  {
    seq(|hidden|, k requires 0 <= k < |hidden| => layers[hidden[k]].members)
  }

  /** One layer of layers made of arena neurons is made of arena neurons. */
  lemma MemberIn(net: Net, layers: seq<Layer>, l: nat)
    requires Groups(net, MembersOf(layers)) && l < |layers|
    ensures Members(net, layers[l].members)
  {
    assert MembersOf(layers)[l] == layers[l].members;
  }

  lemma HiddenIn(net: Net, layers: seq<Layer>, hidden: seq<nat>)
    requires Groups(net, MembersOf(layers)) && forall k :: 0 <= k < |hidden| ==> hidden[k] < |layers|
    ensures Groups(net, HiddenOf(layers, hidden))
  {
    var h := HiddenOf(layers, hidden);
    forall k | 0 <= k < |h| ensures Members(net, h[k]) {
      MemberIn(net, layers, hidden[k]);
    }
  }

  /**
   * What the forward and backward passes need: the arena's indexes in
   * range, every layer made of arena neurons, and the output and hidden
   * layer references in range.
   */
  ghost predicate Wired(net: Net, layers: seq<Layer>, output: nat, hidden: seq<nat>) {
    && IndexesOk(net) && Groups(net, MembersOf(layers))
    && output < |layers| && (forall k :: 0 <= k < |hidden| ==> hidden[k] < |layers|)
  }

  /** Sound layers with the layer references in range are wired. */
  lemma SoundWired(net: Net, layers: seq<Layer>, output: nat, hidden: seq<nat>)
    requires Registered(net) && LayersOk(net, layers)
    requires output < |layers| && forall k :: 0 <= k < |hidden| ==> hidden[k] < |layers|
    ensures Wired(net, layers, output, hidden)
  {
  }

  /** The output layer last and the hidden ones between the first and the last: wired. */
  lemma SoundWiredLaidOut(net: Net, layers: seq<Layer>, n: nat, output: nat, hidden: seq<nat>)
    requires Registered(net) && LayersOk(net, layers) && |layers| == n > 0
    requires output == n - 1 && hidden == Interior(n, n)
    ensures Wired(net, layers, output, hidden)
  {
    forall k | 0 <= k < |hidden| ensures hidden[k] < |layers| {
      assert hidden[k] in hidden;
    }
    SoundWired(net, layers, output, hidden);
  }

  /** A pass that keeps the arena's shape keeps it wired. */
  lemma WiredShape(a: Net, b: Net, layers: seq<Layer>, output: nat, hidden: seq<nat>)
    requires Wired(a, layers, output, hidden) && SameShape(a, b) && IndexesOk(b)
    ensures Wired(b, layers, output, hidden)
  {
    var ms := MembersOf(layers);
    forall g | 0 <= g < |ms| ensures Members(b, ms[g]) {
      assert Members(a, ms[g]);
    }
  }

  /** A pass that keeps the arena's shape keeps the network sound. */
  lemma SoundShape(a: Net, b: Net, layers: seq<Layer>)
    requires Registered(a) && LayersOk(a, layers) && SameShape(a, b)
    ensures Registered(b) && LayersOk(b, layers)
  {
    RegisteredShape(a, b);
    LayersOkGrow(a, b, layers);
  }

  /** The neurons `new Layer(p)` creates for each p of ps, all told. */
  function TotalSize(ps: seq<LayerParams>): nat
  {
    if ps == [] then 0 else TotalSize(ps[..|ps| - 1]) + SizeOf(ps[|ps| - 1])
  }

  /** The synapses connecting each of the neuron lists gs to the next creates, all told. */
  function Links(gs: seq<seq<nat>>): nat
  {
    if |gs| < 2 then 0 else Links(gs[..|gs| - 1]) + |gs[|gs| - 2]| * |gs[|gs| - 1]|
  }

  /**
   * The pairs nn/neural_network.js:30-34 links, in order: the block
   * Pairs(gs[l], gs[l + 1]) of each list of neurons with the next, one
   * block after the other.
   */
  function LayerPairs(gs: seq<seq<nat>>): seq<(nat, nat)>
  {
    if |gs| < 2 then [] else LayerPairs(gs[..|gs| - 1]) + Pairs(gs[|gs| - 2], gs[|gs| - 1])
  }

  /** There are Links(gs) of them. */
  lemma {:induction false} LayerPairsLength(gs: seq<seq<nat>>)
    ensures |LayerPairs(gs)| == Links(gs)
    decreases |gs|
  {
    if |gs| >= 2 {
      LayerPairsLength(gs[..|gs| - 1]);
      PairsLength(gs[|gs| - 2], gs[|gs| - 1]);
    }
  }

  /** Connecting one more list to the next appends its block. */
  lemma LayerPairsPush(gs: seq<seq<nat>>, i: nat)
    requires i + 1 < |gs|
    ensures LayerPairs(gs[..i + 2]) == LayerPairs(gs[..i + 1]) + Pairs(gs[i], gs[i + 1])
  {
    assert gs[..i + 2][..i + 1] == gs[..i + 1];
  }

  /** The pairs of the first m lists come first. */
  lemma {:induction false} LayerPairsPrefix(gs: seq<seq<nat>>, m: nat)
    requires m <= |gs|
    ensures |LayerPairs(gs[..m])| <= |LayerPairs(gs)|
    ensures LayerPairs(gs)[..|LayerPairs(gs[..m])|] == LayerPairs(gs[..m])
    decreases |gs| - m
  {
    if m == |gs| {
      assert gs[..m] == gs;
    } else {
      LayerPairsPrefix(gs, m + 1);
      if m >= 1 {
        LayerPairsPush(gs, m - 1);
      } else {
        assert LayerPairs(gs[..m]) == [];
      }
    }
  }

  /**
   * nn/neural_network.js:30-34 with nn/layer.js:40-47: the pair for the
   * i-th neuron of list l and the j-th of list l + 1 comes after the
   * Links(gs[..l + 1]) pairs of the lists before, at i * |gs[l + 1]| + j
   * within its block.
   */
  lemma LayerPairsIndex(gs: seq<seq<nat>>, l: nat, i: nat, j: nat)
    requires l + 1 < |gs| && i < |gs[l]| && j < |gs[l + 1]|
    ensures Links(gs[..l + 1]) + i * |gs[l + 1]| + j < |LayerPairs(gs)|
    ensures LayerPairs(gs)[Links(gs[..l + 1]) + i * |gs[l + 1]| + j] == (gs[l][i], gs[l + 1][j])
  {
    LayerPairsPush(gs, l);
    LayerPairsLength(gs[..l + 1]);
    PairsIndex(gs[l], gs[l + 1], i, j);
    LayerPairsPrefix(gs, l + 2);
    var k := Links(gs[..l + 1]) + i * |gs[l + 1]| + j;
    assert LayerPairs(gs[..l + 2])[k] == Pairs(gs[l], gs[l + 1])[i * |gs[l + 1]| + j];
    assert LayerPairs(gs)[k] == LayerPairs(gs[..l + 2])[k];
  }

  /**
   * The synapse numbers layer l's connect pushes when the lists gs are
   * connected in turn from synapse `base` on: the block after those of the
   * layers before it; the last layer connects nothing.
   */
  function Block(base: nat, gs: seq<seq<nat>>, l: nat): seq<nat>
    requires l < |gs|
  {
    if l + 1 < |gs| then Consecutive(base + Links(gs[..l + 1]), |gs[l]| * |gs[l + 1]|) else []
  }

  /** The block of a layer that has a next one. */
  lemma BlockAt(base: nat, gs: seq<seq<nat>>, l: nat, start: nat, srcs: seq<nat>, dsts: seq<nat>)
    requires l + 1 < |gs| && start == base + Links(gs[..l + 1]) && srcs == gs[l] && dsts == gs[l + 1]
    ensures Block(base, gs, l) == Consecutive(start, |srcs| * |dsts|)
  {
  }

  /**
   * After the first i connections: each layer before i has pushed its
   * block onto the list it had in built, the others still have that list.
   */
  ghost predicate PushedUpTo(built: seq<Layer>, layers: seq<Layer>, base: nat, gs: seq<seq<nat>>, i: nat)
    requires |built| == |gs|
  {
    |layers| == |built|
    && forall l :: 0 <= l < |layers| ==>
         layers[l].outgoing == built[l].outgoing + (if l < i then Block(base, gs, l) else [])
  }

  lemma PushedStart(built: seq<Layer>, base: nat, gs: seq<seq<nat>>)
    requires |built| == |gs|
    ensures PushedUpTo(built, built, base, gs, 0)
  {
    forall l | 0 <= l < |built| ensures built[l].outgoing + [] == built[l].outgoing {
    }
  }

  /**
   * nn/layer.js:40-47 on a network laid out and connected from scratch:
   * the k-th synapse of layer l's list, k = i * (size of layer l + 1) + j,
   * joins its i-th neuron to the j-th neuron of the next layer and weighs
   * the draw numbered by that synapse.
   */
  lemma OutgoingJoins(net: Net, layers: seq<Layer>, rand: nat -> real, l: nat, i: nat, j: nat, k: nat)
    requires LinkedFresh(net, LayerPairs(MembersOf(layers)), rand)
    requires forall l :: 0 <= l < |layers| ==> layers[l].outgoing == Block(0, MembersOf(layers), l)
    requires l + 1 < |layers| && i < |layers[l].members| && j < |layers[l + 1].members|
    requires k == i * |layers[l + 1].members| + j
    ensures k < |layers[l].outgoing| && layers[l].outgoing[k] < |net.synapses|
    ensures net.synapses[layers[l].outgoing[k]]
            == NewSynapse(layers[l].members[i], layers[l + 1].members[j], None, rand(layers[l].outgoing[k]))
  {
    var gs := MembersOf(layers);
    assert gs[l] == layers[l].members && gs[l + 1] == layers[l + 1].members;
    var s := Links(gs[..l + 1]) + k;
    BlockAtPair(gs, layers[l].outgoing, l, i, j, k);
    PairAt(gs, l, i, j, k, s);
    var ps := LayerPairs(gs);
    assert net.synapses[s] == NewSynapse(ps[s].0, ps[s].1, None, rand(s));
  }

  /** The k-th number of layer l's block, k = i * |gs[l + 1]| + j, is Links(gs[..l + 1]) + k. */
  lemma BlockAtPair(gs: seq<seq<nat>>, out: seq<nat>, l: nat, i: nat, j: nat, k: nat)
    requires l + 1 < |gs| && i < |gs[l]| && j < |gs[l + 1]| && out == Block(0, gs, l)
    requires k == i * |gs[l + 1]| + j
    ensures k < |out| && out[k] == Links(gs[..l + 1]) + k
  {
    var n, m := |gs[l]|, |gs[l + 1]|;
    MulBelow(i, j, n, m);
    assert out == Consecutive(Links(gs[..l + 1]), n * m);
  }

  /** LayerPairsIndex, at the position s. */
  lemma PairAt(gs: seq<seq<nat>>, l: nat, i: nat, j: nat, k: nat, s: nat)
    requires l + 1 < |gs| && i < |gs[l]| && j < |gs[l + 1]|
    requires k == i * |gs[l + 1]| + j && s == Links(gs[..l + 1]) + k
    ensures s < |LayerPairs(gs)| && LayerPairs(gs)[s] == (gs[l][i], gs[l + 1][j])
  {
    LayerPairsIndex(gs, l, i, j);
  }

  /** One more pair of the row x -> dsts continues the run of links from net0. */
  lemma RowStep(net0: Net, ps: seq<(nat, nat)>, acc: seq<(nat, nat)>, x: nat, dsts: seq<nat>, j: nat,
                rand: nat -> real, d0: nat)
    requires j < |dsts| && x < |net0.neurons| && dsts[j] < |net0.neurons|
    requires acc == ps + Row(x, dsts[..j]) && PairsIn(net0, acc)
    ensures acc + [(x, dsts[j])] == ps + Row(x, dsts[..j + 1]) && PairsIn(net0, acc + [(x, dsts[j])])
    ensures LinkAll(net0, acc + [(x, dsts[j])], rand, d0)
            == LinkStep(LinkAll(net0, acc, rand, d0), x, dsts[j], None, rand(d0 + |acc|))
  {
    RowPush(x, dsts, j);
    LinkAllPush(net0, acc, (x, dsts[j]), rand, d0);
    SeqAssoc(ps, Row(x, dsts[..j]), [(x, dsts[j])]);
  }

  /** Neurons without edges, and layers whose synapse lists are empty: a network before connect. */
  ghost predicate Edgeless(ns: seq<Neuron>, layers: seq<Layer>) {
    && (forall x :: 0 <= x < |ns| ==> ns[x].ins == [] && ns[x].outs == [])
    && (forall l :: 0 <= l < |layers| ==> layers[l].outgoing == [])
  }

  lemma EdgelessPush(ns: seq<Neuron>, layers: seq<Layer>, p: LayerParams, x: Layer)
    requires Edgeless(ns, layers) && x.outgoing == []
    ensures Edgeless(ns + NewNeurons(p, SizeOf(p)), layers + [x])
  {
    var ns', ls' := ns + NewNeurons(p, SizeOf(p)), layers + [x];
    forall i | 0 <= i < |ns'| ensures ns'[i].ins == [] && ns'[i].outs == [] {
      if i >= |ns| {
        assert ns'[i] == NewNeurons(p, SizeOf(p))[i - |ns|];
      }
    }
    forall l | 0 <= l < |ls'| ensures ls'[l].outgoing == [] {
      if l < |layers| {
        assert ls'[l] == layers[l];
      }
    }
  }

  /**
   * The layers of ps, laid out and connected from synapse 0 on: each
   * layer's synapse list is its block.
   */
  lemma ConnectedBlocks(built: seq<Layer>, layers: seq<Layer>, ps: seq<LayerParams>)
    requires LaidOut(built, ps) && SameLayout(built, layers)
    requires forall l :: 0 <= l < |built| ==> built[l].outgoing == []
    requires forall l :: 0 <= l < |layers| ==>
               layers[l].outgoing == built[l].outgoing + Block(0, MembersOf(built), l)
    ensures LaidOut(layers, ps) && MembersOf(layers) == MembersOf(built)
    ensures forall l :: 0 <= l < |layers| ==> layers[l].outgoing == Block(0, MembersOf(layers), l)
  {
    LaidOutSame(built, layers, ps);
    SameLayoutMembers(built, layers);
    forall l | 0 <= l < |layers| ensures layers[l].outgoing == Block(0, MembersOf(layers), l) {
      assert built[l].outgoing == [];
    }
  }

  /** Setting the values of the neurons ms = 0 .. |ms| - 1 in order sets neuron k to values[k]. */
  lemma FirstValues(net: Net, r: Net, ms: seq<nat>, values: seq<real>)
    requires IndexesOk(net) && Members(net, ms) && NoRepeats(ms)
    requires forall k :: 0 <= k < |ms| ==> ms[k] == k
    requires r == WithValues(net, ms, values)
    ensures forall k :: 0 <= k < |values| && k < |ms| ==> k < |r.neurons| && r.neurons[k].value == values[k]
  {
    forall k | 0 <= k < |values| && k < |ms| ensures k < |r.neurons| && r.neurons[k].value == values[k] {
      WithValuesSet(net, ms, values, k);
    }
  }

  /** Layer i's connect pushes its block; the other layers keep their lists. */
  lemma OutgoingStep(built: seq<Layer>, before: seq<Layer>, after: seq<Layer>, base: nat, gs: seq<seq<nat>>,
                     i: nat, pushed: seq<nat>)
    requires |built| == |gs| && i < |before| && PushedUpTo(built, before, base, gs, i)
    requires after == before[i := before[i].(outgoing := before[i].outgoing + pushed)]
    requires pushed == Block(base, gs, i)
    ensures PushedUpTo(built, after, base, gs, i + 1)
  {
    forall l | 0 <= l < |after|
      ensures after[l].outgoing == built[l].outgoing + (if l < i + 1 then Block(base, gs, l) else [])
    {
      if l == i {
        assert before[l].outgoing == built[l].outgoing;
      }
    }
  }

  lemma PushedAll(built: seq<Layer>, layers: seq<Layer>, base: nat, gs: seq<seq<nat>>, i: nat)
    requires |built| == |gs| && i + 1 == |gs| && PushedUpTo(built, layers, base, gs, i)
    ensures forall l :: 0 <= l < |layers| ==> layers[l].outgoing == built[l].outgoing + Block(base, gs, l)
  {
    forall l | 0 <= l < |layers| ensures layers[l].outgoing == built[l].outgoing + Block(base, gs, l) {
      if l == i {
        assert Block(base, gs, l) == [];
      }
    }
  }

  /**
   * The layers `ps.map(p => new Layer(p))` makes: layer l has the
   * parameters ps[l] and the next SizeOf(ps[l]) neurons after those of the
   * layers before it.
   */
  ghost predicate LaidOut(layers: seq<Layer>, ps: seq<LayerParams>) {
    && |layers| == |ps|
    && forall l :: 0 <= l < |ps| ==>
         layers[l].params == ps[l] && layers[l].members == Consecutive(TotalSize(ps[..l]), SizeOf(ps[l]))
  }

  /** One more layer, holding the next SizeOf(ps[i]) neurons. */
  lemma LaidOutPush(layers: seq<Layer>, ps: seq<LayerParams>, i: nat)
    requires i < |ps| && LaidOut(layers, ps[..i])
    ensures TotalSize(ps[..i + 1]) == TotalSize(ps[..i]) + SizeOf(ps[i])
    ensures LaidOut(layers + [Layer(ps[i], Consecutive(TotalSize(ps[..i]), SizeOf(ps[i])), [])], ps[..i + 1])
  {
    assert ps[..i + 1][..i] == ps[..i];
    forall l | 0 <= l < i ensures ps[..i + 1][..l] == ps[..i][..l] {
    }
  }

  /** Two lists of layers with the same parameters and neurons, layer by layer. */
  ghost predicate SameLayout(a: seq<Layer>, b: seq<Layer>) {
    |a| == |b| && forall l :: 0 <= l < |a| ==> a[l].params == b[l].params && a[l].members == b[l].members
  }

  lemma SameLayoutMembers(a: seq<Layer>, b: seq<Layer>)
    requires SameLayout(a, b)
    ensures MembersOf(a) == MembersOf(b)
  {
  }

  /** A new synapse list on one layer keeps the layout. */
  lemma SameLayoutOutgoing(a: seq<Layer>, b: seq<Layer>, l: nat, outgoing: seq<nat>)
    requires SameLayout(a, b) && l < |b|
    ensures SameLayout(a, b[l := b[l].(outgoing := outgoing)])
  {
  }

  lemma LaidOutSame(a: seq<Layer>, b: seq<Layer>, ps: seq<LayerParams>)
    requires LaidOut(a, ps) && SameLayout(a, b)
    ensures LaidOut(b, ps)
  {
  }

  /** Connecting one more pair of neighbouring layers. */
  lemma LinksPush(gs: seq<seq<nat>>, i: nat)
    requires i + 1 < |gs|
    ensures Links(gs[..i + 2]) == Links(gs[..i + 1]) + |gs[i]| * |gs[i + 1]|
  {
    assert gs[..i + 2][..i + 1] == gs[..i + 1];
  }

  /** LAYERS makes 27 neurons. */
  lemma LayerNeurons()
    ensures TotalSize(LAYERS) == 27
  {
    var ps := LAYERS;
    assert ps[..1][..0] == [] && ps[..2][..1] == ps[..1] && ps[..3][..2] == ps[..2];
    assert ps[..4][..3] == ps[..3] && ps[..5][..4] == ps[..4] && ps[..5] == ps;
    assert TotalSize(ps[..1]) == 3;
    assert TotalSize(ps[..2]) == 7;
    assert TotalSize(ps[..3]) == 12;
    assert TotalSize(ps[..4]) == 18;
  }

  /** Layers laid out from LAYERS, each connected to the next, make 116 synapses. */
  lemma LayerSynapses(layers: seq<Layer>)
    requires LaidOut(layers, LAYERS)
    ensures Links(MembersOf(layers)) == 116
  {
    var gs := MembersOf(layers);
    var sizes := [3, 4, 5, 6, 9];
    forall l | 0 <= l < 5 ensures |gs[l]| == sizes[l] {
      assert gs[l] == layers[l].members;
    }
    assert gs[..2][..1] == gs[..1] && gs[..3][..2] == gs[..2];
    assert gs[..4][..3] == gs[..3] && gs[..5][..4] == gs[..4] && gs[..5] == gs;
    assert Links(gs[..2]) == 12;
    assert Links(gs[..3]) == 32;
    assert Links(gs[..4]) == 62;
  }

  /** nn/neural_network.js:39 for the five layers of LAYERS: the middle three. */
  lemma InteriorOfLayers()
    ensures Interior(5, 5) == [1, 2, 3]
  {
    assert Interior(1, 5) == [];
    assert Interior(2, 5) == [1];
    assert Interior(3, 5) == [1, 2];
    assert Interior(4, 5) == [1, 2, 3];
  }

  /** The network's stats (nn/neural_network.js:23-26); the rounded error is not part of this model. */
  class Stats {
    var cycles: nat

    constructor ()
      ensures cycles == 0
    {
      cycles := 0;
    }
  }

  class NeuralNetwork {
    var neurons: seq<Neuron>
    var synapses: seq<Synapse>
    var layers: seq<Layer>
    /** `hiddenLayers`, as indices into `layers`. */
    var hiddenLayers: seq<nat>
    /** `outputLayer`, as an index into `layers`. */
    var outputLayer: nat
    /** stats, an object of its own (nn/neural_network.js:23-26) */
    const stats: Stats

    function N(): Net
      reads this
    {
      Net(neurons, synapses)
    }

    /** The registration invariant, and layers that are sound for the arena. */
    ghost predicate Sound()
      reads this
    {
      Registered(N()) && LayersOk(N(), layers)
    }

    /** Sound, with the hidden and output layer references in range. */
    ghost predicate Valid()
      reads this
    {
      && Sound()
      && outputLayer < |layers|
      && (forall k :: 0 <= k < |hiddenLayers| ==> hiddenLayers[k] < |layers|)
    }

    /** Wired: what the passes need, which a valid network has. */
    ghost predicate Ready()
      reads this
    {
      Wired(N(), layers, outputLayer, hiddenLayers)
    }

    /**
     * nn/neural_network.js:29 -- `new Layer(p)` for each p of ps, in order,
     * on an empty network: layer l holds the next SizeOf(ps[l]) neurons.
     */
    method AddLayers(ps: seq<LayerParams>)
      requires Sound() && neurons == [] && synapses == [] && layers == []
      modifies this`neurons, this`layers
      ensures Sound() && |neurons| == TotalSize(ps) && LaidOut(layers, ps)
      ensures Edgeless(neurons, layers)
    {
      var i := 0;
      while i < |ps|
        invariant 0 <= i <= |ps| && |layers| == i && Sound()
        invariant |neurons| == TotalSize(ps[..i]) && LaidOut(layers, ps[..i])
        invariant Edgeless(neurons, layers)
      {
        LaidOutPush(layers, ps, i);
        EdgelessPush(neurons, layers, ps[i], Layer(ps[i], Consecutive(|neurons|, SizeOf(ps[i])), []));
        AddLayer(ps[i]);
        i := i + 1;
      }
      assert ps[..i] == ps;
    }

    /**
     * nn/neural_network.js:30-34 -- each layer connected to the next, the
     * draws numbered from d on; the last round of the source's loop
     * connects nothing.  Only the layers' synapse lists change.
     */
    method ConnectLayers(rand: nat -> real, d: nat) returns (d': nat)
      requires Sound() && |layers| > 0
      modifies this`neurons, this`synapses, this`layers
      ensures Sound() && SameLayout(old(layers), layers) && |neurons| == old(|neurons|)
      ensures |synapses| == old(|synapses|) + Links(MembersOf(layers))
      ensures PairsIn(old(N()), LayerPairs(MembersOf(old(layers))))
      ensures N() == LinkAll(old(N()), LayerPairs(MembersOf(old(layers))), rand, d)
      ensures d' == d + Links(MembersOf(old(layers)))
      ensures forall l :: 0 <= l < |layers| ==>
                layers[l].outgoing == old(layers[l].outgoing) + Block(old(|synapses|), MembersOf(old(layers)), l)
    {
      ghost var built, gs := layers, MembersOf(layers);
      ghost var s0, n0 := |synapses|, |neurons|;
      ghost var net0 := N();
      d' := d;
      var i := 0;
      assert gs[..1] == [gs[0]];
      assert N() == LinkAll(net0, LayerPairs(gs[..1]), rand, d);
      PushedStart(built, s0, gs);
      while i + 1 < |layers|
        invariant 0 <= i < |layers| && Sound() && SameLayout(built, layers)
        invariant |synapses| == s0 + Links(gs[..i + 1]) && |neurons| == n0
        invariant PairsIn(net0, LayerPairs(gs[..i + 1]))
        invariant N() == LinkAll(net0, LayerPairs(gs[..i + 1]), rand, d)
        invariant d' == d + Links(gs[..i + 1])
        invariant PushedUpTo(built, layers, s0, gs, i)
      {
        LinksPush(gs, i);
        LayerPairsPush(gs, i);
        LayerPairsLength(gs[..i + 1]);
        SameLayoutMembers(built, layers);
        ghost var before := layers;
        ghost var sBefore := |synapses|;
        assert before[i].members == gs[i] && before[i + 1].members == gs[i + 1];
        d' := Connect(i, i + 1, rand, d', net0, LayerPairs(gs[..i + 1]), d);
        BlockAt(s0, gs, i, sBefore, before[i].members, before[i + 1].members);
        OutgoingStep(built, before, layers, s0, gs, i,
                     Consecutive(sBefore, |before[i].members| * |before[i + 1].members|));
        SameLayoutOutgoing(built, before, i, layers[i].outgoing);
        i := i + 1;
      }
      assert gs[..i + 1] == gs;
      SameLayoutMembers(built, layers);
      PushedAll(built, layers, s0, gs, i);
    }

    /**
     * nn/neural_network.js:29-34 on an empty network: a layer for each of
     * ps, each connected to the next, the draws numbered from 0 on.  The
     * synapses are those of LayerPairs, in order, and each layer's list is
     * its block of them.
     */
    method LayOut(ps: seq<LayerParams>, rand: nat -> real)
      requires Sound() && neurons == [] && synapses == [] && layers == [] && |ps| > 0
      modifies this`neurons, this`synapses, this`layers
      ensures Sound() && LaidOut(layers, ps)
      ensures |neurons| == TotalSize(ps) && |synapses| == Links(MembersOf(layers))
      ensures LinkedFresh(N(), LayerPairs(MembersOf(layers)), rand)
      ensures forall l :: 0 <= l < |layers| ==> layers[l].outgoing == Block(0, MembersOf(layers), l)
    {
      AddLayers(ps);
      ghost var built, empty := layers, N();
      var _ := ConnectLayers(rand, 0);
      LinkAllFresh(empty, LayerPairs(MembersOf(built)), rand);
      ConnectedBlocks(built, layers, ps);
    }

    /**
     * nn/neural_network.js:29-38 on an empty network: LayOut, then the
     * input values set on the first layer.
     */
    method Build(ps: seq<LayerParams>, input: seq<real>, rand: nat -> real)
      requires Sound() && neurons == [] && synapses == [] && layers == [] && |ps| > 0
      modifies this`neurons, this`synapses, this`layers
      ensures Sound() && LaidOut(layers, ps) && |layers| == |ps|
      ensures |neurons| == TotalSize(ps) && |synapses| == Links(MembersOf(layers))
      ensures SizeOf(ps[0]) <= |neurons|
      ensures forall k :: 0 <= k < |input| && k < SizeOf(ps[0]) ==> neurons[k].value == input[k]
      ensures LinkedFresh(N(), LayerPairs(MembersOf(layers)), rand)
      ensures forall l :: 0 <= l < |layers| ==> layers[l].outgoing == Block(0, MembersOf(layers), l)
    {
      LayOut(ps, rand);
      LayerIn(N(), layers, 0);
      ghost var ms := layers[0].members;
      assert ms == Consecutive(0, SizeOf(ps[0])) by {
        assert ps[..0] == [];
      }
      ConsecutiveIn(N(), 0, SizeOf(ps[0]));
      ghost var net1 := N();
      var _ := SetValues(0, input);
      SoundShape(net1, N(), layers);
      LinkedFreshShape(net1, N(), LayerPairs(MembersOf(layers)), rand);
      FirstValues(net1, N(), ms, input);
    }

    /**
     * nn/neural_network.js:9-41 -- the constructor: Build from LAYERS and
     * INPUT, then the layers between the first and the last as hidden
     * layers and the last as output layer.
     */
    constructor (rand: nat -> real)
      ensures Valid() && Ready()
      ensures outputLayer == |LAYERS| - 1 && hiddenLayers == [1, 2, 3] && fresh(stats) && stats.cycles == 0
      ensures LaidOut(layers, LAYERS) && |neurons| == TotalSize(LAYERS) && |synapses| == Links(MembersOf(layers))
      ensures forall k :: 0 <= k < |INPUT| ==> neurons[k].value == INPUT[k]
      ensures LinkedFresh(N(), LayerPairs(MembersOf(layers)), rand)
      ensures forall l :: 0 <= l < |layers| ==> layers[l].outgoing == Block(0, MembersOf(layers), l)
    {
      neurons, synapses, layers := [], [], [];
      // the hidden and output layers are chosen by position alone, so they are set ahead
      hiddenLayers, outputLayer := Interior(|LAYERS|, |LAYERS|), |LAYERS| - 1;
      stats := new Stats();
      new;
      InteriorOfLayers();
      Build(LAYERS, INPUT, rand);
      assert SizeOf(LAYERS[0]) == |INPUT|;
      SoundWiredLaidOut(N(), layers, |LAYERS|, outputLayer, hiddenLayers);
    }

    // -------------------------------------------------------------------
    // Neuron (nn/neuron.js)

    /** nn/neuron.js:42-44 -- setValue. */
    method SetValue(x: nat, v: real)
      requires x < |neurons|
      modifies this`neurons
      ensures neurons == old(neurons)[x := old(neurons[x]).(value := v)]
    {
      neurons := neurons[x := neurons[x].(value := v)];
    }

    /** nn/neuron.js:90-96 -- calculateWeightedInput. */
    method CalculateWeightedInput(x: nat)
      requires IndexesOk(N()) && x < |neurons|
      modifies this`neurons
      ensures N() == WeighStep(old(N()), x)
    {
      var n := neurons[x];
      if |n.ins| == 0 {
        return;
      }
      // the field accumulates from the bias; nothing reads it mid-loop, so a local stands in for it
      var acc := n.bias;
      var k := 0;
      while k < |n.ins|
        invariant 0 <= k <= |n.ins|
        invariant acc == n.bias + InputSum(N(), n.ins[..k])
      {
        assert n.ins[..k + 1][..k] == n.ins[..k];
        acc := acc + WeightedValue(N(), n.ins[k]);
        k := k + 1;
      }
      assert n.ins[..k] == n.ins;
      neurons := neurons[x := n.(weightedInput := acc)];
    }

    /** nn/neuron.js:98-101 -- activate. */
    method Activate(sigmoid: real -> real, x: nat)
      requires IndexesOk(N()) && x < |neurons|
      modifies this`neurons
      ensures N() == ActivateStep(sigmoid, old(N()), x)
    {
      var n := neurons[x];
      if |n.ins| == 0 {
        return;
      }
      neurons := neurons[x := n.(value := Act.Value(sigmoid, n.activation, n.weightedInput))];
    }

    /** The loop of nn/neuron.js:72-75: the errors of the out-edges' targets, each times its edge's weight, summed. */
    method OutErrorSum(outs: seq<nat>) returns (error: real)
      requires IndexesOk(N()) && EdgesOk(N(), outs)
      ensures error == ErrorSum(N(), outs)
    {
      error := 0.0;
      var k := 0;
      while k < |outs|
        invariant 0 <= k <= |outs|
        invariant error == ErrorSum(N(), outs[..k])
      {
        assert outs[..k + 1][..k] == outs[..k];
        error := error + WeightedError(N(), outs[k]);
        k := k + 1;
      }
      assert outs[..k] == outs;
    }

    /** nn/neuron.js:68-79 -- calculateError(target). */
    method CalculateError(x: nat, target: real)
      requires IndexesOk(N()) && x < |neurons|
      modifies this`neurons
      ensures N() == ErrorStep(old(N()), x, target)
    {
      var n := neurons[x];
      if |n.outs| == 0 {
        assert ErrorCalculated(N(), x, target) == n.(error := (n.value - target) * Act.Derivative(n.activation, n.value));
        neurons := neurons[x := n.(error := (n.value - target) * Act.Derivative(n.activation, n.value))];
      } else if |n.ins| > 0 {
        var error := OutErrorSum(n.outs);
        assert ErrorCalculated(N(), x, target) == n.(error := error * Act.Derivative(n.activation, n.value));
        neurons := neurons[x := n.(error := error * Act.Derivative(n.activation, n.value))];
      } else {
        assert neurons == neurons[x := n];
      }
    }

    /** nn/neuron.js:81-88 -- backpropagate(learningRate). */
    method BackpropagateNeuron(x: nat, rate: real)
      requires IndexesOk(N()) && x < |neurons|
      modifies this`synapses
      ensures N() == DescendStep(old(N()), x, rate)
    {
      var n := neurons[x];
      if |n.ins| == 0 {
        return;
      }
      var k := 0;
      while k < |n.ins|
        invariant 0 <= k <= |n.ins|
        invariant synapses == Descended(old(N()), n.ins[..k], n.error, rate)
      {
        assert EdgesOk(old(N()), n.ins);
        var s := n.ins[k];
        var input := neurons[synapses[s].src].value;
        assert input == Input(old(N()), s);
        assert n.ins[..k + 1][..k] == n.ins[..k];
        DescendedLast(old(N()), n.ins[..k + 1], n.error, rate);
        var stepped := synapses[s].(weight := synapses[s].weight - rate * n.error * input);
        assert stepped == Stepped(synapses[s], n.error, rate, input);
        synapses := synapses[s := stepped];
        k := k + 1;
      }
      assert n.ins[..k] == n.ins;
    }

    // -------------------------------------------------------------------
    // Synapse (nn/synapse.js)

    /** nn/synapse.js:35-37 -- setWeight. */
    method SetWeight(s: nat, w: real)
      requires s < |synapses|
      modifies this`synapses
      ensures synapses == old(synapses)[s := old(synapses[s]).(weight := w)]
    {
      synapses := synapses[s := synapses[s].(weight := w)];
    }

    /** nn/synapse.js:51-53 -- reset, with `draw` standing for Math.random(). */
    method ResetSynapse(s: nat, draw: real)
      requires s < |synapses|
      modifies this`synapses
      ensures synapses == old(synapses)[s := LayeredGraph.Reset(old(synapses[s]), draw)]
    {
      synapses := synapses[s := synapses[s].(weight := if synapses[s].paramWeight.Some? then synapses[s].paramWeight.value else draw)];
    }

    /**
     * nn/synapse.js:9-17 -- `new Synapse({src, dst, weight})`: the weight,
     * then the registration as src's last out-edge and dst's last in-edge.
     */
    method AddSynapse(src: nat, dst: nat, weight: Option<real>, draw: real) returns (s: nat)
      requires src < |neurons| && dst < |neurons|
      modifies this`neurons, this`synapses
      ensures s == old(|synapses|)
      ensures N() == LinkStep(old(N()), src, dst, weight, draw)
    {
      s := |synapses|;
      var w := if weight.Some? then weight.value else draw;
      synapses := synapses + [Synapse(src, dst, weight, w)];
      neurons := neurons[src := neurons[src].(outs := neurons[src].outs + [s])];
      neurons := neurons[dst := neurons[dst].(ins := neurons[dst].ins + [s])];
    }

    // -------------------------------------------------------------------
    // Layer (nn/layer.js)

    /**
     * nn/layer.js:9-29 -- `new Layer(params)`: `size || 0` new neurons, the
     * i-th with index i and the layer's bias and activation, appended to the
     * arena, and the layer appended to the network's list.
     */
    method AddLayer(p: LayerParams)
      requires Sound()
      modifies this`neurons, this`layers
      ensures neurons == old(neurons) + NewNeurons(p, SizeOf(p))
      ensures layers == old(layers) + [Layer(p, Consecutive(old(|neurons|), SizeOf(p)), [])]
      ensures Sound()
    {
      var size := if p.size.Some? then p.size.value else 0;
      var base := |neurons|;
      ghost var net0 := N();
      var i := 0;
      while i < size
        invariant 0 <= i <= size
        invariant neurons == net0.neurons + NewNeurons(p, i) && synapses == net0.synapses && layers == old(layers)
        invariant Registered(N())
      {
        var n := NewNeuron(i, p.bias, p.activation);
        AddNeuronRegistered(N(), n);
        neurons := neurons + [n];
        assert NewNeurons(p, i + 1) == NewNeurons(p, i) + [n];
        i := i + 1;
      }
      LayersOkPush(net0, N(), layers, p, size);
      layers := layers + [Layer(p, Consecutive(base, size), [])];
    }

    /** setValue on each of ms in turn: the loop of nn/layer.js:34-38 while it has neurons. */
    method SetMembers(ms: seq<nat>, values: seq<real>)
      requires IndexesOk(N()) && Members(N(), ms) && |values| <= |ms|
      modifies this`neurons
      ensures N() == WithValues(old(N()), ms, values)
    {
      ghost var net0 := N();
      var i := 0;
      while i < |values|
        invariant 0 <= i <= |values|
        invariant N() == WithValues(net0, ms, values[..i])
      {
        assert values[..i + 1][..i] == values[..i];
        SetValue(ms[i], values[i]);
        i := i + 1;
      }
      assert values[..i] == values;
    }

    /**
     * nn/layer.js:34-38 -- setValues(values): the k-th neuron gets values[k].
     * With more values than neurons the source throws a TypeError once it
     * runs out of neurons, after setting those it has; `ok` is false then.
     */
    method SetValues(l: nat, values: seq<real>) returns (ok: bool)
      requires l < |layers| && IndexesOk(N()) && Members(N(), layers[l].members)
      modifies this`neurons
      ensures ok <==> |values| <= |layers[l].members|
      ensures N() == WithValues(old(N()), layers[l].members, values)
    {
      var ms := layers[l].members;
      ok := |values| <= |ms|;
      SetMembers(ms, if ok then values else values[..|ms|]);
    }

    /**
     * The inner loop of nn/layer.js:40-47: a synapse without a given weight
     * from x to each of dsts; the k-th new synapse draws rand(d + k).  The
     * arena is read as a run of links that began at net0 with the pairs
     * ps and goes on with the row.
     */
    method LinkRow(ghost net0: Net, ghost ps: seq<(nat, nat)>, ghost d0: nat,
                   x: nat, dsts: seq<nat>, rand: nat -> real, d: nat) returns (d': nat)
      requires PairsIn(net0, ps) && N() == LinkAll(net0, ps, rand, d0) && d == d0 + |ps|
      requires x < |neurons| && Members(N(), dsts)
      modifies this`neurons, this`synapses
      ensures PairsIn(net0, ps + Row(x, dsts)) && N() == LinkAll(net0, ps + Row(x, dsts), rand, d0)
      ensures d' == d + |dsts| && |synapses| == old(|synapses|) + |dsts|
    {
      var s0 := |synapses|;
      d' := d;
      ghost var acc := ps;
      assert Members(net0, dsts) && x < |net0.neurons|;
      var j := 0;
      while j < |dsts|
        invariant 0 <= j <= |dsts| && |acc| == |ps| + j
        invariant acc == ps + Row(x, dsts[..j]) && PairsIn(net0, acc) && N() == LinkAll(net0, acc, rand, d0)
        invariant |neurons| == |net0.neurons| && |synapses| == s0 + j
        invariant d' == d + j
      {
        RowStep(net0, ps, acc, x, dsts, j, rand, d0);
        assert d' == d0 + |acc|;
        ghost var prev := N();
        var _ := AddSynapse(x, dsts[j], None, rand(d'));
        assert prev == LinkAll(net0, acc, rand, d0);
        acc := acc + [(x, dsts[j])];
        d' := d' + 1;
        j := j + 1;
      }
      assert dsts[..j] == dsts;
    }

    /**
     * The nested loops of nn/layer.js:40-47: LinkRow from each of srcs in
     * turn, the draws running on.  Read as the continuation of a run of
     * links that began at net0 with the pairs pre, the run goes on with
     * Pairs(srcs, dsts); with pre empty and net0 the arena on entry, the
     * new synapses are exactly LinkAll of the pairs.
     */
    method LinkPairs(srcs: seq<nat>, dsts: seq<nat>, rand: nat -> real, d: nat,
                     ghost net0: Net, ghost pre: seq<(nat, nat)>, ghost d0: nat) returns (d': nat)
      requires Members(N(), srcs) && Members(N(), dsts)
      requires PairsIn(net0, pre) && N() == LinkAll(net0, pre, rand, d0) && d == d0 + |pre|
      modifies this`neurons, this`synapses
      ensures PairsIn(net0, pre + Pairs(srcs, dsts)) && N() == LinkAll(net0, pre + Pairs(srcs, dsts), rand, d0)
      ensures d' == d + |srcs| * |dsts| && |synapses| == old(|synapses|) + |srcs| * |dsts|
    {
      assert Members(net0, srcs) && |neurons| == |net0.neurons|;
      ghost var s0 := |synapses|;
      d' := d;
      ghost var ps: seq<(nat, nat)> := [];
      ghost var all := pre;
      var i := 0;
      while i < |srcs|
        invariant 0 <= i <= |srcs|
        invariant ps == Pairs(srcs[..i], dsts) && all == pre + ps && PairsIn(net0, all)
        invariant N() == LinkAll(net0, all, rand, d0)
        invariant |neurons| == |net0.neurons| && |synapses| == s0 + |ps|
        invariant d' == d0 + |all|
      {
        PairsPush(srcs, dsts, i);
        d' := LinkRow(net0, all, d0, srcs[i], dsts, rand, d');
        SeqAssoc(pre, ps, Row(srcs[i], dsts));
        ps := ps + Row(srcs[i], dsts);
        all := all + Row(srcs[i], dsts);
        i := i + 1;
      }
      assert srcs[..i] == srcs;
      PairsLength(srcs, dsts);
    }

    /**
     * nn/layer.js:40-47 -- layer a's connect(layer b): LinkPairs from a's
     * neurons to b's, the new synapses pushed onto a's synapse list.  Read
     * as the continuation of a run of links from net0 with the pairs pre,
     * the run goes on with the pairs of a's and b's neurons.
     */
    method Connect(a: nat, b: nat, rand: nat -> real, d: nat,
                   ghost net0: Net, ghost pre: seq<(nat, nat)>, ghost d0: nat) returns (d': nat)
      requires Sound() && a < |layers| && b < |layers|
      requires Registered(net0) && PairsIn(net0, pre) && N() == LinkAll(net0, pre, rand, d0) && d == d0 + |pre|
      modifies this`neurons, this`synapses, this`layers
      ensures var srcs, dsts := old(layers[a].members), old(layers[b].members);
              && PairsIn(net0, pre + Pairs(srcs, dsts))
              && N() == LinkAll(net0, pre + Pairs(srcs, dsts), rand, d0)
              && d' == d + |srcs| * |dsts| && |synapses| == old(|synapses|) + |srcs| * |dsts|
              && layers == old(layers)[a := old(layers[a]).(outgoing := old(layers[a].outgoing) + Consecutive(old(|synapses|), |srcs| * |dsts|))]
      ensures Sound()
    {
      LayerIn(N(), layers, a);
      LayerIn(N(), layers, b);
      ghost var start := N();
      var s0 := |synapses|;
      var srcs, dsts := layers[a].members, layers[b].members;
      d' := LinkPairs(srcs, dsts, rand, d, net0, pre, d0);
      LinkAllRegistered(net0, pre + Pairs(srcs, dsts), rand, d0);
      LayersOkOutgoing(start, N(), layers, a, |srcs| * |dsts|);
      // the synapses pushed one by one onto a's list are the arena's new ones, in order
      layers := layers[a := layers[a].(outgoing := layers[a].outgoing + Consecutive(s0, |srcs| * |dsts|))];
    }

    /** calculateWeightedInput on each of ms in turn. */
    method WeighMembers(ms: seq<nat>)
      requires IndexesOk(N()) && Members(N(), ms)
      modifies this`neurons
      ensures N() == WeighAll(old(N()), ms)
    {
      ghost var net0 := N();
      var i := 0;
      while i < |ms|
        invariant 0 <= i <= |ms|
        invariant N() == WeighAll(net0, ms[..i])
      {
        WeighAllPush(net0, ms, i);
        CalculateWeightedInput(ms[i]);
        i := i + 1;
      }
      assert ms[..i] == ms;
    }

    /** activate on each of ms in turn. */
    method ActivateMembers(sigmoid: real -> real, ms: seq<nat>)
      requires IndexesOk(N()) && Members(N(), ms)
      modifies this`neurons
      ensures N() == ActivateAll(sigmoid, old(N()), ms)
    {
      ghost var net0 := N();
      var i := 0;
      while i < |ms|
        invariant 0 <= i <= |ms|
        invariant N() == ActivateAll(sigmoid, net0, ms[..i])
      {
        ActivateAllPush(sigmoid, net0, ms, i);
        Activate(sigmoid, ms[i]);
        i := i + 1;
      }
      assert ms[..i] == ms;
    }

    /**
     * nn/layer.js:49-52 -- forward on the layer whose neurons are ms: every
     * neuron weighs its input, then every neuron activates.
     */
    method LayerForward(sigmoid: real -> real, ms: seq<nat>)
      requires IndexesOk(N()) && Members(N(), ms)
      modifies this`neurons
      ensures N() == ForwardLayer(sigmoid, old(N()), ms)
    {
      WeighMembers(ms);
      ActivateMembers(sigmoid, ms);
    }

    /**
     * nn/layer.js:54-56 -- reset on the layer whose synapse list is ss:
     * each synapse in turn, the k-th drawing rand(d + k); as in ResetAll,
     * the draw of a synapse with a supplied weight goes unused.
     */
    method LayerReset(ss: seq<nat>, rand: nat -> real, d: nat) returns (d': nat)
      requires SynapseList(N(), ss)
      modifies this`synapses
      ensures N() == ResetAll(old(N()), ss, rand, d)
      ensures d' == d + |ss|
    {
      ghost var net0 := N();
      var i := 0;
      while i < |ss|
        invariant 0 <= i <= |ss|
        invariant N() == ResetAll(net0, ss[..i], rand, d)
      {
        ResetAllPush(net0, ss, rand, d, i);
        ResetSynapse(ss[i], rand(d + i));
        i := i + 1;
      }
      assert ss[..i] == ss;
      d' := d + |ss|;
    }

    /**
     * nn/layer.js:63-76 -- toJSON: the layer's size, its bias and activation
     * when they were given, and one row of out-weights per neuron with outputs.
     */
    method LayerToJson(l: nat) returns (json: LayerJson)
      requires l < |layers| && IndexesOk(N()) && Members(N(), layers[l].members)
      ensures json == LayerJson(|layers[l].members|, layers[l].params.bias, layers[l].params.activation,
                                WeightRows(N(), layers[l].members))
    {
      var ms := layers[l].members;
      var weights: seq<seq<real>> := [];
      var i := 0;
      while i < |ms|
        invariant 0 <= i <= |ms|
        invariant weights == WeightRows(N(), ms[..i])
      {
        assert ms[..i + 1][..i] == ms[..i];
        if HasOutput(neurons[ms[i]]) {
          weights := weights + [OutWeights(N(), ms[i])];
        }
        i := i + 1;
      }
      assert ms[..i] == ms;
      json := LayerJson(|ms|, layers[l].params.bias, layers[l].params.activation, weights);
    }

    // -------------------------------------------------------------------
    // NeuralNetwork (nn/neural_network.js)

    /** The layers' forwards in order, for layers whose neuron lists are gs. */
    method ForwardGroups(sigmoid: real -> real, gs: seq<seq<nat>>)
      requires IndexesOk(N()) && Groups(N(), gs)
      modifies this`neurons
      ensures N() == ForwardLayers(sigmoid, old(N()), gs)
    {
      ghost var net0 := N();
      var l := 0;
      while l < |gs|
        invariant 0 <= l <= |gs|
        invariant Groups(net0, gs[..l])
        invariant N() == ForwardLayers(sigmoid, net0, gs[..l])
      {
        ForwardLayersPush(sigmoid, net0, gs, l);
        LayerForward(sigmoid, gs[l]);
        l := l + 1;
      }
      assert gs[..l] == gs;
    }

    /** nn/neural_network.js:53-55 -- forward: each layer's forward pass, in layer order. */
    method Forward(sigmoid: real -> real)
      requires Ready()
      modifies this`neurons
      ensures N() == ForwardLayers(sigmoid, old(N()), MembersOf(layers))
      ensures layers == old(layers) && Ready()
    {
      ghost var net0 := N();
      ForwardGroups(sigmoid, MembersOf(layers));
      WiredShape(net0, N(), layers, outputLayer, hiddenLayers);
    }

    /** The layers' resets in order, for layers whose synapse lists are gs, the draws running on. */
    method ResetLists(gs: seq<seq<nat>>, rand: nat -> real, d: nat) returns (d': nat)
      requires SynapseGroups(N(), gs)
      modifies this`synapses
      ensures N() == ResetGroups(old(N()), gs, rand, d)
      ensures d' == d + |Flatten(gs)|
    {
      ghost var net0 := N();
      d' := d;
      var l := 0;
      while l < |gs|
        invariant 0 <= l <= |gs|
        invariant SynapseGroups(N(), gs[l..])
        invariant ResetGroups(N(), gs[l..], rand, d') == ResetGroups(net0, gs, rand, d)
        invariant d' == d + |Flatten(gs[..l])|
      {
        ghost var prev, e := N(), d';
        assert gs[l..][0] == gs[l] && gs[l..][1..] == gs[l + 1..];
        SynapseGroupsFirst(prev, prev, gs[l..]);
        d' := LayerReset(gs[l], rand, d');
        ResetGroupsFirst(prev, N(), gs[l..], rand, e);
        FlattenLength(gs, l);
        l := l + 1;
      }
      assert gs[..l] == gs;
    }

    /**
     * nn/neural_network.js:49-51 -- reset: each layer's reset, in layer
     * order, the draws running on from one layer to the next.
     */
    method Reset(rand: nat -> real, d: nat) returns (d': nat)
      requires SynapseGroups(N(), OutgoingOf(layers))
      modifies this`synapses
      ensures N() == ResetGroups(old(N()), OutgoingOf(layers), rand, d)
      ensures d' == d + |Flatten(OutgoingOf(layers))|
    {
      d' := ResetLists(OutgoingOf(layers), rand, d);
    }

    /** calculateError on each of ms in turn, the k-th with TargetAt(target, k). */
    method ErrorsOf(ms: seq<nat>, target: seq<real>)
      requires IndexesOk(N()) && Members(N(), ms)
      modifies this`neurons
      ensures N() == ErrorPass(old(N()), ms, target)
    {
      ghost var net0 := N();
      var k := 0;
      while k < |ms|
        invariant 0 <= k <= |ms|
        invariant N() == ErrorPass(net0, ms[..k], target)
      {
        ErrorPassPush(net0, ms, target, k);
        CalculateError(ms[k], TargetAt(target, k));
        k := k + 1;
      }
      assert ms[..k] == ms;
    }

    /** backpropagate(rate) on each of ms in turn. */
    method DescendOf(ms: seq<nat>, rate: real)
      requires IndexesOk(N()) && Members(N(), ms)
      modifies this`synapses
      ensures N() == DescendAll(old(N()), ms, rate)
    {
      ghost var net0 := N();
      var k := 0;
      while k < |ms|
        invariant 0 <= k <= |ms|
        invariant N() == DescendAll(net0, ms[..k], rate)
      {
        DescendAllPush(net0, ms, rate, k);
        BackpropagateNeuron(ms[k], rate);
        k := k + 1;
      }
      assert ms[..k] == ms;
    }

    /** The hidden half of nn/neural_network.js:62-64: hidden layers from last to first, each with target 0. */
    method HiddenErrors()
      requires Ready()
      modifies this`neurons
      ensures Groups(old(N()), HiddenOf(layers, hiddenLayers))
      ensures N() == HiddenPass(old(N()), HiddenOf(layers, hiddenLayers))
      ensures layers == old(layers) && Ready()
    {
      ghost var net0 := N();
      ghost var hs := HiddenOf(layers, hiddenLayers);
      HiddenIn(net0, layers, hiddenLayers);
      var i := |hiddenLayers|;
      while i > 0
        invariant 0 <= i <= |hiddenLayers|
        invariant N() == HiddenPass(net0, hs[i..])
        invariant layers == old(layers)
      {
        assert hs[i - 1..][1..] == hs[i..];
        MemberIn(net0, layers, hiddenLayers[i - 1]);
        ErrorsOf(layers[hiddenLayers[i - 1]].members, []);
        i := i - 1;
      }
      WiredShape(net0, N(), layers, outputLayer, hiddenLayers);
    }

    /** The weight half of nn/neural_network.js:66-69: every neuron of every layer, in layer order. */
    method WeightUpdates(rate: real)
      requires Ready()
      modifies this`synapses
      ensures N() == WeightPass(old(N()), MembersOf(layers), rate)
      ensures layers == old(layers) && Ready()
    {
      ghost var net0 := N();
      ghost var gs := MembersOf(layers);
      var l := 0;
      while l < |layers|
        invariant 0 <= l <= |layers|
        invariant IndexesOk(net0) && Groups(net0, gs) && Groups(net0, gs[..l])
        invariant N() == WeightPass(net0, gs[..l], rate)
        invariant layers == old(layers)
      {
        WeightPassPush(net0, gs, l, rate);
        assert gs[l] == layers[l].members;
        DescendOf(layers[l].members, rate);
        l := l + 1;
      }
      assert gs[..l] == gs;
      WiredShape(net0, N(), layers, outputLayer, hiddenLayers);
    }

    /**
     * nn/neural_network.js:57-70 -- backpropagate: the output layer's errors
     * against the target, the hidden layers' errors from last to first, and
     * only then every layer's weight update with the learning rate.
     */
    method Backpropagate()
      requires Ready()
      modifies this`neurons, this`synapses
      ensures Members(old(N()), layers[outputLayer].members) && Groups(old(N()), HiddenOf(layers, hiddenLayers))
      ensures N() == Backprop(old(N()), layers[outputLayer].members, HiddenOf(layers, hiddenLayers), MembersOf(layers), TARGET, LEARNING_RATE)
      ensures layers == old(layers) && outputLayer == old(outputLayer) && hiddenLayers == old(hiddenLayers)
      ensures Ready()
    {
      ghost var net0 := N();
      MemberIn(net0, layers, outputLayer);
      ErrorsOf(layers[outputLayer].members, TARGET);
      WiredShape(net0, N(), layers, outputLayer, hiddenLayers);
      HiddenErrors();
      WeightUpdates(LEARNING_RATE);
      HiddenIn(net0, layers, hiddenLayers);
    }

    /** One round of the loop of nn/neural_network.js:74-76: forward, then backpropagate. */
    method Round(sigmoid: real -> real)
      requires Ready()
      modifies this`neurons, this`synapses
      ensures Members(old(N()), layers[outputLayer].members) && Groups(old(N()), HiddenOf(layers, hiddenLayers))
      ensures N() == Backprop(ForwardLayers(sigmoid, old(N()), MembersOf(layers)), layers[outputLayer].members,
                              HiddenOf(layers, hiddenLayers), MembersOf(layers), TARGET, LEARNING_RATE)
      ensures layers == old(layers) && outputLayer == old(outputLayer) && hiddenLayers == old(hiddenLayers)
      ensures Ready()
    {
      ghost var net0 := N();
      MemberIn(net0, layers, outputLayer);
      HiddenIn(net0, layers, hiddenLayers);
      Forward(sigmoid);
      ghost var fwd := N();
      Backpropagate();
      assert fwd == ForwardLayers(sigmoid, net0, MembersOf(layers));
    }

    /** The loop of nn/neural_network.js:74-76: n rounds. */
    method Rounds(sigmoid: real -> real, n: nat)
      requires Ready()
      modifies this`neurons, this`synapses
      ensures Members(old(N()), layers[outputLayer].members) && Groups(old(N()), HiddenOf(layers, hiddenLayers))
      ensures N() == Cycles(sigmoid, old(N()), n, layers[outputLayer].members, HiddenOf(layers, hiddenLayers),
                            MembersOf(layers), TARGET, LEARNING_RATE)
      ensures layers == old(layers) && outputLayer == old(outputLayer) && hiddenLayers == old(hiddenLayers)
      ensures Ready()
    {
      ghost var net0 := N();
      ghost var out, hidden, all := layers[outputLayer].members, HiddenOf(layers, hiddenLayers), MembersOf(layers);
      MemberIn(net0, layers, outputLayer);
      HiddenIn(net0, layers, hiddenLayers);
      var i := 0;
      while i < n
        invariant 0 <= i <= n
        invariant layers == old(layers) && outputLayer == old(outputLayer) && hiddenLayers == old(hiddenLayers)
        invariant N() == Cycles(sigmoid, net0, i, out, hidden, all, TARGET, LEARNING_RATE)
        invariant Ready()
      {
        CyclesPush(sigmoid, net0, i, out, hidden, all, TARGET, LEARNING_RATE);
        Round(sigmoid);
        i := i + 1;
      }
    }

    /**
     * nn/neural_network.js:72-77 -- cycle(n): n rounds of forward then
     * backpropagate, after which the cycle count goes up by one, not by n.
     * The rounds keep the network valid.
     */
    method Cycle(sigmoid: real -> real, n: nat)
      requires Valid()
      modifies this`neurons, this`synapses, stats
      ensures Members(old(N()), layers[outputLayer].members) && Groups(old(N()), HiddenOf(layers, hiddenLayers))
      ensures N() == Cycles(sigmoid, old(N()), n, layers[outputLayer].members, HiddenOf(layers, hiddenLayers),
                            MembersOf(layers), TARGET, LEARNING_RATE)
      ensures stats.cycles == old(stats.cycles) + 1
      ensures layers == old(layers) && Valid()
    {
      ghost var net0 := N();
      Rounds(sigmoid, n);
      stats.cycles := stats.cycles + 1;
      SoundShape(net0, N(), layers);
    }
  }
}
