/**
 * What the layer-wide and network-wide passes of the fixed-layer network
 * compute (nn/layer.js, nn/neural_network.js), as functions from one arena
 * to the next, with the lemmas that say what those passes mean.
 */
module LayeredPasses {
  import opened Wrappers
  import opened LayeredGraph
  import Act = Activation

  ghost predicate Members(net: Net, ms: seq<nat>) {
    forall k :: 0 <= k < |ms| ==> ms[k] < |net.neurons|
  }

  ghost predicate SynapseList(net: Net, ss: seq<nat>) {
    forall k :: 0 <= k < |ss| ==> ss[k] < |net.synapses|
  }

  ghost predicate Groups(net: Net, groups: seq<seq<nat>>) {
    forall g :: 0 <= g < |groups| ==> Members(net, groups[g])
  }

  ghost predicate NoRepeats<T>(s: seq<T>) {
    forall a, b :: 0 <= a < b < |s| ==> s[a] != s[b]
  }

  /** Two arenas whose synapses and neuron values agree. */
  ghost predicate SameValues(a: Net, b: Net) {
    && a.synapses == b.synapses && |a.neurons| == |b.neurons|
    && forall i :: 0 <= i < |a.neurons| ==> a.neurons[i].value == b.neurons[i].value
  }

  /** The weighted input of a neuron reads only weights and source values. */
  lemma {:induction false} InputSumOnValues(a: Net, b: Net, es: seq<nat>)
    requires IndexesOk(a) && IndexesOk(b) && EdgesOk(a, es) && SameValues(a, b)
    ensures InputSum(a, es) == InputSum(b, es)
    decreases |es|
  {
    if es != [] {
      InputSumOnValues(a, b, es[..|es| - 1]);
    }
  }

  // ---------------------------------------------------------------------
  // forward (nn/layer.js:49-52, nn/neural_network.js:53-55)

  function WeighStep(net: Net, x: nat): (r: Net)
    requires IndexesOk(net) && x < |net.neurons|
    ensures SameShape(net, r) && IndexesOk(r) && SameValues(net, r)
  {
    net.(neurons := net.neurons[x := Weighed(net, x)])
  }

  /** calculateWeightedInput on each of `ms` in turn. */
  function WeighAll(net: Net, ms: seq<nat>): (r: Net)
    requires IndexesOk(net) && Members(net, ms)
    ensures SameShape(net, r) && IndexesOk(r) && SameValues(net, r)
    decreases |ms|
  {
    if ms == [] then net else WeighStep(WeighAll(net, ms[..|ms| - 1]), ms[|ms| - 1])
  }

  /**
   * After weighing a list of neurons, each of them holds the weighted input
   * computed from the values BEFORE the pass, and no other neuron changed.
   */
  lemma {:induction false} WeighAllSpec(net: Net, ms: seq<nat>)
    requires IndexesOk(net) && Members(net, ms)
    ensures forall i :: 0 <= i < |net.neurons| ==>
              WeighAll(net, ms).neurons[i] == if i in ms then Weighed(net, i) else net.neurons[i]
    decreases |ms|
  {
    if ms != [] {
      var p, x := ms[..|ms| - 1], ms[|ms| - 1];
      assert ms == p + [x];
      WeighAllSpec(net, p);
      var cur := WeighAll(net, p);
      InputSumOnValues(net, cur, net.neurons[x].ins);
      assert Weighed(cur, x) == Weighed(net, x);
    }
  }

  function ActivateStep(sigmoid: real -> real, net: Net, x: nat): (r: Net)
    requires IndexesOk(net) && x < |net.neurons|
    ensures SameShape(net, r) && IndexesOk(r) && r.synapses == net.synapses
  {
    net.(neurons := net.neurons[x := Activated(sigmoid, net.neurons[x])])
  }

  /** activate on each of `ms` in turn. */
  function ActivateAll(sigmoid: real -> real, net: Net, ms: seq<nat>): (r: Net)
    requires IndexesOk(net) && Members(net, ms)
    ensures SameShape(net, r) && IndexesOk(r) && r.synapses == net.synapses
    decreases |ms|
  {
    if ms == [] then net else ActivateStep(sigmoid, ActivateAll(sigmoid, net, ms[..|ms| - 1]), ms[|ms| - 1])
  }

  /** Activating is a function of the neuron alone, so activating twice changes nothing more. */
  lemma {:induction false} ActivateAllSpec(sigmoid: real -> real, net: Net, ms: seq<nat>)
    requires IndexesOk(net) && Members(net, ms)
    ensures forall i :: 0 <= i < |net.neurons| ==>
              ActivateAll(sigmoid, net, ms).neurons[i]
              == if i in ms then Activated(sigmoid, net.neurons[i]) else net.neurons[i]
    decreases |ms|
  {
    if ms != [] {
      var p, x := ms[..|ms| - 1], ms[|ms| - 1];
      assert ms == p + [x];
      ActivateAllSpec(sigmoid, net, p);
    }
  }

  /** nn/layer.js:49-52: every member is weighed, and only then does any member activate. */
  function ForwardLayer(sigmoid: real -> real, net: Net, ms: seq<nat>): (r: Net)
    requires IndexesOk(net) && Members(net, ms)
    ensures SameShape(net, r) && IndexesOk(r) && r.synapses == net.synapses
  {
    ActivateAll(sigmoid, WeighAll(net, ms), ms)
  }

  /**
   * A layer's forward pass weighs and activates each member over the
   * values the network held before the pass -- even where one member feeds
   * another -- and leaves every other neuron alone.
   */
  lemma ForwardLayerSpec(sigmoid: real -> real, net: Net, ms: seq<nat>)
    requires IndexesOk(net) && Members(net, ms)
    ensures forall i :: 0 <= i < |net.neurons| ==>
              ForwardLayer(sigmoid, net, ms).neurons[i]
              == if i in ms then Activated(sigmoid, Weighed(net, i)) else net.neurons[i]
  {
    var w := WeighAll(net, ms);
    WeighAllSpec(net, ms);
    ActivateAllSpec(sigmoid, w, ms);
    forall i | 0 <= i < |net.neurons|
      ensures ForwardLayer(sigmoid, net, ms).neurons[i]
              == if i in ms then Activated(sigmoid, Weighed(net, i)) else net.neurons[i]
    {
      assert ForwardLayer(sigmoid, net, ms).neurons[i]
             == if i in ms then Activated(sigmoid, w.neurons[i]) else w.neurons[i];
    }
  }

  /** The value a member with in-edges ends the layer's forward pass with. */
  lemma ForwardLayerValue(sigmoid: real -> real, net: Net, ms: seq<nat>, i: nat)
    requires IndexesOk(net) && Members(net, ms) && i in ms && net.neurons[i].ins != []
    ensures ForwardLayer(sigmoid, net, ms).neurons[i].value
            == Act.Value(sigmoid, net.neurons[i].activation, net.neurons[i].bias + InputSum(net, net.neurons[i].ins))
  {
    var n, w := net.neurons[i], Weighed(net, i);
    assert ForwardLayer(sigmoid, net, ms).neurons[i] == Activated(sigmoid, w) by {
      ForwardLayerSpec(sigmoid, net, ms);
    }
    WeighedValue(sigmoid, net, i);
  }

  lemma WeighedValue(sigmoid: real -> real, net: Net, i: nat)
    requires IndexesOk(net) && i < |net.neurons| && net.neurons[i].ins != []
    ensures Activated(sigmoid, Weighed(net, i)).value
            == Act.Value(sigmoid, net.neurons[i].activation, net.neurons[i].bias + InputSum(net, net.neurons[i].ins))
  {
    var n, w := net.neurons[i], Weighed(net, i);
    assert w.ins == n.ins && w.activation == n.activation;
  }

  /** nn/neural_network.js:53-55: the layers' forward passes in index order. */
  function ForwardLayers(sigmoid: real -> real, net: Net, groups: seq<seq<nat>>): (r: Net)
    requires IndexesOk(net) && Groups(net, groups)
    ensures SameShape(net, r) && IndexesOk(r) && r.synapses == net.synapses
    decreases |groups|
  {
    if groups == [] then net
    else ForwardLayer(sigmoid, ForwardLayers(sigmoid, net, groups[..|groups| - 1]), groups[|groups| - 1])
  }

  // ---------------------------------------------------------------------
  // backpropagate (nn/neural_network.js:57-70)

  /** calculateError(target[i]): a missing target is `undefined`, so the default 0 applies. */
  function TargetAt(target: seq<real>, k: nat): real {
    if k < |target| then target[k] else 0.0
  }

  function ErrorStep(net: Net, x: nat, t: real): (r: Net)
    requires IndexesOk(net) && x < |net.neurons|
    ensures SameShape(net, r) && IndexesOk(r) && r.synapses == net.synapses
  {
    net.(neurons := net.neurons[x := ErrorCalculated(net, x, t)])
  }

  /** calculateError on each of `ms` in turn, the k-th with target[k]. */
  function ErrorPass(net: Net, ms: seq<nat>, target: seq<real>): (r: Net)
    requires IndexesOk(net) && Members(net, ms)
    ensures SameShape(net, r) && IndexesOk(r) && r.synapses == net.synapses
    ensures forall i :: 0 <= i < |r.neurons| && i !in ms ==> r.neurons[i] == net.neurons[i]
    decreases |ms|
  {
    if ms == [] then net
    else
      var p := ms[..|ms| - 1];
      assert forall i :: i in p ==> i in ms;
      ErrorStep(ErrorPass(net, p, target), ms[|ms| - 1], TargetAt(target, |ms| - 1))
  }

  /** The hidden layers' errors, from the last hidden layer to the first, each with target 0. */
  function HiddenPass(net: Net, hidden: seq<seq<nat>>): (r: Net)
    requires IndexesOk(net) && Groups(net, hidden)
    ensures SameShape(net, r) && IndexesOk(r) && r.synapses == net.synapses
    decreases |hidden|
  {
    if hidden == [] then net
    else ErrorPass(HiddenPass(net, hidden[1..]), hidden[0], [])
  }

  function DescendStep(net: Net, x: nat, rate: real): (r: Net)
    requires IndexesOk(net) && x < |net.neurons|
    ensures SameShape(net, r) && IndexesOk(r) && r.neurons == net.neurons
  {
    net.(synapses := Backpropagated(net, x, rate))
  }

  /** backpropagate(rate) on each of `ms` in turn. */
  function DescendAll(net: Net, ms: seq<nat>, rate: real): (r: Net)
    requires IndexesOk(net) && Members(net, ms)
    ensures SameShape(net, r) && IndexesOk(r) && r.neurons == net.neurons
    decreases |ms|
  {
    if ms == [] then net else DescendStep(DescendAll(net, ms[..|ms| - 1], rate), ms[|ms| - 1], rate)
  }

  /** The weight updates of every layer, in layer order. */
  function WeightPass(net: Net, groups: seq<seq<nat>>, rate: real): (r: Net)
    requires IndexesOk(net) && Groups(net, groups)
    ensures SameShape(net, r) && IndexesOk(r) && r.neurons == net.neurons
    decreases |groups|
  {
    if groups == [] then net
    else DescendAll(WeightPass(net, groups[..|groups| - 1], rate), groups[|groups| - 1], rate)
  }

  /** The error phase: output errors against the target, then the hidden layers in reverse. */
  function ErrorPhase(net: Net, output: seq<nat>, hidden: seq<seq<nat>>, target: seq<real>): (r: Net)
    requires IndexesOk(net) && Members(net, output) && Groups(net, hidden)
    ensures SameShape(net, r) && IndexesOk(r) && r.synapses == net.synapses
  {
    HiddenPass(ErrorPass(net, output, target), hidden)
  }

  lemma GroupsPrefix(net: Net, gs: seq<seq<nat>>, n: nat)
    requires Groups(net, gs) && n <= |gs|
    ensures Groups(net, gs[..n])
  {
    forall g | 0 <= g < n ensures Members(net, gs[..n][g]) {
      assert gs[..n][g] == gs[g];
    }
  }

  lemma MembersPrefix(net: Net, ms: seq<nat>, k: nat)
    requires Members(net, ms) && k < |ms|
    ensures Members(net, ms[..k]) && Members(net, ms[..k + 1]) && ms[k] < |net.neurons|
    ensures ms[..k + 1][..k] == ms[..k] && ms[..k + 1][k] == ms[k]
  {
    assert forall j :: 0 <= j < k + 1 ==> ms[..k + 1][j] == ms[j];
  }

  /** Weighing one more member: its step after the others'. */
  lemma WeighAllPush(net: Net, ms: seq<nat>, k: nat)
    requires IndexesOk(net) && Members(net, ms) && k < |ms|
    ensures Members(net, ms[..k]) && Members(net, ms[..k + 1]) && ms[k] < |WeighAll(net, ms[..k]).neurons|
    ensures WeighAll(net, ms[..k + 1]) == WeighStep(WeighAll(net, ms[..k]), ms[k])
  {
    MembersPrefix(net, ms, k);
  }

  /** Activating one more member: its step after the others'. */
  lemma ActivateAllPush(sigmoid: real -> real, net: Net, ms: seq<nat>, k: nat)
    requires IndexesOk(net) && Members(net, ms) && k < |ms|
    ensures Members(net, ms[..k]) && Members(net, ms[..k + 1]) && ms[k] < |ActivateAll(sigmoid, net, ms[..k]).neurons|
    ensures ActivateAll(sigmoid, net, ms[..k + 1]) == ActivateStep(sigmoid, ActivateAll(sigmoid, net, ms[..k]), ms[k])
  {
    MembersPrefix(net, ms, k);
  }

  /** The error of one more member, with its own target: its step after the others'. */
  lemma ErrorPassPush(net: Net, ms: seq<nat>, target: seq<real>, k: nat)
    requires IndexesOk(net) && Members(net, ms) && k < |ms|
    ensures Members(net, ms[..k]) && Members(net, ms[..k + 1]) && ms[k] < |ErrorPass(net, ms[..k], target).neurons|
    ensures ErrorPass(net, ms[..k + 1], target) == ErrorStep(ErrorPass(net, ms[..k], target), ms[k], TargetAt(target, k))
  {
    MembersPrefix(net, ms, k);
  }

  /** The weight updates of one more member: its step after the others'. */
  lemma DescendAllPush(net: Net, ms: seq<nat>, rate: real, k: nat)
    requires IndexesOk(net) && Members(net, ms) && k < |ms|
    ensures Members(net, ms[..k]) && Members(net, ms[..k + 1]) && ms[k] < |DescendAll(net, ms[..k], rate).neurons|
    ensures DescendAll(net, ms[..k + 1], rate) == DescendStep(DescendAll(net, ms[..k], rate), ms[k], rate)
  {
    MembersPrefix(net, ms, k);
  }

  /** The forward passes of one more group: that group's pass after the others'. */
  lemma ForwardLayersPush(sigmoid: real -> real, net: Net, gs: seq<seq<nat>>, l: nat)
    requires IndexesOk(net) && Groups(net, gs) && l < |gs|
    ensures Groups(net, gs[..l]) && Groups(net, gs[..l + 1])
    ensures Members(ForwardLayers(sigmoid, net, gs[..l]), gs[l])
    ensures ForwardLayers(sigmoid, net, gs[..l + 1])
         == ForwardLayer(sigmoid, ForwardLayers(sigmoid, net, gs[..l]), gs[l])
  {
    GroupsPrefix(net, gs, l);
    GroupsPrefix(net, gs, l + 1);
    assert gs[..l + 1][..l] == gs[..l] && gs[..l + 1][l] == gs[l];
    assert Members(net, gs[l]);
  }

  /** The weight updates of one more group: that group's after the others'. */
  lemma WeightPassPush(net: Net, gs: seq<seq<nat>>, l: nat, rate: real)
    requires IndexesOk(net) && Groups(net, gs) && l < |gs|
    ensures Groups(net, gs[..l]) && Groups(net, gs[..l + 1])
    ensures Members(WeightPass(net, gs[..l], rate), gs[l])
    ensures WeightPass(net, gs[..l + 1], rate) == DescendAll(WeightPass(net, gs[..l], rate), gs[l], rate)
  {
    GroupsPrefix(net, gs, l);
    GroupsPrefix(net, gs, l + 1);
    assert gs[..l + 1][..l] == gs[..l] && gs[..l + 1][l] == gs[l];
    assert Members(net, gs[l]);
  }

  /** nn/neural_network.js:57-70: every error is computed before any weight moves. */
  function Backprop(net: Net, output: seq<nat>, hidden: seq<seq<nat>>, all: seq<seq<nat>>,
                    target: seq<real>, rate: real): (r: Net)
    requires IndexesOk(net) && Members(net, output) && Groups(net, hidden) && Groups(net, all)
    ensures SameShape(net, r) && IndexesOk(r)
    ensures r.neurons == ErrorPhase(net, output, hidden, target).neurons
  {
    WeightPass(ErrorPhase(net, output, hidden, target), all, rate)
  }

  /** nn/neural_network.js:72-76: n rounds of forward then backpropagate. */
  function Cycles(sigmoid: real -> real, net: Net, n: nat, output: seq<nat>, hidden: seq<seq<nat>>,
                  all: seq<seq<nat>>, target: seq<real>, rate: real): (r: Net)
    requires IndexesOk(net) && Members(net, output) && Groups(net, hidden) && Groups(net, all)
    ensures SameShape(net, r) && IndexesOk(r)
    decreases n
  {
    if n == 0 then net
    else
      var prev := Cycles(sigmoid, net, n - 1, output, hidden, all, target, rate);
      Backprop(ForwardLayers(sigmoid, prev, all), output, hidden, all, target, rate)
  }

  /** One more round: forward then backpropagate, after the others. */
  lemma CyclesPush(sigmoid: real -> real, net: Net, n: nat, output: seq<nat>, hidden: seq<seq<nat>>,
                   all: seq<seq<nat>>, target: seq<real>, rate: real)
    requires IndexesOk(net) && Members(net, output) && Groups(net, hidden) && Groups(net, all)
    ensures var prev := Cycles(sigmoid, net, n, output, hidden, all, target, rate);
            && Members(prev, output) && Groups(prev, hidden) && Groups(prev, all)
            && Cycles(sigmoid, net, n + 1, output, hidden, all, target, rate)
               == Backprop(ForwardLayers(sigmoid, prev, all), output, hidden, all, target, rate)
  {
    var prev := Cycles(sigmoid, net, n, output, hidden, all, target, rate);
    assert forall g :: 0 <= g < |hidden| ==> Members(net, hidden[g]);
    assert forall g :: 0 <= g < |all| ==> Members(net, all[g]);
  }

  // ---------------------------------------------------------------------
  // reset (nn/layer.js:54-56, nn/neural_network.js:49-51)

  /**
   * reset on each synapse of `ss` in turn, the k-th drawing rand(d + k).
   * The source calls Math.random only for a synapse without a supplied
   * weight (nn/synapse.js:51-53); the model reserves draw d + k for every
   * synapse and leaves it unused where the weight is supplied, so the draw
   * numbers, not the values, differ from the source's sequence of calls.
   */
  function ResetAll(net: Net, ss: seq<nat>, rand: nat -> real, d: nat): (r: Net)
    requires SynapseList(net, ss)
    ensures r.neurons == net.neurons && |r.synapses| == |net.synapses|
    decreases |ss|
  {
    if ss == [] then net
    else
      var prev := ResetAll(net, ss[..|ss| - 1], rand, d);
      var s := ss[|ss| - 1];
      prev.(synapses := prev.synapses[s := Reset(prev.synapses[s], rand(d + |ss| - 1))])
  }

  /** Resetting one more synapse of the list: its reset after the others', with the next draw. */
  lemma ResetAllPush(net: Net, ss: seq<nat>, rand: nat -> real, d: nat, k: nat)
    requires SynapseList(net, ss) && k < |ss|
    ensures SynapseList(net, ss[..k]) && SynapseList(net, ss[..k + 1]) && ss[k] < |ResetAll(net, ss[..k], rand, d).synapses|
    ensures var prev := ResetAll(net, ss[..k], rand, d);
            ResetAll(net, ss[..k + 1], rand, d)
            == prev.(synapses := prev.synapses[ss[k] := Reset(prev.synapses[ss[k]], rand(d + k))])
  {
    assert forall j :: 0 <= j < k + 1 ==> ss[..k + 1][j] == ss[j];
    assert ss[..k + 1][..k] == ss[..k];
  }

  /** A synapse no reset names keeps everything, its weight included. */
  lemma {:induction false} ResetAllOthers(net: Net, ss: seq<nat>, rand: nat -> real, d: nat, s: nat)
    requires SynapseList(net, ss) && s < |net.synapses|
    requires forall k :: 0 <= k < |ss| ==> ss[k] != s
    ensures ResetAll(net, ss, rand, d).synapses[s] == net.synapses[s]
    decreases |ss|
  {
    if ss != [] {
      ResetAllOthers(net, ss[..|ss| - 1], rand, d, s);
    }
  }

  /** A reset changes no synapse's ends and no weight a synapse was created with. */
  lemma {:induction false} ResetAllKeeps(net: Net, ss: seq<nat>, rand: nat -> real, d: nat, s: nat)
    requires SynapseList(net, ss) && s < |net.synapses|
    ensures ResetAll(net, ss, rand, d).synapses[s].(weight := net.synapses[s].weight) == net.synapses[s]
    decreases |ss|
  {
    if ss != [] {
      ResetAllKeeps(net, ss[..|ss| - 1], rand, d, s);
    }
  }

  /** Every synapse a reset names and that was created with a weight gets that weight back. */
  lemma {:induction false} ResetAllRestores(net: Net, ss: seq<nat>, rand: nat -> real, d: nat, s: nat)
    requires SynapseList(net, ss) && s < |net.synapses|
    requires s in ss && net.synapses[s].paramWeight.Some?
    ensures ResetAll(net, ss, rand, d).synapses[s].weight == net.synapses[s].paramWeight.value
    decreases |ss|
  {
    var p := ss[..|ss| - 1];
    if ss[|ss| - 1] == s {
      ResetAllKeeps(net, p, rand, d, s);
    } else {
      assert ss == p + [ss[|ss| - 1]];
      ResetAllRestores(net, p, rand, d, s);
    }
  }

  /** Each list of `gs` names synapses of the arena. */
  ghost predicate SynapseGroups(net: Net, gs: seq<seq<nat>>) {
    forall i, k :: 0 <= i < |gs| && 0 <= k < |gs[i]| ==> gs[i][k] < |net.synapses|
  }

  /** The first list of synapse lists of an arena, and the rest, name synapses of any arena as large. */
  lemma SynapseGroupsFirst(net: Net, other: Net, gs: seq<seq<nat>>)
    requires SynapseGroups(net, gs) && gs != [] && |net.synapses| == |other.synapses|
    ensures SynapseList(net, gs[0]) && SynapseGroups(other, gs[1..])
  {
    assert gs[0] == gs[0];
    forall i, k | 0 <= i < |gs[1..]| && 0 <= k < |gs[1..][i]| ensures gs[1..][i][k] < |other.synapses| {
      assert gs[1..][i] == gs[i + 1];
    }
  }

  /**
   * ResetAll on each list of `gs` in turn, the draws continuing from one
   * list to the next: the first list draws from d on, the rest after it.
   */
  function ResetGroups(net: Net, gs: seq<seq<nat>>, rand: nat -> real, d: nat): (r: Net)
    requires SynapseGroups(net, gs)
    ensures r.neurons == net.neurons && |r.synapses| == |net.synapses|
    decreases |gs|
  {
    if gs == [] then net
    else
      SynapseGroupsFirst(net, net, gs);
      var next := ResetAll(net, gs[0], rand, d);
      SynapseGroupsFirst(net, next, gs);
      ResetGroups(next, gs[1..], rand, d + |gs[0]|)
  }

  /** ResetGroups resets the first list, then the rest from where its draws stopped. */
  lemma ResetGroupsFirst(net: Net, next: Net, gs: seq<seq<nat>>, rand: nat -> real, d: nat)
    requires SynapseGroups(net, gs) && gs != [] && SynapseList(net, gs[0])
    requires next == ResetAll(net, gs[0], rand, d)
    ensures SynapseGroups(next, gs[1..])
    ensures ResetGroups(net, gs, rand, d) == ResetGroups(next, gs[1..], rand, d + |gs[0]|)
  {
    SynapseGroupsFirst(net, next, gs);
  }

  /** One more group adds its length to the concatenation's. */
  lemma FlattenLength(gs: seq<seq<nat>>, l: nat)
    requires l < |gs|
    ensures |Flatten(gs[..l + 1])| == |Flatten(gs[..l])| + |gs[l]|
  {
    assert gs[..l + 1][..l] == gs[..l];
  }

  lemma {:induction false} ResetGroupsKeeps(net: Net, gs: seq<seq<nat>>, rand: nat -> real, d: nat, s: nat)
    requires SynapseGroups(net, gs) && s < |net.synapses|
    ensures ResetGroups(net, gs, rand, d).synapses[s].(weight := net.synapses[s].weight) == net.synapses[s]
    decreases |gs|
  {
    if gs != [] {
      SynapseGroupsFirst(net, net, gs);
      var next := ResetAll(net, gs[0], rand, d);
      SynapseGroupsFirst(net, next, gs);
      ResetAllKeeps(net, gs[0], rand, d, s);
      ResetGroupsKeeps(next, gs[1..], rand, d + |gs[0]|, s);
    }
  }

  /** A synapse no list of gs names keeps everything, its weight included. */
  lemma {:induction false} ResetGroupsOthers(net: Net, gs: seq<seq<nat>>, rand: nat -> real, d: nat, s: nat)
    requires SynapseGroups(net, gs) && s < |net.synapses|
    requires forall i :: 0 <= i < |gs| ==> s !in gs[i]
    ensures ResetGroups(net, gs, rand, d).synapses[s] == net.synapses[s]
    decreases |gs|
  {
    if gs != [] {
      SynapseGroupsFirst(net, net, gs);
      var next := ResetAll(net, gs[0], rand, d);
      SynapseGroupsFirst(net, next, gs);
      forall k | 0 <= k < |gs[0]| ensures gs[0][k] != s {
        assert gs[0][k] in gs[0];
      }
      ResetAllOthers(net, gs[0], rand, d, s);
      forall i | 0 <= i < |gs[1..]| ensures s !in gs[1..][i] {
        assert gs[1..][i] == gs[i + 1];
      }
      ResetGroupsOthers(next, gs[1..], rand, d + |gs[0]|, s);
    }
  }

  /**
   * Resetting every layer gives each synapse of any layer that was created
   * with a weight that weight back.
   */
  lemma {:induction false} ResetGroupsRestores(net: Net, gs: seq<seq<nat>>, rand: nat -> real, d: nat, i: nat, s: nat)
    requires SynapseGroups(net, gs) && s < |net.synapses|
    requires i < |gs| && s in gs[i] && net.synapses[s].paramWeight.Some?
    ensures ResetGroups(net, gs, rand, d).synapses[s].weight == net.synapses[s].paramWeight.value
    decreases |gs|
  {
    SynapseGroupsFirst(net, net, gs);
    var next := ResetAll(net, gs[0], rand, d);
    SynapseGroupsFirst(net, next, gs);
    var rest := gs[1..];
    assert ResetGroups(net, gs, rand, d) == ResetGroups(next, rest, rand, d + |gs[0]|);
    ResetAllKeeps(net, gs[0], rand, d, s);
    if j :| 0 <= j < |rest| && s in rest[j] {
      ResetGroupsRestores(next, rest, rand, d + |gs[0]|, j, s);
    } else {
      ResetAllRestores(net, gs[0], rand, d, s);
      ResetGroupsOthers(next, rest, rand, d + |gs[0]|, s);
    }
  }

  /** Resetting changes no synapse's ends, so the registration invariant survives it. */
  lemma ResetGroupsRegistered(net: Net, gs: seq<seq<nat>>, rand: nat -> real, d: nat)
    requires Registered(net) && SynapseGroups(net, gs)
    ensures SameShape(net, ResetGroups(net, gs, rand, d)) && Registered(ResetGroups(net, gs, rand, d))
  {
    var r := ResetGroups(net, gs, rand, d);
    forall s | 0 <= s < |net.synapses| ensures net.synapses[s].src == r.synapses[s].src && net.synapses[s].dst == r.synapses[s].dst {
      ResetGroupsKeeps(net, gs, rand, d, s);
    }
    RegisteredShape(net, r);
  }

  // ---------------------------------------------------------------------
  // setValues (nn/layer.js:34-38)

  /** setValue(values[k]) on ms[k] for each k that has both. */
  function WithValues(net: Net, ms: seq<nat>, values: seq<real>): (r: Net)
    requires IndexesOk(net) && Members(net, ms)
    ensures SameShape(net, r) && IndexesOk(r) && r.synapses == net.synapses
    decreases |values|
  {
    if values == [] then net
    else if |values| > |ms| then WithValues(net, ms, values[..|ms|])
    else
      var k := |values| - 1;
      var prev := WithValues(net, ms, values[..k]);
      prev.(neurons := prev.neurons[ms[k] := prev.neurons[ms[k]].(value := values[k])])
  }

  /** With distinct members, the k-th member gets the k-th value, for every k both lists have. */
  lemma {:induction false} WithValuesSet(net: Net, ms: seq<nat>, values: seq<real>, k: nat)
    requires IndexesOk(net) && Members(net, ms) && NoRepeats(ms) && k < |ms| && k < |values|
    ensures WithValues(net, ms, values).neurons[ms[k]] == net.neurons[ms[k]].(value := values[k])
    decreases |values|
  {
    if |values| > |ms| {
      WithValuesSet(net, ms, values[..|ms|], k);
    } else if k < |values| - 1 {
      WithValuesSet(net, ms, values[..|values| - 1], k);
      assert ms[|values| - 1] != ms[k];
    } else {
      forall j | 0 <= j < |ms| && j < k
        ensures ms[j] != ms[k]
      {
      }
      WithValuesOthers(net, ms, values[..k], ms[k]);
    }
  }

  /** Every neuron not among the members that received a value is unchanged. */
  lemma {:induction false} WithValuesOthers(net: Net, ms: seq<nat>, values: seq<real>, i: nat)
    requires IndexesOk(net) && Members(net, ms) && i < |net.neurons|
    requires forall k :: 0 <= k < |ms| && k < |values| ==> ms[k] != i
    ensures WithValues(net, ms, values).neurons[i] == net.neurons[i]
    decreases |values|
  {
    if values == [] {
    } else if |values| > |ms| {
      WithValuesOthers(net, ms, values[..|ms|], i);
    } else {
      WithValuesOthers(net, ms, values[..|values| - 1], i);
    }
  }

  // ---------------------------------------------------------------------
  // connect (nn/synapse.js:15-17, nn/layer.js:40-47)

  /** A new synapse from src to dst, registered at both ends, and appended to the arena. */
  function LinkStep(net: Net, src: nat, dst: nat, weight: Option<real>, draw: real): (r: Net)
    requires src < |net.neurons| && dst < |net.neurons|
    ensures |r.neurons| == |net.neurons|
    ensures r.synapses == net.synapses + [NewSynapse(src, dst, weight, draw)]
  {
    Net(Linked(net.neurons, |net.synapses|, src, dst), net.synapses + [NewSynapse(src, dst, weight, draw)])
  }

  /** The pairs `x` -> each of `dsts`, in order. */
  function Row(x: nat, dsts: seq<nat>): (r: seq<(nat, nat)>)
    ensures |r| == |dsts|
    ensures forall j :: 0 <= j < |r| ==> r[j] == (x, dsts[j])
  {
    seq(|dsts|, j requires 0 <= j < |dsts| => (x, dsts[j]))
  }

  /** Every pair of `srcs` x `dsts`, source-major, as connect's nested loops visit them. */
  function Pairs(srcs: seq<nat>, dsts: seq<nat>): (r: seq<(nat, nat)>)
    decreases |srcs|
  {
    if srcs == [] then [] else Pairs(srcs[..|srcs| - 1], dsts) + Row(srcs[|srcs| - 1], dsts)
  }

  /** Connecting two lists of neurons of the arena links only neurons of the arena. */
  lemma {:induction false} PairsInNet(net: Net, srcs: seq<nat>, dsts: seq<nat>)
    requires Members(net, srcs) && Members(net, dsts)
    ensures PairsIn(net, Pairs(srcs, dsts))
    decreases |srcs|
  {
    if srcs != [] {
      PairsInNet(net, srcs[..|srcs| - 1], dsts);
    }
  }

  ghost predicate PairsIn(net: Net, ps: seq<(nat, nat)>) {
    forall k :: 0 <= k < |ps| ==> ps[k].0 < |net.neurons| && ps[k].1 < |net.neurons|
  }

  /** A synapse without a given weight for each pair in turn, the k-th drawing rand(d + k). */
  function LinkAll(net: Net, ps: seq<(nat, nat)>, rand: nat -> real, d: nat): (r: Net)
    requires PairsIn(net, ps)
    ensures |r.neurons| == |net.neurons| && |r.synapses| == |net.synapses| + |ps|
    decreases |ps|
  {
    if ps == [] then net
    else
      var n := |ps| - 1;
      LinkStep(LinkAll(net, ps[..n], rand, d), ps[n].0, ps[n].1, None, rand(d + n))
  }

  /** One more pair links one more synapse, drawing the next number. */
  lemma {:induction false} LinkAllPush(net: Net, ps: seq<(nat, nat)>, p: (nat, nat), rand: nat -> real, d: nat)
    requires PairsIn(net, ps) && p.0 < |net.neurons| && p.1 < |net.neurons|
    ensures PairsIn(net, ps + [p])
    ensures LinkAll(net, ps + [p], rand, d) == LinkStep(LinkAll(net, ps, rand, d), p.0, p.1, None, rand(d + |ps|))
  {
    var q := ps + [p];
    assert q[..|q| - 1] == ps;
    assert q[|q| - 1] == p;
  }

  /** Connecting src x to one more destination extends its row by one pair. */
  lemma {:induction false} RowPush(x: nat, dsts: seq<nat>, j: nat)
    requires j < |dsts|
    ensures Row(x, dsts[..j + 1]) == Row(x, dsts[..j]) + [(x, dsts[j])]
  {
    var a, b := Row(x, dsts[..j + 1]), Row(x, dsts[..j]) + [(x, dsts[j])];
    assert |a| == |b|;
    forall k | 0 <= k < |a| ensures a[k] == b[k] {
      if k < j {
        assert b[k] == Row(x, dsts[..j])[k];
      }
    }
  }

  /** Connecting one more src appends its whole row. */
  lemma {:induction false} PairsPush(srcs: seq<nat>, dsts: seq<nat>, i: nat)
    requires i < |srcs|
    ensures Pairs(srcs[..i + 1], dsts) == Pairs(srcs[..i], dsts) + Row(srcs[i], dsts)
  {
    assert srcs[..i + 1][..i] == srcs[..i];
  }

  /** How many pairs start at x, and how many end at x. */
  function CountSrc(ps: seq<(nat, nat)>, x: nat): nat {
    if ps == [] then 0 else CountSrc(ps[..|ps| - 1], x) + (if ps[|ps| - 1].0 == x then 1 else 0)
  }

  function CountDst(ps: seq<(nat, nat)>, x: nat): nat {
    if ps == [] then 0 else CountDst(ps[..|ps| - 1], x) + (if ps[|ps| - 1].1 == x then 1 else 0)
  }

  /** Linking keeps the existing synapses in front. */
  lemma {:induction false} LinkAllKeeps(net: Net, ps: seq<(nat, nat)>, rand: nat -> real, d: nat)
    requires PairsIn(net, ps)
    ensures LinkAll(net, ps, rand, d).synapses[..|net.synapses|] == net.synapses
    decreases |ps|
  {
    if ps != [] {
      var n := |ps| - 1;
      LinkAllKeeps(net, ps[..n], rand, d);
      var prev := LinkAll(net, ps[..n], rand, d);
      assert LinkAll(net, ps, rand, d).synapses[..|net.synapses|] == prev.synapses[..|net.synapses|];
    }
  }

  /**
   * The synapse linking appends for the j-th pair has the pair's endpoints,
   * no given weight and the j-th draw.
   */
  lemma {:induction false} LinkAllSynapseAt(net: Net, ps: seq<(nat, nat)>, rand: nat -> real, d: nat, j: nat)
    requires PairsIn(net, ps) && j < |ps|
    ensures LinkAll(net, ps, rand, d).synapses[|net.synapses| + j] == NewSynapse(ps[j].0, ps[j].1, None, rand(d + j))
    decreases |ps|
  {
    var n := |ps| - 1;
    if j < n {
      LinkAllSynapseAt(net, ps[..n], rand, d, j);
    }
  }

  /** The synapse numbers, counted from `base`, that linking `ps` adds as out-edges of x. */
  function OutEdges(ps: seq<(nat, nat)>, x: nat, base: nat): (r: seq<nat>)
    ensures |r| == CountSrc(ps, x)
    ensures forall k :: 0 <= k < |r| ==> base <= r[k] < base + |ps|
  {
    if ps == [] then []
    else
      var n := |ps| - 1;
      OutEdges(ps[..n], x, base) + (if ps[n].0 == x then [base + n] else [])
  }

  /** The synapse numbers, counted from `base`, that linking `ps` adds as in-edges of x. */
  function InEdges(ps: seq<(nat, nat)>, x: nat, base: nat): (r: seq<nat>)
    ensures |r| == CountDst(ps, x)
    ensures forall k :: 0 <= k < |r| ==> base <= r[k] < base + |ps|
  {
    if ps == [] then []
    else
      var n := |ps| - 1;
      InEdges(ps[..n], x, base) + (if ps[n].1 == x then [base + n] else [])
  }

  /**
   * Linking appends to each neuron's out-edges the new synapses leaving it
   * and to its in-edges the new synapses entering it, in link order;
   * nothing else about the neuron changes.
   */
  lemma {:induction false} LinkAllEdges(net: Net, ps: seq<(nat, nat)>, rand: nat -> real, d: nat, i: nat)
    requires PairsIn(net, ps) && i < |net.neurons|
    ensures LinkAll(net, ps, rand, d).neurons[i].ins == net.neurons[i].ins + InEdges(ps, i, |net.synapses|)
    ensures LinkAll(net, ps, rand, d).neurons[i].outs == net.neurons[i].outs + OutEdges(ps, i, |net.synapses|)
    ensures LinkAll(net, ps, rand, d).neurons[i].(ins := net.neurons[i].ins, outs := net.neurons[i].outs) == net.neurons[i]
    decreases |ps|
  {
    var base, m := |net.synapses|, net.neurons[i];
    if ps == [] {
      assert m.ins + [] == m.ins && m.outs + [] == m.outs;
    } else {
      var n := |ps| - 1;
      var prev := LinkAll(net, ps[..n], rand, d);
      LinkAllEdges(net, ps[..n], rand, d, i);
      var a := prev.neurons[i];
      var ni := if i == ps[n].1 then [base + n] else [];
      var no := if i == ps[n].0 then [base + n] else [];
      var b := LinkAll(net, ps, rand, d).neurons[i];
      LinkAllLast(net, ps, rand, d);
      assert b.ins == a.ins + ni && b.outs == a.outs + no;
      SeqAssoc(m.ins, InEdges(ps[..n], i, base), ni);
      SeqAssoc(m.outs, OutEdges(ps[..n], i, base), no);
    }
  }

  /**
   * What linking the pairs ps one by one, the draws numbered from 0, makes
   * of neurons without edges and no synapses: synapse j joins the pair
   * ps[j] and weighs rand(j); a neuron's in-edges are the synapses whose
   * pair ends at it and its out-edges those whose pair starts at it, in
   * link order.
   */
  ghost predicate LinkedFresh(net: Net, ps: seq<(nat, nat)>, rand: nat -> real) {
    && |net.synapses| == |ps|
    && (forall j :: 0 <= j < |ps| ==> net.synapses[j] == NewSynapse(ps[j].0, ps[j].1, None, rand(j)))
    && (forall i :: 0 <= i < |net.neurons| ==>
          net.neurons[i].ins == InEdges(ps, i, 0) && net.neurons[i].outs == OutEdges(ps, i, 0))
  }

  lemma LinkAllFresh(net: Net, ps: seq<(nat, nat)>, rand: nat -> real)
    requires net.synapses == [] && PairsIn(net, ps)
    requires forall i :: 0 <= i < |net.neurons| ==> net.neurons[i].ins == [] && net.neurons[i].outs == []
    ensures LinkedFresh(LinkAll(net, ps, rand, 0), ps, rand)
  {
    var r := LinkAll(net, ps, rand, 0);
    forall j | 0 <= j < |ps| ensures r.synapses[j] == NewSynapse(ps[j].0, ps[j].1, None, rand(j)) {
      LinkAllSynapseAt(net, ps, rand, 0, j);
    }
    forall i | 0 <= i < |r.neurons| ensures r.neurons[i].ins == InEdges(ps, i, 0) && r.neurons[i].outs == OutEdges(ps, i, 0) {
      LinkAllEdges(net, ps, rand, 0, i);
    }
  }

  /** Only values changed: the edges are as linked. */
  lemma LinkedFreshShape(a: Net, b: Net, ps: seq<(nat, nat)>, rand: nat -> real)
    requires LinkedFresh(a, ps, rand) && SameShape(a, b) && b.synapses == a.synapses
    ensures LinkedFresh(b, ps, rand)
  {
    forall i | 0 <= i < |b.neurons| ensures b.neurons[i].ins == InEdges(ps, i, 0) && b.neurons[i].outs == OutEdges(ps, i, 0) {
      assert a.neurons[i].ins == b.neurons[i].ins && a.neurons[i].outs == b.neurons[i].outs;
    }
  }

  lemma LinkAllLast(net: Net, ps: seq<(nat, nat)>, rand: nat -> real, d: nat)
    requires PairsIn(net, ps) && ps != []
    ensures var n := |ps| - 1;
            LinkAll(net, ps, rand, d).neurons == Linked(LinkAll(net, ps[..n], rand, d).neurons, |net.synapses| + n, ps[n].0, ps[n].1)
  {
  }

  lemma SeqAssoc<T>(x: seq<T>, y: seq<T>, z: seq<T>)
    ensures (x + y) + z == x + (y + z)
  {
  }

  lemma {:induction false} CountConcat(p: seq<(nat, nat)>, q: seq<(nat, nat)>, x: nat)
    ensures CountSrc(p + q, x) == CountSrc(p, x) + CountSrc(q, x)
    ensures CountDst(p + q, x) == CountDst(p, x) + CountDst(q, x)
    decreases |q|
  {
    if q == [] {
      assert p + q == p;
    } else {
      var n := |q| - 1;
      assert (p + q)[..|p + q| - 1] == p + q[..n];
      CountConcat(p, q[..n], x);
    }
  }

  lemma {:induction false} CountRow(y: nat, dsts: seq<nat>, x: nat)
    ensures CountSrc(Row(y, dsts), x) == if y == x then |dsts| else 0
    ensures CountDst(Row(y, dsts), x) == multiset(dsts)[x]
    decreases |dsts|
  {
    if dsts != [] {
      var n := |dsts| - 1;
      assert Row(y, dsts)[..n] == Row(y, dsts[..n]);
      assert dsts == dsts[..n] + [dsts[n]];
      CountRow(y, dsts[..n], x);
    }
  }

  /**
   * The edges one connect adds: |dsts| out-edges for each copy of x among the
   * sources, |srcs| in-edges for each copy of x among the targets.
   */
  lemma ConnectDegrees(net: Net, srcs: seq<nat>, dsts: seq<nat>, rand: nat -> real, d: nat, x: nat)
    requires Members(net, srcs) && Members(net, dsts) && x < |net.neurons|
    ensures PairsIn(net, Pairs(srcs, dsts))
    ensures |LinkAll(net, Pairs(srcs, dsts), rand, d).synapses| == |net.synapses| + |srcs| * |dsts|
    ensures |LinkAll(net, Pairs(srcs, dsts), rand, d).neurons[x].outs| == |net.neurons[x].outs| + multiset(srcs)[x] * |dsts|
    ensures |LinkAll(net, Pairs(srcs, dsts), rand, d).neurons[x].ins| == |net.neurons[x].ins| + |srcs| * multiset(dsts)[x]
  {
    PairsInNet(net, srcs, dsts);
    PairsCount(srcs, dsts, x);
    LinkAllEdges(net, Pairs(srcs, dsts), rand, d, x);
  }

  lemma MulSucc(n: nat, m: nat)
    ensures (n + 1) * m == n * m + m
  {
  }

  lemma {:induction false} PairsLength(srcs: seq<nat>, dsts: seq<nat>)
    ensures |Pairs(srcs, dsts)| == |srcs| * |dsts|
    decreases |srcs|
  {
    if srcs != [] {
      PairsLength(srcs[..|srcs| - 1], dsts);
      MulSucc(|srcs| - 1, |dsts|);
    }
  }

  /**
   * nn/layer.js:40-47: connecting `srcs` to `dsts` makes |srcs| * |dsts|
   * pairs; x is the source of (copies of x in srcs) * |dsts| of them and the
   * target of |srcs| * (copies of x in dsts) of them.
   */
  lemma {:induction false} PairsCount(srcs: seq<nat>, dsts: seq<nat>, x: nat)
    ensures |Pairs(srcs, dsts)| == |srcs| * |dsts|
    ensures CountSrc(Pairs(srcs, dsts), x) == multiset(srcs)[x] * |dsts|
    ensures CountDst(Pairs(srcs, dsts), x) == |srcs| * multiset(dsts)[x]
    decreases |srcs|
  {
    PairsLength(srcs, dsts);
    if srcs != [] {
      var n := |srcs| - 1;
      var y := srcs[n];
      PairsCount(srcs[..n], dsts, x);
      CountConcat(Pairs(srcs[..n], dsts), Row(y, dsts), x);
      CountRow(y, dsts, x);
      assert srcs == srcs[..n] + [y];
      var c := multiset(srcs[..n])[x];
      assert multiset(srcs)[x] == c + (if y == x then 1 else 0);
      MulSucc(n, multiset(dsts)[x]);
      MulSucc(c, |dsts|);
    }
  }

  lemma MulBelow(i: nat, j: nat, n: nat, m: nat)
    requires i < n && j < m
    ensures i * m + j < n * m
  {
    MulSucc(i, m);
    assert (i + 1) * m <= n * m;
  }

  /** The pair connect makes for srcs[i] and dsts[j] sits at position i * |dsts| + j. */
  lemma {:induction false} PairsIndex(srcs: seq<nat>, dsts: seq<nat>, i: nat, j: nat)
    requires i < |srcs| && j < |dsts|
    ensures |Pairs(srcs, dsts)| == |srcs| * |dsts|
    ensures i * |dsts| + j < |srcs| * |dsts|
    ensures Pairs(srcs, dsts)[i * |dsts| + j] == (srcs[i], dsts[j])
    decreases |srcs|
  {
    var n := |srcs| - 1;
    PairsLength(srcs, dsts);
    PairsLength(srcs[..n], dsts);
    MulBelow(i, j, |srcs|, |dsts|);
    if i < n {
      PairsIndex(srcs[..n], dsts, i, j);
    } else {
      assert i * |dsts| == |Pairs(srcs[..n], dsts)|;
    }
  }

  // ---------------------------------------------------------------------
  // The registration invariant

  /** Every in-edge of a neuron ends at it, and every out-edge starts at it. */
  ghost predicate EdgesPointHome(net: Net)
    requires IndexesOk(net)
  {
    && (forall i, k :: 0 <= i < |net.neurons| && 0 <= k < |net.neurons[i].ins| ==>
          net.synapses[net.neurons[i].ins[k]].dst == i)
    && (forall i, k :: 0 <= i < |net.neurons| && 0 <= k < |net.neurons[i].outs| ==>
          net.synapses[net.neurons[i].outs[k]].src == i)
  }

  /** Every synapse is listed at both of its ends. */
  ghost predicate Listed(net: Net)
    requires IndexesOk(net)
  {
    forall s :: 0 <= s < |net.synapses| ==>
      s in net.neurons[net.synapses[s].dst].ins && s in net.neurons[net.synapses[s].src].outs
  }

  /** No edge list names a synapse twice. */
  ghost predicate EdgesDistinct(net: Net) {
    forall i :: 0 <= i < |net.neurons| ==> NoRepeats(net.neurons[i].ins) && NoRepeats(net.neurons[i].outs)
  }

  /**
   * Every synapse is listed once among its source's out-edges and once among
   * its destination's in-edges, and those lists hold nothing else: the
   * state nn/synapse.js:16-17 builds and nothing later changes.
   */
  ghost predicate Registered(net: Net) {
    IndexesOk(net) && EdgesPointHome(net) && Listed(net) && EdgesDistinct(net)
  }

  lemma RegisteredShape(a: Net, b: Net)
    requires Registered(a) && SameShape(a, b)
    ensures Registered(b)
  {
    forall s | 0 <= s < |b.synapses|
      ensures s in b.neurons[b.synapses[s].dst].ins && s in b.neurons[b.synapses[s].src].outs
    {
      assert a.synapses[s].dst == b.synapses[s].dst && a.synapses[s].src == b.synapses[s].src;
    }
  }

  lemma LinkStepIndexes(net: Net, src: nat, dst: nat, weight: Option<real>, draw: real)
    requires IndexesOk(net) && src < |net.neurons| && dst < |net.neurons|
    ensures IndexesOk(LinkStep(net, src, dst, weight, draw))
  {
    var r := LinkStep(net, src, dst, weight, draw);
    forall i | 0 <= i < |r.neurons| ensures EdgesOk(r, r.neurons[i].ins) && EdgesOk(r, r.neurons[i].outs) {
      assert EdgesOk(net, net.neurons[i].ins) && EdgesOk(net, net.neurons[i].outs);
    }
  }

  lemma LinkStepPointsHome(net: Net, src: nat, dst: nat, weight: Option<real>, draw: real)
    requires IndexesOk(net) && EdgesPointHome(net) && src < |net.neurons| && dst < |net.neurons|
    ensures IndexesOk(LinkStep(net, src, dst, weight, draw))
    ensures EdgesPointHome(LinkStep(net, src, dst, weight, draw))
  {
    LinkStepIndexes(net, src, dst, weight, draw);
    var r := LinkStep(net, src, dst, weight, draw);
    forall i, k | 0 <= i < |r.neurons| && 0 <= k < |r.neurons[i].ins|
      ensures r.synapses[r.neurons[i].ins[k]].dst == i
    {
      if k < |net.neurons[i].ins| {
        assert r.neurons[i].ins[k] == net.neurons[i].ins[k];
      }
    }
    forall i, k | 0 <= i < |r.neurons| && 0 <= k < |r.neurons[i].outs|
      ensures r.synapses[r.neurons[i].outs[k]].src == i
    {
      if k < |net.neurons[i].outs| {
        assert r.neurons[i].outs[k] == net.neurons[i].outs[k];
      }
    }
  }

  lemma LinkStepListed(net: Net, src: nat, dst: nat, weight: Option<real>, draw: real)
    requires IndexesOk(net) && Listed(net) && src < |net.neurons| && dst < |net.neurons|
    ensures IndexesOk(LinkStep(net, src, dst, weight, draw))
    ensures Listed(LinkStep(net, src, dst, weight, draw))
  {
    LinkStepIndexes(net, src, dst, weight, draw);
    var r := LinkStep(net, src, dst, weight, draw);
    forall t | 0 <= t < |r.synapses|
      ensures t in r.neurons[r.synapses[t].dst].ins && t in r.neurons[r.synapses[t].src].outs
    {
      if t < |net.synapses| {
        var a, b := net.synapses[t].src, net.synapses[t].dst;
        assert r.synapses[t] == net.synapses[t];
        assert t in net.neurons[b].ins && t in net.neurons[a].outs;
        assert r.neurons[b].ins == net.neurons[b].ins + (if b == dst then [|net.synapses|] else []);
        assert r.neurons[a].outs == net.neurons[a].outs + (if a == src then [|net.synapses|] else []);
      }
    }
  }

  lemma LinkStepDistinct(net: Net, src: nat, dst: nat, weight: Option<real>, draw: real)
    requires IndexesOk(net) && EdgesDistinct(net) && src < |net.neurons| && dst < |net.neurons|
    ensures EdgesDistinct(LinkStep(net, src, dst, weight, draw))
  {
    var r := LinkStep(net, src, dst, weight, draw);
    var s := |net.synapses|;
    forall i | 0 <= i < |r.neurons|
      ensures NoRepeats(r.neurons[i].ins) && NoRepeats(r.neurons[i].outs)
    {
      assert EdgesOk(net, net.neurons[i].ins) && EdgesOk(net, net.neurons[i].outs);
      assert s !in net.neurons[i].ins && s !in net.neurons[i].outs;
    }
  }

  /** Registering a new synapse keeps the invariant. */
  lemma LinkStepRegistered(net: Net, src: nat, dst: nat, weight: Option<real>, draw: real)
    requires Registered(net) && src < |net.neurons| && dst < |net.neurons|
    ensures Registered(LinkStep(net, src, dst, weight, draw))
  {
    LinkStepPointsHome(net, src, dst, weight, draw);
    LinkStepListed(net, src, dst, weight, draw);
    LinkStepDistinct(net, src, dst, weight, draw);
  }

  lemma {:induction false} LinkAllRegistered(net: Net, ps: seq<(nat, nat)>, rand: nat -> real, d: nat)
    requires Registered(net) && PairsIn(net, ps)
    ensures Registered(LinkAll(net, ps, rand, d))
    decreases |ps|
  {
    if ps != [] {
      var n := |ps| - 1;
      var prev := LinkAll(net, ps[..n], rand, d);
      LinkAllRegistered(net, ps[..n], rand, d);
      LinkStepRegistered(prev, ps[n].0, ps[n].1, None, rand(d + n));
      assert LinkAll(net, ps, rand, d) == LinkStep(prev, ps[n].0, ps[n].1, None, rand(d + n));
    }
  }

  /** A new neuron without edges keeps the invariant. */
  lemma AddNeuronRegistered(net: Net, n: Neuron)
    requires Registered(net) && n.ins == [] && n.outs == []
    ensures Registered(Net(net.neurons + [n], net.synapses))
  {
    var r := Net(net.neurons + [n], net.synapses);
    forall i | 0 <= i < |r.neurons| ensures EdgesOk(r, r.neurons[i].ins) && EdgesOk(r, r.neurons[i].outs) {
      if i < |net.neurons| {
        assert r.neurons[i] == net.neurons[i];
        assert EdgesOk(net, net.neurons[i].ins) && EdgesOk(net, net.neurons[i].outs);
      }
    }
    assert IndexesOk(r);
    forall s | 0 <= s < |r.synapses|
      ensures s in r.neurons[r.synapses[s].dst].ins && s in r.neurons[r.synapses[s].src].outs
    {
      assert r.neurons[r.synapses[s].dst] == net.neurons[net.synapses[s].dst];
      assert r.neurons[r.synapses[s].src] == net.neurons[net.synapses[s].src];
    }
  }

  /** Resetting changes no synapse's ends, so the registration invariant survives it. */
  lemma ResetAllRegistered(net: Net, ss: seq<nat>, rand: nat -> real, d: nat)
    requires Registered(net) && SynapseList(net, ss)
    ensures SameShape(net, ResetAll(net, ss, rand, d)) && Registered(ResetAll(net, ss, rand, d))
  {
    var r := ResetAll(net, ss, rand, d);
    forall s | 0 <= s < |net.synapses| ensures net.synapses[s].src == r.synapses[s].src && net.synapses[s].dst == r.synapses[s].dst {
      ResetAllKeeps(net, ss, rand, d, s);
    }
    RegisteredShape(net, r);
  }

  // ---------------------------------------------------------------------
  // The gradient step

  /**
   * backpropagate on each of a list of distinct neurons: a synapse entering
   * one of them moves by rate * (its target's error) * (its source's value),
   * read from the arena before the pass; any other synapse stays.
   */
  lemma {:induction false} DescendAllAt(net: Net, ms: seq<nat>, rate: real, s: nat)
    requires Registered(net) && Members(net, ms) && NoRepeats(ms) && s < |net.synapses|
    ensures DescendAll(net, ms, rate).synapses[s]
            == if net.synapses[s].dst in ms
               then Stepped(net.synapses[s], net.neurons[net.synapses[s].dst].error, rate, Input(net, s))
               else net.synapses[s]
    decreases |ms|
  {
    if ms != [] {
      var p, x := ms[..|ms| - 1], ms[|ms| - 1];
      NoRepeatsLast(ms);
      DescendAllAt(net, p, rate, s);
      var cur := DescendAll(net, p, rate);
      assert DescendAll(net, ms, rate) == DescendStep(cur, x, rate);
      RegisteredShape(net, cur);
      var e := net.synapses[s];
      assert cur.synapses[s].src == e.src && cur.synapses[s].dst == e.dst;
      DescendStepAt(cur, x, rate, s);
      if e.dst == x {
        assert e.dst !in p;
        assert Input(cur, s) == Input(net, s);
      } else {
        assert e.dst in ms <==> e.dst in p;
      }
    }
  }

  /** Without repeats, the last element is not among the others, which have none either. */
  lemma NoRepeatsLast<T>(s: seq<T>)
    requires NoRepeats(s) && s != []
    ensures NoRepeats(s[..|s| - 1]) && s[|s| - 1] !in s[..|s| - 1]
  {
  }

  /** One neuron's backpropagate moves exactly the synapses entering it. */
  lemma DescendStepAt(net: Net, x: nat, rate: real, s: nat)
    requires Registered(net) && x < |net.neurons| && s < |net.synapses|
    ensures DescendStep(net, x, rate).synapses[s]
            == if net.synapses[s].dst == x
               then Stepped(net.synapses[s], net.neurons[x].error, rate, Input(net, s))
               else net.synapses[s]
  {
    var ins := net.neurons[x].ins;
    var bs := Backpropagated(net, x, rate);
    if net.synapses[s].dst == x {
      assert s in ins;
      var k :| 0 <= k < |ins| && ins[k] == s;
      assert bs == Descended(net, ins, net.neurons[x].error, rate);
      DescendedStep(net, ins, net.neurons[x].error, rate, k);
    } else {
      forall k | 0 <= k < |ins| ensures ins[k] != s {
        assert net.synapses[ins[k]].dst == x;
      }
      if ins != [] {
        DescendedOthers(net, ins, net.neurons[x].error, rate, s);
      }
    }
  }

  /** The concatenation of the groups. */
  function Flatten(groups: seq<seq<nat>>): (r: seq<nat>)
    decreases |groups|
  {
    if groups == [] then [] else Flatten(groups[..|groups| - 1]) + groups[|groups| - 1]
  }

  /** The concatenation of groups of neurons of an arena is made of neurons of the arena. */
  lemma {:induction false} FlattenMembers(net: Net, groups: seq<seq<nat>>)
    requires Groups(net, groups)
    ensures Members(net, Flatten(groups))
    decreases |groups|
  {
    if groups != [] {
      var init := groups[..|groups| - 1];
      assert Groups(net, init) by {
        forall g | 0 <= g < |init| ensures Members(net, init[g]) {
          assert init[g] == groups[g];
        }
      }
      FlattenMembers(net, init);
      assert Members(net, groups[|groups| - 1]);
    }
  }

  lemma FlattenSplit(groups: seq<seq<nat>>)
    requires groups != [] && NoRepeats(Flatten(groups))
    ensures NoRepeats(Flatten(groups[..|groups| - 1])) && NoRepeats(groups[|groups| - 1])
    ensures var x := groups[|groups| - 1]; forall k :: 0 <= k < |x| ==> x[k] !in Flatten(groups[..|groups| - 1])
  {
    var f, g := Flatten(groups[..|groups| - 1]), groups[|groups| - 1];
    NoRepeatsConcat(f, g);
    forall k | 0 <= k < |g| ensures g[k] !in f {
      assert g[k] in g;
    }
  }

  /** Two lists without repeats and without a common element join into one without repeats. */
  lemma NoRepeatsJoin<T>(f: seq<T>, g: seq<T>)
    requires NoRepeats(f) && NoRepeats(g)
    requires forall a, b :: 0 <= a < |f| && 0 <= b < |g| ==> f[a] != g[b]
    ensures NoRepeats(f + g)
  {
    var all := f + g;
    forall a, b | 0 <= a < b < |all| ensures all[a] != all[b] {
      if b < |f| {
        assert all[a] == f[a] && all[b] == f[b];
      } else if a < |f| {
        assert all[a] == f[a] && all[b] == g[b - |f|];
      } else {
        assert all[a] == g[a - |f|] && all[b] == g[b - |f|];
      }
    }
  }

  /** The two halves of a list without repeats have none, and share nothing. */
  lemma NoRepeatsConcat<T>(f: seq<T>, g: seq<T>)
    requires NoRepeats(f + g)
    ensures NoRepeats(f) && NoRepeats(g)
    ensures forall x :: x in f ==> x !in g
  {
    var all := f + g;
    forall a, b | 0 <= a < b < |f| ensures f[a] != f[b] {
      assert all[a] == f[a] && all[b] == f[b];
    }
    forall a, b | 0 <= a < b < |g| ensures g[a] != g[b] {
      var i, j := |f| + a, |f| + b;
      assert all[i] == g[a] && all[j] == g[b];
      assert all[i] != all[j];
    }
    forall a, b | 0 <= a < |f| && 0 <= b < |g| ensures f[a] != g[b] {
      assert all[a] == f[a] && all[|f| + b] == g[b];
    }
  }

  lemma {:induction false} WeightPassAt(net: Net, groups: seq<seq<nat>>, rate: real, s: nat)
    requires Registered(net) && Groups(net, groups) && NoRepeats(Flatten(groups)) && s < |net.synapses|
    ensures WeightPass(net, groups, rate).synapses[s]
            == if net.synapses[s].dst in Flatten(groups)
               then Stepped(net.synapses[s], net.neurons[net.synapses[s].dst].error, rate, Input(net, s))
               else net.synapses[s]
    decreases |groups|
  {
    if groups != [] {
      var n := |groups| - 1;
      FlattenSplit(groups);
      WeightPassAt(net, groups[..n], rate, s);
      var cur := WeightPass(net, groups[..n], rate);
      RegisteredShape(net, cur);
      DescendAllAt(cur, groups[n], rate, s);
    }
  }

  /**
   * nn/neural_network.js:57-70: in one backpropagate, each synapse into a
   * neuron of the listed layers moves by rate * error * input, where the
   * error is the one the error phase has just computed (never an older one)
   * and the input is the source value the pass started with.
   */
  lemma BackpropGradientStep(net: Net, output: seq<nat>, hidden: seq<seq<nat>>, all: seq<seq<nat>>,
                             target: seq<real>, rate: real, s: nat)
    requires Registered(net) && Members(net, output) && Groups(net, hidden) && Groups(net, all)
    requires NoRepeats(Flatten(all)) && s < |net.synapses|
    ensures var x := net.synapses[s].dst;
            Backprop(net, output, hidden, all, target, rate).synapses[s]
            == if x in Flatten(all)
               then Stepped(net.synapses[s], ErrorPhase(net, output, hidden, target).neurons[x].error, rate,
                            net.neurons[net.synapses[s].src].value)
               else net.synapses[s]
  {
    var e := ErrorPhase(net, output, hidden, target);
    RegisteredShape(net, e);
    WeightPassAt(e, all, rate, s);
    ValuesAfterErrors(net, output, hidden, target);
    var src := net.synapses[s].src;
    assert e.neurons[src].value == net.neurons[src].value;
  }

  /** The error phase changes errors only: values, biases and wiring are untouched. */
  lemma ValuesAfterErrors(net: Net, output: seq<nat>, hidden: seq<seq<nat>>, target: seq<real>)
    requires IndexesOk(net) && Members(net, output) && Groups(net, hidden)
    ensures forall i :: 0 <= i < |net.neurons| ==>
              ErrorPhase(net, output, hidden, target).neurons[i].(error := net.neurons[i].error) == net.neurons[i]
  {
    ErrorPassOnlyErrors(net, output, target);
    HiddenPassOnlyErrors(ErrorPass(net, output, target), hidden);
  }

  lemma {:induction false} ErrorPassOnlyErrors(net: Net, ms: seq<nat>, target: seq<real>)
    requires IndexesOk(net) && Members(net, ms)
    ensures forall i :: 0 <= i < |net.neurons| ==>
              ErrorPass(net, ms, target).neurons[i].(error := net.neurons[i].error) == net.neurons[i]
    decreases |ms|
  {
    if ms != [] {
      ErrorPassOnlyErrors(net, ms[..|ms| - 1], target);
    }
  }

  lemma {:induction false} HiddenPassOnlyErrors(net: Net, hidden: seq<seq<nat>>)
    requires IndexesOk(net) && Groups(net, hidden)
    ensures forall i :: 0 <= i < |net.neurons| ==>
              HiddenPass(net, hidden).neurons[i].(error := net.neurons[i].error) == net.neurons[i]
    decreases |hidden|
  {
    if hidden != [] {
      HiddenPassOnlyErrors(net, hidden[1..]);
      ErrorPassOnlyErrors(HiddenPass(net, hidden[1..]), hidden[0], []);
    }
  }

  // ---------------------------------------------------------------------
  // toJSON (nn/layer.js:63-76)

  datatype LayerJson = LayerJson(size: nat, bias: Option<real>, activation: Option<string>,
                                 weights: seq<seq<real>>)

  /** A neuron's out-edge weights, in edge order. */
  function OutWeights(net: Net, x: nat): (r: seq<real>)
    requires IndexesOk(net) && x < |net.neurons|
    ensures |r| == |net.neurons[x].outs|
    ensures forall k :: 0 <= k < |r| ==> r[k] == net.synapses[net.neurons[x].outs[k]].weight
  {
    seq(|net.neurons[x].outs|, k requires 0 <= k < |net.neurons[x].outs| => net.synapses[net.neurons[x].outs[k]].weight)
  }

  /** The members that have at least one out-edge, in order. */
  function WithOutput(net: Net, ms: seq<nat>): (r: seq<nat>)
    requires Members(net, ms)
    ensures |r| <= |ms| && Members(net, r)
    decreases |ms|
  {
    if ms == [] then []
    else
      var p := WithOutput(net, ms[..|ms| - 1]);
      if HasOutput(net.neurons[ms[|ms| - 1]]) then p + [ms[|ms| - 1]] else p
  }

  /** One row per member with outputs, in member order. */
  function WeightRows(net: Net, ms: seq<nat>): (r: seq<seq<real>>)
    requires IndexesOk(net) && Members(net, ms)
    decreases |ms|
  {
    if ms == [] then []
    else
      var p := WeightRows(net, ms[..|ms| - 1]);
      var x := ms[|ms| - 1];
      if HasOutput(net.neurons[x]) then p + [OutWeights(net, x)] else p
  }

  /**
   * The rows are exactly the out-weights of the members with outputs, in
   * member order, so no row is empty and a member without outputs adds none.
   */
  lemma {:induction false} WeightRowsSpec(net: Net, ms: seq<nat>)
    requires IndexesOk(net) && Members(net, ms)
    ensures |WeightRows(net, ms)| == |WithOutput(net, ms)|
    ensures forall k :: 0 <= k < |WithOutput(net, ms)| ==>
              WeightRows(net, ms)[k] == OutWeights(net, WithOutput(net, ms)[k]) && WeightRows(net, ms)[k] != []
    ensures forall x :: x in WithOutput(net, ms) <==> x in ms && net.neurons[x].outs != []
    decreases |ms|
  {
    if ms != [] {
      var n := |ms| - 1;
      assert ms == ms[..n] + [ms[n]];
      WeightRowsSpec(net, ms[..n]);
    }
  }
}
