/**
 * NeuralNetworkDynamic (dynamic/neural_network_dynamic.js): builds the ring
 * topology of sensors and neurons, wires neurons to nearby candidates, and
 * advances the whole network one buffer-then-swap tick at a time.
 *
 * Positions are abstracted away: the distance and direction tests of the
 * candidate filter are a given predicate `isNear`, and Math.random is an
 * oracle `rand` read at a running draw counter.
 */
module DynamicNetwork {
  import opened Wrappers
  import opened DynamicGraph
  import A = DynamicActivation

  // config.js:5-31
  const INPUT_NEURONS: nat := 24
  const OUTPUT_NEURONS: nat := 12
  const NEURON_SHELLS: nat := 10
  const NEURON_SPACING: real := 1.0
  const NETWORK_RADIUS_OUTER: real := 30.0
  const NETWORK_RADIUS_INNER: real := 6.0
  const NEURON_CONNECTIONS_MIN: int := 2
  const NEURON_CONNECTIONS_MAX: int := -1
  const NEURON_CONNECTION_CHANCE: real := 0.25

  /** Math.PI as a double. */
  const PI: real := 3.141592653589793

  /** neural_network_dynamic.js:29-32 -- radius of shell s (0-based). */
  function ShellRadius(s: nat): (r: real)
    ensures s < NEURON_SHELLS ==> NETWORK_RADIUS_INNER < r < NETWORK_RADIUS_OUTER
  {
    NETWORK_RADIUS_INNER + (NETWORK_RADIUS_OUTER - NETWORK_RADIUS_INNER) / (NEURON_SHELLS as real + 1.0) * (s as real + 1.0)
  }

  /** neural_network_dynamic.js:124-125 -- number of positions on a ring: floor(circumference / spacing). */
  function RingSize(radius: real): (n: nat)
    requires radius >= 0.0
    ensures n as real <= radius * PI * 2.0 / NEURON_SPACING < n as real + 1.0
  {
    (radius * PI * 2.0 / NEURON_SPACING).Floor
  }

  /** Neurons created by the first k shells. */
  function ShellTotal(k: nat): nat
  {
    if k == 0 then 0 else ShellTotal(k - 1) + RingSize(ShellRadius(k - 1))
  }

  /** With the configured radii and spacing the ten shells hold 1126 neurons. */
  lemma ShellTotalValue()
    ensures ShellTotal(NEURON_SHELLS) == 1126
  {
    assert RingSize(ShellRadius(0)) == 51;
    assert RingSize(ShellRadius(1)) == 65;
    assert RingSize(ShellRadius(2)) == 78;
    assert RingSize(ShellRadius(3)) == 92;
    assert RingSize(ShellRadius(4)) == 106;
    assert RingSize(ShellRadius(5)) == 119;
    assert RingSize(ShellRadius(6)) == 133;
    assert RingSize(ShellRadius(7)) == 147;
    assert RingSize(ShellRadius(8)) == 161;
    assert RingSize(ShellRadius(9)) == 174;
  }

  // ---------------------------------------------------------------------
  // The filters of lines 57, 58 and 103

  function SensorsOf(children: seq<Child>): (r: seq<nat>)
    ensures |r| <= |children|
  {
    if children == [] then []
    else
      var rest := SensorsOf(children[..|children| - 1]);
      assert children == children[..|children| - 1] + [children[|children| - 1]];
      match children[|children| - 1]
      case SensorRef(i) => rest + [i]
      case _ => rest
  }

  function NeuronsOf(children: seq<Child>): (r: seq<nat>)
    ensures |r| <= |children|
  {
    if children == [] then []
    else
      var rest := NeuronsOf(children[..|children| - 1]);
      assert children == children[..|children| - 1] + [children[|children| - 1]];
      match children[|children| - 1]
      case NeuronRef(i) => rest + [i]
      case _ => rest
  }

  function ConnectionsOf(children: seq<Child>): (r: seq<nat>)
    ensures |r| <= |children|
  {
    if children == [] then []
    else
      var rest := ConnectionsOf(children[..|children| - 1]);
      assert children == children[..|children| - 1] + [children[|children| - 1]];
      match children[|children| - 1]
      case ConnRef(c) => rest + [c]
      case _ => rest
  }

  /** Each filter keeps exactly the children of its kind. */
  lemma {:induction false} FiltersMembership(children: seq<Child>)
    ensures forall i :: i in SensorsOf(children) <==> SensorRef(i) in children
    ensures forall i :: i in NeuronsOf(children) <==> NeuronRef(i) in children
    ensures forall c :: c in ConnectionsOf(children) <==> ConnRef(c) in children
    decreases |children|
  {
    if children != [] {
      var p := children[..|children| - 1];
      FiltersMembership(p);
      assert children == p + [children[|children| - 1]];
    }
  }

  /** Pushing one child extends exactly the filter of its kind. */
  lemma FiltersPush(children: seq<Child>, x: Child)
    ensures SensorsOf(children + [x]) == SensorsOf(children) + (if x.SensorRef? then [x.node] else [])
    ensures NeuronsOf(children + [x]) == NeuronsOf(children) + (if x.NeuronRef? then [x.node] else [])
    ensures ConnectionsOf(children + [x]) == ConnectionsOf(children) + (if x.ConnRef? then [x.conn] else [])
  {
    assert (children + [x])[..|children|] == children;
  }

  /** Pushing the references of a run of new connections leaves the node filters alone. */
  lemma {:induction false} FiltersPushConns(children: seq<Child>, lo: nat, n: nat)
    ensures SensorsOf(children + ConnRefs(lo, n)) == SensorsOf(children)
    ensures NeuronsOf(children + ConnRefs(lo, n)) == NeuronsOf(children)
  {
    var all := children + ConnRefs(lo, n);
    if n == 0 {
      assert all == children;
    } else {
      var prev := children + ConnRefs(lo, n - 1);
      FiltersPushConns(children, lo, n - 1);
      assert all == prev + [ConnRef(lo + n - 1)];
      FiltersPush(prev, ConnRef(lo + n - 1));
    }
  }

  /** ... and extends the connection filter by exactly those connections. */
  lemma {:induction false} ConnectionsPushConns(children: seq<Child>, lo: nat, n: nat)
    ensures ConnectionsOf(children + ConnRefs(lo, n)) == ConnectionsOf(children) + Span(lo, n)
  {
    var all := children + ConnRefs(lo, n);
    if n == 0 {
      assert all == children;
      assert ConnectionsOf(children) + Span(lo, n) == ConnectionsOf(children);
    } else {
      var prev := children + ConnRefs(lo, n - 1);
      ConnectionsPushConns(children, lo, n - 1);
      assert all == prev + [ConnRef(lo + n - 1)];
      FiltersPush(prev, ConnRef(lo + n - 1));
      assert Span(lo, n) == Span(lo, n - 1) + [lo + n - 1];
    }
  }

  /**
   * `children` holds s sensors and n neurons, and its connection filter is
   * the k connections in creation order.
   */
  ghost predicate Counted(children: seq<Child>, s: nat, n: nat, k: nat)
  {
    |SensorsOf(children)| == s && |NeuronsOf(children)| == n && ConnectionsOf(children) == Span(0, k)
  }

  /** Pushing one reference adds one to the count of its kind. */
  lemma CountedPush(children: seq<Child>, s: nat, n: nat, k: nat, x: Child)
    requires Counted(children, s, n, k)
    requires x.ConnRef? ==> x.conn == k
    ensures Counted(children + [x], s + (if x.SensorRef? then 1 else 0),
                    n + (if x.NeuronRef? then 1 else 0), k + (if x.ConnRef? then 1 else 0))
  {
    FiltersPush(children, x);
  }

  /** In a valid state the sensor and neuron filters name nodes of their kind. */
  lemma FiltersNameKinds(g: Graph, children: seq<Child>, neurons: seq<nat>)
    requires ValidState(g, children, neurons)
    ensures forall i :: i in SensorsOf(children) ==> i < |g.nodes| && g.nodes[i].Sensor?
    ensures forall i :: i in NeuronsOf(children) ==> i < |g.nodes| && g.nodes[i].Neuron?
  {
    FiltersMembership(children);
    forall i | i in SensorsOf(children)
      ensures i < |g.nodes| && g.nodes[i].Sensor?
    {
      var k :| 0 <= k < |children| && children[k] == SensorRef(i);
      assert ChildOk(g, children[k]);
    }
    forall i | i in NeuronsOf(children)
      ensures i < |g.nodes| && g.nodes[i].Neuron?
    {
      var k :| 0 <= k < |children| && children[k] == NeuronRef(i);
      assert ChildOk(g, children[k]);
    }
  }

  lemma {:induction false} NeuronsOfNoRepeats(children: seq<Child>)
    requires NoRepeats(children)
    ensures NoRepeats(NeuronsOf(children))
    decreases |children|
  {
    if children != [] {
      var p := children[..|children| - 1];
      assert NoRepeats(p);
      NeuronsOfNoRepeats(p);
      FiltersMembership(p);
      var x := children[|children| - 1];
      assert x !in p;
    }
  }

  // ---------------------------------------------------------------------
  // The candidate filter, lines 67-77

  /**
   * `neuron.isConnected(n)`: no file of the program defines it; it is read
   * as holding when an edge already joins the two neurons in either
   * direction.
   */
  predicate IsConnected(g: Graph, v: nat, n: nat)
    requires WellFormed(g) && v < |g.nodes|
  {
    g.nodes[v].Neuron? &&
    ((exists k :: 0 <= k < |g.nodes[v].ins| && g.conns[g.nodes[v].ins[k]].src == n) ||
     (exists k :: 0 <= k < |g.nodes[v].outs| && g.conns[g.nodes[v].outs[k]].dst == n))
  }

  /**
   * The siblings of neuron v, in list order: every other neuron that passes
   * the geometric test and is not yet connected to v.
   */
  function Candidates(g: Graph, neurons: seq<nat>, v: nat, isNear: (nat, nat) -> bool): (r: seq<nat>)
    requires WellFormed(g) && v < |g.nodes|
    ensures forall n :: n in r <==> n in neurons && n != v && isNear(v, n) && !IsConnected(g, v, n)
    ensures NoRepeats(neurons) ==> NoRepeats(r)
    ensures |r| <= |neurons|
  {
    if neurons == [] then []
    else
      var p := neurons[..|neurons| - 1];
      var n := neurons[|neurons| - 1];
      assert neurons == p + [n];
      var rest := Candidates(g, p, v, isNear);
      if n == v || !isNear(v, n) || IsConnected(g, v, n) then rest else rest + [n]
  }

  /**
   * The candidate filter as written: its first test compares `n.id` with
   * `neuron.id`, a property no Neuron has, so both sides are undefined and
   * equal for every pair.
   */
  function CandidatesAsWritten(g: Graph, neurons: seq<nat>, v: nat, isNear: (nat, nat) -> bool): seq<nat>
    requires WellFormed(g) && v < |g.nodes|
  {
    if neurons == [] then []
    else
      var p := neurons[..|neurons| - 1];
      var n := neurons[|neurons| - 1];
      var rest := CandidatesAsWritten(g, p, v, isNear);
      if UndefinedId(n) == UndefinedId(v) || !isNear(v, n) || IsConnected(g, v, n) then rest else rest + [n]
  }

  /** The `id` property read at line 69, undefined on every neuron. */
  function UndefinedId(n: nat): Option<nat> { None }

  /** As written, no neuron ever has a candidate, so the connect loop adds no edge. */
  lemma {:induction false} CandidatesAsWrittenEmpty(g: Graph, neurons: seq<nat>, v: nat, isNear: (nat, nat) -> bool)
    requires WellFormed(g) && v < |g.nodes|
    ensures CandidatesAsWritten(g, neurons, v, isNear) == []
    decreases |neurons|
  {
    if neurons != [] {
      CandidatesAsWrittenEmpty(g, neurons[..|neurons| - 1], v, isNear);
    }
  }

  // ---------------------------------------------------------------------

  /** Removing position i of a list without repeats removes exactly that element. */
  lemma RemoveAt(s: seq<nat>, i: nat)
    requires NoRepeats(s) && i < |s|
    ensures NoRepeats(s[..i] + s[i + 1..])
    ensures forall x :: x in s[..i] + s[i + 1..] <==> x in s && x != s[i]
    ensures (s[..i] + s[i + 1..])[..i] == s[..i]
  {
    var t := s[..i] + s[i + 1..];
    forall x | x in s && x != s[i]
      ensures x in t
    {
      var k :| 0 <= k < |s| && s[k] == x;
      if k < i { assert t[k] == x; } else { assert t[k - 1] == x; }
    }
    forall a, b | 0 <= a < b < |t|
      ensures t[a] != t[b]
    {
      var a' := if a < i then a else a + 1;
      var b' := if b < i then b else b + 1;
      assert t[a] == s[a'] && t[b] == s[b'];
    }
  }

  ghost predicate ChildOk(g: Graph, ch: Child)
  {
    match ch
    case SensorRef(i) => i < |g.nodes| && g.nodes[i].Sensor?
    case NeuronRef(i) => i < |g.nodes| && g.nodes[i].Neuron?
    case ConnRef(c) => c < |g.conns|
  }

  /**
   * hasSensor agrees with the endpoints, such edges are pinned, and the
   * edge is listed in the out-list of its source and the in-list of its
   * destination wherever those are neurons.
   */
  ghost predicate ConnOk(g: Graph, c: nat)
    requires EndpointsOk(g) && c < |g.conns|
  {
    && (g.conns[c].hasSensor <==> g.nodes[g.conns[c].src].Sensor? || g.nodes[g.conns[c].dst].Sensor?)
    && Pinned(g.conns[c])
    && (g.nodes[g.conns[c].src].Neuron? ==> c in g.nodes[g.conns[c].src].outs)
    && (g.nodes[g.conns[c].dst].Neuron? ==> c in g.nodes[g.conns[c].dst].ins)
  }

  /** The invariant of the network's arena. */
  ghost predicate ValidState(g: Graph, children: seq<Child>, neurons: seq<nat>)
  {
    && WellFormed(g)
    && (forall c :: 0 <= c < |g.conns| ==> ConnOk(g, c))
    && (forall k :: 0 <= k < |children| ==> ChildOk(g, children[k]))
    && NoRepeats(children)
    && (forall k :: 0 <= k < |neurons| ==> neurons[k] < |g.nodes| && g.nodes[neurons[k]].Neuron?)
    && NoRepeats(neurons)
  }

  /**
   * A tick keeps the arena invariant: node kinds, edge lists and endpoints
   * are untouched, and every edge touching a sensor stays pinned at 1.
   */
  lemma TickKeepsValid(sigmoid: real -> real, g: Graph, children: seq<Child>, neurons: seq<nat>)
    requires ValidState(g, children, neurons)
    ensures ValidState(TickResult(sigmoid, g, children), children, neurons)
  {
    var t := TickResult(sigmoid, g, children);
    forall i | 0 <= i < |g.nodes|
      ensures t.nodes[i].Sensor? == g.nodes[i].Sensor?
      ensures t.nodes[i].Neuron? ==> t.nodes[i].ins == g.nodes[i].ins && t.nodes[i].outs == g.nodes[i].outs
    {
      TickAt(sigmoid, g, children, i, 0);
    }
    forall c | 0 <= c < |g.conns|
      ensures t.conns[c].src == g.conns[c].src && t.conns[c].dst == g.conns[c].dst
      ensures t.conns[c].hasSensor == g.conns[c].hasSensor && Pinned(t.conns[c])
    {
      assert ConnOk(g, c);
      TickAt(sigmoid, g, children, 0, c);
      if ConnRef(c) in children {
        TickConn(sigmoid, g, children, c);
      }
    }
    assert WellFormed(t) by {
      forall i | 0 <= i < |t.nodes| && t.nodes[i].Neuron?
        ensures RefsOk(t, t.nodes[i].ins) && RefsOk(t, t.nodes[i].outs)
      {
        assert RefsOk(g, g.nodes[i].ins) && RefsOk(g, g.nodes[i].outs);
      }
    }
    forall c | 0 <= c < |t.conns|
      ensures ConnOk(t, c)
    {
      assert ConnOk(g, c);
    }
    forall k | 0 <= k < |children|
      ensures ChildOk(t, children[k])
    {
      assert ChildOk(g, children[k]);
    }
  }

  /** Appending a fresh node with no edges keeps the invariant. */
  lemma KeepsValidOnNewNode(g: Graph, h: Graph)
    requires WellFormed(g) && forall c :: 0 <= c < |g.conns| ==> ConnOk(g, c)
    requires h.conns == g.conns && |h.nodes| == |g.nodes| + 1 && h.nodes[..|g.nodes|] == g.nodes
    requires h.nodes[|g.nodes|].Neuron? ==> h.nodes[|g.nodes|].ins == [] && h.nodes[|g.nodes|].outs == []
    ensures WellFormed(h) && forall c :: 0 <= c < |h.conns| ==> ConnOk(h, c)
    ensures forall i :: 0 <= i < |g.nodes| ==> h.nodes[i] == g.nodes[i]
  {
    forall i | 0 <= i < |g.nodes|
      ensures h.nodes[i] == g.nodes[i]
    {
      assert h.nodes[..|g.nodes|][i] == h.nodes[i];
    }
    forall i | 0 <= i < |h.nodes| && h.nodes[i].Neuron?
      ensures RefsOk(h, h.nodes[i].ins) && RefsOk(h, h.nodes[i].outs)
    {
      if i < |g.nodes| {
        assert RefsOk(g, g.nodes[i].ins) && RefsOk(g, g.nodes[i].outs);
      }
    }
    forall c | 0 <= c < |h.conns|
      ensures ConnOk(h, c)
    {
      assert ConnOk(g, c);
    }
  }

  lemma NoRepeatsConcat(a: seq<nat>, b: seq<nat>)
    requires NoRepeats(a) && NoRepeats(b)
    requires forall x :: x in a ==> x !in b
    ensures NoRepeats(a + b)
  {
    forall i, j | 0 <= i < j < |a + b|
      ensures (a + b)[i] != (a + b)[j]
    {
      if i < |a| && j >= |a| {
        assert (a + b)[i] in a && (a + b)[j] in b;
      }
    }
  }

  /**
   * `rest` and `picked` split `siblings` between them: each sibling is in
   * exactly one of them and neither repeats an entry.
   */
  ghost predicate Split(siblings: seq<nat>, rest: seq<nat>, picked: seq<nat>) {
    NoRepeats(rest) && NoRepeats(picked)
    && (forall x :: x in siblings <==> x in rest || x in picked)
    && (forall x :: x in picked ==> x !in rest)
  }

  /** Moving the entry at i of `rest` to the end of `picked` keeps the split. */
  lemma SplitStep(siblings: seq<nat>, rest: seq<nat>, picked: seq<nat>, i: nat)
    requires Split(siblings, rest, picked) && i < |rest|
    ensures Split(siblings, rest[..i] + rest[i + 1..], picked + [rest[i]])
  {
    RemoveAt(rest, i);
    var p := picked + [rest[i]];
    forall a, b | 0 <= a < b < |p|
      ensures p[a] != p[b]
    {
      if b == |picked| {
        assert p[a] in picked;
      }
    }
  }

  /** Every entry of s is below n. */
  ghost predicate Below(s: seq<nat>, n: nat)
  {
    forall k :: 0 <= k < |s| ==> s[k] < n
  }

  /**
   * (nodes, conns, children) is what lines 91-92 make of (nodes0, conns0,
   * children0) when v, a neuron, is linked to each of `picked` in turn (all
   * distinct neurons other than v) with the weights drawn: the j-th new
   * connection is the one `new Connection(v, picked[j])` builds with the
   * j-th weight (connection.js:11-22); by connection.js:24-25 v's out-list
   * gains the new connections in order and each picked neuron gains its one
   * in-edge, with the re-tag of neuron.js:42-49; every other node is as it
   * was, and each new connection is pushed to the children.  A node's kind
   * never changes, so `NewConn` may read the kinds from nodes0.
   */
  ghost predicate Extended(v: nat, nodes0: seq<Node>, conns0: seq<Conn>, children0: seq<Child>,
                           nodes: seq<Node>, conns: seq<Conn>, children: seq<Child>,
                           picked: seq<nat>, weights: seq<real>)
  {
    v < |nodes0| && nodes0[v].Neuron? && |weights| == |picked|
    && Below(picked, |nodes0|) && NoRepeats(picked) && v !in picked
    && (forall j :: 0 <= j < |picked| ==> nodes0[picked[j]].Neuron?)
    && |nodes| == |nodes0| && |conns| == |conns0| + |picked| && conns[..|conns0|] == conns0
    && (forall j :: 0 <= j < |picked| ==> conns[|conns0| + j] == NewConn(nodes0, v, picked[j], weights[j]))
    && nodes[v] == nodes0[v].(outs := nodes0[v].outs + Span(|conns0|, |picked|))
    && (forall j :: 0 <= j < |picked| ==> nodes[picked[j]] == WithIn(nodes0[picked[j]], |conns0| + j))
    && (forall i :: 0 <= i < |nodes0| && i != v && i !in picked ==> nodes[i] == nodes0[i])
    && children == children0 + ConnRefs(|conns0|, |picked|)
  }

  /** Nothing picked: nothing changed. */
  lemma ExtendedStart(v: nat, n0: seq<Node>, c0: seq<Conn>, ch0: seq<Child>)
    requires v < |n0| && n0[v].Neuron?
    ensures Extended(v, n0, c0, ch0, n0, c0, ch0, [], [])
  {
    assert n0[v].(outs := n0[v].outs + Span(|c0|, 0)) == n0[v];
    assert ch0 + ConnRefs(|c0|, 0) == ch0;
  }

  /** target may be picked next: a neuron other than v not picked yet. */
  ghost predicate FreshPick(v: nat, n0: seq<Node>, picked: seq<nat>, target: nat)
  {
    target < |n0| && n0[target].Neuron? && target != v && target !in picked
  }

  /** One more pick of a fresh neuron extends by one registered connection from v to it. */
  lemma ExtendedStep(v: nat, n0: seq<Node>, c0: seq<Conn>, ch0: seq<Child>,
                     n1: seq<Node>, c1: seq<Conn>, ch1: seq<Child>, picked: seq<nat>, weights: seq<real>,
                     target: nat, draw: real)
    requires Extended(v, n0, c0, ch0, n1, c1, ch1, picked, weights)
    requires FreshPick(v, n0, picked, target)
    ensures target < |n1| && NewConn(n1, v, target, draw) == NewConn(n0, v, target, draw)
    ensures Extended(v, n0, c0, ch0, Registered(n1, |c1|, v, target), c1 + [NewConn(n1, v, target, draw)],
                     ch1 + [ConnRef(|c1|)], picked + [target], weights + [draw])
  {
    StepConns(v, n0, c0, ch0, n1, c1, ch1, picked, weights, target, draw);
    StepNodes(v, n0, c0, ch0, n1, c1, ch1, picked, weights, target);
    StepOthers(v, n0, c0, ch0, n1, c1, ch1, picked, weights, target);
    StepSource(v, n0, c0, ch0, n1, c1, ch1, picked, weights, target);
    ConnRefsAppend(|c0|, |picked|, 1);
    ExtendedIntro(v, n0, c0, ch0, Registered(n1, |c1|, v, target), c1 + [NewConn(n1, v, target, draw)],
                  ch1 + [ConnRef(|c1|)], picked + [target], weights + [draw]);
  }

  /** The new connection is the one made from the original kinds; the earlier ones stay. */
  lemma StepConns(v: nat, n0: seq<Node>, c0: seq<Conn>, ch0: seq<Child>,
                  n1: seq<Node>, c1: seq<Conn>, ch1: seq<Child>, picked: seq<nat>, weights: seq<real>,
                  target: nat, draw: real)
    requires Extended(v, n0, c0, ch0, n1, c1, ch1, picked, weights)
    requires FreshPick(v, n0, picked, target)
    ensures target < |n1| && NewConn(n1, v, target, draw) == NewConn(n0, v, target, draw)
    ensures Below(picked + [target], |n0|) && NoRepeats(picked + [target])
    ensures |weights + [draw]| == |picked + [target]|
    ensures |c1 + [NewConn(n1, v, target, draw)]| == |c0| + |picked + [target]|
    ensures (c1 + [NewConn(n1, v, target, draw)])[..|c0|] == c0
    ensures forall j :: 0 <= j < |picked + [target]| ==>
              (c1 + [NewConn(n1, v, target, draw)])[|c0| + j]
              == NewConn(n0, v, (picked + [target])[j], (weights + [draw])[j])
  {
    assert n1[target] == n0[target];
    NoRepeatsConcat(picked, [target]);
    var c2 := c1 + [NewConn(n1, v, target, draw)];
    var p, w := picked + [target], weights + [draw];
    forall j | 0 <= j < |p|
      ensures p[j] < |n0| && c2[|c0| + j] == NewConn(n0, v, p[j], w[j])
    {
      if j < |picked| {
        assert p[j] == picked[j] && w[j] == weights[j];
      }
    }
    assert c2[..|c0|] == c1[..|c0|];
  }

  /** Each picked neuron, the new one included, holds its one in-edge. */
  lemma StepNodes(v: nat, n0: seq<Node>, c0: seq<Conn>, ch0: seq<Child>,
                  n1: seq<Node>, c1: seq<Conn>, ch1: seq<Child>, picked: seq<nat>, weights: seq<real>,
                  target: nat)
    requires Extended(v, n0, c0, ch0, n1, c1, ch1, picked, weights)
    requires FreshPick(v, n0, picked, target)
    ensures |Registered(n1, |c1|, v, target)| == |n0| && v !in picked + [target]
    ensures forall j :: 0 <= j < |picked + [target]| ==> n0[(picked + [target])[j]].Neuron?
    ensures forall j :: 0 <= j < |picked + [target]| ==>
              Registered(n1, |c1|, v, target)[(picked + [target])[j]]
              == WithIn(n0[(picked + [target])[j]], |c0| + j)
  {
    var n2 := Registered(n1, |c1|, v, target);
    var p := picked + [target];
    assert n1[target] == n0[target];
    forall j | 0 <= j < |p|
      ensures n0[p[j]].Neuron? && n2[p[j]] == WithIn(n0[p[j]], |c0| + j)
    {
      if j < |picked| {
        var t := picked[j];
        assert p[j] == t;
        assert t in picked;
        assert t != v && t != target && t < |n0|;
        assert n2[t] == n1[t];
      } else {
        assert p[j] == target;
        assert n2[target] == WithIn(n1[target], |c1|);
      }
    }
  }

  /** Nodes neither v nor picked stay as they were. */
  lemma StepOthers(v: nat, n0: seq<Node>, c0: seq<Conn>, ch0: seq<Child>,
                   n1: seq<Node>, c1: seq<Conn>, ch1: seq<Child>, picked: seq<nat>, weights: seq<real>,
                   target: nat)
    requires Extended(v, n0, c0, ch0, n1, c1, ch1, picked, weights)
    requires FreshPick(v, n0, picked, target)
    ensures forall i :: 0 <= i < |n0| && i != v && i !in picked + [target] ==>
              Registered(n1, |c1|, v, target)[i] == n0[i]
  {
    var n2 := Registered(n1, |c1|, v, target);
    forall i | 0 <= i < |n0| && i != v && i !in picked + [target]
      ensures n2[i] == n0[i]
    {
      assert i !in picked && i != target;
    }
  }

  /** v's out-list gains the new edge. */
  lemma StepSource(v: nat, n0: seq<Node>, c0: seq<Conn>, ch0: seq<Child>,
                   n1: seq<Node>, c1: seq<Conn>, ch1: seq<Child>, picked: seq<nat>, weights: seq<real>,
                   target: nat)
    requires Extended(v, n0, c0, ch0, n1, c1, ch1, picked, weights)
    requires FreshPick(v, n0, picked, target)
    ensures Registered(n1, |c1|, v, target)[v] == n0[v].(outs := n0[v].outs + Span(|c0|, |picked + [target]|))
  {
    var m := |picked|;
    var outs0 := n0[v].outs;
    assert |c1| == |c0| + m && |picked + [target]| == m + 1;
    assert n1[v] == n0[v].(outs := outs0 + Span(|c0|, m));
    SpanAppend(|c0|, m, 1);
    assert outs0 + Span(|c0|, m) + [|c1|] == outs0 + Span(|c0|, m + 1);
    assert Registered(n1, |c1|, v, target)[v] == WithOut(n1[v], |c1|);
  }

  /** The clauses of `Extended`, one by one. */
  lemma ExtendedIntro(v: nat, nodes0: seq<Node>, conns0: seq<Conn>, children0: seq<Child>,
                      nodes: seq<Node>, conns: seq<Conn>, children: seq<Child>,
                      picked: seq<nat>, weights: seq<real>)
    requires v < |nodes0| && nodes0[v].Neuron? && |weights| == |picked|
    requires Below(picked, |nodes0|) && NoRepeats(picked) && v !in picked
    requires forall j :: 0 <= j < |picked| ==> nodes0[picked[j]].Neuron?
    requires |nodes| == |nodes0| && |conns| == |conns0| + |picked| && conns[..|conns0|] == conns0
    requires forall j :: 0 <= j < |picked| ==> conns[|conns0| + j] == NewConn(nodes0, v, picked[j], weights[j])
    requires nodes[v] == nodes0[v].(outs := nodes0[v].outs + Span(|conns0|, |picked|))
    requires forall j :: 0 <= j < |picked| ==> nodes[picked[j]] == WithIn(nodes0[picked[j]], |conns0| + j)
    requires forall i :: 0 <= i < |nodes0| && i != v && i !in picked ==> nodes[i] == nodes0[i]
    requires children == children0 + ConnRefs(|conns0|, |picked|)
    ensures Extended(v, nodes0, conns0, children0, nodes, conns, children, picked, weights)
  {
  }

  /** Pushing the references of connections a, ..., a + b - 1 after the first a. */
  lemma FiltersAfterConns(children: seq<Child>, a: nat, b: nat, after: seq<Child>, total: nat)
    requires ConnectionsOf(children) == Span(0, a)
    requires after == children + ConnRefs(a, b) && total == a + b
    ensures SensorsOf(after) == SensorsOf(children)
    ensures NeuronsOf(after) == NeuronsOf(children)
    ensures ConnectionsOf(after) == Span(0, total)
  {
    FiltersPushConns(children, a, b);
    ConnectionsPushConns(children, a, b);
    SpanAppend(0, a, b);
  }

  /**
   * weights[j] is Math.random read at draws[j]; the reads lie in [d, e) and
   * come in increasing order, so no two edges share a draw.
   */
  ghost predicate DrawnFrom(rand: nat -> real, d: nat, e: nat, draws: seq<nat>, weights: seq<real>)
  {
    d <= e && |draws| == |weights|
    && (forall j :: 0 <= j < |draws| ==> d <= draws[j] < e && weights[j] == rand(draws[j]))
    && (forall i, j :: 0 <= i < j < |draws| ==> draws[i] < draws[j])
  }

  lemma DrawnPush(rand: nat -> real, d: nat, e: nat, draws: seq<nat>, weights: seq<real>)
    requires DrawnFrom(rand, d, e, draws, weights)
    ensures DrawnFrom(rand, d, e + 1, draws + [e], weights + [rand(e)])
  {
    var a, w := draws + [e], weights + [rand(e)];
    forall j | 0 <= j < |a|
      ensures d <= a[j] < e + 1 && w[j] == rand(a[j])
    {
      if j < |draws| {
        assert a[j] == draws[j] && w[j] == weights[j];
      }
    }
  }

  lemma DrawnConcat(rand: nat -> real, d: nat, m: nat, e: nat, a: seq<nat>, wa: seq<real>, b: seq<nat>, wb: seq<real>)
    requires DrawnFrom(rand, d, m, a, wa) && DrawnFrom(rand, m, e, b, wb)
    ensures DrawnFrom(rand, d, e, a + b, wa + wb)
  {
    var x, w := a + b, wa + wb;
    forall j | 0 <= j < |x|
      ensures d <= x[j] < e && w[j] == rand(x[j])
    {
      if j < |a| {
        assert x[j] == a[j] && w[j] == wa[j];
      } else {
        assert x[j] == b[j - |a|] && w[j] == wb[j - |a|];
      }
    }
    forall i, j | 0 <= i < j < |x|
      ensures x[i] < x[j]
    {
      if j < |a| {
        assert x[i] == a[i] && x[j] == a[j];
      } else if i >= |a| {
        assert x[i] == b[i - |a|] && x[j] == b[j - |a|];
      } else {
        assert x[i] == a[i] && x[j] == b[j - |a|];
      }
    }
  }

  /**
   * A connection the connect loop makes: it joins two distinct neurons of
   * the list that pass the geometric test, and is fresh from
   * `new Connection` with a drawn weight.
   */
  ghost predicate NeuronEdge(e: Conn, neurons: seq<nat>, isNear: (nat, nat) -> bool)
  {
    e.src in neurons && e.dst in neurons && e.src != e.dst && isNear(e.src, e.dst)
    && !e.hasSensor && e.weightBuffer == e.weight && !e.changed
  }

  /** Linking v to candidates of v makes only such connections. */
  lemma NewEdges(g: Graph, neurons: seq<nat>, v: nat, isNear: (nat, nat) -> bool,
                 targets: seq<nat>, weights: seq<real>, rest: seq<nat>,
                 nodes: seq<Node>, conns: seq<Conn>, ch0: seq<Child>, children: seq<Child>)
    requires WellFormed(g) && v < |g.nodes| && g.nodes[v].Neuron? && v in neurons
    requires Split(Candidates(g, neurons, v, isNear), rest, targets)
    requires Extended(v, g.nodes, g.conns, ch0, nodes, conns, children, targets, weights)
    ensures forall c :: |g.conns| <= c < |conns| ==> NeuronEdge(conns[c], neurons, isNear)
  {
    forall c | |g.conns| <= c < |conns|
      ensures NeuronEdge(conns[c], neurons, isNear)
    {
      var j := c - |g.conns|;
      assert targets[j] in targets;
      assert conns[c] == NewConn(g.nodes, v, targets[j], weights[j]);
    }
  }

  lemma Regroup<T>(x: seq<T>, y: seq<T>, z: seq<T>)
    ensures x + y + z == x + (y + z)
  {
  }

  /** A split of the leftovers of a split is a split of the whole. */
  lemma SplitTrans(all: seq<nat>, chosen: seq<nat>, rest: seq<nat>, picked: seq<nat>)
    requires Split(all, rest, chosen)
    ensures forall rest' :: Split(rest, rest', picked) ==> Split(all, rest', chosen + picked)
  {
    forall rest' | Split(rest, rest', picked)
      ensures Split(all, rest', chosen + picked)
    {
      NoRepeatsConcat(chosen, picked);
    }
  }

  /** Indices lo, lo + 1, ..., lo + n - 1. */
  function Span(lo: nat, n: nat): (r: seq<nat>)
    ensures |r| == n && forall k :: 0 <= k < n ==> r[k] == lo + k
  {
    if n == 0 then [] else Span(lo, n - 1) + [lo + n - 1]
  }

  /** The children entries of the connections lo, ..., lo + n - 1, in order. */
  function ConnRefs(lo: nat, n: nat): (r: seq<Child>)
    ensures |r| == n && forall k :: 0 <= k < n ==> r[k] == ConnRef(lo + k)
  {
    if n == 0 then [] else ConnRefs(lo, n - 1) + [ConnRef(lo + n - 1)]
  }

  lemma ConnRefsAppend(lo: nat, a: nat, b: nat)
    ensures ConnRefs(lo, a) + ConnRefs(lo + a, b) == ConnRefs(lo, a + b)
  {
    assert (ConnRefs(lo, a) + ConnRefs(lo + a, b)) == ConnRefs(lo, a + b);
  }

  lemma SpanAppend(lo: nat, a: nat, b: nat)
    ensures Span(lo, a) + Span(lo + a, b) == Span(lo, a + b)
  {
    assert Span(lo, a) + Span(lo + a, b) == Span(lo, a + b);
  }

  /** The graph after registering a new connection from src to dst. */
  function WithConn(g: Graph, src: nat, dst: nat, draw: real): (h: Graph)
    requires src < |g.nodes| && dst < |g.nodes|
    ensures |h.nodes| == |g.nodes| && h.conns == g.conns + [NewConn(g.nodes, src, dst, draw)]
  {
    Graph(Registered(g.nodes, |g.conns|, src, dst), g.conns + [NewConn(g.nodes, src, dst, draw)])
  }

  lemma WithConnWellFormed(g: Graph, src: nat, dst: nat, draw: real)
    requires WellFormed(g) && src < |g.nodes| && dst < |g.nodes|
    ensures WellFormed(WithConn(g, src, dst, draw))
  {
    var h := WithConn(g, src, dst, draw);
    forall i | 0 <= i < |h.nodes| && h.nodes[i].Neuron?
      ensures RefsOk(h, h.nodes[i].ins) && RefsOk(h, h.nodes[i].outs)
    {
      assert RefsOk(g, g.nodes[i].ins) && RefsOk(g, g.nodes[i].outs);
    }
  }

  lemma WithConnConnsOk(g: Graph, src: nat, dst: nat, draw: real)
    requires WellFormed(g) && src < |g.nodes| && dst < |g.nodes|
    requires forall c :: 0 <= c < |g.conns| ==> ConnOk(g, c)
    ensures WellFormed(WithConn(g, src, dst, draw))
    ensures forall c :: 0 <= c < |g.conns| + 1 ==> ConnOk(WithConn(g, src, dst, draw), c)
  {
    var h := WithConn(g, src, dst, draw);
    WithConnWellFormed(g, src, dst, draw);
    forall k | 0 <= k < |h.conns|
      ensures ConnOk(h, k)
    {
      if k < |g.conns| {
        assert ConnOk(g, k);
      }
    }
  }

  /** Registering a new connection and pushing its reference keeps the arena invariant. */
  lemma KeepsValidOnNewConn(g: Graph, children: seq<Child>, neurons: seq<nat>, src: nat, dst: nat, draw: real)
    requires ValidState(g, children, neurons) && src < |g.nodes| && dst < |g.nodes|
    ensures ValidState(WithConn(g, src, dst, draw), children + [ConnRef(|g.conns|)], neurons)
  {
    var h := WithConn(g, src, dst, draw);
    FreshRef(g, children, ConnRef(|g.conns|));
    WithConnConnsOk(g, src, dst, draw);
    forall k | 0 <= k < |children|
      ensures ChildOk(h, children[k])
    {
      assert ChildOk(g, children[k]);
    }
  }

  lemma FreshRef(g: Graph, children: seq<Child>, x: Child)
    requires forall k :: 0 <= k < |children| ==> ChildOk(g, children[k])
    requires NoRepeats(children)
    requires x == SensorRef(|g.nodes|) || x == NeuronRef(|g.nodes|) || x == ConnRef(|g.conns|)
    ensures x !in children && NoRepeats(children + [x])
  {
    forall k | 0 <= k < |children|
      ensures children[k] != x
    {
      assert ChildOk(g, children[k]);
    }
  }

  class Network {
    var nodes: seq<Node>
    var conns: seq<Conn>
    var children: seq<Child>
    var sensors: seq<nat>
    var neurons: seq<nat>
    var connections: seq<nat>

    function G(): Graph
      reads this
    {
      Graph(nodes, conns)
    }

    ghost predicate Valid()
      reads this
    {
      ValidState(G(), children, neurons)
    }

    /**
     * `new Sensor({})` (value 0) and its push onto `children`.  In the input
     * and output loops the source pushes sensor, neuron and connection
     * together once all three exist; pushing each as it is created gives the
     * same list.
     */
    method AddSensor() returns (i: nat)
      requires Valid()
      modifies this`nodes, this`children
      ensures Valid()
      ensures i == old(|nodes|) && nodes == old(nodes) + [NewSensor(None)]
      ensures children == old(children) + [SensorRef(i)]
    {
      i := |nodes|;
      FreshRef(G(), children, SensorRef(i));
      nodes := nodes + [NewSensor(None)];
      KeepsValidOnNewNode(old(G()), G());
      forall k | 0 <= k < |children|
        ensures ChildOk(G(), children[k])
      {
        assert ChildOk(old(G()), children[k]);
      }
      ghost var g := G();
      children := children + [SensorRef(i)];
      assert G() == g;
    }

    /** `new Neuron({})` with the defaults of neuron.js:12-24, and its push. */
    method AddNeuron() returns (i: nat)
      requires Valid()
      modifies this`nodes, this`children
      ensures Valid()
      ensures i == old(|nodes|) && nodes == old(nodes) + [NewNeuron(None, None)]
      ensures children == old(children) + [NeuronRef(i)]
    {
      i := |nodes|;
      FreshRef(G(), children, NeuronRef(i));
      nodes := nodes + [NewNeuron(None, None)];
      KeepsValidOnNewNode(old(G()), G());
      forall k | 0 <= k < |children|
        ensures ChildOk(G(), children[k])
      {
        assert ChildOk(old(G()), children[k]);
      }
      ghost var g := G();
      children := children + [NeuronRef(i)];
      assert G() == g;
    }

    /**
     * `new Connection(src, dst)` (connection.js:11-25) and its push.  A
     * weight is drawn only when neither endpoint is a sensor, so the draw
     * counter advances only then.
     */
    method NewConnection(src: nat, dst: nat, rand: nat -> real, d: nat) returns (c: nat, d': nat)
      requires Valid() && src < |nodes| && dst < |nodes|
      modifies this`nodes, this`conns, this`children
      ensures Valid()
      ensures c == old(|conns|)
      ensures conns == old(conns) + [NewConn(old(nodes), src, dst, rand(d))]
      ensures nodes == Registered(old(nodes), c, src, dst)
      ensures children == old(children) + [ConnRef(c)]
      ensures d' == if conns[c].hasSensor then d else d + 1
    {
      c := |conns|;
      var e := NewConn(nodes, src, dst, rand(d));
      d' := if e.hasSensor then d else d + 1;
      KeepsValidOnNewConn(G(), children, neurons, src, dst, rand(d));
      conns := conns + [e];
      nodes := Registered(nodes, c, src, dst);
      children := children + [ConnRef(c)];
    }

    // -------------------------------------------------------------------
    // Construction, lines 10-103

    /**
     * The children so far hold s sensors and n neurons, and the connection
     * filter lists every connection in creation order.
     */
    ghost predicate Census(s: nat, n: nat)
      reads this
    {
      Valid() && Counted(children, s, n, |conns|)
    }

    /**
     * Builds the whole network (lines 10-103).  The edges between neurons
     * come from the candidate filter as its comparison was evidently
     * meant; the per-neuron connect loop runs at most `fuel` scans.
     */
    constructor (isNear: (nat, nat) -> bool, rand: nat -> real, fuel: nat)
      ensures Valid()
      ensures sensors == SensorsOf(children) && |sensors| == INPUT_NEURONS + OUTPUT_NEURONS
      ensures forall i :: i in sensors ==> i < |nodes| && nodes[i].Sensor?
      ensures neurons == NeuronsOf(children) && |neurons| == INPUT_NEURONS + 1126 + OUTPUT_NEURONS
      ensures forall i :: i in neurons ==> i < |nodes| && nodes[i].Neuron?
      ensures connections == ConnectionsOf(children) && connections == Span(0, |conns|)
      ensures |conns| >= INPUT_NEURONS + OUTPUT_NEURONS
      ensures forall c :: 0 <= c < INPUT_NEURONS + OUTPUT_NEURONS ==> conns[c].hasSensor
      ensures forall c :: INPUT_NEURONS + OUTPUT_NEURONS <= c < |conns| ==> NeuronEdge(conns[c], neurons, isNear)
    {
      nodes, conns, children := [], [], [];
      sensors, neurons, connections := [], [], [];
      new;
      var d := AddAll(rand);
      TakeRefs();
      ghost var c0 := conns;
      d := ConnectAll(isNear, rand, d, fuel);
      forall c | 0 <= c < |c0|
        ensures conns[c].hasSensor
      {
        assert conns[c] == conns[..|c0|][c];
      }
      FiltersNameKinds(G(), children, neurons);
      connections := ConnectionsOf(children);
    }

    /** Lines 11-54: the sensors, the three kinds of neuron and the sensor edges, from empty. */
    method AddAll(rand: nat -> real) returns (d: nat)
      requires nodes == [] && conns == [] && children == [] && neurons == []
      modifies this`nodes, this`conns, this`children
      ensures Census(INPUT_NEURONS + OUTPUT_NEURONS, INPUT_NEURONS + 1126 + OUTPUT_NEURONS)
      ensures |conns| == INPUT_NEURONS + OUTPUT_NEURONS && forall c :: 0 <= c < |conns| ==> conns[c].hasSensor
    {
      assert ConnectionsOf(children) == Span(0, 0);
      d := AddInputs(0, 0, rand, 0);
      d := AddShells(INPUT_NEURONS, INPUT_NEURONS, rand, d);
      ShellTotalValue();
      ghost var c0 := conns;
      d := AddOutputs(INPUT_NEURONS, INPUT_NEURONS + 1126, rand, d);
      forall c | 0 <= c < |c0|
        ensures conns[c].hasSensor
      {
        assert conns[c] == conns[..|c0|][c];
      }
    }

    /** Lines 57-58: the sensor and neuron lists are the filters of the children. */
    method TakeRefs()
      requires Valid()
      modifies this`sensors, this`neurons
      ensures Valid() && sensors == SensorsOf(children) && neurons == NeuronsOf(children)
    {
      sensors := SensorsOf(children);
      FiltersNameKinds(G(), children, neurons);
      NeuronsOfNoRepeats(children);
      var ns := NeuronsOf(children);
      forall k | 0 <= k < |ns|
        ensures ns[k] < |nodes| && nodes[ns[k]].Neuron?
      {
        assert ns[k] in ns;
      }
      neurons := ns;
    }

    /**
     * Lines 15-26: per input a sensor, an input neuron and the edge from the
     * sensor to it.  An edge at a sensor draws no weight.
     */
    method AddInputs(s: nat, n: nat, rand: nat -> real, d: nat) returns (d': nat)
      requires Census(s, n)
      modifies this`nodes, this`conns, this`children
      ensures Census(s + INPUT_NEURONS, n + INPUT_NEURONS) && d' == d
      ensures |conns| == old(|conns|) + INPUT_NEURONS && conns[..old(|conns|)] == old(conns)
      ensures forall c :: old(|conns|) <= c < |conns| ==> conns[c].hasSensor
    {
      d' := d;
      for i := 0 to INPUT_NEURONS
        invariant Census(s + i, n + i) && d' == d
        invariant |conns| == old(|conns|) + i && conns[..old(|conns|)] == old(conns)
        invariant forall c :: old(|conns|) <= c < |conns| ==> conns[c].hasSensor
      {
        var sensor, neuron := AddPair(s + i, n + i);
        d' := Link(sensor, neuron, rand, d', s + i + 1, n + i + 1);
      }
    }

    /**
     * Lines 43-54: per output a sensor, an output neuron and the edge from
     * the neuron to the sensor.
     */
    method AddOutputs(s: nat, n: nat, rand: nat -> real, d: nat) returns (d': nat)
      requires Census(s, n)
      modifies this`nodes, this`conns, this`children
      ensures Census(s + OUTPUT_NEURONS, n + OUTPUT_NEURONS) && d' == d
      ensures |conns| == old(|conns|) + OUTPUT_NEURONS && conns[..old(|conns|)] == old(conns)
      ensures forall c :: old(|conns|) <= c < |conns| ==> conns[c].hasSensor
    {
      d' := d;
      for i := 0 to OUTPUT_NEURONS
        invariant Census(s + i, n + i) && d' == d
        invariant |conns| == old(|conns|) + i && conns[..old(|conns|)] == old(conns)
        invariant forall c :: old(|conns|) <= c < |conns| ==> conns[c].hasSensor
      {
        var sensor, neuron := AddPair(s + i, n + i);
        d' := Link(neuron, sensor, rand, d', s + i + 1, n + i + 1);
      }
    }

    /** A sensor and then a neuron, each pushed to the children. */
    method AddPair(ghost s: nat, ghost n: nat) returns (sensor: nat, neuron: nat)
      requires Census(s, n)
      modifies this`nodes, this`children
      ensures Census(s + 1, n + 1)
      ensures sensor < |nodes| && nodes[sensor].Sensor? && neuron < |nodes| && nodes[neuron].Neuron?
    {
      ghost var ch0 := children;
      sensor := AddSensor();
      CountedPush(ch0, s, n, |conns|, SensorRef(sensor));
      ghost var ch1 := children;
      neuron := AddNeuron();
      CountedPush(ch1, s + 1, n, |conns|, NeuronRef(neuron));
    }

    /** A new connection pushed to the children; one at a sensor draws no weight. */
    method Link(src: nat, dst: nat, rand: nat -> real, d: nat, ghost s: nat, ghost n: nat) returns (d': nat)
      requires Census(s, n) && src < |nodes| && dst < |nodes|
      modifies this`nodes, this`conns, this`children
      ensures Census(s, n)
      ensures conns == old(conns) + [NewConn(old(nodes), src, dst, rand(d))]
      ensures d' == if old(nodes[src].Sensor? || nodes[dst].Sensor?) then d else d + 1
    {
      ghost var ch := children;
      ghost var k := |conns|;
      var c;
      c, d' := NewConnection(src, dst, rand, d);
      CountedPush(ch, s, n, k, ConnRef(c));
    }

    /**
     * Lines 29-40: NEURON_SHELLS rings of neurons between the inner and the
     * outer radius.  Each ring draws one angle offset and each position two
     * jitters, which the model only counts.
     */
    method AddShells(s: nat, n: nat, rand: nat -> real, d: nat) returns (d': nat)
      requires Census(s, n)
      modifies this`nodes, this`children
      ensures Census(s, n + ShellTotal(NEURON_SHELLS)) && d' >= d
    {
      d' := d;
      for i := 0 to NEURON_SHELLS
        invariant Census(s, n + ShellTotal(i)) && d' >= d
      {
        d' := d' + 1;
        d' := AddRing(RingSize(ShellRadius(i)), s, n + ShellTotal(i), d');
      }
    }

    /** Lines 34-39: one neuron per ring position, after two position draws. */
    method AddRing(count: nat, ghost s: nat, ghost n: nat, d: nat) returns (d': nat)
      requires Census(s, n)
      modifies this`nodes, this`children
      ensures Census(s, n + count) && d' == d + 2 * count
    {
      d' := d;
      for p := 0 to count
        invariant Census(s, n + p) && d' == d + 2 * p
      {
        d' := d' + 2;
        ghost var ch := children;
        var neuron := AddNeuron();
        CountedPush(ch, s, n + p, |conns|, NeuronRef(neuron));
      }
    }

    /**
     * Lines 62-100: every neuron, in list order, is wired to its candidates.
     * Only connection references are pushed, so the sensor and neuron lists
     * stay as they were.  Every connection made joins two distinct neurons
     * of the list that pass the geometric test, and (by Valid) is listed at
     * both of its ends.
     */
    method ConnectAll(isNear: (nat, nat) -> bool, rand: nat -> real, d: nat, fuel: nat) returns (d': nat)
      requires Valid() && ConnectionsOf(children) == Span(0, |conns|)
      modifies this`nodes, this`conns, this`children
      ensures Valid() && ConnectionsOf(children) == Span(0, |conns|)
      ensures SensorsOf(children) == old(SensorsOf(children))
      ensures NeuronsOf(children) == old(NeuronsOf(children))
      ensures |conns| >= old(|conns|) && conns[..old(|conns|)] == old(conns)
      ensures forall c :: old(|conns|) <= c < |conns| ==> NeuronEdge(conns[c], neurons, isNear)
      ensures d' >= d
    {
      d' := d;
      ghost var S0, N0, C0 := SensorsOf(children), NeuronsOf(children), conns;
      for k := 0 to |neurons|
        invariant Valid() && ConnectionsOf(children) == Span(0, |conns|)
        invariant SensorsOf(children) == S0 && NeuronsOf(children) == N0
        invariant |conns| >= |C0| && conns[..|C0|] == C0
        invariant forall c :: |C0| <= c < |conns| ==> NeuronEdge(conns[c], neurons, isNear)
        invariant d' >= d
      {
        var v := neurons[k];
        ghost var (n0, c0, ch0) := (nodes, conns, children);
        var remaining, scans;
        ghost var targets, weights, draws;
        remaining, d', scans, targets, weights, draws := ConnectNeuron(v, isNear, rand, d', fuel);
        FiltersAfterConns(ch0, |c0|, |targets|, children, |conns|);
        assert conns[..|C0|] == conns[..|c0|][..|C0|];
        forall c | |C0| <= c < |conns|
          ensures NeuronEdge(conns[c], neurons, isNear)
        {
          if c < |c0| {
            assert conns[c] == conns[..|c0|][c];
          }
        }
      }
    }

    // -------------------------------------------------------------------
    // The connect loop, lines 84-99

    /**
     * Lines 86-98: one pass over the siblings from the last to the first.
     * A sibling whose roll does not exceed the chance gets an edge from v
     * and leaves the list; with a positive maximum the pass stops once v's
     * out-degree reaches it.
     */
    method Scan(v: nat, siblings: seq<nat>, rand: nat -> real, d: nat, ghost nodes0: seq<Node>,
                ghost conns0: seq<Conn>, ghost children0: seq<Child>, ghost prior: seq<nat>,
                ghost priorWeights: seq<real>)
      returns (rest: seq<nat>, d': nat, ghost picked: seq<nat>, ghost weights: seq<real>, ghost draws: seq<nat>)
      requires Scanned(v, nodes0, conns0, children0, prior, priorWeights)
      requires NoRepeats(siblings)
      requires forall x :: x in siblings ==> x < |nodes0| && nodes0[x].Neuron? && x != v && x !in prior
      modifies this`nodes, this`conns, this`children
      ensures Scanned(v, nodes0, conns0, children0, prior + picked, priorWeights + weights)
      ensures Split(siblings, rest, picked)
      ensures DrawnFrom(rand, d, d', draws, weights)
    {
      rest := siblings;
      d' := d;
      picked, weights, draws := [], [], [];
      ghost var all, allWeights := prior, priorWeights;
      var i := |siblings|;
      while i > 0
        invariant 0 <= i <= |rest|
        invariant Scanned(v, nodes0, conns0, children0, all, allWeights)
        invariant all == prior + picked && allWeights == priorWeights + weights
        invariant Split(siblings, rest, picked)
        invariant DrawnFrom(rand, d, d', draws, weights)
      {
        i := i - 1;
        var roll := rand(d');
        d' := d' + 1;
        if roll <= NEURON_CONNECTION_CHANCE {
          var target := rest[i];
          assert target in siblings && target !in picked;
          DrawnPush(rand, d, d', draws, weights);
          ghost var w := rand(d');
          draws := draws + [d'];
          d' := Pick(v, target, rand, d', nodes0, conns0, children0, all, allWeights);
          SplitStep(siblings, rest, picked, i);
          rest := rest[..i] + rest[i + 1..];
          Regroup(prior, picked, [target]);
          Regroup(priorWeights, weights, [w]);
          all, allWeights := all + [target], allWeights + [w];
          picked := picked + [target];
          weights := weights + [w];
          var degree := |nodes[v].outs|;
          if NEURON_CONNECTIONS_MAX > 0 && degree == NEURON_CONNECTIONS_MAX {
            break;
          }
        }
      }
    }

    /** The current state is `Extended` from (nodes0, conns0, children0) and valid. */
    ghost predicate Scanned(v: nat, nodes0: seq<Node>, conns0: seq<Conn>, children0: seq<Child>,
                            picked: seq<nat>, weights: seq<real>)
      reads this
    {
      Valid() && Extended(v, nodes0, conns0, children0, nodes, conns, children, picked, weights)
      && v < |nodes| && nodes[v].Neuron?
    }

    /** Lines 91-92: the edge from v to one accepted sibling. */
    method Pick(v: nat, target: nat, rand: nat -> real, d: nat, ghost nodes0: seq<Node>,
                ghost conns0: seq<Conn>, ghost children0: seq<Child>, ghost picked: seq<nat>,
                ghost weights: seq<real>)
      returns (d': nat)
      requires Scanned(v, nodes0, conns0, children0, picked, weights)
      requires target < |nodes0| && nodes0[target].Neuron? && target != v && target !in picked
      modifies this`nodes, this`conns, this`children
      ensures Scanned(v, nodes0, conns0, children0, picked + [target], weights + [rand(d)])
      ensures d' == d + 1
    {
      ExtendedStep(v, nodes0, conns0, children0, nodes, conns, children, picked, weights, target, rand(d));
      var c;
      c, d' := NewConnection(v, target, rand, d);
    }

    /**
     * Lines 67-99 for one neuron v: its siblings are the candidates, then
     * scans repeat while v has fewer than NEURON_CONNECTIONS_MIN out-edges
     * and siblings remain.  Whether that loop ends depends on the rolls, so
     * at most `fuel` scans are run.
     */
    method ConnectNeuron(v: nat, isNear: (nat, nat) -> bool, rand: nat -> real, d: nat, fuel: nat)
      returns (remaining: seq<nat>, d': nat, scans: nat, ghost targets: seq<nat>, ghost weights: seq<real>,
               ghost draws: seq<nat>)
      requires Valid() && v < |nodes| && nodes[v].Neuron? && v in neurons
      modifies this`nodes, this`conns, this`children
      ensures Scanned(v, old(nodes), old(conns), old(children), targets, weights)
      ensures Split(Candidates(old(G()), neurons, v, isNear), remaining, targets)
      ensures |conns| == old(|conns|) + |targets| && conns[..old(|conns|)] == old(conns)
      ensures children == old(children) + ConnRefs(old(|conns|), |targets|)
      ensures forall c :: old(|conns|) <= c < |conns| ==> NeuronEdge(conns[c], neurons, isNear)
      ensures DrawnFrom(rand, d, d', draws, weights)
      ensures scans <= fuel
      ensures |nodes[v].outs| >= NEURON_CONNECTIONS_MIN || remaining == [] || scans == fuel
    {
      var siblings: seq<nat> := Candidates(G(), neurons, v, isNear);
      ghost var cands := siblings;
      targets, weights, draws := [], [], [];
      d' := d;
      scans := 0;
      ExtendedStart(v, nodes, conns, children);
      while |nodes[v].outs| < NEURON_CONNECTIONS_MIN && |siblings| > 0 && scans < fuel
        invariant Scanned(v, old(nodes), old(conns), old(children), targets, weights)
        invariant Split(cands, siblings, targets)
        invariant DrawnFrom(rand, d, d', draws, weights)
        invariant scans <= fuel
        decreases fuel - scans
      {
        forall x | x in siblings
          ensures x < |old(nodes)| && old(nodes)[x].Neuron? && x != v && x !in targets
        {
          assert x in cands;
          assert x in neurons;
        }
        ghost var s1 := siblings;
        ghost var d1 := d';
        ghost var picked, w, ds;
        siblings, d', picked, w, ds := Scan(v, siblings, rand, d', old(nodes), old(conns), old(children), targets, weights);
        SplitTrans(cands, targets, s1, picked);
        DrawnConcat(rand, d, d1, d', draws, weights, ds, w);
        targets, weights, draws := targets + picked, weights + w, draws + ds;
        scans := scans + 1;
      }
      remaining := siblings;
      NewEdges(old(G()), neurons, v, isNear, targets, weights, remaining, nodes, conns, old(children), children);
    }

    // -------------------------------------------------------------------
    // One tick

    /** neuron.js:55-65 -- the two forEach sums, then both buffers. */
    method BufferNeuron(sigmoid: real -> real, i: nat)
      requires WellFormed(G()) && i < |nodes|
      modifies this`nodes
      ensures G() == BufferStep(sigmoid, old(G()), NeuronRef(i))
    {
      var n := nodes[i];
      if n.Neuron? {
        var inputs := InputTotal(n.ins);
        var valueBuffer := A.Value(sigmoid, n.activation, n.bias + inputs);
        var error := ErrorTotal(n.outs);
        ghost var b := NeuronBuffered(sigmoid, n, InputSum(G(), n.ins), ErrorSum(G(), n.outs));
        assert b == NodeBuffered(sigmoid, G(), i);
        nodes := nodes[i := n.(valueBuffer := valueBuffer,
                               errorBuffer := error * A.Derivative(n.activation, n.value))];
        assert nodes[i] == b;
      }
    }

    /** neuron.js:57-58 -- the loop summing getValue over the in-edges. */
    method InputTotal(s: seq<nat>) returns (total: real)
      requires EndpointsOk(G()) && RefsOk(G(), s)
      ensures total == InputSum(G(), s)
    {
      total := 0.0;
      var k := 0;
      while k < |s|
        invariant 0 <= k <= |s|
        invariant total == InputSum(G(), s[..k])
      {
        assert s[..k + 1][..k] == s[..k];
        total := total + ConnValue(G(), s[k]);
        k := k + 1;
      }
      assert s[..k] == s;
    }

    /** neuron.js:62-63 -- the loop summing getError over the out-edges. */
    method ErrorTotal(s: seq<nat>) returns (total: real)
      requires EndpointsOk(G()) && RefsOk(G(), s)
      ensures total == ErrorSum(G(), s)
    {
      total := 0.0;
      var k := 0;
      while k < |s|
        invariant 0 <= k <= |s|
        invariant total == ErrorSum(G(), s[..k])
      {
        assert s[..k + 1][..k] == s[..k];
        total := total + ConnError(G(), s[k]);
        k := k + 1;
      }
      assert s[..k] == s;
    }

    /** connection.js:51-57 */
    method BufferConnection(c: nat)
      requires EndpointsOk(G()) && c < |conns|
      modifies this`conns
      ensures conns == old(conns)[c := ConnBufferedAt(old(G()), c)]
    {
      var e := conns[c];
      if e.hasSensor {
        assert conns == conns[c := e];
        return;
      }
      var dst := nodes[e.dst];
      var error := if dst.Neuron? then dst.error else 0.0;
      assert error == DstError(G(), c);
      if error != 0.0 {
        var srcValue := nodes[e.src].value;
        assert ConnBufferedAt(G(), c) == e.(weightBuffer := e.weight - error * srcValue * LEARNING_RATE);
        conns := conns[c := e.(weightBuffer := e.weight - error * srcValue * LEARNING_RATE)];
      } else {
        assert conns == conns[c := e];
      }
    }

    method BufferChild(sigmoid: real -> real, ch: Child)
      requires WellFormed(G())
      modifies this`nodes, this`conns
      ensures G() == BufferStep(sigmoid, old(G()), ch)
    {
      match ch
      case SensorRef(_) =>
      case NeuronRef(i) =>
        if i < |nodes| {
          BufferNeuron(sigmoid, i);
        }
      case ConnRef(c) =>
        if c < |conns| {
          BufferConnection(c);
        }
    }

    method SwapChild(ch: Child)
      modifies this`nodes, this`conns
      ensures G() == SwapStep(old(G()), ch)
    {
      match ch
      case SensorRef(_) =>
      case NeuronRef(i) =>
        if i < |nodes| && nodes[i].Neuron? {
          var n := nodes[i];
          nodes := nodes[i := n.(value := n.valueBuffer, error := n.errorBuffer)];
        }
      case ConnRef(c) =>
        if c < |conns| {
          var e := conns[c];
          conns := conns[c := e.(changed := Abs(e.weight - e.weightBuffer) >= CHANGED_THRESHOLD,
                                 weight := e.weightBuffer)];
        }
    }

    /** Line 145: `if (child.buffer) child.buffer()` for every child, in list order. */
    method BufferAll(sigmoid: real -> real)
      requires WellFormed(G())
      modifies this`nodes, this`conns
      ensures G() == BufferInOrder(sigmoid, old(G()), children)
    {
      var k := 0;
      while k < |children|
        invariant 0 <= k <= |children|
        invariant WellFormed(G())
        invariant G() == BufferInOrder(sigmoid, old(G()), children[..k])
      {
        assert children[..k + 1] == children[..k] + [children[k]];
        BufferInOrderPush(sigmoid, old(G()), children[..k], children[k]);
        BufferChild(sigmoid, children[k]);
        k := k + 1;
      }
      assert children[..k] == children;
    }

    /** Line 146: `if (child.swap) child.swap()` for every child, in list order. */
    method SwapAll()
      modifies this`nodes, this`conns
      ensures G() == SwapInOrder(old(G()), children)
    {
      var k := 0;
      while k < |children|
        invariant 0 <= k <= |children|
        invariant G() == SwapInOrder(old(G()), children[..k])
      {
        assert children[..k + 1][..k] == children[..k];
        SwapChild(children[k]);
        k := k + 1;
      }
      assert children[..k] == children;
    }

    /**
     * update's network step (lines 145-146): every buffer call runs before
     * any swap call.  The result is the order-free description of
     * TickNeuron / TickConn / TickSensor, and the arena invariant holds again.
     */
    method Tick(sigmoid: real -> real)
      requires Valid()
      modifies this`nodes, this`conns
      ensures G() == TickResult(sigmoid, old(G()), children)
      ensures Valid()
    {
      BufferAll(sigmoid);
      SwapAll();
      TickKeepsValid(sigmoid, old(G()), children, neurons);
    }
  }
}
