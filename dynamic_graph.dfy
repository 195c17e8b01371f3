/**
 * Records of the dynamic engine (dynamic/sensor.js, dynamic/neuron.js,
 * dynamic/connection.js) held in an index arena: connections name their
 * endpoints by node index and neurons list their connections by connection
 * index.  The functions here are what one `buffer` or `swap` call computes;
 * the class in dynamic_network.dfy applies them to its fields.
 */
module DynamicGraph {
  import opened Wrappers
  import opened Maths
  import A = DynamicActivation

  /** connection.js:7-8 */
  const LEARNING_RATE: real := 0.125
  const CHANGED_THRESHOLD: real := 0.01

  /** A sensor is a value cell; a neuron has committed and buffered state. */
  datatype Node =
    | Sensor(value: real)
    | Neuron(activation: string, bias: real, value: real, error: real,
             valueBuffer: real, errorBuffer: real, changed: bool,
             ins: seq<nat>, outs: seq<nat>)

  /** A directed weighted edge with a double-buffered weight. */
  datatype Conn = Conn(src: nat, dst: nat, hasSensor: bool,
                       weight: real, weightBuffer: real, changed: bool)

  /**
   * An entry of the network's `children` list; the constructor tag plays the
   * part of the prototype flags isSensor / isNeuron / isConnection.
   */
  datatype Child = SensorRef(node: nat) | NeuronRef(node: nat) | ConnRef(conn: nat)

  datatype Graph = Graph(nodes: seq<Node>, conns: seq<Conn>)

  function Abs(x: real): real { if x < 0.0 then -x else x }

  // ---------------------------------------------------------------------
  // Construction

  /** sensor.js:9 -- the value defaults to 0 when none is given. */
  function NewSensor(value: Option<real>): (n: Node)
    ensures n.Sensor?
    ensures value.Some? ==> n.value == value.value
    ensures value.None? ==> n.value == 0.0
  {
    Sensor(value.GetOr(0.0))
  }

  /**
   * neuron.js:12-24.  `params.activation || SIGMOID` also replaces the empty
   * string; `params.bias || 0` leaves any non-zero bias as it is.
   */
  function NewNeuron(activation: Option<string>, bias: Option<real>): (n: Node)
    ensures n.Neuron? && n.activation != ""
    ensures activation.None? ==> n.activation == A.SIGMOID
    ensures activation.Some? && activation.value != "" ==> n.activation == activation.value
    ensures bias.None? ==> n.bias == 0.0
    ensures bias.Some? ==> n.bias == bias.value
    ensures n.value == 0.0 && n.error == 0.0 && n.valueBuffer == 0.0 && n.errorBuffer == 0.0
    ensures !n.changed && n.ins == [] && n.outs == []
  {
    var tag := if activation.None? || activation.value == "" then A.SIGMOID else activation.value;
    Neuron(tag, bias.GetOr(0.0), 0.0, 0.0, 0.0, 0.0, false, [], [])
  }

  /**
   * connection.js:14-21: an edge touching a sensor is pinned at weight 1,
   * any other starts at the draw; the buffer starts equal to the weight.
   */
  function NewConn(nodes: seq<Node>, src: nat, dst: nat, draw: real): (c: Conn)
    requires src < |nodes| && dst < |nodes|
    ensures c.src == src && c.dst == dst
    ensures c.hasSensor <==> nodes[src].Sensor? || nodes[dst].Sensor?
    ensures c.hasSensor ==> c.weight == 1.0
    ensures !c.hasSensor ==> c.weight == draw
    ensures c.weightBuffer == c.weight && !c.changed
  {
    var hasSensor := nodes[src].Sensor? || nodes[dst].Sensor?;
    var w := if hasSensor then 1.0 else draw;
    Conn(src, dst, hasSensor, w, w, false)
  }

  /**
   * neuron.js:42-49 -- registering an in-edge re-tags the neuron: a single
   * in-edge makes it a pass-through (NONE), any other count SIGMOID.
   */
  function WithIn(n: Node, c: nat): (r: Node)
    requires n.Neuron?
    ensures r.Neuron? && r.ins == n.ins + [c]
    ensures r.activation == A.NONE <==> |r.ins| == 1
    ensures r.activation == A.SIGMOID <==> |r.ins| != 1
    ensures r.(activation := n.activation, ins := n.ins) == n
  {
    var ins := n.ins + [c];
    n.(ins := ins, activation := if |ins| == 1 then A.NONE else A.SIGMOID)
  }

  /** neuron.js:51-53 -- registering an out-edge only appends it. */
  function WithOut(n: Node, c: nat): (r: Node)
    requires n.Neuron?
    ensures r.Neuron? && r.outs == n.outs + [c]
    ensures r.(outs := n.outs) == n
  {
    n.(outs := n.outs + [c])
  }

  /**
   * connection.js:24-25 -- the new edge `c` is appended to the source's
   * out-list if the source is a neuron, and to the destination's in-list if
   * the destination is a neuron; no other node changes.
   */
  function Registered(nodes: seq<Node>, c: nat, src: nat, dst: nat): (r: seq<Node>)
    requires src < |nodes| && dst < |nodes|
    ensures |r| == |nodes|
    ensures forall i :: 0 <= i < |nodes| ==> r[i].Sensor? == nodes[i].Sensor?
    ensures forall i :: 0 <= i < |nodes| && i != src && i != dst ==> r[i] == nodes[i]
    ensures src != dst && nodes[src].Neuron? ==> r[src] == WithOut(nodes[src], c)
    ensures src != dst && nodes[dst].Neuron? ==> r[dst] == WithIn(nodes[dst], c)
    ensures nodes[src].Sensor? ==> r[src] == nodes[src]
    ensures nodes[dst].Sensor? ==> r[dst] == nodes[dst]
    ensures nodes[src].Neuron? ==> r[src].outs == nodes[src].outs + [c]
    ensures nodes[dst].Neuron? ==> r[dst].ins == nodes[dst].ins + [c]
    ensures forall i :: 0 <= i < |nodes| && nodes[i].Neuron? ==>
              (r[i].ins == nodes[i].ins || r[i].ins == nodes[i].ins + [c]) &&
              (r[i].outs == nodes[i].outs || r[i].outs == nodes[i].outs + [c])
  {
    var a := if nodes[src].Neuron? then nodes[src := WithOut(nodes[src], c)] else nodes;
    if a[dst].Neuron? then a[dst := WithIn(a[dst], c)] else a
  }

  // ---------------------------------------------------------------------
  // Reads of committed state

  /** Endpoints of every connection are nodes of the graph. */
  ghost predicate EndpointsOk(g: Graph) {
    forall c :: 0 <= c < |g.conns| ==> g.conns[c].src < |g.nodes| && g.conns[c].dst < |g.nodes|
  }

  ghost predicate RefsOk(g: Graph, s: seq<nat>) {
    forall k :: 0 <= k < |s| ==> s[k] < |g.conns|
  }

  /** Every list a neuron keeps names a connection of the graph. */
  ghost predicate WellFormed(g: Graph) {
    && EndpointsOk(g)
    && forall i :: 0 <= i < |g.nodes| && g.nodes[i].Neuron? ==>
         RefsOk(g, g.nodes[i].ins) && RefsOk(g, g.nodes[i].outs)
  }

  /** connection.js:38-40 -- getValue. */
  function ConnValue(g: Graph, c: nat): real
    requires EndpointsOk(g) && c < |g.conns|
  {
    g.conns[c].weight * g.nodes[g.conns[c].src].value
  }

  /**
   * connection.js:42-49 -- getError: against a sensor the error is the gap
   * between the source's value and the sensor's (the target); otherwise it
   * is the destination neuron's error.
   */
  function ConnError(g: Graph, c: nat): real
    requires EndpointsOk(g) && c < |g.conns|
  {
    var e := g.conns[c];
    if g.nodes[e.dst].Sensor? then e.weight * (g.nodes[e.src].value - g.nodes[e.dst].value)
    else e.weight * g.nodes[e.dst].error
  }

  /**
   * The two reads on an edge pinned at weight 1: getValue passes the source's
   * value through, and against an output sensor getError is the gap between
   * the source's value and the sensor's target.  An edge into a neuron with
   * no error reports none.
   */
  lemma ConnReadings(g: Graph, c: nat)
    requires EndpointsOk(g) && c < |g.conns|
    ensures g.conns[c].weight == 1.0 ==> ConnValue(g, c) == g.nodes[g.conns[c].src].value
    ensures g.conns[c].weight == 1.0 && g.nodes[g.conns[c].dst].Sensor? ==>
              ConnError(g, c) == g.nodes[g.conns[c].src].value - g.nodes[g.conns[c].dst].value
    ensures g.nodes[g.conns[c].dst].Neuron? && g.nodes[g.conns[c].dst].error == 0.0 ==> ConnError(g, c) == 0.0
  {
  }

  /** Sum of getValue over a list of connections, accumulated front to back. */
  function InputSum(g: Graph, s: seq<nat>): real
    requires EndpointsOk(g) && RefsOk(g, s)
  {
    if s == [] then 0.0 else InputSum(g, s[..|s| - 1]) + ConnValue(g, s[|s| - 1])
  }

  /** Sum of getError over a list of connections, accumulated front to back. */
  function ErrorSum(g: Graph, s: seq<nat>): real
    requires EndpointsOk(g) && RefsOk(g, s)
  {
    if s == [] then 0.0 else ErrorSum(g, s[..|s| - 1]) + ConnError(g, s[|s| - 1])
  }

  // ---------------------------------------------------------------------
  // One buffer / swap call

  /**
   * connection.js:51-57.  `error` is what `dst.getError ? dst.getError() : 0`
   * reads and `srcValue` is `src.getValue()`.  Only the buffer can change.
   */
  function ConnBuffered(c: Conn, error: real, srcValue: real): (r: Conn)
    ensures r.(weightBuffer := c.weightBuffer) == c
    ensures c.hasSensor || error == 0.0 ==> r == c
    ensures !c.hasSensor && error != 0.0 ==>
              r.weightBuffer == c.weight - error * srcValue * LEARNING_RATE
  {
    if c.hasSensor then c
    else if error != 0.0 then c.(weightBuffer := c.weight - error * srcValue * LEARNING_RATE)
    else c
  }

  /** What a connection's buffer call reads: the destination's error, 0 for a sensor. */
  function DstError(g: Graph, c: nat): real
    requires EndpointsOk(g) && c < |g.conns|
  {
    var d := g.nodes[g.conns[c].dst];
    if d.Neuron? then d.error else 0.0
  }

  /** connection.js:59-62 -- `changed` is decided before the weight is overwritten. */
  function ConnSwapped(c: Conn): (r: Conn)
    ensures r.weight == c.weightBuffer && r.weightBuffer == c.weightBuffer
    ensures r.changed <==> Abs(c.weight - c.weightBuffer) >= CHANGED_THRESHOLD
    ensures r.(weight := c.weight, changed := c.changed) == c
  {
    c.(changed := Abs(c.weight - c.weightBuffer) >= CHANGED_THRESHOLD, weight := c.weightBuffer)
  }

  /**
   * neuron.js:55-65 -- the value buffer is the activation of bias plus the
   * incoming sum, the error buffer the outgoing error sum times the
   * derivative at the committed value.  Nothing else changes.
   */
  function NeuronBuffered(sigmoid: real -> real, n: Node, inSum: real, errSum: real): (r: Node)
    requires n.Neuron?
    ensures r.Neuron?
    ensures r.(valueBuffer := n.valueBuffer, errorBuffer := n.errorBuffer) == n
    ensures r.valueBuffer == A.Value(sigmoid, n.activation, n.bias + inSum)
    ensures r.errorBuffer == errSum * A.Derivative(n.activation, n.value)
  {
    n.(valueBuffer := A.Value(sigmoid, n.activation, n.bias + inSum),
       errorBuffer := errSum * A.Derivative(n.activation, n.value))
  }

  /** neuron.js:67-71 -- commits both buffers; `changed` is left alone. */
  function NeuronSwapped(n: Node): (r: Node)
    requires n.Neuron?
    ensures r.Neuron? && r.value == n.valueBuffer && r.error == n.errorBuffer
    ensures r.(value := n.value, error := n.error) == n
  {
    n.(value := n.valueBuffer, error := n.errorBuffer)
  }

  // ---------------------------------------------------------------------
  // Lemmas about a single record

  /** A NONE-tagged neuron passes its input sum through and always buffers error 0. */
  lemma NoneTaggedNeuron(sigmoid: real -> real, n: Node, inSum: real, errSum: real)
    requires n.Neuron? && n.activation == A.NONE
    ensures NeuronBuffered(sigmoid, n, inSum, errSum).errorBuffer == 0.0
    ensures NeuronBuffered(sigmoid, n, inSum, errSum).valueBuffer == n.bias + inSum
  {
    A.NoneIsPassThrough(sigmoid, n.bias + inSum, errSum);
  }

  /** With no in-connections a neuron buffers the activation of its bias. */
  lemma NoInputsBuffersBias(sigmoid: real -> real, g: Graph, n: Node, errSum: real)
    requires EndpointsOk(g) && n.Neuron? && n.ins == []
    ensures NeuronBuffered(sigmoid, n, InputSum(g, n.ins), errSum).valueBuffer
            == A.Value(sigmoid, n.activation, n.bias)
  {
  }

  /** Without a new buffer in between, a second swap reports no change. */
  lemma SwapTwiceUnchanged(c: Conn)
    ensures !ConnSwapped(ConnSwapped(c)).changed
    ensures ConnSwapped(ConnSwapped(c)).weight == ConnSwapped(c).weight
  {
  }

  /** The change threshold at work: a step of 0.0005 is below it, 0.02 above. */
  lemma ChangedThresholdScenario()
    ensures !ConnSwapped(Conn(0, 1, false, 0.5, 0.5005, false)).changed
    ensures ConnSwapped(Conn(0, 1, false, 0.5, 0.52, false)).changed
    ensures ConnSwapped(Conn(0, 1, false, 0.52, 0.5, false)).changed
  {
  }

  /** connection.js:19-20 -- an edge touching a sensor holds weight 1 in both slots. */
  predicate Pinned(c: Conn) {
    c.hasSensor ==> c.weight == 1.0 && c.weightBuffer == 1.0
  }

  /** A call made on one connection: buffer (with what it reads) or swap. */
  datatype ConnOp = BufferOp(error: real, srcValue: real) | SwapOp

  function ApplyOps(c: Conn, ops: seq<ConnOp>): Conn
  {
    if ops == [] then c
    else
      var prev := ApplyOps(c, ops[..|ops| - 1]);
      match ops[|ops| - 1]
      case BufferOp(e, v) => ConnBuffered(prev, e, v)
      case SwapOp => ConnSwapped(prev)
  }

  /** A pinned connection keeps weight 1 through any sequence of buffer and swap calls. */
  lemma {:induction false} PinnedForever(c: Conn, ops: seq<ConnOp>)
    requires Pinned(c)
    ensures Pinned(ApplyOps(c, ops)) && ApplyOps(c, ops).hasSensor == c.hasSensor
    ensures c.hasSensor ==> ApplyOps(c, ops).weight == 1.0
    decreases |ops|
  {
    if ops != [] {
      PinnedForever(c, ops[..|ops| - 1]);
    }
  }

  // ---------------------------------------------------------------------
  // Phases over the whole graph

  /** What `buffer` computes for the node at index i (a sensor has no buffer). */
  function NodeBuffered(sigmoid: real -> real, g: Graph, i: nat): Node
    requires WellFormed(g) && i < |g.nodes|
  {
    var n := g.nodes[i];
    if n.Neuron? then NeuronBuffered(sigmoid, n, InputSum(g, n.ins), ErrorSum(g, n.outs)) else n
  }

  /** What `buffer` computes for the connection at index c. */
  function ConnBufferedAt(g: Graph, c: nat): Conn
    requires EndpointsOk(g) && c < |g.conns|
  {
    ConnBuffered(g.conns[c], DstError(g, c), g.nodes[g.conns[c].src].value)
  }

  /** neural_network_dynamic.js:145 -- `if (child.buffer) child.buffer()` for one child. */
  function BufferStep(sigmoid: real -> real, g: Graph, ch: Child): Graph
    requires WellFormed(g)
  {
    match ch
    case SensorRef(_) => g
    case NeuronRef(i) => if i < |g.nodes| then g.(nodes := g.nodes[i := NodeBuffered(sigmoid, g, i)]) else g
    case ConnRef(c) => if c < |g.conns| then g.(conns := g.conns[c := ConnBufferedAt(g, c)]) else g
  }

  /** neural_network_dynamic.js:146 -- `if (child.swap) child.swap()` for one child. */
  function SwapStep(g: Graph, ch: Child): Graph
  {
    match ch
    case SensorRef(_) => g
    case NeuronRef(i) =>
      if i < |g.nodes| && g.nodes[i].Neuron? then g.(nodes := g.nodes[i := NeuronSwapped(g.nodes[i])]) else g
    case ConnRef(c) => if c < |g.conns| then g.(conns := g.conns[c := ConnSwapped(g.conns[c])]) else g
  }

  /** The committed part of a node: everything but the two buffers. */
  function CommittedNode(n: Node): Node {
    if n.Neuron? then n.(valueBuffer := 0.0, errorBuffer := 0.0) else n
  }

  ghost predicate SameCommitted(g: Graph, h: Graph) {
    && |g.nodes| == |h.nodes| && |g.conns| == |h.conns|
    && (forall i :: 0 <= i < |g.nodes| ==> CommittedNode(g.nodes[i]) == CommittedNode(h.nodes[i]))
    && (forall c :: 0 <= c < |g.conns| ==> g.conns[c].(weightBuffer := 0.0) == h.conns[c].(weightBuffer := 0.0))
  }

  /** The buffer phase applied in the given order, one child after another. */
  function BufferInOrder(sigmoid: real -> real, g: Graph, order: seq<Child>): (r: Graph)
    requires WellFormed(g)
    ensures WellFormed(r) && SameCommitted(g, r)
  {
    if order == [] then g
    else
      var prev := BufferInOrder(sigmoid, g, order[..|order| - 1]);
      var r := BufferStep(sigmoid, prev, order[|order| - 1]);
      assert SameCommitted(prev, r);
      r
  }
  /** Buffering in the order `order + [x]` is buffering in `order`, then x. */
  lemma BufferInOrderPush(sigmoid: real -> real, g: Graph, order: seq<Child>, x: Child)
    requires WellFormed(g)
    ensures WellFormed(BufferInOrder(sigmoid, g, order))
    ensures BufferInOrder(sigmoid, g, order + [x]) == BufferStep(sigmoid, BufferInOrder(sigmoid, g, order), x)
  {
    assert (order + [x])[..|order|] == order;
  }


  /** The swap phase applied in the given order. */
  function SwapInOrder(g: Graph, order: seq<Child>): (r: Graph)
    ensures |r.nodes| == |g.nodes| && |r.conns| == |g.conns|
  {
    if order == [] then g else SwapStep(SwapInOrder(g, order[..|order| - 1]), order[|order| - 1])
  }

  /**
   * The buffer phase described without an order: every neuron and connection
   * named in `order` holds what its buffer call computes from the committed
   * state of `g`; everything else is as in `g`.
   */
  function BufferPhase(sigmoid: real -> real, g: Graph, order: seq<Child>): Graph
    requires WellFormed(g)
  {
    Graph(
      seq(|g.nodes|, i requires 0 <= i < |g.nodes| =>
        if NeuronRef(i) in order then NodeBuffered(sigmoid, g, i) else g.nodes[i]),
      seq(|g.conns|, c requires 0 <= c < |g.conns| =>
        if ConnRef(c) in order then ConnBufferedAt(g, c) else g.conns[c]))
  }

  /** The swap phase described without an order, for a list without repeats. */
  function SwapPhase(g: Graph, order: seq<Child>): Graph
  {
    Graph(
      seq(|g.nodes|, i requires 0 <= i < |g.nodes| =>
        if NeuronRef(i) in order && g.nodes[i].Neuron? then NeuronSwapped(g.nodes[i]) else g.nodes[i]),
      seq(|g.conns|, c requires 0 <= c < |g.conns| =>
        if ConnRef(c) in order then ConnSwapped(g.conns[c]) else g.conns[c]))
  }

  ghost predicate NoRepeats<T>(s: seq<T>) {
    forall i, j :: 0 <= i < j < |s| ==> s[i] != s[j]
  }

  // ---------------------------------------------------------------------
  // Phase isolation

  /** Nodes that agree on their committed part agree on every field a buffer call reads. */
  lemma CommittedFields(a: Node, b: Node)
    requires CommittedNode(a) == CommittedNode(b)
    ensures a.Sensor? == b.Sensor? && a.value == b.value
    ensures a.Neuron? ==> a.error == b.error && a.bias == b.bias && a.activation == b.activation
    ensures a.Neuron? ==> a.ins == b.ins && a.outs == b.outs
  {
    if a.Neuron? {
      assert CommittedNode(a).value == a.value && CommittedNode(b).value == b.value;
    }
  }

  lemma {:induction false} SumsOnCommitted(g: Graph, h: Graph, s: seq<nat>)
    requires EndpointsOk(g) && EndpointsOk(h) && RefsOk(g, s) && RefsOk(h, s) && SameCommitted(g, h)
    ensures InputSum(g, s) == InputSum(h, s) && ErrorSum(g, s) == ErrorSum(h, s)
    decreases |s|
  {
    if s != [] {
      SumsOnCommitted(g, h, s[..|s| - 1]);
      var c := s[|s| - 1];
      assert g.conns[c].(weightBuffer := 0.0) == h.conns[c].(weightBuffer := 0.0);
      var e := g.conns[c];
      CommittedFields(g.nodes[e.src], h.nodes[e.src]);
      CommittedFields(g.nodes[e.dst], h.nodes[e.dst]);
    }
  }

  /**
   * A buffer call reads committed state only: on graphs that agree on it, a
   * neuron's buffer call computes the same record, and a connection's reads
   * the same error and source value.
   */
  lemma BufferReadsCommitted(sigmoid: real -> real, g: Graph, h: Graph, i: nat)
    requires WellFormed(g) && WellFormed(h) && SameCommitted(g, h)
    ensures i < |g.nodes| ==> NodeBuffered(sigmoid, g, i) == NodeBuffered(sigmoid, h, i)
  {
    if i < |g.nodes| {
      var a, b := g.nodes[i], h.nodes[i];
      CommittedFields(a, b);
      if a.Neuron? {
        SumsOnCommitted(g, h, a.ins);
        SumsOnCommitted(g, h, a.outs);
        NeuronBufferedOnCommitted(sigmoid, a, b, InputSum(g, a.ins), ErrorSum(g, a.outs));
      }
    }
  }

  /** Buffering overwrites exactly the fields a committed view leaves out. */
  lemma NeuronBufferedOnCommitted(sigmoid: real -> real, a: Node, b: Node, inSum: real, errSum: real)
    requires a.Neuron? && CommittedNode(a) == CommittedNode(b)
    ensures b.Neuron? && NeuronBuffered(sigmoid, a, inSum, errSum) == NeuronBuffered(sigmoid, b, inSum, errSum)
  {
    CommittedFields(a, b);
  }

  /** The connection half: the same endpoints, destination error and source value. */
  lemma ConnReadsCommitted(g: Graph, h: Graph, c: nat)
    requires WellFormed(g) && WellFormed(h) && SameCommitted(g, h)
    ensures c < |g.conns| ==> g.conns[c].src == h.conns[c].src
    ensures c < |g.conns| ==> DstError(g, c) == DstError(h, c)
    ensures c < |g.conns| ==> g.nodes[g.conns[c].src].value == h.nodes[h.conns[c].src].value
  {
    if c < |g.conns| {
      var e := g.conns[c];
      assert e.(weightBuffer := 0.0) == h.conns[c].(weightBuffer := 0.0);
      assert e.src == h.conns[c].src && e.dst == h.conns[c].dst;
      CommittedFields(g.nodes[e.src], h.nodes[e.src]);
      CommittedFields(g.nodes[e.dst], h.nodes[e.dst]);
    }
  }

  /** Buffering a connection twice from the same readings is buffering it once. */
  lemma ConnBufferedIdempotent(c: Conn, error: real, srcValue: real)
    ensures ConnBuffered(ConnBuffered(c, error, srcValue), error, srcValue) == ConnBuffered(c, error, srcValue)
  {
  }

  /** One buffer call on a graph whose committed part is that of g. */
  lemma BufferStepAt(sigmoid: real -> real, g: Graph, q: Graph, x: Child, i: nat, c: nat)
    requires WellFormed(g) && WellFormed(q) && SameCommitted(g, q)
    requires c < |g.conns| ==> q.conns[c] == g.conns[c] || q.conns[c] == ConnBufferedAt(g, c)
    ensures i < |g.nodes| ==>
              BufferStep(sigmoid, q, x).nodes[i]
              == (if x == NeuronRef(i) then NodeBuffered(sigmoid, g, i) else q.nodes[i])
    ensures c < |g.conns| ==>
              BufferStep(sigmoid, q, x).conns[c]
              == (if x == ConnRef(c) then ConnBufferedAt(g, c) else q.conns[c])
  {
    BufferReadsCommitted(sigmoid, g, q, i);
    ConnReadsCommitted(g, q, c);
    if c < |g.conns| {
      ConnBufferedIdempotent(g.conns[c], DstError(g, c), g.nodes[g.conns[c].src].value);
    }
  }

  /**
   * Order independence of the buffer phase: applying the buffer calls one
   * after another in any order gives the order-free description above.
   */
  lemma {:induction false} BufferOrderIndependent(sigmoid: real -> real, g: Graph, order: seq<Child>)
    requires WellFormed(g)
    ensures BufferInOrder(sigmoid, g, order) == BufferPhase(sigmoid, g, order)
    decreases |order|
  {
    var r := BufferPhase(sigmoid, g, order);
    if order == [] {
      assert g.nodes == r.nodes;
      assert g.conns == r.conns;
    } else {
      var p := order[..|order| - 1];
      var x := order[|order| - 1];
      BufferOrderIndependent(sigmoid, g, p);
      var q := BufferInOrder(sigmoid, g, p);
      var s := BufferStep(sigmoid, q, x);
      assert s == BufferInOrder(sigmoid, g, order);
      assert order == p + [x];
      forall i | 0 <= i < |g.nodes|
        ensures s.nodes[i] == r.nodes[i]
      {
        BufferStepAt(sigmoid, g, q, x, i, 0);
        assert NeuronRef(i) in order <==> NeuronRef(i) in p || x == NeuronRef(i);
      }
      forall c | 0 <= c < |g.conns|
        ensures s.conns[c] == r.conns[c]
      {
        BufferStepAt(sigmoid, g, q, x, 0, c);
        assert ConnRef(c) in order <==> ConnRef(c) in p || x == ConnRef(c);
      }
      assert s.nodes == r.nodes;
      assert s.conns == r.conns;
    }
  }

  /** Corollary: two orders of the same children give the same buffered graph. */
  lemma BufferPermutationInvariant(sigmoid: real -> real, g: Graph, o1: seq<Child>, o2: seq<Child>)
    requires WellFormed(g) && multiset(o1) == multiset(o2)
    ensures BufferInOrder(sigmoid, g, o1) == BufferInOrder(sigmoid, g, o2)
  {
    BufferOrderIndependent(sigmoid, g, o1);
    BufferOrderIndependent(sigmoid, g, o2);
    assert forall ch :: ch in o1 <==> ch in multiset(o1);
    assert forall ch :: ch in o2 <==> ch in multiset(o2);
  }

  /** The swap phase over a list without repeats is its order-free description. */
  lemma {:induction false} SwapOrderIndependent(g: Graph, order: seq<Child>)
    requires NoRepeats(order)
    ensures SwapInOrder(g, order) == SwapPhase(g, order)
    decreases |order|
  {
    var r := SwapPhase(g, order);
    if order == [] {
      assert g.nodes == r.nodes;
      assert g.conns == r.conns;
    } else {
      var p := order[..|order| - 1];
      var x := order[|order| - 1];
      SwapOrderIndependent(g, p);
      var q := SwapPhase(g, p);
      var s := SwapStep(q, x);
      assert x !in p;
      assert forall ch :: ch in order <==> ch in p || ch == x;
      assert s.nodes == r.nodes;
      assert s.conns == r.conns;
    }
  }

  /** neural_network_dynamic.js:145-146 -- every buffer call, then every swap call. */
  function TickResult(sigmoid: real -> real, g: Graph, order: seq<Child>): (r: Graph)
    requires WellFormed(g)
    ensures |r.nodes| == |g.nodes| && |r.conns| == |g.conns|
  {
    SwapInOrder(BufferInOrder(sigmoid, g, order), order)
  }

  /**
   * A tick over children without repeats leaves the sensor or neuron at
   * index i and the connection at index c with the swap of what its buffer
   * call computed from the state before the tick, or as it was when the
   * tick does not list it (a sensor is never buffered or swapped).
   */
  lemma TickAt(sigmoid: real -> real, g: Graph, order: seq<Child>, i: nat, c: nat)
    requires WellFormed(g) && NoRepeats(order)
    ensures i < |g.nodes| ==>
              TickResult(sigmoid, g, order).nodes[i]
              == (if g.nodes[i].Neuron? && NeuronRef(i) in order
                  then NeuronSwapped(NodeBuffered(sigmoid, g, i)) else g.nodes[i])
    ensures c < |g.conns| ==>
              TickResult(sigmoid, g, order).conns[c]
              == (if ConnRef(c) in order then ConnSwapped(ConnBufferedAt(g, c)) else g.conns[c])
  {
    BufferOrderIndependent(sigmoid, g, order);
    var b := BufferPhase(sigmoid, g, order);
    SwapOrderIndependent(b, order);
    var t := SwapPhase(b, order);
    assert TickResult(sigmoid, g, order) == t;
    if i < |g.nodes| {
      assert b.nodes[i] == if NeuronRef(i) in order then NodeBuffered(sigmoid, g, i) else g.nodes[i];
    }
    if c < |g.conns| {
      assert b.conns[c] == if ConnRef(c) in order then ConnBufferedAt(g, c) else g.conns[c];
    }
  }

  /**
   * What a neuron holds after a tick: the activation of its bias plus the
   * weighted inputs, and the back-propagated error times the derivative at
   * its previous value, both computed from the state before the tick.
   */
  lemma TickNeuron(sigmoid: real -> real, g: Graph, order: seq<Child>, i: nat)
    requires WellFormed(g) && NoRepeats(order)
    requires i < |g.nodes| && g.nodes[i].Neuron? && NeuronRef(i) in order
    ensures TickResult(sigmoid, g, order).nodes[i].Neuron?
    ensures TickResult(sigmoid, g, order).nodes[i].activation == g.nodes[i].activation
    ensures TickResult(sigmoid, g, order).nodes[i].ins == g.nodes[i].ins
    ensures TickResult(sigmoid, g, order).nodes[i].outs == g.nodes[i].outs
    ensures TickResult(sigmoid, g, order).nodes[i].value
            == A.Value(sigmoid, g.nodes[i].activation, g.nodes[i].bias + InputSum(g, g.nodes[i].ins))
    ensures TickResult(sigmoid, g, order).nodes[i].error
            == ErrorSum(g, g.nodes[i].outs) * A.Derivative(g.nodes[i].activation, g.nodes[i].value)
  {
    TickAt(sigmoid, g, order, i, 0);
    assert TickResult(sigmoid, g, order).nodes[i].value == NodeBuffered(sigmoid, g, i).valueBuffer;
    assert TickResult(sigmoid, g, order).nodes[i].error == NodeBuffered(sigmoid, g, i).errorBuffer;
    NodeBufferedNeuron(sigmoid, g, i);
  }

  /** What a neuron's buffer call computes, in terms of the graph it reads. */
  lemma NodeBufferedNeuron(sigmoid: real -> real, g: Graph, i: nat)
    requires WellFormed(g) && i < |g.nodes| && g.nodes[i].Neuron?
    ensures NodeBuffered(sigmoid, g, i).valueBuffer
            == A.Value(sigmoid, g.nodes[i].activation, g.nodes[i].bias + InputSum(g, g.nodes[i].ins))
    ensures NodeBuffered(sigmoid, g, i).errorBuffer
            == ErrorSum(g, g.nodes[i].outs) * A.Derivative(g.nodes[i].activation, g.nodes[i].value)
  {
  }

  /** A sensor comes out of a tick exactly as it went in. */
  lemma TickSensor(sigmoid: real -> real, g: Graph, order: seq<Child>, i: nat)
    requires WellFormed(g) && NoRepeats(order)
    requires i < |g.nodes| && g.nodes[i].Sensor?
    ensures TickResult(sigmoid, g, order).nodes[i] == g.nodes[i]
  {
    TickAt(sigmoid, g, order, i, 0);
  }

  /**
   * What a connection holds after a tick: a learning step when its
   * destination neuron had a non-zero error, `changed` when that step is at
   * least the threshold, and weight 1 throughout when it touches a sensor.
   */
  lemma TickConn(sigmoid: real -> real, g: Graph, order: seq<Child>, c: nat)
    requires WellFormed(g) && NoRepeats(order)
    requires c < |g.conns| && ConnRef(c) in order && Pinned(g.conns[c])
    ensures var e := g.conns[c];
            var t := TickResult(sigmoid, g, order).conns[c];
            && t.src == e.src && t.dst == e.dst && t.hasSensor == e.hasSensor && Pinned(t)
            && (!e.hasSensor && DstError(g, c) != 0.0 ==>
                  t.weight == e.weight - DstError(g, c) * g.nodes[e.src].value * LEARNING_RATE)
            && ((e.hasSensor || DstError(g, c) == 0.0) ==> t.weight == e.weightBuffer)
            && (t.changed <==> Abs(e.weight - t.weight) >= CHANGED_THRESHOLD)
  {
    TickAt(sigmoid, g, order, 0, c);
  }
}
