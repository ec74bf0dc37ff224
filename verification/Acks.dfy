/** Signal forwarding between nodes (app/node_mesh.py:205-233, 325-330, 408-437, 517-534): many
    honest nodes over a network that may drop, delay or repeat whatever was sent. Each node has
    the outbound queues, the route index and the replay table of its hub. Request and message ids
    are fresh uuids; every await-free region is one event. */
module Acks {
  import opened Names
  import Outbound
  import ReplayTable
  import RouteIndex

  datatype RequestId = RequestId(hex: string)

  datatype MessageId = MessageId(hex: string)

  /** A signal envelope; `valid` is the verdict of validate_v2_message and the SIGNAL type. */
  datatype Envelope = Envelope(valid: bool, route: RouteId, target: SessionId, content: Key)

  datatype Body =
    | SignalForward(request: RequestId, route: RouteId, target: SessionId, envelope: Envelope)
    | Ack(request: RequestId, delivered: bool)

  datatype Packet = Packet(src: NodeId, dst: NodeId, id: MessageId, body: Body)

  /** Pending acks hold the future's result once it is set; `ops` is the history of the node's
      replay table, `out` and `index` are its hub's queues and routes. */
  datatype Node = Node(
    acks: map<RequestId, Option<bool>>,
    queries: set<RequestId>,
    ops: seq<ReplayTable.Op>,
    out: Outbound.State,
    index: RouteIndex.State)

  /** A call of forward_signal. */
  datatype Call = Call(origin: NodeId, dest: NodeId, route: RouteId, target: SessionId, envelope: Envelope)

  datatype System = System(
    nodes: map<NodeId, Node>,
    sent: set<Packet>,
    calls: map<RequestId, Call>,
    answers: map<RequestId, bool>)

  /** `key` renders the dedupe key of a sender and a message id, `frame` an envelope for a queue. */
  datatype Config = Config(
    maxPending: nat,
    window: real,
    dedupeCapacity: nat,
    limits: Outbound.Limits,
    key: (NodeId, MessageId) -> Key,
    frame: Envelope -> Outbound.Frame)

  datatype Event =
    | Forward(node: NodeId, dest: NodeId, request: RequestId, id: MessageId, route: RouteId, target: SessionId,
              envelope: Envelope, transmitted: bool)
    | SendFailed(node: NodeId, request: RequestId)
    | Resume(node: NodeId, request: RequestId)
    | TimedOut(node: NodeId, request: RequestId)
    | Cancelled(node: NodeId, request: RequestId)
    | Receive(node: NodeId, packet: Packet, now: real, ackId: MessageId, transmitted: bool)
    | QueryStart(node: NodeId, request: RequestId)
    | QueryEnd(node: NodeId, request: RequestId)
    | OtherCheck(node: NodeId, op: ReplayTable.Op)
    | Queues(node: NodeId, queueing: Outbound.Event)
    | Routing(node: NodeId, routing: RouteIndex.Event)

  ghost predicate Unused(sys: System, id: MessageId) {
    forall p :: p in sys.sent ==> p.id != id
  }

  // ---- one node ------------------------------------------------------------------------

  function Pending(n: Node): nat {
    |n.queries| + |n.acks|
  }

  /** forward_signal awaits one more ack. */
  function Started(n: Node, request: RequestId): Node {
    n.(acks := n.acks[request := None])
  }

  /** The pending ack is popped. */
  function Popped(n: Node, request: RequestId): Node {
    n.(acks := n.acks - {request})
  }

  function QueryStarted(n: Node, request: RequestId): Node {
    n.(queries := n.queries + {request})
  }

  function QueryEnded(n: Node, request: RequestId): Node {
    n.(queries := n.queries - {request})
  }

  /** The replay table was used for something else, as by the relay of v1 messages. */
  function Checked(n: Node, op: ReplayTable.Op): Node {
    n.(ops := n.ops + [op])
  }

  /** The hub's outbound queues took a step. */
  function Queued(c: Config, n: Node, e: Outbound.Event): Node {
    n.(out := Outbound.Step(c.limits, n.out, e))
  }

  /** The hub's route index took a step. */
  function Routed(n: Node, e: RouteIndex.Event): Node {
    n.(index := RouteIndex.Step(n.index, e))
  }

  /** The node's clock has not passed `now`. */
  predicate InTime(n: Node, now: real) {
    n.ops == [] || n.ops[|n.ops| - 1].now <= now
  }

  function ReceiptOp(c: Config, p: Packet, now: real): ReplayTable.Op {
    ReplayTable.Check(c.key(p.src, p.id), c.window, now)
  }

  /** The receive loop lets the packet through its replay check. */
  predicate FirstSeen(c: Config, n: Node, p: Packet, now: real) {
    ReplayTable.Takes(n.ops, c.key(p.src, p.id), c.window, now, c.dedupeCapacity)
  }

  /** app/node_mesh.py:412-428: the envelope is a valid signal for this route and target, and the
      target is subscribed to the route at this moment. */
  predicate Addressed(n: Node, body: Body, now: real) {
    && body.SignalForward?
    && body.envelope.valid && body.envelope.route == body.route && body.envelope.target == body.target
    && body.target in RouteIndex.Subscribers(n.index, body.route, None, now)
  }

  /** And the target's outbound queue takes the frame. */
  predicate Enqueues(c: Config, n: Node, body: Body, now: real) {
    && Addressed(n, body, now)
    && body.target in n.out.lanes && Outbound.Fits(c.limits, n.out.lanes[body.target], c.frame(body.envelope))
  }

  /** The node after a packet arrived. */
  function Receipt(c: Config, n: Node, p: Packet, now: real): Node {
    var marked := n.(ops := n.ops + [ReceiptOp(c, p, now)]);
    if !FirstSeen(c, n, p, now) then marked
    else
      match p.body
      case SignalForward(_, _, target, envelope) =>
        if Addressed(n, p.body, now)
        then marked.(out := Outbound.Step(c.limits, n.out, Outbound.Send(target, c.frame(envelope)))) else marked
      case Ack(request, delivered) =>
        if request in n.acks && n.acks[request] == None then marked.(acks := n.acks[request := Some(delivered)]) else marked
  }

  /** What it answers, if it answers. */
  function Reply(c: Config, n: Node, p: Packet, now: real): Option<Body> {
    if FirstSeen(c, n, p, now) && p.body.SignalForward? then Some(Ack(p.body.request, Enqueues(c, n, p.body, now))) else None
  }

  // ---- all nodes -----------------------------------------------------------------------

  ghost predicate CanForward(c: Config, sys: System, e: Event) {
    && e.Forward? && e.node in sys.nodes && e.dest != e.node
    && Pending(sys.nodes[e.node]) < c.maxPending
    && e.request !in sys.calls && Unused(sys, e.id)
  }

  ghost predicate CanReceive(sys: System, e: Event) {
    && e.Receive? && e.node in sys.nodes && e.packet in sys.sent && e.packet.dst == e.node
    && InTime(sys.nodes[e.node], e.now) && Unused(sys, e.ackId)
  }

  predicate Awaiting(sys: System, node: NodeId, request: RequestId) {
    node in sys.nodes && request in sys.nodes[node].acks
  }

  function WithNode(sys: System, id: NodeId, n: Node): System {
    sys.(nodes := sys.nodes[id := n])
  }

  function Forwarded(sys: System, e: Event): System
    requires e.Forward? && e.node in sys.nodes
  {
    var body := SignalForward(e.request, e.route, e.target, e.envelope);
    WithNode(sys, e.node, Started(sys.nodes[e.node], e.request)).(
      calls := sys.calls[e.request := Call(e.node, e.dest, e.route, e.target, e.envelope)],
      sent := sys.sent + (if e.transmitted then {Packet(e.node, e.dest, e.id, body)} else {}))
  }

  /** The pending ack is popped, with or without an answer to the caller. */
  function Answered(sys: System, node: NodeId, request: RequestId, answer: Option<bool>): System
    requires Awaiting(sys, node, request)
  {
    WithNode(sys, node, Popped(sys.nodes[node], request)).(
      answers := if answer.Some? then sys.answers[request := answer.value] else sys.answers)
  }

  function Received(c: Config, sys: System, e: Event): System
    requires e.Receive? && e.node in sys.nodes
  {
    var n := sys.nodes[e.node];
    var reply := Reply(c, n, e.packet, e.now);
    WithNode(sys, e.node, Receipt(c, n, e.packet, e.now)).(
      sent := sys.sent + if reply.Some? && e.transmitted then {Packet(e.node, e.packet.src, e.ackId, reply.value)} else {})
  }

  /** One event; one that is not enabled changes nothing. */
  ghost function Step(c: Config, sys: System, e: Event): System {
    match e
    case Forward(_, _, _, _, _, _, _, _) => if CanForward(c, sys, e) then Forwarded(sys, e) else sys
    case SendFailed(node, request) => if Awaiting(sys, node, request) then Answered(sys, node, request, Some(false)) else sys
    case Resume(node, request) =>
      if Awaiting(sys, node, request) && sys.nodes[node].acks[request].Some?
      then Answered(sys, node, request, sys.nodes[node].acks[request]) else sys
    case TimedOut(node, request) => if Awaiting(sys, node, request) then Answered(sys, node, request, Some(false)) else sys
    case Cancelled(node, request) => if Awaiting(sys, node, request) then Answered(sys, node, request, None) else sys
    case Receive(_, _, _, _, _) => if CanReceive(sys, e) then Received(c, sys, e) else sys
    case QueryStart(node, request) =>
      if node in sys.nodes && Pending(sys.nodes[node]) < c.maxPending
      then WithNode(sys, node, QueryStarted(sys.nodes[node], request)) else sys
    case QueryEnd(node, request) =>
      if node in sys.nodes then WithNode(sys, node, QueryEnded(sys.nodes[node], request)) else sys
    case OtherCheck(node, op) =>
      if node in sys.nodes && InTime(sys.nodes[node], op.now)
      then WithNode(sys, node, Checked(sys.nodes[node], op)) else sys
    case Queues(node, change) =>
      if node in sys.nodes then WithNode(sys, node, Queued(c, sys.nodes[node], change)) else sys
    case Routing(node, change) =>
      if node in sys.nodes then WithNode(sys, node, Routed(sys.nodes[node], change)) else sys
  }

  ghost function Start(ids: set<NodeId>): System {
    System(map n | n in ids :: Node(map[], {}, [], Outbound.EMPTY, RouteIndex.EMPTY), {}, map[], map[])
  }

  ghost function After(c: Config, ids: set<NodeId>, events: seq<Event>, n: nat): System
    requires n <= |events|
  {
    if n == 0 then Start(ids) else Step(c, After(c, ids, events, n - 1), events[n - 1])
  }

  /** Step `k` put exactly the envelope of call `request` into the outbound queue of its target,
      a subscriber of its route at that moment, on the node the call was addressed to. */
  ghost predicate Delivers(c: Config, ids: set<NodeId>, events: seq<Event>, k: nat, request: RequestId, call: Call)
    requires k < |events|
  {
    var sys, e := After(c, ids, events, k), events[k];
    && CanReceive(sys, e) && e.node == call.dest && e.packet.src == call.origin
    && e.packet.body == SignalForward(request, call.route, call.target, call.envelope)
    && FirstSeen(c, sys.nodes[e.node], e.packet, e.now)
    && Enqueues(c, sys.nodes[e.node], e.packet.body, e.now)
  }

  // ---------------------------------------------------------------------------

  function PacketOf(request: RequestId, call: Call): Body {
    SignalForward(request, call.route, call.target, call.envelope)
  }

  /** What was sent on behalf of a request carries exactly its call, in one packet. */
  ghost predicate SentMatches(sent: set<Packet>, calls: map<RequestId, Call>) {
    && (forall p :: p in sent && p.body.SignalForward? ==>
         && p.body.request in calls
         && p.src == calls[p.body.request].origin && p.dst == calls[p.body.request].dest
         && p.body == PacketOf(p.body.request, calls[p.body.request]))
    && (forall p, q :: p in sent && q in sent && SameRequest(p.body, q.body) ==> p == q)
  }

  predicate SameRequest(a: Body, b: Body) {
    a.SignalForward? && b.SignalForward? && a.request == b.request
  }

  /** A node awaits acks only for calls it started. */
  ghost predicate AcksMatch(nodes: map<NodeId, Node>, calls: map<RequestId, Call>) {
    forall n, r :: n in nodes && r in nodes[n].acks ==> r in calls && calls[r].origin == n
  }

  ghost predicate Inv(sys: System) {
    SentMatches(sys.sent, sys.calls) && AcksMatch(sys.nodes, sys.calls)
  }

  lemma SentWithForward(sent: set<Packet>, calls: map<RequestId, Call>, request: RequestId, call: Call, id: MessageId, transmitted: bool)
    requires SentMatches(sent, calls) && request !in calls
    ensures SentMatches(
      sent + if transmitted then {Packet(call.origin, call.dest, id, PacketOf(request, call))} else {},
      calls[request := call])
  {
  }

  lemma SentWithAck(sent: set<Packet>, calls: map<RequestId, Call>, reply: Packet, transmitted: bool)
    requires SentMatches(sent, calls) && reply.body.Ack?
    ensures SentMatches(sent + if transmitted then {reply} else {}, calls)
  {
  }

  lemma NodeChange(nodes: map<NodeId, Node>, calls: map<RequestId, Call>, id: NodeId, node: Node)
    requires AcksMatch(nodes, calls) && id in nodes
    requires forall r :: r in node.acks ==> r in nodes[id].acks
    ensures AcksMatch(nodes[id := node], calls)
  {
  }

  lemma ForwardedKeeps(c: Config, sys: System, e: Event)
    requires Inv(sys) && CanForward(c, sys, e)
    ensures Inv(Forwarded(sys, e))
  {
    SentWithForward(sys.sent, sys.calls, e.request, Call(e.node, e.dest, e.route, e.target, e.envelope), e.id, e.transmitted);
    hide SentMatches, Unused;
  }

  lemma ReceivedKeeps(c: Config, sys: System, e: Event)
    requires Inv(sys) && CanReceive(sys, e)
    ensures Inv(Received(c, sys, e)) && Received(c, sys, e).calls == sys.calls
  {
    hide SentMatches, AcksMatch, FirstSeen, Addressed, Enqueues, ReceiptOp;
    var n, next := sys.nodes[e.node], Received(c, sys, e);
    NodeChange(sys.nodes, sys.calls, e.node, next.nodes[e.node]);
    assert next.nodes == sys.nodes[e.node := next.nodes[e.node]];
    var reply := Reply(c, n, e.packet, e.now);
    SentWithAck(sys.sent, sys.calls,
                Packet(e.node, e.packet.src, e.ackId, if reply.Some? then reply.value else Ack(RequestId(""), false)), reply.Some? && e.transmitted);
  }

  /** The node an event changes when it is neither a Forward nor a Receive. */
  lemma LocalStep(c: Config, sys: System, e: Event)
    requires !e.Forward? && !e.Receive?
    ensures var next := Step(c, sys, e);
      && next.sent == sys.sent && next.calls == sys.calls
      && (next.nodes != sys.nodes ==>
           && e.node in sys.nodes && next.nodes.Keys == sys.nodes.Keys
           && next.nodes == sys.nodes[e.node := next.nodes[e.node]]
           && forall r :: r in next.nodes[e.node].acks ==>
                r in sys.nodes[e.node].acks && next.nodes[e.node].acks[r] == sys.nodes[e.node].acks[r])
  {
    hide InTime, Pending;
  }

  lemma StepKeeps(c: Config, sys: System, e: Event)
    requires Inv(sys)
    ensures Inv(Step(c, sys, e))
    ensures forall r :: r in sys.calls ==> r in Step(c, sys, e).calls && Step(c, sys, e).calls[r] == sys.calls[r]
  {
    if e.Forward? {
      hide Inv;
      if CanForward(c, sys, e) { ForwardedKeeps(c, sys, e); }
    } else if e.Receive? {
      hide Inv, Received;
      if CanReceive(sys, e) { ReceivedKeeps(c, sys, e); }
    } else {
      LocalStep(c, sys, e);
      hide Step, SentMatches, AcksMatch;
      var next := Step(c, sys, e);
      if next.nodes != sys.nodes {
        NodeChange(sys.nodes, sys.calls, e.node, next.nodes[e.node]);
      }
    }
  }

  lemma {:induction false} RunKeeps(c: Config, ids: set<NodeId>, events: seq<Event>, n: nat)
    requires n <= |events|
    ensures Inv(After(c, ids, events, n))
  {
    if n > 0 {
      hide Inv, Step;
      RunKeeps(c, ids, events, n - 1);
      StepKeeps(c, After(c, ids, events, n - 1), events[n - 1]);
    }
  }

  // ---------------------------------------------------------------------------
  // Ack soundness.

  /** The positive acks of a system: on the wire, or set in a pending future. */
  predicate Claims(sys: System, request: RequestId) {
    || (exists p :: p in sys.sent && p.body == Ack(request, true))
    || (exists n :: n in sys.nodes && request in sys.nodes[n].acks && sys.nodes[n].acks[request] == Some(true))
  }

  /** A step that makes a claim first true is the delivery of that call. */
  lemma ClaimsComeFromDelivery(c: Config, ids: set<NodeId>, events: seq<Event>, k: nat, request: RequestId)
    requires k < |events|
    requires Claims(After(c, ids, events, k + 1), request) && !Claims(After(c, ids, events, k), request)
    ensures var calls := After(c, ids, events, k).calls;
      request in calls && Delivers(c, ids, events, k, request, calls[request])
  {
    var sys, e := After(c, ids, events, k), events[k];
    RunKeeps(c, ids, events, k);
    if e.Receive? && CanReceive(sys, e) {
      ReceivedClaims(c, sys, e, request);
    } else if e.Forward? && CanForward(c, sys, e) {
      ForwardedClaims(c, sys, e, request);
    } else {
      LocalClaims(c, sys, e, request);
    }
  }

  lemma ReceivedClaims(c: Config, sys: System, e: Event, request: RequestId)
    requires Inv(sys) && CanReceive(sys, e)
    requires Claims(Received(c, sys, e), request) && !Claims(sys, request)
    ensures request in sys.calls && e.packet.src == sys.calls[request].origin && e.node == sys.calls[request].dest
    ensures e.packet.body == PacketOf(request, sys.calls[request])
    ensures FirstSeen(c, sys.nodes[e.node], e.packet, e.now)
    ensures Enqueues(c, sys.nodes[e.node], e.packet.body, e.now)
  {
    hide FirstSeen, Enqueues, ReceiptOp, InTime, Unused;
  }

  lemma ForwardedClaims(c: Config, sys: System, e: Event, request: RequestId)
    requires CanForward(c, sys, e) && Claims(Forwarded(sys, e), request)
    ensures Claims(sys, request)
  {
  }

  lemma LocalClaims(c: Config, sys: System, e: Event, request: RequestId)
    requires (e.Forward? ==> !CanForward(c, sys, e)) && (e.Receive? ==> !CanReceive(sys, e))
    requires Claims(Step(c, sys, e), request)
    ensures Claims(sys, request)
  {
    if !e.Forward? && !e.Receive? {
      LocalStep(c, sys, e);
      hide Step;
    }
  }

  lemma {:induction false} ClaimedCallsWereDelivered(c: Config, ids: set<NodeId>, events: seq<Event>, n: nat, request: RequestId)
    returns (k: nat)
    requires n <= |events| && Claims(After(c, ids, events, n), request)
    ensures k < n && request in After(c, ids, events, n).calls
    ensures Delivers(c, ids, events, k, request, After(c, ids, events, n).calls[request])
  {
    hide Step, Delivers, Inv;
    var last := After(c, ids, events, n - 1);
    RunKeeps(c, ids, events, n - 1);
    StepKeeps(c, last, events[n - 1]);
    if Claims(last, request) {
      k := ClaimedCallsWereDelivered(c, ids, events, n - 1, request);
    } else {
      ClaimsComeFromDelivery(c, ids, events, n - 1, request);
      k := n - 1;
    }
  }

  lemma TrueMeansClaimed(c: Config, sys: System, e: Event, request: RequestId)
    requires request in Step(c, sys, e).answers && Step(c, sys, e).answers[request]
    ensures (request in sys.answers && sys.answers[request]) || Claims(sys, request)
  {
    hide Unused, InTime, Pending, Receipt, Reply;
  }

  /** Ack soundness. Whenever forward_signal has answered true, some earlier step put exactly
      that call's envelope into the queue of its target, then a subscriber of its route, on the
      node the call was addressed to. */
  lemma {:induction false} TrueMeansDelivered(c: Config, ids: set<NodeId>, events: seq<Event>, n: nat, request: RequestId)
    returns (k: nat)
    requires n <= |events| && request in After(c, ids, events, n).answers && After(c, ids, events, n).answers[request]
    ensures k < n && request in After(c, ids, events, n).calls
    ensures Delivers(c, ids, events, k, request, After(c, ids, events, n).calls[request])
  {
    hide Delivers, Claims, Step, Inv;
    var before := After(c, ids, events, n - 1);
    RunKeeps(c, ids, events, n - 1);
    StepKeeps(c, before, events[n - 1]);
    if request in before.answers && before.answers[request] {
      k := TrueMeansDelivered(c, ids, events, n - 1, request);
    } else {
      TrueMeansClaimed(c, before, events[n - 1], request);
      k := ClaimedCallsWereDelivered(c, ids, events, n - 1, request);
    }
  }

  /** What a delivery is: the target's queue, which the hub accounts for, grows by the frame of
      exactly that envelope, and its session subscribes to the route at that moment. */
  lemma DeliveryIsQueued(c: Config, ids: set<NodeId>, events: seq<Event>, k: nat, request: RequestId, call: Call)
    requires k < |events| && Delivers(c, ids, events, k, request, call)
    ensures call.dest in After(c, ids, events, k).nodes && call.dest in After(c, ids, events, k + 1).nodes
    ensures var n, next, frame := After(c, ids, events, k).nodes[call.dest], After(c, ids, events, k + 1).nodes[call.dest], c.frame(call.envelope);
      && call.target in RouteIndex.Subscribers(n.index, call.route, None, events[k].now)
      && next.out == Outbound.Step(c.limits, n.out, Outbound.Send(call.target, frame))
      && call.target in n.out.lanes && call.target in next.out.lanes
      && next.out.lanes[call.target].accepted == n.out.lanes[call.target].accepted + [frame]
  {
    hide FirstSeen, Unused, InTime, ReceiptOp, RouteIndex.Subscribers;
    var sys := After(c, ids, events, k);
    assert After(c, ids, events, k + 1) == Step(c, sys, events[k]);
    hide After;
  }

  // ---------------------------------------------------------------------------
  // The ceiling.

  ghost predicate WithinCeiling(c: Config, sys: System) {
    forall n :: n in sys.nodes ==> Pending(sys.nodes[n]) <= c.maxPending
  }

  lemma PendingGrowsByOne(n: Node, request: RequestId, v: Option<bool>)
    ensures Pending(n.(acks := n.acks[request := None])) <= Pending(n) + 1
    ensures Pending(n.(queries := n.queries + {request})) <= Pending(n) + 1
    ensures Pending(n.(acks := n.acks - {request})) <= Pending(n)
    ensures Pending(n.(queries := n.queries - {request})) <= Pending(n)
    ensures request in n.acks ==> Pending(n.(acks := n.acks[request := v])) == Pending(n)
  {
    assert n.acks[request := None].Keys == n.acks.Keys + {request};
    assert (n.acks - {request}).Keys == n.acks.Keys - {request};
    assert n.acks[request := v].Keys == n.acks.Keys + {request};
    assert |n.acks| == |n.acks.Keys|;
  }

  /** One event leaves every node but its own alone, and its own within the ceiling. */
  lemma PendingStep(c: Config, sys: System, e: Event)
    requires e.node in sys.nodes && Pending(sys.nodes[e.node]) <= c.maxPending
    ensures e.node in Step(c, sys, e).nodes && Pending(Step(c, sys, e).nodes[e.node]) <= c.maxPending
    ensures forall n :: n in Step(c, sys, e).nodes && n != e.node ==>
      n in sys.nodes && Step(c, sys, e).nodes[n] == sys.nodes[n]
  {
    hide Unused, InTime, FirstSeen, Addressed, Enqueues, ReceiptOp, Outbound.Step, RouteIndex.Step, Receipt, Reply;
    if e.Receive? {
      ReceivedPending(c, sys, e);
      hide Received, Pending;
    } else if !e.OtherCheck? && !e.Queues? && !e.Routing? {
      hide Pending;
      PendingLocal(c, sys, e);
    }
  }

  lemma PendingLocal(c: Config, sys: System, e: Event)
    requires e.node in sys.nodes && Pending(sys.nodes[e.node]) <= c.maxPending
    requires !e.Receive? && !e.OtherCheck? && !e.Queues? && !e.Routing?
    ensures e.node in Step(c, sys, e).nodes && Pending(Step(c, sys, e).nodes[e.node]) <= c.maxPending
    ensures forall n :: n in Step(c, sys, e).nodes && n != e.node ==>
      n in sys.nodes && Step(c, sys, e).nodes[n] == sys.nodes[n]
  {
    PendingGrowsByOne(sys.nodes[e.node], e.request, None);
    hide Pending, Unused, InTime, Outbound.Step, RouteIndex.Step, Receipt, Reply;
  }

  lemma ReceivedPending(c: Config, sys: System, e: Event)
    requires e.Receive? && e.node in sys.nodes
    ensures var next := Received(c, sys, e);
      && e.node in next.nodes && Pending(next.nodes[e.node]) == Pending(sys.nodes[e.node])
      && forall n :: n in next.nodes && n != e.node ==> n in sys.nodes && next.nodes[n] == sys.nodes[n]
  {
    hide FirstSeen, Enqueues, ReceiptOp;
    var n := sys.nodes[e.node];
    if e.packet.body.Ack? {
      PendingGrowsByOne(n, e.packet.body.request, Some(e.packet.body.delivered));
    }
  }

  lemma StepKeepsCeiling(c: Config, sys: System, e: Event)
    requires WithinCeiling(c, sys)
    ensures WithinCeiling(c, Step(c, sys, e))
  {
    if e.node in sys.nodes {
      PendingStep(c, sys, e);
      hide Step, Pending;
    }
  }

  /** Queries plus acks pending never exceed the configured ceiling on any node. */
  lemma {:induction false} PendingIsBounded(c: Config, ids: set<NodeId>, events: seq<Event>, n: nat)
    requires n <= |events|
    ensures WithinCeiling(c, After(c, ids, events, n))
  {
    if n > 0 {
      hide WithinCeiling, Step;
      PendingIsBounded(c, ids, events, n - 1);
      StepKeepsCeiling(c, After(c, ids, events, n - 1), events[n - 1]);
    }
  }

  // ---------------------------------------------------------------------------
  // At most once per dedupe window.

  /** A node's replay table only sees operations in clock order, appended one at a time. */
  ghost predicate Extends(ops: seq<ReplayTable.Op>, more: seq<ReplayTable.Op>) {
    || more == ops
    || (|more| == |ops| + 1 && ops <= more && (ops == [] || ops[|ops| - 1].now <= more[|ops|].now))
  }

  lemma OpsStep(c: Config, sys: System, e: Event, node: NodeId)
    requires node in sys.nodes
    ensures node in Step(c, sys, e).nodes && Extends(sys.nodes[node].ops, Step(c, sys, e).nodes[node].ops)
  {
    hide FirstSeen, Enqueues, Unused, Pending;
  }

  lemma ExtendsKeepsOrder(ops: seq<ReplayTable.Op>, more: seq<ReplayTable.Op>)
    requires Extends(ops, more) && ReplayTable.Ordered(ops)
    ensures ReplayTable.Ordered(more) && ops <= more
  {
  }

  lemma {:induction false} NodesStay(c: Config, ids: set<NodeId>, events: seq<Event>, n: nat, node: NodeId)
    requires n <= |events| && node in ids
    ensures node in After(c, ids, events, n).nodes
    ensures ReplayTable.Ordered(After(c, ids, events, n).nodes[node].ops)
  {
    if n > 0 {
      hide Step, Extends, ReplayTable.Ordered;
      NodesStay(c, ids, events, n - 1, node);
      var sys := After(c, ids, events, n - 1);
      OpsStep(c, sys, events[n - 1], node);
      ExtendsKeepsOrder(sys.nodes[node].ops, Step(c, sys, events[n - 1]).nodes[node].ops);
    }
  }

  /** Sent packets stay sent, and a node's replay history only grows. */
  lemma {:induction false} HistoryGrows(c: Config, ids: set<NodeId>, events: seq<Event>, k: nat, n: nat, node: NodeId)
    requires k <= n <= |events| && node in ids
    ensures After(c, ids, events, k).sent <= After(c, ids, events, n).sent
    ensures node in After(c, ids, events, k).nodes && node in After(c, ids, events, n).nodes
    ensures After(c, ids, events, k).nodes[node].ops <= After(c, ids, events, n).nodes[node].ops
    decreases n
  {
    hide Step, Extends, ReplayTable.Ordered;
    NodesStay(c, ids, events, k, node);
    NodesStay(c, ids, events, n, node);
    if k < n {
      HistoryGrows(c, ids, events, k, n - 1, node);
      var sys, e := After(c, ids, events, n - 1), events[n - 1];
      NodesStay(c, ids, events, n - 1, node);
      OpsStep(c, sys, e, node);
      ExtendsKeepsOrder(sys.nodes[node].ops, Step(c, sys, e).nodes[node].ops);
      SentGrows(c, sys, e);
    }
  }

  lemma SentGrows(c: Config, sys: System, e: Event)
    ensures sys.sent <= Step(c, sys, e).sent
  {
    hide FirstSeen, Enqueues, Unused, Pending, InTime;
  }

  lemma NodesAreFixed(c: Config, ids: set<NodeId>, events: seq<Event>, n: nat)
    requires n <= |events|
    ensures After(c, ids, events, n).nodes.Keys == ids
  {
    if n > 0 {
      NodesAreFixed(c, ids, events, n - 1);
      NodeKeys(c, After(c, ids, events, n - 1), events[n - 1]);
      hide Step;
    }
  }

  lemma NodeKeys(c: Config, sys: System, e: Event)
    ensures Step(c, sys, e).nodes.Keys == sys.nodes.Keys
  {
    hide FirstSeen, Enqueues, Unused, Pending, InTime, ReceiptOp;
  }

  /** Right after a receipt, the node's replay history ends with it. */
  lemma ReceiptIsRecorded(c: Config, sys: System, e: Event)
    requires CanReceive(sys, e)
    ensures e.node in Step(c, sys, e).nodes
    ensures Step(c, sys, e).nodes[e.node].ops == sys.nodes[e.node].ops + [ReceiptOp(c, e.packet, e.now)]
  {
    hide FirstSeen, Enqueues, ReceiptOp;
  }

  /** Two deliveries of one call are two receipts of one packet along one replay history. */
  lemma DeliveriesRepeatOnePacket(c: Config, ids: set<NodeId>, events: seq<Event>, k: nat, l: nat, request: RequestId, call: Call)
    requires k < l < |events|
    requires Delivers(c, ids, events, k, request, call) && Delivers(c, ids, events, l, request, call)
    ensures events[k].packet == events[l].packet
  {
    hide FirstSeen, Enqueues, Unused, InTime, Step;
    NodesAreFixed(c, ids, events, k);
    HistoryGrows(c, ids, events, k, l, call.dest);
    RunKeeps(c, ids, events, l);
    assert SameRequest(events[k].packet.body, events[l].packet.body);
  }

  /** What the replay history of the addressee holds when a call is delivered at step `k`, and
      still holds before step `l`. */
  lemma DeliveryIsRecorded(c: Config, ids: set<NodeId>, events: seq<Event>, k: nat, l: nat, request: RequestId, call: Call)
    requires k < l < |events| && Delivers(c, ids, events, k, request, call)
    ensures call.dest in After(c, ids, events, k).nodes && call.dest in After(c, ids, events, l).nodes
    ensures After(c, ids, events, k).nodes[call.dest].ops + [ReceiptOp(c, events[k].packet, events[k].now)]
      <= After(c, ids, events, l).nodes[call.dest].ops
    ensures ReplayTable.Ordered(After(c, ids, events, l).nodes[call.dest].ops)
  {
    hide FirstSeen, Enqueues, Unused, InTime, Step, ReceiptOp, ReplayTable.Ordered;
    NodesAreFixed(c, ids, events, k);
    NodesStay(c, ids, events, l, call.dest);
    HistoryGrows(c, ids, events, k + 1, l, call.dest);
    ReceiptIsRecorded(c, After(c, ids, events, k), events[k]);
  }

  /** At most once: however often the network repeats it, two deliveries of one call are at
      least the dedupe window apart. */
  lemma DeliveredOncePerWindow(c: Config, ids: set<NodeId>, events: seq<Event>, k: nat, l: nat, request: RequestId, call: Call)
    requires k < l < |events|
    requires Delivers(c, ids, events, k, request, call) && Delivers(c, ids, events, l, request, call)
    ensures events[l].now >= events[k].now + c.window
  {
    hide Enqueues, Unused, Step, After, ReplayTable.Takes;
    DeliveryIsRecorded(c, ids, events, k, l, request, call);
    DeliveriesRepeatOnePacket(c, ids, events, k, l, request, call);
    var p := events[k].packet;
    var early, late := After(c, ids, events, k).nodes[call.dest].ops, After(c, ids, events, l).nodes[call.dest].ops;
    assert ReplayTable.Ordered(late + [ReceiptOp(c, p, events[l].now)]);
    hide ReplayTable.Ordered;
    ReplayTable.TakesAreSpaced(early, late, c.key(p.src, p.id), c.window, events[k].now, events[l].now, c.dedupeCapacity);
  }

  // ---------------------------------------------------------------------------
  // The hubs behind the nodes.

  /** A node's queues keep their accounts and its route index stays mirrored. */
  ghost predicate HubInv(c: Config, n: Node) {
    Outbound.Inv(c.limits, n.out) && RouteIndex.Mirrored(n.index)
  }

  lemma ReceiptKeepsHub(c: Config, n: Node, p: Packet, now: real)
    requires HubInv(c, n)
    ensures HubInv(c, Receipt(c, n, p, now))
  {
    hide Outbound.Inv, Outbound.Step, RouteIndex.Mirrored, FirstSeen, Addressed, ReceiptOp;
    if p.body.SignalForward? {
      Outbound.StepKeeps(c.limits, n.out, Outbound.Send(p.body.target, c.frame(p.body.envelope)));
    }
  }

  lemma HubStep(c: Config, sys: System, e: Event, node: NodeId)
    requires node in sys.nodes && HubInv(c, sys.nodes[node])
    ensures node in Step(c, sys, e).nodes && HubInv(c, Step(c, sys, e).nodes[node])
  {
    hide Outbound.Inv, Outbound.Step, RouteIndex.Step, RouteIndex.Mirrored, Receipt, Reply, Unused, Pending, InTime;
    if e.node == node {
      match e
      case Receive(_, packet, now, _, _) => ReceiptKeepsHub(c, sys.nodes[node], packet, now);
      case Queues(_, queueing) => Outbound.StepKeeps(c.limits, sys.nodes[node].out, queueing);
      case Routing(_, routing) => RouteIndex.StepKeepsMirror(sys.nodes[node].index, routing);
      case _ =>
    }
  }

  /** Forwarded signals go through the same accounts as local ones: on every node of every run the
      queues keep their accounts and the index stays mirrored. */
  lemma {:induction false} HubsKeepAccounts(c: Config, ids: set<NodeId>, events: seq<Event>, n: nat, node: NodeId)
    requires n <= |events| && node in ids
    ensures node in After(c, ids, events, n).nodes && HubInv(c, After(c, ids, events, n).nodes[node])
  {
    hide Step, HubInv;
    if n == 0 {
      EmptyHub(c);
    } else {
      HubsKeepAccounts(c, ids, events, n - 1, node);
      HubStep(c, After(c, ids, events, n - 1), events[n - 1], node);
    }
  }

  lemma EmptyHub(c: Config)
    ensures HubInv(c, Node(map[], {}, [], Outbound.EMPTY, RouteIndex.EMPTY))
  {
    Outbound.RunKeeps(c.limits, []);
    RouteIndex.EmptyMirrors();
  }
}
