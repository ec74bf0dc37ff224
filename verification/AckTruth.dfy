/** What forward_signal answers when its ack comes back in time (app/node_mesh.py:205-233, 408-437):
    exactly whether the addressed node queued the envelope. */
module AckTruth {
  import opened Acks
  import opened Names
  import Outbound
  import RouteIndex

  /** No two packets on the wire share an id. */
  ghost predicate IdsAreUnique(sent: set<Packet>) {
    forall p, q :: p in sent && q in sent && p.id == q.id ==> p == q
  }

  lemma OneMorePacket(sent: set<Packet>, p: Packet, transmitted: bool)
    requires IdsAreUnique(sent) && forall q :: q in sent ==> q.id != p.id
    ensures IdsAreUnique(sent + if transmitted then {p} else {})
  {
  }

  lemma StepKeepsIds(c: Config, sys: System, e: Event)
    requires IdsAreUnique(sys.sent)
    ensures IdsAreUnique(Step(c, sys, e).sent)
  {
    hide IdsAreUnique, Receipt, InTime, Pending;
    if e.Forward? && CanForward(c, sys, e) {
      OneMorePacket(sys.sent, Packet(e.node, e.dest, e.id, SignalForward(e.request, e.route, e.target, e.envelope)), e.transmitted);
    } else if e.Receive? && CanReceive(sys, e) {
      var reply := Reply(c, sys.nodes[e.node], e.packet, e.now);
      hide Reply;
      if reply.Some? {
        OneMorePacket(sys.sent, Packet(e.node, e.packet.src, e.ackId, reply.value), e.transmitted);
      }
      hide Unused;
      assert !(reply.Some? && e.transmitted) ==> Step(c, sys, e).sent == sys.sent + {};
      assert sys.sent + {} == sys.sent;
    } else {
      SentStays(c, sys, e);
    }
  }

  lemma SentStays(c: Config, sys: System, e: Event)
    requires (e.Forward? ==> !CanForward(c, sys, e)) && (e.Receive? ==> !CanReceive(sys, e))
    ensures Step(c, sys, e).sent == sys.sent
  {
    if !e.Forward? && !e.Receive? {
      LocalStep(c, sys, e);
    }
  }

  lemma {:induction false} IdsStayUnique(c: Config, ids: set<NodeId>, events: seq<Event>, n: nat)
    requires n <= |events|
    ensures IdsAreUnique(After(c, ids, events, n).sent)
  {
    hide *;
    if n == 0 {
      NothingSent(c, ids, events);
    } else {
      IdsStayUnique(c, ids, events, n - 1);
      AfterStep(c, ids, events, n - 1);
      StepKeepsIds(c, After(c, ids, events, n - 1), events[n - 1]);
    }
  }

  lemma NothingSent(c: Config, ids: set<NodeId>, events: seq<Event>)
    ensures IdsAreUnique(After(c, ids, events, 0).sent)
  {
  }

  lemma AfterStep(c: Config, ids: set<NodeId>, events: seq<Event>, n: nat)
    requires n < |events|
    ensures After(c, ids, events, n + 1) == Step(c, After(c, ids, events, n), events[n])
  {
    hide Step;
  }

  /** The hub of a node takes the envelope: it is a valid signal for this route and target, the
      target has a running lease on the route, and the frame fits its queue. */
  predicate Takes(c: Config, n: Node, call: Call, now: real) {
    && call.envelope.valid && call.envelope.route == call.route && call.envelope.target == call.target
    && call.target in RouteIndex.Subscribers(n.index, call.route, None, now)
    && call.target in n.out.lanes
    && |n.out.lanes[call.target].queue| < c.limits.frames
    && n.out.lanes[call.target].bytes + c.frame(call.envelope).bytes <= c.limits.bytes
  }

  /** Step `k` takes the call up at its destination for the first time, and the ack leaves. */
  ghost predicate Handles(c: Config, ids: set<NodeId>, events: seq<Event>, k: nat, request: RequestId, call: Call)
    requires k < |events|
  {
    var sys, e := After(c, ids, events, k), events[k];
    && CanReceive(sys, e) && e.node == call.dest && e.packet.src == call.origin && e.transmitted
    && e.packet.body == SignalForward(request, call.route, call.target, call.envelope)
    && FirstSeen(c, sys.nodes[e.node], e.packet, e.now)
  }

  /** Step `l` takes up, for the first time, the packet that step `k` answered with, while its origin
      still awaits an ack. */
  ghost predicate AckArrives(c: Config, ids: set<NodeId>, events: seq<Event>, k: nat, l: nat, request: RequestId, call: Call)
    requires k < l < |events| && events[k].Receive?
  {
    var sys, e := After(c, ids, events, l), events[l];
    && CanReceive(sys, e) && e.node == call.origin && e.packet.id == events[k].ackId
    && FirstSeen(c, sys.nodes[e.node], e.packet, e.now)
    && request in sys.nodes[e.node].acks && sys.nodes[e.node].acks[request] == None
  }

  /** The event ends the wait of `request` at `node`. */
  predicate Pops(e: Event, node: NodeId, request: RequestId) {
    (e.SendFailed? || e.Resume? || e.TimedOut? || e.Cancelled?) && e.node == node && e.request == request
  }

  lemma HandlingAnswers(c: Config, sys: System, e: Event, request: RequestId, call: Call)
    requires CanReceive(sys, e) && e.node == call.dest && e.packet.src == call.origin && e.transmitted
    requires e.packet.body == SignalForward(request, call.route, call.target, call.envelope)
    requires FirstSeen(c, sys.nodes[e.node], e.packet, e.now)
    ensures Packet(call.dest, call.origin, e.ackId, Ack(request, Takes(c, sys.nodes[e.node], call, e.now))) in Step(c, sys, e).sent
    ensures Step(c, sys, e).sent == sys.sent + {Packet(call.dest, call.origin, e.ackId, Ack(request, Takes(c, sys.nodes[e.node], call, e.now)))}
  {
    hide FirstSeen, Unused, InTime, RouteIndex.Subscribers, Receipt;
  }

  lemma ArrivalSets(c: Config, sys: System, e: Event, request: RequestId, delivered: bool)
    requires CanReceive(sys, e) && FirstSeen(c, sys.nodes[e.node], e.packet, e.now) && e.packet.body == Ack(request, delivered)
    requires request in sys.nodes[e.node].acks && sys.nodes[e.node].acks[request] == None
    ensures AckIs(Step(c, sys, e), e.node, request, delivered)
  {
    hide FirstSeen, Unused, InTime, ReceiptOp, Reply;
  }

  ghost predicate AckIs(sys: System, node: NodeId, request: RequestId, delivered: bool) {
    node in sys.nodes && request in sys.nodes[node].acks && sys.nodes[node].acks[request] == Some(delivered)
  }

  /** The first ack counts, whatever else happens. */
  lemma AckStays(c: Config, sys: System, e: Event, node: NodeId, request: RequestId, delivered: bool)
    requires AckIs(sys, node, request, delivered) && Inv(sys) && !Pops(e, node, request)
    ensures AckIs(Step(c, sys, e), node, request, delivered)
  {
    hide FirstSeen, Unused, InTime, ReceiptOp, Reply, Addressed, Enqueues, Outbound.Step, RouteIndex.Step, SentMatches, Pending;
    assert request in sys.calls;
  }

  lemma {:induction false} AckLasts(c: Config, ids: set<NodeId>, events: seq<Event>, l: nat, m: nat,
                                    node: NodeId, request: RequestId, delivered: bool)
    requires l <= m <= |events| && AckIs(After(c, ids, events, l), node, request, delivered)
    requires forall j :: l <= j < m ==> !Pops(events[j], node, request)
    ensures AckIs(After(c, ids, events, m), node, request, delivered)
    decreases m
  {
    hide *;
    if l < m {
      AckLasts(c, ids, events, l, m - 1, node, request, delivered);
      RunKeeps(c, ids, events, m - 1);
      AfterStep(c, ids, events, m - 1);
      AckStays(c, After(c, ids, events, m - 1), events[m - 1], node, request, delivered);
    }
  }

  lemma ResumeAnswers(c: Config, sys: System, node: NodeId, request: RequestId, delivered: bool)
    requires AckIs(sys, node, request, delivered)
    ensures var next := Step(c, sys, Resume(node, request)); request in next.answers && next.answers[request] == delivered
  {
  }

  /** The packet that answers the call is the only one with its id. */
  lemma AnswerPacket(c: Config, ids: set<NodeId>, events: seq<Event>, k: nat, l: nat, request: RequestId, call: Call)
    requires k < l < |events| && Handles(c, ids, events, k, request, call) && AckArrives(c, ids, events, k, l, request, call)
    ensures events[l].packet.body == Ack(request, Takes(c, After(c, ids, events, k).nodes[call.dest], call, events[k].now))
  {
    hide Step, FirstSeen, Unused, InTime, Takes, IdsAreUnique, After;
    var sys, e := After(c, ids, events, k), events[k];
    HandlingAnswers(c, sys, e, request, call);
    AfterStep(c, ids, events, k);
    NodesAreFixed(c, ids, events, k);
    HistoryGrows(c, ids, events, k + 1, l, call.dest);
    IdsStayUnique(c, ids, events, l);
    SameId(After(c, ids, events, l).sent, events[l].packet,
           Packet(call.dest, call.origin, e.ackId, Ack(request, Takes(c, sys.nodes[call.dest], call, e.now))));
  }

  lemma SameId(sent: set<Packet>, p: Packet, q: Packet)
    requires IdsAreUnique(sent) && p in sent && q in sent && p.id == q.id
    ensures p == q
  {
  }

  lemma HandledAt(c: Config, ids: set<NodeId>, events: seq<Event>, k: nat, request: RequestId, call: Call)
    requires k < |events| && Handles(c, ids, events, k, request, call)
    ensures events[k].Receive? && call.dest in After(c, ids, events, k).nodes
  {
    hide After, FirstSeen, Unused, InTime;
  }

  lemma ArrivedAt(c: Config, ids: set<NodeId>, events: seq<Event>, k: nat, l: nat, request: RequestId, call: Call)
    requires k < l < |events| && events[k].Receive? && AckArrives(c, ids, events, k, l, request, call)
    ensures var sys, e := After(c, ids, events, l), events[l];
      && CanReceive(sys, e) && e.Receive? && e.node == call.origin && e.node in sys.nodes
      && FirstSeen(c, sys.nodes[e.node], e.packet, e.now)
      && request in sys.nodes[e.node].acks && sys.nodes[e.node].acks[request] == None
  {
    hide After, FirstSeen, Unused, InTime;
  }

  /** The answer tells what happened. If a call is handled at its destination at step `k`, the ack it
      sends arrives at step `l` while the call still waits, and the caller resumes at step `m`, then
      forward_signal answers true if the hub of the destination took the envelope at step `k`, and
      false if it did not. */
  lemma AnswerTellsWhatHappened(c: Config, ids: set<NodeId>, events: seq<Event>, k: nat, l: nat, m: nat, request: RequestId, call: Call)
    requires k < l < m < |events|
    requires Handles(c, ids, events, k, request, call) && AckArrives(c, ids, events, k, l, request, call)
    requires events[m] == Resume(call.origin, request) && forall j :: l < j < m ==> !Pops(events[j], call.origin, request)
    ensures call.dest in After(c, ids, events, k).nodes
    ensures var answers := After(c, ids, events, m + 1).answers;
      request in answers && answers[request] == Takes(c, After(c, ids, events, k).nodes[call.dest], call, events[k].now)
  {
    hide *;
    HandledAt(c, ids, events, k, request, call);
    ArrivedAt(c, ids, events, k, l, request, call);
    AnswerPacket(c, ids, events, k, l, request, call);
    var delivered := Takes(c, After(c, ids, events, k).nodes[call.dest], call, events[k].now);
    ArrivalSets(c, After(c, ids, events, l), events[l], request, delivered);
    AfterStep(c, ids, events, l);
    AckLasts(c, ids, events, l + 1, m, call.origin, request, delivered);
    ResumeAnswers(c, After(c, ids, events, m), call.origin, request, delivered);
    AfterStep(c, ids, events, m);
  }
}
