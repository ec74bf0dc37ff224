/** A mesh node together with its hub: signal forwarding and acknowledgement
    (app/node_mesh.py:205-233, 325-330, 408-437, 517-534), and everything else that happens on that
    hub. Each method is the part of one event, or of a few, of the machine in Acks that happens on
    this node. */
module MeshServer {
  import opened Names
  import Acks
  import HubModel
  import NodeMeshModel
  import Outbound
  import Registry
  import ReplayTable
  import RouteIndex

  class Server {
    const mesh: NodeMeshModel.NodeMesh
    const hub: HubModel.Hub
    const window: real
    const key: (NodeId, Acks.MessageId) -> Key
    const frame: Acks.Envelope -> Outbound.Frame
    ghost var ops: seq<ReplayTable.Op>

    /** What the machine in Acks sees of this node. */
    ghost function Node(): Acks.Node
      reads this, mesh, hub
    {
      Acks.Node(mesh.pendingAcks, mesh.pendingQueries.Keys, ops, hub.Out(), hub.Index())
    }

    ghost function Config(): Acks.Config {
      Acks.Config(mesh.config.maxPendingOperations, window, hub.config.maxDedupeEntries, hub.config.Limits(), key, frame)
    }

    /** The replay table is the one its history leads to. */
    ghost predicate Valid()
      reads this, mesh, hub
    {
      && mesh.Valid() && hub.Valid()
      && hub.seen == ReplayTable.After(ops, |ops|, hub.config.maxDedupeEntries)
    }

    constructor (mesh: NodeMeshModel.NodeMesh, hub: HubModel.Hub, window: real,
                 key: (NodeId, Acks.MessageId) -> Key, frame: Acks.Envelope -> Outbound.Frame)
      requires mesh.Valid() && hub.Valid() && hub.seen == map[]
      ensures Valid() && this.mesh == mesh && this.hub == hub && ops == []
      ensures this.window == window && this.key == key && this.frame == frame
    {
      this.mesh, this.hub, this.window, this.key, this.frame := mesh, hub, window, key, frame;
      ops := [];
    }

    /** A packet that the receive loop takes from its connection (app/node_mesh.py:325-330). */
    method Receive(packet: Acks.Packet, now: real) returns (reply: Option<Acks.Body>)
      requires Valid()
      modifies this, mesh, hub
      ensures Valid()
      ensures Node() == Acks.Receipt(Config(), old(Node()), packet, now)
      ensures reply == Acks.Reply(Config(), old(Node()), packet, now)
      ensures mesh.Descriptors() == old(mesh.Descriptors()) && mesh.Members() == old(mesh.Members())
    {
      hide Outbound.Inv, Outbound.Step, RouteIndex.Mirrored, Registry.Inv, ReplayTable.CheckAndMark, Acks.Addressed, Acks.Enqueues,
           HubModel.LanesOf, HubModel.RoutesOf;
      MarkIsAfter(ops, key(packet.src, packet.id), window, now, hub.config.maxDedupeEntries);
      var unseen := hub.CheckAndMarkSeen(key(packet.src, packet.id), window, now);
      ops := ops + [ReplayTable.Check(key(packet.src, packet.id), window, now)];
      if !unseen {
        return None;
      }
      HistoryIsIrrelevant(Config(), old(Node()), Node(), packet.body, now);
      match packet.body
      case SignalForward(request, _, _, _) =>
        var delivered := HandleSignalForward(packet.body, now);
        reply := Some(Acks.Ack(request, delivered));
      case Ack(request, delivered) =>
        mesh.HandleAck(request, delivered);
        reply := None;
    }

    /** SIGNAL_FORWARD (app/node_mesh.py:408-433): delivered exactly if the envelope is a valid
        signal for this route and target, the target subscribes to the route, and its queue takes
        the frame; and then exactly that frame is queued. */
    method HandleSignalForward(body: Acks.Body, now: real) returns (delivered: bool)
      requires Valid() && body.SignalForward?
      modifies hub
      ensures Valid() && hub.Index() == old(hub.Index())
      ensures delivered == Acks.Enqueues(Config(), old(Node()), body, now)
      ensures hub.Out() ==
        if Acks.Addressed(old(Node()), body, now)
        then Outbound.Step(hub.config.Limits(), old(hub.Out()), Outbound.Send(body.target, frame(body.envelope))) else old(hub.Out())
    {
      hide Outbound.Inv, Outbound.Step, Outbound.Fits, RouteIndex.Mirrored, RouteIndex.Subscribers, Registry.Inv,
           HubModel.LanesOf, HubModel.RoutesOf;
      HubModel.TableLookup(hub.sessions, hub.accepted, hub.processed, body.target);
      var valid := body.envelope.valid && body.envelope.route == body.route && body.envelope.target == body.target;
      if !valid {
        return false;
      }
      var subscribers := hub.RouteSubscribers(body.route, None, now);
      if body.target !in subscribers {
        assert body.target !in set s | s in subscribers;
        return false;
      }
      delivered := hub.SendSession(body.target, frame(body.envelope));
    }

    /** forward_signal up to its send. */
    method StartForward(target: SessionId, request: Acks.RequestId) returns (peer: Option<NodeId>)
      requires Valid() && request !in mesh.pendingAcks
      modifies mesh
      ensures Valid()
      ensures peer.Some? <==>
        && target in mesh.sessionNodes && mesh.sessionNodes[target] != mesh.config.self
        && mesh.sessionNodes[target] in mesh.connections && Acks.Pending(old(Node())) < Config().maxPending
      ensures Node() == if peer.Some? then Acks.Started(old(Node()), request) else old(Node())
    {
      hide Outbound.Inv, RouteIndex.Mirrored, Registry.Inv, HubModel.LanesOf, HubModel.RoutesOf;
      PendingQueries(mesh.pendingQueries);
      peer := mesh.BeginForward(target, request);
    }

    /** The end of forward_signal, with its answer. */
    method FinishForward(request: Acks.RequestId, sent: bool, timedOut: bool) returns (answer: bool)
      requires Valid()
      modifies mesh
      ensures Valid() && Node() == Acks.Popped(old(Node()), request)
      ensures answer == (sent && !timedOut && request in old(Node()).acks && old(Node()).acks[request] == Some(true))
    {
      hide Outbound.Inv, RouteIndex.Mirrored, Registry.Inv, HubModel.LanesOf, HubModel.RoutesOf;
      answer := mesh.EndForward(request, sent, timedOut);
    }

    /** _query_owner up to its send. */
    method StartQuery(request: Acks.RequestId) returns (ok: bool)
      requires Valid() && request !in mesh.pendingQueries
      modifies mesh
      ensures Valid() && ok == (Acks.Pending(old(Node())) < Config().maxPending)
      ensures Node() == if ok then Acks.QueryStarted(old(Node()), request) else old(Node())
    {
      hide Outbound.Inv, RouteIndex.Mirrored, Registry.Inv, HubModel.LanesOf, HubModel.RoutesOf;
      PendingQueries(mesh.pendingQueries);
      ok := mesh.BeginQuery(request);
    }

    /** The end of _query_owner. */
    method FinishQuery(request: Acks.RequestId, sent: bool, timedOut: bool) returns (items: seq<Registry.Descriptor>)
      requires Valid()
      modifies mesh
      ensures Valid() && Node() == Acks.QueryEnded(old(Node()), request)
    {
      hide Outbound.Inv, RouteIndex.Mirrored, Registry.Inv, HubModel.LanesOf, HubModel.RoutesOf;
      items := mesh.EndQuery(request, sent, timedOut);
    }

    // ---- what else happens on the hub --------------------------------------------

    /** Any other check of the hub's replay table: a v1 relay or a v2 signal (app/routes.py:275,
        app/v2.py:453). */
    method CheckAndMark(key: Key, ttl: real, now: real) returns (ok: bool)
      requires Valid()
      modifies this`ops, hub
      ensures Valid() && ok == ReplayTable.Takes(old(ops), key, ttl, now, hub.config.maxDedupeEntries)
      ensures Node() == Acks.Checked(old(Node()), ReplayTable.Check(key, ttl, now))
    {
      hide Outbound.Inv, RouteIndex.Mirrored, Registry.Inv, HubModel.LanesOf, HubModel.RoutesOf, ReplayTable.CheckAndMark;
      MarkIsAfter(ops, key, ttl, now, hub.config.maxDedupeEntries);
      ok := hub.CheckAndMarkSeen(key, ttl, now);
      ops := ops + [ReplayTable.Check(key, ttl, now)];
    }

    method PruneDedupe(now: real) returns (removed: nat)
      requires Valid()
      modifies this`ops, hub
      ensures Valid() && Node() == Acks.Checked(old(Node()), ReplayTable.Prune(now))
    {
      hide Outbound.Inv, RouteIndex.Mirrored, Registry.Inv, HubModel.LanesOf, HubModel.RoutesOf;
      PruneIsAfter(ops, now, hub.config.maxDedupeEntries);
      removed := hub.PruneDedupe(now);
      ops := ops + [ReplayTable.Prune(now)];
    }

    method AdmitSession(id: SessionId, now: real) returns (ok: bool)
      requires Valid() && id !in hub.sessions && id !in hub.writers
      modifies hub
      ensures Valid() && ok == (|old(hub.sessions)| < hub.config.maxConcurrency)
      ensures var queued := Acks.Queued(Config(), old(Node()), Outbound.Connect(id));
        Node() == if ok then Acks.Routed(queued, RouteIndex.Open(id)) else queued
    {
      hide Outbound.Inv, Outbound.Step, RouteIndex.Step, RouteIndex.Mirrored, Registry.Inv, HubModel.LanesOf, HubModel.RoutesOf;
      ok := hub.AdmitSession(id, now);
    }

    method RemoveSession(id: SessionId)
      requires Valid()
      modifies hub
      ensures Valid()
      ensures Node() == Acks.Routed(Acks.Queued(Config(), old(Node()), Outbound.Remove(id)), RouteIndex.Close(id))
    {
      hide Outbound.Inv, Outbound.Step, RouteIndex.Step, RouteIndex.Mirrored, Registry.Inv, HubModel.LanesOf, HubModel.RoutesOf;
      hub.RemoveSession(id);
    }

    /** Removes the stale sessions, each by the steps of a removal. */
    method PruneStaleSessions(now: real) returns (stale: set<SessionId>, ghost order: seq<SessionId>)
      requires Valid()
      modifies hub
      ensures Valid()
      ensures forall s :: s in stale <==> s in old(hub.sessions) && now - old(hub.sessions)[s].lastHeartbeat > hub.config.sessionStaleSeconds
      ensures |order| == |stale| && (forall s :: s in order <==> s in stale)
      ensures Node() == RemovedEach(Config(), old(Node()), order, |order|)
    {
      hide Outbound.Inv, Outbound.Step, RouteIndex.Step, RouteIndex.Mirrored, Registry.Inv, HubModel.LanesOf, HubModel.RoutesOf,
           HubModel.Stale, HubModel.LeasesWithout, HubModel.RemovedEach, RemovedEach;
      stale, order := hub.PruneStaleSessions(now);
      RemovedEachIs(Config(), old(Node()), old(hub.Now()), order, |order|);
    }

    /** A frame for a local session: a v2 signal to it, or any other answer. */
    method SendSession(id: SessionId, frame: Outbound.Frame) returns (ok: bool)
      requires Valid()
      modifies hub
      ensures Valid() && ok == (id in old(hub.sessions) && Outbound.Fits(hub.config.Limits(), old(hub.Out()).lanes[id], frame))
      ensures Node() == Acks.Queued(Config(), old(Node()), Outbound.Send(id, frame))
    {
      hide Outbound.Inv, Outbound.Step, Outbound.Fits, RouteIndex.Mirrored, Registry.Inv, HubModel.LanesOf, HubModel.RoutesOf;
      HubModel.TableLookup(hub.sessions, hub.accepted, hub.processed, id);
      ok := hub.SendSession(id, frame);
    }

    method WriterTake(id: SessionId) returns (frame: Option<Outbound.Frame>)
      requires Valid()
      modifies hub
      ensures Valid() && Node() == Acks.Queued(Config(), old(Node()), Outbound.Take(id))
      ensures frame == if Outbound.CanTake(old(hub.Out()), id) then Some(old(hub.Out()).lanes[id].queue[0]) else None
    {
      hide Outbound.Inv, Outbound.Step, RouteIndex.Step, RouteIndex.Mirrored, Registry.Inv, HubModel.LanesOf, HubModel.RoutesOf;
      frame := hub.WriterTake(id);
    }

    method WriterFinish(id: SessionId, ok: bool)
      requires Valid() && id in hub.writers && hub.writers[id].Sending?
      modifies hub
      ensures Valid() && Node() == Acks.Queued(Config(), old(Node()), Outbound.Finish(id, ok))
    {
      hide Outbound.Inv, Outbound.Step, RouteIndex.Step, RouteIndex.Mirrored, Registry.Inv, HubModel.LanesOf, HubModel.RoutesOf;
      hub.WriterFinish(id, ok);
    }

    method AttachRoute(id: SessionId, route: RouteId, ttlSeconds: Option<real>, maxRoutes: Option<nat>, now: real)
      returns (outcome: HubModel.AttachOutcome)
      requires Valid()
      modifies hub
      ensures Valid()
      ensures var limit := if maxRoutes.Some? then maxRoutes.value else hub.config.maxRoutesPerSession;
        var ttl := if ttlSeconds.Some? then ttlSeconds.value else hub.config.routeLeaseSeconds;
        && (outcome == HubModel.Attached <==>
             id in old(hub.sessions) && (route in old(hub.sessions)[id].routes || |old(hub.sessions)[id].routes| < limit))
        && Node() == Acks.Routed(old(Node()), RouteIndex.Attach(id, route, ttl, limit, now))
    {
      hide Outbound.Inv, Outbound.Step, RouteIndex.Step, RouteIndex.Mirrored, Registry.Inv, HubModel.LanesOf, HubModel.RoutesOf;
      outcome := hub.AttachRoute(id, route, ttlSeconds, maxRoutes, now);
    }

    method HeartbeatRoute(id: SessionId, route: RouteId, ttlSeconds: Option<real>, now: real) returns (renewed: bool)
      requires Valid()
      modifies hub
      ensures Valid() && (renewed <==> route in old(hub.routes) && id in old(hub.routes)[route])
      ensures var ttl := if ttlSeconds.Some? then ttlSeconds.value else hub.config.routeLeaseSeconds;
        Node() == Acks.Routed(old(Node()), RouteIndex.Renew(id, route, ttl, now))
    {
      hide Outbound.Inv, Outbound.Step, RouteIndex.Step, RouteIndex.Mirrored, Registry.Inv, HubModel.LanesOf, HubModel.RoutesOf;
      renewed := hub.HeartbeatRoute(id, route, ttlSeconds, now);
    }

    method DetachRoute(id: SessionId, route: RouteId)
      requires Valid()
      modifies hub
      ensures Valid() && Node() == Acks.Routed(old(Node()), RouteIndex.Detach(id, route))
    {
      hide Outbound.Inv, Outbound.Step, RouteIndex.Step, RouteIndex.Mirrored, Registry.Inv, HubModel.LanesOf, HubModel.RoutesOf;
      hub.DetachRoute(id, route);
    }

    method PruneRoutes(now: real) returns (removed: nat)
      requires Valid()
      modifies hub
      ensures Valid() && Node() == Acks.Routed(old(Node()), RouteIndex.Prune(now))
    {
      hide Outbound.Inv, Outbound.Step, RouteIndex.Step, RouteIndex.Mirrored, Registry.Inv, HubModel.LanesOf, HubModel.RoutesOf;
      removed := hub.PruneRoutes(now);
    }
  }

  lemma HistoryIsIrrelevant(c: Acks.Config, n: Acks.Node, marked: Acks.Node, body: Acks.Body, now: real)
    requires n.out == marked.out && n.index == marked.index
    ensures Acks.Addressed(n, body, now) == Acks.Addressed(marked, body, now)
    ensures Acks.Enqueues(c, n, body, now) == Acks.Enqueues(c, marked, body, now)
  {
  }

  /** One removal after another: the Remove and the Close event of each. */
  function RemovedEach(c: Acks.Config, n: Acks.Node, order: seq<SessionId>, count: nat): Acks.Node
    requires count <= |order|
  {
    if count == 0 then n
    else
      var id := order[count - 1];
      Acks.Routed(Acks.Queued(c, RemovedEach(c, n, order, count - 1), Outbound.Remove(id)), RouteIndex.Close(id))
  }

  lemma {:induction false} RemovedEachIs(c: Acks.Config, n: Acks.Node, shown: HubModel.Shown, order: seq<SessionId>, count: nat)
    requires count <= |order| && shown.out == n.out && shown.index == n.index
    ensures var now := HubModel.RemovedEach(c.limits, shown, order, count);
      RemovedEach(c, n, order, count) == n.(out := now.out, index := now.index)
  {
    hide Outbound.Step, RouteIndex.Step;
    if count > 0 {
      RemovedEachIs(c, n, shown, order, count - 1);
    }
  }

  lemma PruneIsAfter(ops: seq<ReplayTable.Op>, now: real, capacity: nat)
    ensures ReplayTable.Pruned(ReplayTable.After(ops, |ops|, capacity), now)
      == ReplayTable.After(ops + [ReplayTable.Prune(now)], |ops| + 1, capacity)
  {
    var op := ReplayTable.Prune(now);
    ReplayTable.AfterIgnoresLater(ops, ops + [op], |ops|, capacity);
    assert (ops + [op])[|ops|] == op;
    hide ReplayTable.Pruned;
  }

  lemma PendingQueries<V>(queries: map<Acks.RequestId, V>)
    ensures |queries.Keys| == |queries|
  {
  }

  /** One check on a table is one more operation of its history. */
  lemma MarkIsAfter(ops: seq<ReplayTable.Op>, key: Key, ttl: real, now: real, capacity: nat)
    ensures var op := ReplayTable.Check(key, ttl, now);
      && ReplayTable.CheckAndMark(ReplayTable.After(ops, |ops|, capacity), capacity, key, ttl, now)
      == (ReplayTable.After(ops + [op], |ops| + 1, capacity), ReplayTable.Takes(ops, key, ttl, now, capacity))
  {
    var op := ReplayTable.Check(key, ttl, now);
    ReplayTable.AfterIgnoresLater(ops, ops + [op], |ops|, capacity);
    assert (ops + [op])[|ops|] == op;
    hide ReplayTable.CheckAndMark;
  }
}
