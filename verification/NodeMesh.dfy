/** One mesh node (app/node_mesh.py): its connections, membership, descriptor registry and
    pending operations in one object. Its methods are the await-free regions of the source; each
    is one step of the machines in Membership and Registry. */
module NodeMeshModel {
  import opened Names
  import opened Numbers
  import Collections
  import Acks
  import opened Discovery
  import Membership
  import MeshLoops
  import Registry
  import Rendezvous

  type Descriptor = Registry.Descriptor

  datatype Socket = Socket(id: nat)

  type RequestId = Acks.RequestId

  datatype Config = Config(
    self: NodeId,
    trusted: set<NodeId>,
    epoch: int,
    suspicionSeconds: real,
    replicaCount: nat,
    routeLeaseSeconds: real,
    maxClockSkewSeconds: real,
    maxRouteDescriptors: nat,
    maxPendingOperations: nat,
    maxFanout: nat,
    digest: (RouteId, NodeId) -> nat)
  {
    function Universe(): set<NodeId> { {self} + trusted }

    function Members(): Membership.Config {
      Membership.Config(self, Universe(), epoch, suspicionSeconds)
    }

    function Descriptors(): Registry.Config {
      Registry.Config(self, routeLeaseSeconds, maxClockSkewSeconds, maxRouteDescriptors)
    }

    /** The owners of a route under some membership. */
    ghost function Owners(route: RouteId, members: set<NodeId>): seq<NodeId> {
      Rendezvous.OwnersFor(n => digest(route, n), members, replicaCount)
    }
  }

  /** The payload of a NODE_STATE with the field types of app/node_mesh.py:439-452. */
  datatype NodeState = NodeState(nodeId: NodeId, epoch: int, incarnation: string, connected: seq<NodeId>, sentAt: int)

  datatype RouteMessage =
    | RouteRegister(route: RouteId, descriptor: Descriptor)
    | RouteRemove(route: RouteId, node: NodeId, session: SessionId)
  {
    function From(): NodeId { if RouteRegister? then descriptor.node else node }

    /** The registry's step for this message. */
    function Event(wall: real, local: set<SessionId>): Registry.Event {
      match this
      case RouteRegister(route, d) => Registry.Register(route, d, wall, local)
      case RouteRemove(route, node, session) => Registry.Withdraw(route, node, session)
    }
  }

  function Abs(x: int): nat { if x < 0 then -x else x }

  class NodeMesh {
    const config: Config
    var connections: map<NodeId, Socket>
    var routeRegistry: Registry.Routes
    var routeDescriptorCount: int
    var sessionNodes: map<SessionId, NodeId>
    var descriptorCache: map<SessionId, Descriptor>
    var pendingQueries: map<RequestId, Option<seq<Descriptor>>>
    var pendingAcks: map<RequestId, Option<bool>>
    var membershipNodes: set<NodeId>
    var peerViews: map<NodeId, Membership.View>
    var suspectedSince: map<NodeId, real>
    var hasQuorum: bool

    ghost function Members(): Membership.State
      reads this
    {
      Membership.State(membershipNodes, connections.Keys, peerViews, suspectedSince, hasQuorum)
    }

    ghost function Descriptors(): Registry.State
      reads this
    {
      Registry.State(routeRegistry, routeDescriptorCount, sessionNodes, descriptorCache)
    }

    function Pending(): nat
      reads this
    {
      |pendingQueries| + |pendingAcks|
    }

    ghost predicate Valid()
      reads this
    {
      && config.self !in config.trusted
      && Membership.Inside(config.Members(), Members())
      && Registry.Inv(config.Descriptors(), Descriptors())
      && Pending() <= config.maxPendingOperations
    }

    constructor (config: Config)
      requires config.self !in config.trusted
      ensures Valid() && this.config == config
      ensures Members() == Membership.Start(config.Members()) && Descriptors() == Registry.EMPTY && Pending() == 0
    {
      this.config := config;
      connections, routeRegistry, routeDescriptorCount := map[], map[], 0;
      sessionNodes, descriptorCache, pendingQueries, pendingAcks := map[], map[], map[], map[];
      membershipNodes, peerViews, suspectedSince := config.Universe(), map[], map[];
      hasQuorum := |config.Universe()| == 1;
      new;
      Registry.EmptyKeeps(config.Descriptors());
    }

    /** The state part of `stop` (app/node_mesh.py:129-142). */
    method Stop()
      requires Valid()
      modifies this
      ensures Valid() && Members() == Membership.Start(config.Members())
      ensures Descriptors() == Registry.EMPTY && Pending() == 0
    {
      hide Registry.Inv, Membership.Inside, Membership.Start;
      pendingQueries, pendingAcks := map[], map[];
      ForgetDescriptors();
      CountEveryoneIn();
    }

    method ForgetDescriptors()
      modifies this`routeRegistry, this`routeDescriptorCount, this`sessionNodes, this`descriptorCache
      ensures Descriptors() == Registry.EMPTY && Registry.Inv(config.Descriptors(), Descriptors())
    {
      hide Registry.Inv;
      Registry.EmptyKeeps(config.Descriptors());
      routeRegistry, routeDescriptorCount, sessionNodes, descriptorCache := map[], 0, map[], map[];
    }

    method CountEveryoneIn()
      modifies this`connections, this`peerViews, this`suspectedSince, this`membershipNodes, this`hasQuorum
      ensures Members() == Membership.Start(config.Members()) && Membership.Inside(config.Members(), Members())
    {
      hide Membership.Inside, Membership.Start;
      StartIsInside(config);
      connections, peerViews, suspectedSince, membershipNodes := map[], map[], map[], config.Universe();
      hasQuorum := |membershipNodes| == 1;
    }

    // ---- membership ----------------------------------------------------------

    method ClaimConnection(peer: NodeId, socket: Socket) returns (ok: bool)
      requires Valid() && peer in config.trusted
      modifies this`connections
      ensures Valid() && ok == (peer in old(connections) ==> old(connections)[peer] == socket)
      ensures connections == if ok then old(connections)[peer := socket] else old(connections)
      ensures ok ==> Members() == Membership.Step(config.Members(), old(Members()), Membership.Claimed(peer))
    {
      hide Registry.Inv;
      if peer in connections && connections[peer] != socket {
        return false;
      }
      connections := connections[peer := socket];
      ok := true;
    }

    /** The end of a connection loop (app/node_mesh.py:333-338). */
    method LoseConnection(peer: NodeId, socket: Socket, now: real) returns (removed: bool)
      requires Valid() && peer in config.trusted
      modifies this`connections, this`suspectedSince
      ensures Valid() && removed == (peer in old(connections) && old(connections)[peer] == socket)
      ensures connections == if removed then old(connections) - {peer} else old(connections)
      ensures Members() ==
        if removed then Membership.Step(config.Members(), old(Members()), Membership.Lost(peer, now)) else old(Members())
    {
      hide Registry.Inv;
      removed := peer in connections && connections[peer] == socket;
      if removed {
        connections := connections - {peer};
        if peer !in suspectedSince {
          suspectedSince := suspectedSince[peer := now];
        }
      }
    }

    method ReconcileMembership(now: real)
      requires Valid()
      modifies this`membershipNodes, this`peerViews, this`suspectedSince, this`hasQuorum
      ensures Valid() && Members() == Membership.Step(config.Members(), old(Members()), Membership.Reconciled(now))
    {
      hide Registry.Inv, Membership.Inside, Membership.Step, Membership.Reconcile, Membership.Reporters,
           Membership.FreshViews, Membership.Quorate;
      var c := config.Members();
      var st := Membership.State(membershipNodes, connections.Keys, peerViews, suspectedSince, hasQuorum);
      ReconciledIs(c, st, now);
      var reporters;
      peerViews, reporters := MeshLoops.CollectReports(c, st, now);
      hasQuorum := |reporters| >= |c.universe| / 2 + 1;
      if hasQuorum {
        membershipNodes, suspectedSince := MeshLoops.JudgeCandidates(c, st, now, reporters);
      }
    }

    /** NODE_STATE (app/node_mesh.py:438-456). */
    method HandleNodeState(sender: NodeId, message: NodeState, wall: real, now: real) returns (accepted: bool)
      requires Valid() && sender in config.trusted
      modifies this`membershipNodes, this`peerViews, this`suspectedSince, this`hasQuorum
      ensures Valid()
      ensures accepted == (
        && message.nodeId == sender && message.epoch == config.epoch && 1 <= |message.incarnation| <= 64
        && |message.connected| <= 8 && (forall n :: n in message.connected ==> n in config.Universe())
        && Abs(Registry.Seconds(wall) - message.sentAt) as real <= config.maxClockSkewSeconds)
      ensures var c, heard := config.Members(), Membership.Heard(sender, message.epoch, message.connected, now);
        Members() == if accepted then Membership.Step(c, Membership.Step(c, old(Members()), heard), Membership.Reconciled(now))
                     else old(Members())
    {
      hide Registry.Inv, Membership.Reconcile;
      accepted :=
        && message.nodeId == sender && message.epoch == config.epoch && 1 <= |message.incarnation| <= 64
        && |message.connected| <= 8 && (forall n :: n in message.connected ==> n in config.Universe())
        && Abs(Registry.Seconds(wall) - message.sentAt) as real <= config.maxClockSkewSeconds;
      if accepted {
        Membership.StepStaysInside(config.Members(), Members(), Membership.Heard(sender, message.epoch, message.connected, now));
        peerViews := peerViews[sender := Membership.View(message.epoch, Membership.Shown(sender, message.connected), now)];
        ReconcileMembership(now);
      }
    }

    // ---- ownership -------------------------------------------------------------

    method OwnersFor(route: RouteId) returns (owners: seq<NodeId>)
      ensures owners == config.Owners(route, membershipNodes)
      ensures |owners| == Min(Max(1, config.replicaCount), |membershipNodes|)
    {
      owners := MeshLoops.OwnersFor(n => config.digest(route, n), membershipNodes, config.replicaCount);
    }

    /** The await-free part of _topology_changed after its reconciliation (app/node_mesh.py:499-510). */
    method DropStaleOwnership()
      requires Valid()
      modifies this`routeRegistry, this`routeDescriptorCount
      ensures Valid()
      ensures var owned := set r | r in old(routeRegistry) && config.self in config.Owners(r, membershipNodes);
        Descriptors() == Registry.Step(config.Descriptors(), old(Descriptors()),
                                       Registry.Rebalance(owned, {config.self} + connections.Keys))
    {
      hide Registry.Inv, Registry.Rebalanced, Registry.Size, Membership.Inside, Rendezvous.OwnersFor;
      ghost var owned := set r | r in routeRegistry && config.self in config.Owners(r, membershipNodes);
      assert owned == MeshLoops.Owned(config.digest, config.self, membershipNodes, config.replicaCount, routeRegistry.Keys);
      Registry.StepKeeps(config.Descriptors(), Descriptors(), Registry.Rebalance(owned, {config.self} + connections.Keys));
      routeRegistry, routeDescriptorCount := MeshLoops.DropUnowned(
        routeRegistry, routeDescriptorCount, config.digest, config.self, membershipNodes, config.replicaCount,
        {config.self} + connections.Keys);
    }

    // ---- registry --------------------------------------------------------------

    method ApplyRouteMessage(message: RouteMessage, wall: real, local: set<SessionId>)
      requires Valid()
      modifies this`routeRegistry, this`routeDescriptorCount, this`sessionNodes
      ensures Valid()
      ensures Descriptors() == Registry.Step(config.Descriptors(), old(Descriptors()), message.Event(wall, local))
    {
      hide Registry.Inv, Registry.Current, Membership.Inside, Registry.Size;
      var c := config.Descriptors();
      Registry.StepKeeps(c, Descriptors(), message.Event(wall, local));
      match message
      case RouteRemove(tag, node, session) =>
        if tag !in routeRegistry {
          return;
        }
        var route, key := routeRegistry[tag], (node, session);
        if key in route {
          route := route - {key};
          routeDescriptorCount := routeDescriptorCount - 1;
          routeRegistry := if route == map[] then routeRegistry - {tag} else routeRegistry[tag := route];
        }
      case RouteRegister(tag, d) =>
        if || !Registry.Current(c, d, wall)
           || (d.node != config.self && d.session in local)
           || (d.session in sessionNodes && sessionNodes[d.session] != d.node) {
          return;
        }
        var route := if tag in routeRegistry then routeRegistry[tag] else map[];
        var key := Registry.KeyOf(d);
        if key !in route {
          if routeDescriptorCount >= config.maxRouteDescriptors {
            return;
          }
          routeDescriptorCount := routeDescriptorCount + 1;
        }
        routeRegistry := routeRegistry[tag := route[key := d]];
        sessionNodes := sessionNodes[d.session := d.node];
    }

    /** ROUTE_REGISTER and ROUTE_REMOVE from a peer (app/node_mesh.py:378-388): only owners
        take them, and only from the node they name. */
    method HandleRouteMessage(sender: NodeId, message: RouteMessage, wall: real, local: set<SessionId>) returns (taken: bool)
      requires Valid()
      modifies this`routeRegistry, this`routeDescriptorCount, this`sessionNodes
      ensures Valid()
      ensures taken <==>
        && config.self in config.Owners(message.route, membershipNodes) && message.From() == sender
        && (message.RouteRegister? ==> Registry.Current(config.Descriptors(), message.descriptor, wall))
      ensures Descriptors() ==
        if taken then Registry.Step(config.Descriptors(), old(Descriptors()), message.Event(wall, local)) else old(Descriptors())
    {
      hide Registry.Inv, Registry.Step, Registry.Current, Membership.Inside, Rendezvous.OwnersFor;
      var owners := OwnersFor(message.route);
      taken := && config.self in owners && message.From() == sender
               && (message.RouteRegister? ==> Registry.Current(config.Descriptors(), message.descriptor, wall));
      if taken {
        ApplyRouteMessage(message, wall, local);
      }
    }

    /** _replicate up to its sends: the local copy if this node is an owner, and the connected
        owners a copy goes to, in rank order. */
    method Replicate(message: RouteMessage, wall: real, local: set<SessionId>) returns (sends: seq<NodeId>)
      requires Valid()
      modifies this`routeRegistry, this`routeDescriptorCount, this`sessionNodes
      ensures Valid()
      ensures sends == Sends(config.Owners(message.route, membershipNodes), config.self, connections.Keys)
      ensures Descriptors() ==
        if config.self in config.Owners(message.route, membershipNodes)
        then Registry.Step(config.Descriptors(), old(Descriptors()), message.Event(wall, local)) else old(Descriptors())
    {
      hide Registry.Inv, Registry.Step, Membership.Inside, Rendezvous.OwnersFor, Sends;
      var owners := OwnersFor(message.route);
      OwnersAreDistinct(config, message.route, membershipNodes);
      sends := [];
      assert owners[..0] == [] && Sends([], config.self, connections.Keys) == [] by {
        NoSends(config.self, connections.Keys);
      }
      for i := 0 to |owners|
        invariant Valid() && owners == config.Owners(message.route, membershipNodes)
        invariant sends == Sends(owners[..i], config.self, connections.Keys)
        invariant Descriptors() ==
          if config.self in owners[..i]
          then Registry.Step(config.Descriptors(), old(Descriptors()), message.Event(wall, local)) else old(Descriptors())
      {
        SendsAppend(owners[..i], owners[i], config.self, connections.Keys);
        assert owners[..i + 1] == owners[..i] + [owners[i]];
        if owners[i] == config.self {
          ApplyRouteMessage(message, wall, local);
        } else if owners[i] in connections {
          sends := sends + [owners[i]];
        }
      }
      assert owners[..|owners|] == owners;
    }

    method PruneRoutes(wall: real)
      requires Valid()
      modifies this`routeRegistry, this`routeDescriptorCount, this`sessionNodes, this`descriptorCache
      ensures Valid()
      ensures Descriptors() == Registry.Step(config.Descriptors(), old(Descriptors()), Registry.Prune(wall))
    {
      hide Registry.Inv, Registry.Pruned, Registry.Size, Membership.Inside, Registry.ExpiredCache;
      Registry.StepKeeps(config.Descriptors(), Descriptors(), Registry.Prune(wall));
      sessionNodes, descriptorCache := MeshLoops.ForgetExpired(
        Registry.State(routeRegistry, routeDescriptorCount, sessionNodes, descriptorCache), wall);
      routeRegistry, routeDescriptorCount := MeshLoops.PruneRoutes(routeRegistry, routeDescriptorCount, wall);
    }

    method CacheDescriptor(d: Descriptor, wall: real, local: set<SessionId>) returns (ok: bool)
      requires Valid()
      modifies this`sessionNodes, this`descriptorCache
      ensures Valid() && ok == Registry.Caches(config.Descriptors(), old(Descriptors()), d, wall, local)
      ensures Descriptors() == Registry.Step(config.Descriptors(), old(Descriptors()), Registry.Cache(d, wall, local))
    {
      hide Registry.Inv, Registry.Current, Membership.Inside;
      Registry.StepKeeps(config.Descriptors(), Descriptors(), Registry.Cache(d, wall, local));
      if !Registry.Current(config.Descriptors(), d, wall) {
        return false;
      }
      if (d.node != config.self && d.session in local) || (d.session in sessionNodes && sessionNodes[d.session] != d.node) {
        return false;
      }
      if d.session !in descriptorCache && |descriptorCache| >= config.maxRouteDescriptors {
        return false;
      }
      sessionNodes := sessionNodes[d.session := d.node];
      descriptorCache := descriptorCache[d.session := d];
      ok := true;
    }

    method RemoteDescriptor(session: SessionId, wall: real) returns (found: Option<Descriptor>)
      requires Valid()
      modifies this`sessionNodes, this`descriptorCache
      ensures Valid()
      ensures Descriptors() == Registry.Step(config.Descriptors(), old(Descriptors()), Registry.Lookup(session, wall))
      ensures session in old(descriptorCache) && !Registry.Expired(old(descriptorCache)[session], wall) ==>
        found == Some(old(descriptorCache)[session])
      ensures found.Some? ==> found.value.session == session
      ensures found.Some? && session !in descriptorCache ==> MeshLoops.IsRegistered(routeRegistry, found.value)
      ensures found == None ==> session !in descriptorCache && MeshLoops.NoneRegistered(routeRegistry, session)
    {
      hide Registry.Inv, Registry.Expired, Registry.Step, MeshLoops.IsRegistered, MeshLoops.NoneRegistered, Membership.Inside;
      CachedUnderOwnName(config.Descriptors(), Descriptors(), session);
      DropIfExpired(session, wall);
      if session in descriptorCache {
        return Some(descriptorCache[session]);
      }
      found := MeshLoops.FindSession(routeRegistry, session);
    }

    /** The cached descriptor of the session goes when it has expired, and its binding with it. */
    method DropIfExpired(session: SessionId, wall: real)
      requires Valid()
      modifies this`sessionNodes, this`descriptorCache
      ensures Valid()
      ensures Descriptors() == Registry.Step(config.Descriptors(), old(Descriptors()), Registry.Lookup(session, wall))
      ensures session in descriptorCache
        <==> session in old(descriptorCache) && !Registry.Expired(old(descriptorCache)[session], wall)
      ensures session in descriptorCache ==> descriptorCache[session] == old(descriptorCache)[session]
    {
      LookupIs(config.Descriptors(), Descriptors(), session, wall);
      hide Registry.Inv, Registry.Expired, Registry.Step, Membership.Inside;
      Registry.StepKeeps(config.Descriptors(), Descriptors(), Registry.Lookup(session, wall));
      if session in descriptorCache && Registry.Expired(descriptorCache[session], wall) {
        descriptorCache, sessionNodes := descriptorCache - {session}, sessionNodes - {session};
      }
    }

    /** Offers descriptors to the cache one by one and collects those it takes
        (app/node_mesh.py:185-188, 198-202). */
    method Collect(items: seq<Descriptor>, had: map<SessionId, Descriptor>, wall: real, local: set<SessionId>)
      returns (found: map<SessionId, Descriptor>)
      requires Valid()
      modifies this`sessionNodes, this`descriptorCache
      ensures Valid()
      ensures Descriptors() == CacheEach(config.Descriptors(), old(Descriptors()), items, |items|, wall, local)
      ensures found == Found(config.Descriptors(), old(Descriptors()), items, |items|, wall, local, had)
    {
      hide Registry.Inv, Registry.Caches, Registry.Step, Membership.Inside;
      found := had;
      for i := 0 to |items|
        invariant Valid()
        invariant Descriptors() == CacheEach(config.Descriptors(), old(Descriptors()), items, i, wall, local)
        invariant found == Found(config.Descriptors(), old(Descriptors()), items, i, wall, local, had)
      {
        var ok := CacheDescriptor(items[i], wall, local);
        if ok {
          found := found[items[i].session := items[i]];
        }
      }
    }

    /** The part of `discover` before its queries (app/node_mesh.py:184-188). `items` is the
        order in which the route's entries were visited. */
    method DiscoverLocal(route: RouteId, wall: real, local: set<SessionId>)
      returns (found: map<SessionId, Descriptor>, ghost items: seq<Descriptor>, ghost keys: seq<(NodeId, SessionId)>)
      requires Valid()
      modifies this`routeRegistry, this`routeDescriptorCount, this`sessionNodes, this`descriptorCache
      ensures Valid()
      ensures routeRegistry == Registry.Pruned(old(routeRegistry), wall)
      ensures Answers(items, keys, Registry.EntriesOf(routeRegistry, route), |Registry.EntriesOf(routeRegistry, route)|)
      ensures var pruned := Registry.Step(config.Descriptors(), old(Descriptors()), Registry.Prune(wall));
        && Descriptors() == CacheEach(config.Descriptors(), pruned, items, |items|, wall, local)
        && found == Found(config.Descriptors(), pruned, items, |items|, wall, local, map[])
    {
      PrunedRoutes(config.Descriptors(), Descriptors(), wall);
      hide Registry.Inv, Registry.Step, Registry.Pruned, Membership.Inside, CacheEach, Found;
      PruneRoutes(wall);
      var entries := Registry.EntriesOf(routeRegistry, route);
      var all;
      all, keys := MeshLoops.FirstEntries(entries, |entries|);
      items := all;
      found := Collect(all, map[], wall, local);
    }

    /** The owners that `discover` asks (app/node_mesh.py:189-195). */
    method QueryTargets(route: RouteId) returns (targets: seq<NodeId>)
      ensures targets == Sends(config.Owners(route, membershipNodes), config.self, connections.Keys)
    {
      hide Rendezvous.OwnersFor, Sends;
      var owners := OwnersFor(route);
      targets := [];
      NoSends(config.self, connections.Keys);
      assert owners[..0] == [];
      for i := 0 to |owners|
        invariant targets == Sends(owners[..i], config.self, connections.Keys)
      {
        SendsAppend(owners[..i], owners[i], config.self, connections.Keys);
        assert owners[..i + 1] == owners[..i] + [owners[i]];
        if owners[i] != config.self && owners[i] in connections {
          targets := targets + [owners[i]];
        }
      }
      assert owners[..|owners|] == owners;
    }

    /** The part of `discover` after its queries (app/node_mesh.py:198-203). A query that failed
        has no reply. */
    method DiscoverRemote(had: map<SessionId, Descriptor>, replies: seq<seq<Descriptor>>, wall: real, local: set<SessionId>)
      returns (found: map<SessionId, Descriptor>)
      requires Valid()
      modifies this`sessionNodes, this`descriptorCache
      ensures Valid()
      ensures var items := Flat(replies, |replies|);
        && Descriptors() == CacheEach(config.Descriptors(), old(Descriptors()), items, |items|, wall, local)
        && found == Found(config.Descriptors(), old(Descriptors()), items, |items|, wall, local, had)
    {
      hide Registry.Inv, Membership.Inside, CacheEach, Found;
      ghost var c, st := config.Descriptors(), Descriptors();
      found := had;
      OfferNone(c, st, wall, local, had);
      for i := 0 to |replies|
        invariant Valid()
        invariant Descriptors() == CacheEach(c, st, Flat(replies, i), |Flat(replies, i)|, wall, local)
        invariant found == Found(c, st, Flat(replies, i), |Flat(replies, i)|, wall, local, had)
      {
        OfferMore(c, st, Flat(replies, i), replies[i], |replies[i]|, wall, local, had);
        found := Collect(replies[i], found, wall, local);
      }
    }

    /** ROUTE_QUERY (app/node_mesh.py:389-399): distinct unexpired entries, at most `maxFanout`. */
    method AnswerQuery(route: RouteId, wall: real) returns (items: seq<Descriptor>, ghost keys: seq<(NodeId, SessionId)>)
      requires Valid()
      modifies this`routeRegistry, this`routeDescriptorCount, this`sessionNodes, this`descriptorCache
      ensures Valid()
      ensures Descriptors() == Registry.Step(config.Descriptors(), old(Descriptors()), Registry.Prune(wall))
      ensures Answers(items, keys, Registry.EntriesOf(Registry.Pruned(old(routeRegistry), wall), route), config.maxFanout)
    {
      PrunedRoutes(config.Descriptors(), Descriptors(), wall);
      hide Registry.Inv, Registry.Step, Registry.Pruned, Membership.Inside;
      PruneRoutes(wall);
      items, keys := MeshLoops.FirstEntries(Registry.EntriesOf(routeRegistry, route), config.maxFanout);
    }

    // ---- pending operations ------------------------------------------------------

    /** forward_signal up to its send (app/node_mesh.py:206-217). `request` is a fresh uuid; the
        result is the peer the SIGNAL_FORWARD goes to. */
    method BeginForward(target: SessionId, request: RequestId) returns (peer: Option<NodeId>)
      requires Valid() && request !in pendingAcks
      modifies this`pendingAcks
      ensures Valid()
      ensures peer.Some? <==>
        && target in sessionNodes && sessionNodes[target] != config.self && sessionNodes[target] in connections
        && old(Pending()) < config.maxPendingOperations
      ensures peer.Some? ==> peer.value == sessionNodes[target]
      ensures pendingAcks == if peer.Some? then old(pendingAcks)[request := None] else old(pendingAcks)
      ensures Pending() == old(Pending()) + if peer.Some? then 1 else 0
    {
      hide Registry.Inv, Membership.Inside;
      if target !in sessionNodes || sessionNodes[target] == config.self || sessionNodes[target] !in connections {
        return None;
      }
      if |pendingQueries| + |pendingAcks| >= config.maxPendingOperations {
        return None;
      }
      Collections.AddOne(pendingAcks, request, None);
      pendingAcks := pendingAcks[request := None];
      peer := Some(sessionNodes[target]);
    }

    /** ACK (app/node_mesh.py:434-437): only the first one for a pending request counts. */
    method HandleAck(request: RequestId, delivered: bool)
      requires Valid()
      modifies this`pendingAcks
      ensures Valid() && Pending() == old(Pending())
      ensures pendingAcks ==
        if request in old(pendingAcks) && old(pendingAcks)[request] == None
        then old(pendingAcks)[request := Some(delivered)] else old(pendingAcks)
    {
      hide Registry.Inv, Membership.Inside;
      if request in pendingAcks && pendingAcks[request] == None {
        Collections.AddOne(pendingAcks, request, Some(delivered));
        pendingAcks := pendingAcks[request := Some(delivered)];
      }
    }

    /** The end of forward_signal (app/node_mesh.py:224-233): a failed send, a timeout and a
        negative ack all answer false, and the request is no longer pending. */
    method EndForward(request: RequestId, sent: bool, timedOut: bool) returns (answer: bool)
      requires Valid()
      modifies this`pendingAcks
      ensures Valid() && pendingAcks == old(pendingAcks) - {request}
      ensures answer == (sent && !timedOut && request in old(pendingAcks) && old(pendingAcks)[request] == Some(true))
      ensures Pending() == old(Pending()) - if request in old(pendingAcks) then 1 else 0
    {
      hide Registry.Inv, Membership.Inside;
      answer := sent && !timedOut && request in pendingAcks && pendingAcks[request] == Some(true);
      Collections.DropOne(pendingAcks, request);
      pendingAcks := pendingAcks - {request};
    }

    /** _query_owner up to its send (app/node_mesh.py:518-523). */
    method BeginQuery(request: RequestId) returns (ok: bool)
      requires Valid() && request !in pendingQueries
      modifies this`pendingQueries
      ensures Valid() && ok == (old(Pending()) < config.maxPendingOperations)
      ensures pendingQueries == if ok then old(pendingQueries)[request := None] else old(pendingQueries)
      ensures Pending() == old(Pending()) + if ok then 1 else 0
    {
      hide Registry.Inv, Membership.Inside;
      if |pendingQueries| + |pendingAcks| >= config.maxPendingOperations {
        return false;
      }
      Collections.AddOne(pendingQueries, request, None);
      pendingQueries := pendingQueries[request := None];
      ok := true;
    }

    /** ROUTE_RESULT (app/node_mesh.py:400-407). */
    method HandleRouteResult(request: RequestId, items: seq<Option<Descriptor>>, wall: real)
      requires Valid()
      modifies this`pendingQueries
      ensures Valid() && Pending() == old(Pending())
      ensures pendingQueries ==
        if request in old(pendingQueries) && old(pendingQueries)[request] == None
        then old(pendingQueries)[request := Some(Usable(config.Descriptors(), Fanout(items, config.maxFanout), wall))]
        else old(pendingQueries)
    {
      hide Registry.Inv, Membership.Inside;
      if request in pendingQueries && pendingQueries[request] == None {
        var usable := Usable(config.Descriptors(), Fanout(items, config.maxFanout), wall);
        Collections.AddOne(pendingQueries, request, Some(usable));
        pendingQueries := pendingQueries[request := Some(usable)];
      }
    }

    /** The end of _query_owner (app/node_mesh.py:524-534). */
    method EndQuery(request: RequestId, sent: bool, timedOut: bool) returns (items: seq<Descriptor>)
      requires Valid()
      modifies this`pendingQueries
      ensures Valid() && pendingQueries == old(pendingQueries) - {request}
      ensures items ==
        if sent && !timedOut && request in old(pendingQueries) && old(pendingQueries)[request].Some?
        then old(pendingQueries)[request].value else []
      ensures Pending() == old(Pending()) - if request in old(pendingQueries) then 1 else 0
    {
      hide Registry.Inv, Membership.Inside;
      items := [];
      if sent && !timedOut && request in pendingQueries && pendingQueries[request].Some? {
        items := pendingQueries[request].value;
      }
      Collections.DropOne(pendingQueries, request);
      pendingQueries := pendingQueries - {request};
    }
  }

  lemma CachedUnderOwnName(c: Registry.Config, st: Registry.State, session: SessionId)
    requires Registry.Inv(c, st)
    ensures session in st.cache ==> st.cache[session].session == session
  {
  }

  lemma PrunedRoutes(c: Registry.Config, st: Registry.State, wall: real)
    ensures Registry.Step(c, st, Registry.Prune(wall)).routes == Registry.Pruned(st.routes, wall)
  {
    hide Registry.Pruned;
  }

  lemma OwnersAreDistinct(c: Config, route: RouteId, members: set<NodeId>)
    ensures var owners := c.Owners(route, members); forall i, j :: 0 <= i < j < |owners| ==> owners[i] != owners[j]
  {
    var score := n => c.digest(route, n);
    var owners := c.Owners(route, members);
    Rendezvous.RankedIsInOrder(score, members);
    hide Rendezvous.Ranked;
    forall i, j | 0 <= i < j < |owners| ensures owners[i] != owners[j] {
      Rendezvous.BeforeIsTotal(score, owners[i], owners[j]);
    }
  }

  lemma LookupIs(c: Registry.Config, st: Registry.State, session: SessionId, wall: real)
    ensures Registry.Step(c, st, Registry.Lookup(session, wall))
      == if session in st.cache && Registry.Expired(st.cache[session], wall)
         then st.(bindings := st.bindings - {session}, cache := st.cache - {session}) else st
  {
    hide Registry.Expired;
  }

  /** Reconcile in the terms in which the source computes it. */
  lemma ReconciledIs(c: Membership.Config, st: Membership.State, now: real)
    requires c.self in c.universe && Membership.Inside(c, st)
    ensures c.self !in st.views
    ensures Membership.Step(c, st, Membership.Reconciled(now)) == Membership.Reconcile(c, st, now)
    ensures Membership.Inside(c, Membership.Reconcile(c, st, now))
    ensures var next := Membership.Reconcile(c, st, now);
      && next.views == Membership.FreshViews(c, st, now) && next.connections == st.connections
      && next.hasQuorum == Membership.Quorate(c, st, now)
      && (!next.hasQuorum ==> next.members == st.members && next.suspected == st.suspected)
    ensures Membership.Quorate(c, st, now) == (|Membership.Reporters(c, st, now)| >= |c.universe| / 2 + 1)
  {
    Membership.StepStaysInside(c, st, Membership.Reconciled(now));
    hide Membership.Reporters, Membership.FreshViews;
  }

  lemma StartIsInside(c: Config)
    ensures Membership.Inside(c.Members(), Membership.Start(c.Members()))
    ensures Membership.Start(c.Members()) == Membership.State(c.Universe(), {}, map[], map[], |c.Universe()| == 1)
  {
  }
}
