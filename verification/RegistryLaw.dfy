/** What the registry, the bindings and the descriptor cache hold after any run
    (app/node_mesh.py:235-246, 460-515, 536-549, 589-614): when a registration or a descriptor is
    taken, how long it stays, and what ends it. */
module RegistryLaw {
  import opened Names
  import opened Registry

  /** What a route holds under a key. */
  function Entry(st: State, route: RouteId, key: (NodeId, SessionId)): Option<Descriptor> {
    if route in st.routes && key in st.routes[route] then Some(st.routes[route][key]) else None
  }

  function CachedFor(st: State, s: SessionId): Option<Descriptor> {
    if s in st.cache then Some(st.cache[s]) else None
  }

  function BoundFor(st: State, s: SessionId): Option<NodeId> {
    if s in st.bindings then Some(st.bindings[s]) else None
  }

  /** `d` expires after the present second, allowing for the skew, and no later than a lease and the
      skew from it; it is not another node's claim to a session of this one; and the session is not
      bound to another node. */
  predicate Admissible(c: Config, st: State, d: Descriptor, wall: real, local: set<SessionId>) {
    && wall.Floor as real - c.skew < d.expiresAt as real <= wall.Floor as real + c.lease + c.skew
    && (d.node == c.self || d.session !in local)
    && (d.session in st.bindings ==> st.bindings[d.session] == d.node)
  }

  /** In any run a registration is accepted if and only if its descriptor is admissible and it
      renews an entry or fewer than the cap are held. Then the route holds it and the session is
      bound to its node; no other entry and no cached descriptor changes. Otherwise nothing does. */
  lemma RegistrationAcceptedIff(c: Config, events: seq<Event>, route: RouteId, d: Descriptor, wall: real, local: set<SessionId>,
                                r: RouteId, k: (NodeId, SessionId))
    ensures var st := After(c, events, |events|);
      var next := Step(c, st, Register(route, d, wall, local));
      if Admissible(c, st, d, wall, local) && (Entry(st, route, (d.node, d.session)) != None || Size(st.routes) < c.cap)
      then
        && Entry(next, r, k) == (if r == route && k == (d.node, d.session) then Some(d) else Entry(st, r, k))
        && next.bindings == st.bindings[d.session := d.node] && next.cache == st.cache
      else next == st
  {
    RegistryInvariant(c, events, |events|);
    hide After, Size, WellKeyed;
  }

  /** In any run a descriptor is cached if and only if it is admissible and its session is cached
      already or fewer than the cap are; the registrations do not change. */
  lemma DescriptorCachedIff(c: Config, events: seq<Event>, d: Descriptor, wall: real, local: set<SessionId>)
    ensures var st := After(c, events, |events|);
      var next := Step(c, st, Cache(d, wall, local));
      next == if Admissible(c, st, d, wall, local) && (d.session in st.cache || |st.cache| < c.cap)
              then st.(cache := st.cache[d.session := d], bindings := st.bindings[d.session := d.node]) else st
  {
    hide After;
  }

  /** The event takes a registered descriptor out of its route: a withdrawal, a pruning once its last
      second has begun, a rebalancing that finds the route not owned or its node not connected, or a
      stop. */
  predicate Ends(e: Event, route: RouteId, d: Descriptor) {
    match e
    case Withdraw(r, node, session) => r == route && node == d.node && session == d.session
    case Prune(wall) => d.expiresAt <= wall.Floor
    case Rebalance(owned, active) => route !in owned || d.node !in active
    case Stop => true
    case _ => false
  }

  /** The event offers a registration under the key of `d`. */
  predicate Rewrites(e: Event, route: RouteId, d: Descriptor) {
    e.Register? && e.route == route && e.descriptor.node == d.node && e.descriptor.session == d.session
  }

  lemma EntryStep(c: Config, st: State, e: Event, route: RouteId, d: Descriptor)
    requires Entry(st, route, (d.node, d.session)) in {None, Some(d)} && !Rewrites(e, route, d)
    ensures Entry(Step(c, st, e), route, (d.node, d.session))
      == if Ends(e, route, d) then None else Entry(st, route, (d.node, d.session))
  {
    hide Registers, Caches, Size;
    var key := (d.node, d.session);
    match e
    case Withdraw(r, node, session) =>
      if Holds(st.routes, r, (node, session)) && r == route {
        assert key in st.routes[r] - {(node, session)} <==> key in st.routes[r] && key != (node, session);
      }
    case Prune(wall) =>
      assert route in st.routes ==> (key in Unexpired(st.routes[route], wall) <==> key in st.routes[route] && !Ends(e, route, d));
    case Rebalance(owned, active) =>
      assert route in st.routes ==> (key in OfNodes(st.routes[route], active) <==> key in st.routes[route] && d.node in active);
    case _ =>
  }

  /** How long a registration stays. As long as its key is not registered anew, an entry that a route
      holds at step `i` is held at step `n` if and only if no step in between ends it. */
  lemma {:induction false} EntryStaysIff(c: Config, events: seq<Event>, i: nat, n: nat, route: RouteId, d: Descriptor)
    requires i <= n <= |events| && Entry(After(c, events, i), route, (d.node, d.session)) == Some(d)
    requires forall m :: i <= m < n ==> !Rewrites(events[m], route, d)
    ensures Entry(After(c, events, n), route, (d.node, d.session))
      == if exists m :: i <= m < n && Ends(events[m], route, d) then None else Some(d)
  {
    hide Entry, Step, Ends, Rewrites;
    if i < n {
      EntryStaysIff(c, events, i, n - 1, route, d);
      EntryStep(c, After(c, events, n - 1), events[n - 1], route, d);
    }
  }

  /** The event drops a cached descriptor of the session: a lookup of it or a pruning once its last
      second has begun, or a stop. */
  predicate Forgets(e: Event, d: Descriptor, s: SessionId) {
    match e
    case Lookup(session, wall) => session == s && d.expiresAt <= wall.Floor
    case Prune(wall) => d.expiresAt <= wall.Floor
    case Stop => true
    case _ => false
  }

  /** How long a cached descriptor stays: as long as its session is not offered to the cache anew, it
      is cached until a step drops it, and then its session is unbound too. */
  lemma {:induction false} CachedStaysIff(c: Config, events: seq<Event>, i: nat, n: nat, d: Descriptor, s: SessionId)
    requires i <= n <= |events| && CachedFor(After(c, events, i), s) == Some(d)
    requires forall m :: i <= m < n ==> !(events[m].Cache? && events[m].descriptor.session == s)
    ensures CachedFor(After(c, events, n), s) == if exists m :: i <= m < n && Forgets(events[m], d, s) then None else Some(d)
  {
    hide CachedFor, Step, Forgets;
    if i < n {
      CachedStaysIff(c, events, i, n - 1, d, s);
      CachedStep(c, After(c, events, n - 1), events[n - 1], d, s);
    }
  }

  lemma CachedStep(c: Config, st: State, e: Event, d: Descriptor, s: SessionId)
    requires CachedFor(st, s) in {None, Some(d)} && !(e.Cache? && e.descriptor.session == s)
    ensures CachedFor(Step(c, st, e), s) == if Forgets(e, d, s) then None else CachedFor(st, s)
    ensures CachedFor(st, s) == Some(d) && Forgets(e, d, s) ==> BoundFor(Step(c, st, e), s) == None
    ensures !e.Register? && !e.Stop? && !(CachedFor(st, s) == Some(d) && Forgets(e, d, s)) ==> BoundFor(Step(c, st, e), s) == BoundFor(st, s)
  {
    hide Registers, Size, Caches;
  }
}
