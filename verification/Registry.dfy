/** The mesh's descriptor registry, session bindings and descriptor cache
    (app/node_mesh.py:157-162, 235-246, 460-515, 536-549, 589-614). */
module Registry {
  import opened Names
  import Collections

  datatype Descriptor = Descriptor(session: SessionId, node: NodeId, keyId: Key, expiresAt: int)

  datatype Config = Config(self: NodeId, lease: real, skew: real, cap: nat)

  /** Routes are keyed by (node, session) as in the source. */
  type Entries = map<(NodeId, SessionId), Descriptor>

  type Routes = map<RouteId, Entries>

  datatype State = State(routes: Routes, count: int, bindings: map<SessionId, NodeId>, cache: map<SessionId, Descriptor>)

  /** Wall-clock readings are in seconds since the epoch; `local` are the hub's sessions. */
  datatype Event =
    | Register(route: RouteId, descriptor: Descriptor, wall: real, local: set<SessionId>)
    | Withdraw(route: RouteId, node: NodeId, session: SessionId)
    | Cache(descriptor: Descriptor, wall: real, local: set<SessionId>)
    | Lookup(session: SessionId, wall: real)
    | Prune(wall: real)
    | Rebalance(owned: set<RouteId>, active: set<NodeId>)
    | Stop

  /** `int(time.time())` of a reading that is not negative. */
  function Seconds(wall: real): int { wall.Floor }

  function KeyOf(d: Descriptor): (NodeId, SessionId) { (d.node, d.session) }

  predicate Current(c: Config, d: Descriptor, wall: real) {
    var now := Seconds(wall) as real;
    now - c.skew < d.expiresAt as real <= now + c.lease + c.skew
  }

  /** A descriptor is refused when it is not current, claims a local session for a remote
      node, or contradicts the session's binding. */
  predicate Refused(c: Config, st: State, d: Descriptor, wall: real, local: set<SessionId>) {
    || !Current(c, d, wall)
    || (d.node != c.self && d.session in local)
    || (d.session in st.bindings && st.bindings[d.session] != d.node)
  }

  predicate Holds(routes: Routes, route: RouteId, key: (NodeId, SessionId)) {
    route in routes && key in routes[route]
  }

  function EntriesOf(routes: Routes, route: RouteId): Entries {
    if route in routes then routes[route] else map[]
  }

  /** The registration goes through. */
  predicate Registers(c: Config, st: State, route: RouteId, d: Descriptor, wall: real, local: set<SessionId>) {
    !Refused(c, st, d, wall, local) && (Holds(st.routes, route, KeyOf(d)) || st.count < c.cap)
  }

  function Registered(st: State, route: RouteId, d: Descriptor): State {
    st.(routes := st.routes[route := EntriesOf(st.routes, route)[KeyOf(d) := d]],
        count := if Holds(st.routes, route, KeyOf(d)) then st.count else st.count + 1,
        bindings := st.bindings[d.session := d.node])
  }

  /** An entry goes, and its route with it when that was the last one. */
  function Withdrawn(st: State, route: RouteId, key: (NodeId, SessionId)): State
    requires Holds(st.routes, route, key)
  {
    var left := st.routes[route] - {key};
    st.(routes := if left == map[] then st.routes - {route} else st.routes[route := left], count := st.count - 1)
  }

  predicate Caches(c: Config, st: State, d: Descriptor, wall: real, local: set<SessionId>) {
    !Refused(c, st, d, wall, local) && (d.session in st.cache || |st.cache| < c.cap)
  }

  function Cached(st: State, d: Descriptor): State {
    st.(bindings := st.bindings[d.session := d.node], cache := st.cache[d.session := d])
  }

  predicate Expired(d: Descriptor, wall: real) {
    d.expiresAt <= Seconds(wall)
  }

  /** The expired cache entries go, and the bindings of their sessions with them. */
  function Forget(st: State, sessions: set<SessionId>): State {
    st.(bindings := st.bindings - sessions, cache := st.cache - sessions)
  }

  function ExpiredCache(st: State, wall: real): set<SessionId> {
    set s | s in st.cache && Expired(st.cache[s], wall)
  }

  function Unexpired(entries: Entries, wall: real): Entries {
    map k | k in entries && !Expired(entries[k], wall) :: entries[k]
  }

  function OfNodes(entries: Entries, active: set<NodeId>): Entries {
    map k | k in entries && entries[k].node in active :: entries[k]
  }

  /** Keeps of every route what `kept` says, and no empty route. */
  function Filtered(routes: Routes, kept: map<RouteId, Entries>): Routes {
    map r | r in routes && r in kept && kept[r] != map[] :: kept[r]
  }

  function AllUnexpired(routes: Routes, wall: real): map<RouteId, Entries> {
    map r | r in routes :: Unexpired(routes[r], wall)
  }

  function AllActive(routes: Routes, owned: set<RouteId>, active: set<NodeId>): map<RouteId, Entries> {
    map r | r in routes && r in owned :: OfNodes(routes[r], active)
  }

  function Pruned(routes: Routes, wall: real): Routes {
    Filtered(routes, AllUnexpired(routes, wall))
  }

  function Rebalanced(routes: Routes, owned: set<RouteId>, active: set<NodeId>): Routes {
    Filtered(routes, AllActive(routes, owned, active))
  }

  ghost function Size(routes: Routes): nat {
    if routes == map[] then 0
    else
      var r :| r in routes;
      |routes[r]| + Size(routes - {r})
  }

  const EMPTY := State(map[], 0, map[], map[])

  ghost function Step(c: Config, st: State, e: Event): State {
    match e
    case Register(route, d, wall, local) => if Registers(c, st, route, d, wall, local) then Registered(st, route, d) else st
    case Withdraw(route, node, session) =>
      if Holds(st.routes, route, (node, session)) then Withdrawn(st, route, (node, session)) else st
    case Cache(d, wall, local) => if Caches(c, st, d, wall, local) then Cached(st, d) else st
    case Lookup(session, wall) =>
      if session in st.cache && Expired(st.cache[session], wall) then Forget(st, {session}) else st
    case Prune(wall) => WithRoutes(Forget(st, ExpiredCache(st, wall)), Pruned(st.routes, wall))
    case Rebalance(owned, active) => WithRoutes(st, Rebalanced(st.routes, owned, active))
    case Stop => EMPTY
  }

  /** The counter goes down by what the routes lost. */
  ghost function WithRoutes(st: State, routes: Routes): State {
    st.(routes := routes, count := st.count - (Size(st.routes) - Size(routes)))
  }

  ghost function After(c: Config, events: seq<Event>, n: nat): State
    requires n <= |events|
  {
    if n == 0 then EMPTY else Step(c, After(c, events, n - 1), events[n - 1])
  }

  // ---------------------------------------------------------------------------

  ghost predicate WellKeyed(routes: Routes) {
    && (forall r :: r in routes ==> routes[r] != map[])
    && (forall r, k :: Holds(routes, r, k) ==> KeyOf(routes[r][k]) == k)
  }

  ghost predicate RoutesInv(c: Config, routes: Routes, count: int) {
    count == Size(routes) <= c.cap && WellKeyed(routes)
  }

  ghost predicate CacheInv(c: Config, bindings: map<SessionId, NodeId>, cache: map<SessionId, Descriptor>) {
    && |cache| <= c.cap
    && forall s :: s in cache ==> cache[s].session == s && s in bindings && bindings[s] == cache[s].node
  }

  ghost predicate Inv(c: Config, st: State) {
    RoutesInv(c, st.routes, st.count) && CacheInv(c, st.bindings, st.cache)
  }

  /** `kept` offers every route some of its own entries. */
  ghost predicate PartsOf(routes: Routes, kept: map<RouteId, Entries>) {
    forall r :: r in routes && r in kept ==>
      kept[r].Keys <= routes[r].Keys && forall k :: k in kept[r] ==> kept[r][k] == routes[r][k]
  }

  lemma SelectionsArePartsOf(routes: Routes, wall: real, owned: set<RouteId>, active: set<NodeId>)
    ensures PartsOf(routes, AllUnexpired(routes, wall))
    ensures PartsOf(routes, AllActive(routes, owned, active))
  {
  }

  lemma {:induction false} SizeWithout(routes: Routes, route: RouteId)
    requires route in routes
    ensures Size(routes) == |routes[route]| + Size(routes - {route})
  {
    var first :| first in routes && Size(routes) == |routes[first]| + Size(routes - {first});
    if first != route {
      var a, b := routes - {first}, routes - {route};
      assert a - {route} == b - {first};
      SizeWithout(a, route);
      SizeWithout(b, first);
    }
  }

  lemma SizeUpdate(routes: Routes, route: RouteId, entries: Entries)
    ensures Size(routes[route := entries]) == Size(routes) - |EntriesOf(routes, route)| + |entries|
    ensures Size(routes - {route}) == Size(routes) - |EntriesOf(routes, route)|
  {
    SizeWithout(routes[route := entries], route);
    assert routes[route := entries] - {route} == routes - {route};
    if route in routes {
      SizeWithout(routes, route);
    } else {
      assert routes - {route} == routes;
    }
  }

  lemma {:induction false} FilteredShrinks(routes: Routes, kept: map<RouteId, Entries>)
    requires PartsOf(routes, kept)
    ensures Size(Filtered(routes, kept)) <= Size(routes)
  {
    if routes != map[] {
      var r :| r in routes && Size(routes) == |routes[r]| + Size(routes - {r});
      FilteredShrinks(routes - {r}, kept);
      var all, rest := Filtered(routes, kept), Filtered(routes - {r}, kept);
      assert all - {r} == rest;
      if r in all {
        SizeWithout(all, r);
        Collections.SubsetSize(kept[r].Keys, routes[r].Keys);
        assert |kept[r]| == |kept[r].Keys| && |routes[r]| == |routes[r].Keys|;
      } else {
        assert all == rest;
      }
    }
  }

  lemma UpdateKeepsKeys(routes: Routes, route: RouteId, entries: Entries)
    requires WellKeyed(routes) && entries != map[] && forall k :: k in entries ==> KeyOf(entries[k]) == k
    ensures WellKeyed(routes[route := entries])
  {
  }

  lemma EntryAdded(routes: Routes, route: RouteId, d: Descriptor)
    requires WellKeyed(routes)
    ensures var next := EntriesOf(routes, route)[KeyOf(d) := d];
      && |next| == |EntriesOf(routes, route)| + (if Holds(routes, route, KeyOf(d)) then 0 else 1)
      && WellKeyed(routes[route := next])
  {
    var entries := EntriesOf(routes, route);
    var next := entries[KeyOf(d) := d];
    assert next.Keys == entries.Keys + {KeyOf(d)};
    assert |next| == |next.Keys| && |entries| == |entries.Keys|;
    assert forall k :: k in entries ==> Holds(routes, route, k);
    UpdateKeepsKeys(routes, route, next);
  }

  lemma RegisteredKeeps(c: Config, st: State, route: RouteId, d: Descriptor, wall: real, local: set<SessionId>)
    requires Inv(c, st) && Registers(c, st, route, d, wall, local)
    ensures Inv(c, Registered(st, route, d))
  {
    EntryAdded(st.routes, route, d);
    SizeUpdate(st.routes, route, EntriesOf(st.routes, route)[KeyOf(d) := d]);
    hide Size, Current, WellKeyed, EntriesOf, KeyOf;
    assert CacheInv(c, st.bindings[d.session := d.node], st.cache);
  }

  lemma EntryRemoved(routes: Routes, route: RouteId, key: (NodeId, SessionId))
    requires WellKeyed(routes) && Holds(routes, route, key)
    ensures var left := routes[route] - {key};
      && |left| == |routes[route]| - 1
      && WellKeyed(if left == map[] then routes - {route} else routes[route := left])
  {
    var left := routes[route] - {key};
    assert left.Keys == routes[route].Keys - {key};
    assert |left| == |left.Keys| && |routes[route]| == |routes[route].Keys|;
    if left == map[] {
      assert forall r, k :: Holds(routes - {route}, r, k) ==> Holds(routes, r, k);
    } else {
      assert forall k :: k in left ==> Holds(routes, route, k);
      UpdateKeepsKeys(routes, route, left);
    }
  }

  lemma WithdrawnKeeps(c: Config, st: State, route: RouteId, key: (NodeId, SessionId))
    requires Inv(c, st) && Holds(st.routes, route, key)
    ensures Inv(c, Withdrawn(st, route, key))
  {
    EntryRemoved(st.routes, route, key);
    SizeUpdate(st.routes, route, st.routes[route] - {key});
    hide Size, WellKeyed, CacheInv;
  }

  lemma FilteredKeeps(c: Config, routes: Routes, count: int, kept: map<RouteId, Entries>)
    requires RoutesInv(c, routes, count)
    requires PartsOf(routes, kept)
    ensures RoutesInv(c, Filtered(routes, kept), count - (Size(routes) - Size(Filtered(routes, kept))))
  {
    FilteredShrinks(routes, kept);
    FilteredKeys(routes, kept);
    hide Size, Filtered, WellKeyed;
  }

  lemma FilteredKeys(routes: Routes, kept: map<RouteId, Entries>)
    requires WellKeyed(routes)
    requires PartsOf(routes, kept)
    ensures WellKeyed(Filtered(routes, kept))
  {
    var left := Filtered(routes, kept);
    forall r, k | Holds(left, r, k) ensures Holds(routes, r, k) && left[r][k] == routes[r][k] {
      assert k in kept[r].Keys;
    }
  }

  lemma ForgetKeeps(c: Config, st: State, sessions: set<SessionId>)
    requires Inv(c, st)
    ensures Inv(c, Forget(st, sessions))
  {
    CacheWithout(st.cache, sessions);
    hide RoutesInv;
  }

  lemma CacheWithout(cache: map<SessionId, Descriptor>, sessions: set<SessionId>)
    ensures |cache - sessions| <= |cache|
  {
    Collections.SubsetSize((cache - sessions).Keys, cache.Keys);
    assert |cache - sessions| == |(cache - sessions).Keys| && |cache| == |cache.Keys|;
  }

  lemma CachedKeeps(c: Config, st: State, d: Descriptor, wall: real, local: set<SessionId>)
    requires Inv(c, st) && Caches(c, st, d, wall, local)
    ensures Inv(c, Cached(st, d))
  {
    assert st.cache[d.session := d].Keys == st.cache.Keys + {d.session};
    hide Current, RoutesInv;
  }

  lemma StepKeeps(c: Config, st: State, e: Event)
    requires Inv(c, st)
    ensures Inv(c, Step(c, st, e))
  {
    hide Inv, WithRoutes, Registered, Registers, Withdrawn, Caches, Cached, Forget, Holds, Expired, ExpiredCache;
    match e
    case Register(route, d, wall, local) =>
      if Registers(c, st, route, d, wall, local) { RegisteredKeeps(c, st, route, d, wall, local); }
    case Withdraw(route, node, session) =>
      if Holds(st.routes, route, (node, session)) { WithdrawnKeeps(c, st, route, (node, session)); }
    case Cache(d, wall, local) =>
      if Caches(c, st, d, wall, local) { CachedKeeps(c, st, d, wall, local); }
    case Lookup(session, wall) =>
      ForgetKeeps(c, st, {session});
    case Prune(wall) =>
      PruneKeeps(c, st, wall);
    case Rebalance(owned, active) =>
      RebalanceKeeps(c, st, owned, active);
    case Stop =>
      EmptyKeeps(c);
  }

  lemma PruneKeeps(c: Config, st: State, wall: real)
    requires Inv(c, st)
    ensures Inv(c, WithRoutes(Forget(st, ExpiredCache(st, wall)), Pruned(st.routes, wall)))
  {
    SelectionsArePartsOf(st.routes, wall, {}, {});
    hide RoutesInv, CacheInv, Size, ExpiredCache, AllUnexpired, Filtered, PartsOf;
    ForgetKeeps(c, st, ExpiredCache(st, wall));
    FilteredKeeps(c, st.routes, st.count, AllUnexpired(st.routes, wall));
  }

  lemma RebalanceKeeps(c: Config, st: State, owned: set<RouteId>, active: set<NodeId>)
    requires Inv(c, st)
    ensures Inv(c, WithRoutes(st, Rebalanced(st.routes, owned, active)))
  {
    SelectionsArePartsOf(st.routes, 0.0, owned, active);
    hide RoutesInv, CacheInv, Size, AllActive, Filtered, PartsOf;
    FilteredKeeps(c, st.routes, st.count, AllActive(st.routes, owned, active));
  }

  lemma EmptyKeeps(c: Config)
    ensures Inv(c, EMPTY)
  {
  }

  /** The registry invariant over every run: the descriptor count is the sum of the route sizes
      and within the cap, no route is empty, keys match their descriptors, and every cached
      session is bound to its descriptor's node. */
  lemma {:induction false} RegistryInvariant(c: Config, events: seq<Event>, n: nat)
    requires n <= |events|
    ensures Inv(c, After(c, events, n))
  {
    hide Inv, Step;
    if n == 0 {
      EmptyKeeps(c);
    } else {
      RegistryInvariant(c, events, n - 1);
      StepKeeps(c, After(c, events, n - 1), events[n - 1]);
    }
  }

  // ---------------------------------------------------------------------------
  // Bindings.

  /** Step `k` dropped the binding of `s`: by stopping, or because the cached descriptor of `s`
      had expired when it was looked up or pruned. */
  ghost predicate DropsBinding(c: Config, events: seq<Event>, k: nat, s: SessionId)
    requires k < |events|
  {
    var st, e := After(c, events, k), events[k];
    && s in st.bindings && s !in After(c, events, k + 1).bindings
    && (e.Stop? || ((e.Prune? || (e.Lookup? && e.session == s)) && s in st.cache && Expired(st.cache[s], e.wall)))
  }

  lemma BindingStep(c: Config, st: State, e: Event, s: SessionId)
    requires s in st.bindings
    ensures var next := Step(c, st, e);
      if s in next.bindings then next.bindings[s] == st.bindings[s]
      else e.Stop? || ((e.Prune? || (e.Lookup? && e.session == s)) && s in st.cache && Expired(st.cache[s], e.wall))
  {
    hide Size, Current, Expired;
  }

  /** A binding never moves to another node unless it was first dropped because its cached
      descriptor expired, or by stop. */
  lemma {:induction false} BindingsDoNotMove(c: Config, events: seq<Event>, i: nat, j: nat, s: SessionId) returns (k: nat)
    requires i <= j <= |events|
    requires s in After(c, events, i).bindings && s in After(c, events, j).bindings
    requires After(c, events, i).bindings[s] != After(c, events, j).bindings[s]
    ensures i <= k < j && DropsBinding(c, events, k, s)
    decreases j - i
  {
    var st := After(c, events, i);
    BindingStep(c, st, events[i], s);
    hide Step;
    assert After(c, events, i + 1) == Step(c, st, events[i]);
    if s in After(c, events, i + 1).bindings {
      k := BindingsDoNotMove(c, events, i + 1, j, s);
    } else {
      k := i;
    }
  }

  /** One node per session is not an invariant of the registry: a lookup that finds the cached
      descriptor expired drops the binding while registrations of the same session remain, and
      another node may then register it too. */
  lemma TwoNodesForOneSession(c: Config, s: SessionId, n1: NodeId, n2: NodeId, r1: RouteId, r2: RouteId, key: Key)
    returns (events: seq<Event>)
    requires c.lease == 90.0 && c.skew == 30.0 && c.cap >= 2 && n1 != n2 && r1 != r2
    ensures var routes := After(c, events, |events|).routes;
      Holds(routes, r1, (n1, s)) && Holds(routes, r2, (n2, s))
  {
    var kept, cached, late := Descriptor(s, n1, key, 110), Descriptor(s, n1, key, 60), Descriptor(s, n2, key, 150);
    events := [Register(r1, kept, 0.0, {}), Cache(cached, 0.0, {}), Lookup(s, 70.0), Register(r2, late, 70.0, {})];
    var st1 := Registered(EMPTY, r1, kept);
    var st2 := Cached(st1, cached);
    var st3 := Forget(st2, {s});
    assert After(c, events, 1) == st1;
    assert After(c, events, 2) == st2 by {
      assert Caches(c, st1, cached, 0.0, {});
      hide Registers;
    }
    assert After(c, events, 3) == st3 by {
      assert s in st2.cache && st2.cache[s] == cached && Expired(cached, 70.0);
      hide Registers, Caches;
    }
    assert Registers(c, st3, r2, late, 70.0, {});
    assert After(c, events, 4) == Registered(st3, r2, late);
  }

  /** Every registration of the session is from the node it is bound to. */
  ghost predicate BoundTo(st: State, s: SessionId) {
    forall r, k :: Holds(st.routes, r, k) && k.1 == s ==> s in st.bindings && st.bindings[s] == k.0
  }

  ghost predicate HasEntry(st: State, s: SessionId) {
    exists r, k :: Holds(st.routes, r, k) && k.1 == s
  }

  lemma BoundStep(c: Config, st: State, e: Event, s: SessionId)
    requires BoundTo(st, s) && !BoundTo(Step(c, st, e), s)
    ensures s in st.bindings && s !in Step(c, st, e).bindings && HasEntry(Step(c, st, e), s)
  {
    var next := Step(c, st, e);
    var r, k :| Holds(next.routes, r, k) && k.1 == s && !(s in next.bindings && next.bindings[s] == k.0);
    EntryStep(c, st, e, r, k);
    if Writes(c, st, e, r, k) {
      RegisterBinds(c, st, e);
    } else {
      hide Step, Writes;
      BindingStep(c, st, e, s);
    }
  }

  lemma RegisterBinds(c: Config, st: State, e: Event)
    requires e.Register? && Registers(c, st, e.route, e.descriptor, e.wall, e.local)
    ensures var next, d := Step(c, st, e), e.descriptor; d.session in next.bindings && next.bindings[d.session] == d.node
  {
    hide Registers;
  }

  lemma {:induction false} UnboundWasDropped(c: Config, events: seq<Event>, n: nat, s: SessionId) returns (k: nat)
    requires n <= |events| && !BoundTo(After(c, events, n), s)
    ensures k < n && DropsRegistered(c, events, k, s)
  {
    hide Step, Expired;
    if n > 0 && !BoundTo(After(c, events, n - 1), s) {
      k := UnboundWasDropped(c, events, n - 1, s);
    } else {
      k := n - 1;
      hide BoundTo, HasEntry;
      BoundStep(c, After(c, events, k), events[k], s);
      BindingStep(c, After(c, events, k), events[k], s);
    }
  }

  /** Step `k` dropped the binding of a session that stayed registered. */
  ghost predicate DropsRegistered(c: Config, events: seq<Event>, k: nat, s: SessionId)
    requires k < |events|
  {
    DropsBinding(c, events, k, s) && HasEntry(After(c, events, k + 1), s)
  }

  lemma DroppedIsUnbound(st: State, s: SessionId)
    requires s !in st.bindings && HasEntry(st, s)
    ensures !BoundTo(st, s)
  {
  }

  /** The exact condition: all along a run a session is registered only from the node it is
      bound to, if and only if no step drops its binding while a registration remains. */
  lemma BoundIffNeverDropped(c: Config, events: seq<Event>, n: nat, s: SessionId)
    requires n <= |events|
    ensures (forall m :: 0 <= m <= n ==> BoundTo(After(c, events, m), s))
      <==> (forall k :: 0 <= k < n ==> !DropsRegistered(c, events, k, s))
  {
    hide BoundTo, HasEntry, After;
    if m :| 0 <= m <= n && !BoundTo(After(c, events, m), s) {
      var k := UnboundWasDropped(c, events, m, s);
    }
    if k :| 0 <= k < n && DropsRegistered(c, events, k, s) {
      DroppedIsUnbound(After(c, events, k + 1), s);
    }
  }

  /** At most one node registers the session. */
  ghost predicate OneNode(st: State, s: SessionId) {
    forall r, k, r', k' :: Holds(st.routes, r, k) && Holds(st.routes, r', k') && k.1 == s == k'.1 ==> k.0 == k'.0
  }

  /** The event is an accepted registration of a session that another node registers. */
  ghost predicate SecondNode(c: Config, st: State, e: Event, s: SessionId) {
    && e.Register? && e.descriptor.session == s && Registers(c, st, e.route, e.descriptor, e.wall, e.local)
    && exists r, k :: Holds(st.routes, r, k) && k.1 == s && k.0 != e.descriptor.node
  }

  /** A second registering node appears in exactly one way. */
  lemma SecondNodeStep(c: Config, st: State, e: Event, s: SessionId)
    requires OneNode(st, s)
    ensures !OneNode(Step(c, st, e), s) <==> SecondNode(c, st, e, s)
  {
    var next := Step(c, st, e);
    if SecondNode(c, st, e, s) {
      SecondNodeAppears(c, st, e, s);
    } else {
      hide Step, OneNode;
      forall r, k, r', k' | Holds(next.routes, r, k) && Holds(next.routes, r', k') && k.1 == s == k'.1 ensures k.0 == k'.0 {
        EntryStep(c, st, e, r, k);
        EntryStep(c, st, e, r', k');
        OneNodeAt(st, s, r, k, r', k');
      }
      assert OneNode(next, s) by { IsOneNode(next, s); }
    }
  }

  lemma OneNodeAt(st: State, s: SessionId, r: RouteId, k: (NodeId, SessionId), r': RouteId, k': (NodeId, SessionId))
    requires OneNode(st, s) && k.1 == s == k'.1
    ensures Holds(st.routes, r, k) && Holds(st.routes, r', k') ==> k.0 == k'.0
  {
  }

  lemma IsOneNode(st: State, s: SessionId)
    requires forall r, k, r', k' :: Holds(st.routes, r, k) && Holds(st.routes, r', k') && k.1 == s == k'.1 ==> k.0 == k'.0
    ensures OneNode(st, s)
  {
  }

  lemma SecondNodeAppears(c: Config, st: State, e: Event, s: SessionId)
    requires SecondNode(c, st, e, s)
    ensures !OneNode(Step(c, st, e), s)
  {
    var r, k :| Holds(st.routes, r, k) && k.1 == s && k.0 != e.descriptor.node;
    var next := Step(c, st, e);
    hide Registers, Size;
    assert Holds(next.routes, e.route, KeyOf(e.descriptor)) && Holds(next.routes, r, k);
  }

  /** All along a run at most one node registers a session, if and only if no registration of it
      is accepted while another node registers it. The cap, the binding and the lease do not
      forbid that once the binding was dropped. */
  lemma {:induction false} OneNodeIffNoSecond(c: Config, events: seq<Event>, n: nat, s: SessionId)
    requires n <= |events|
    ensures (forall m :: 0 <= m <= n ==> OneNode(After(c, events, m), s))
      <==> (forall k :: 0 <= k < n ==> !SecondNode(c, After(c, events, k), events[k], s))
  {
    hide Step, OneNode, SecondNode;
    if n == 0 {
      assert OneNode(EMPTY, s) by { NoNode(s); }
    } else {
      OneNodeIffNoSecond(c, events, n - 1, s);
      assert After(c, events, n) == Step(c, After(c, events, n - 1), events[n - 1]);
      if OneNode(After(c, events, n - 1), s) {
        SecondNodeStep(c, After(c, events, n - 1), events[n - 1], s);
      }
    }
  }

  lemma NoNode(s: SessionId)
    ensures OneNode(EMPTY, s)
  {
  }

  // ---------------------------------------------------------------------------
  // Leases.

  /** A descriptor built by one node passes the currency check of a peer that receives it
      within one lease and whose clock is off by at most skew - 1 seconds. */
  lemma FreshDescriptorIsCurrent(c: Config, d: Descriptor, built: real, elapsed: real, drift: real)
    requires d.expiresAt == Seconds(built + c.lease)
    requires 0.0 <= elapsed <= c.lease && -(c.skew - 1.0) <= drift <= c.skew - 1.0
    ensures Current(c, d, built + elapsed + drift)
  {
    var exact, read := built + c.lease, built + elapsed + drift;
    assert exact - 1.0 < exact.Floor as real <= exact;
    assert read - 1.0 < read.Floor as real <= read;
  }

  /** A descriptor built at `built` is current for a peer that reads its clock, off by `drift`,
      when `elapsed` seconds have passed. Clock readings are not negative. */
  predicate CurrentAfter(c: Config, d: Descriptor, built: real, elapsed: real, drift: real) {
    built >= 0.0 && built + elapsed + drift >= 0.0 ==>
      Current(c, d.(expiresAt := Seconds(built + c.lease)), built + elapsed + drift)
  }

  ghost predicate CurrentThroughoutLease(c: Config, d: Descriptor, drift: real) {
    forall built, elapsed :: 0.0 <= elapsed <= c.lease ==> CurrentAfter(c, d, built, elapsed, drift)
  }

  lemma FloorShifts(x: real, n: int)
    ensures (x + n as real).Floor == x.Floor + n
  {
  }

  function Ceiling(x: real): int { -(-x).Floor }

  /** Truncation makes the tolerance asymmetric. A peer finds every descriptor current throughout
      its lease if and only if its clock is off by at least lease - floor(lease + skew) and at
      most ceiling(skew) - 1 seconds. */
  lemma CurrentThroughoutLeaseIff(c: Config, d: Descriptor, drift: real)
    requires c.lease >= 0.0
    ensures CurrentThroughoutLease(c, d, drift)
      <==> c.lease - (c.lease + c.skew).Floor as real <= drift <= (Ceiling(c.skew) - 1) as real
  {
    if drift > (Ceiling(c.skew) - 1) as real {
      TooFarAhead(c, d, drift);
    } else if drift < c.lease - (c.lease + c.skew).Floor as real {
      TooFarBehind(c, d, drift);
    } else {
      forall built, elapsed | 0.0 <= elapsed <= c.lease ensures CurrentAfter(c, d, built, elapsed, drift) {
        CurrentWithin(c, d, built, elapsed, drift);
      }
    }
  }

  /** In whole seconds: at most the skew behind, at most one second less than the skew ahead. */
  lemma CurrentInWholeSecondsIff(c: Config, d: Descriptor, lease: int, skew: int, drift: real)
    requires 0 <= lease && c.lease == lease as real && c.skew == skew as real
    ensures CurrentThroughoutLease(c, d, drift) <==> -c.skew <= drift <= c.skew - 1.0
  {
    CurrentThroughoutLeaseIff(c, d, drift);
    hide CurrentThroughoutLease;
    FloorShifts(0.0, lease + skew);
    FloorShifts(0.0, -skew);
  }

  lemma CeilingIs(x: real)
    ensures x <= Ceiling(x) as real < x + 1.0
  {
  }

  lemma CurrentWithin(c: Config, d: Descriptor, built: real, elapsed: real, drift: real)
    requires 0.0 <= elapsed <= c.lease
    requires c.lease - (c.lease + c.skew).Floor as real <= drift <= (Ceiling(c.skew) - 1) as real
    ensures CurrentAfter(c, d, built, elapsed, drift)
  {
    var read, expires := built + elapsed + drift, built + c.lease;
    var ahead, behind := Ceiling(c.skew) - 1, (c.lease + c.skew).Floor;
    CeilingIs(c.skew);
    FloorShifts(expires, ahead);
    FloorShifts(expires, -behind);
    assert expires + (-behind) as real <= read <= expires + ahead as real;
    assert expires.Floor - behind <= read.Floor && read.Floor <= expires.Floor + ahead;
  }

  /** A number between 0 and 1 that reaches the next whole number when `x` is added. */
  function Part(x: real, next: int): real {
    if x >= next as real then 0.0 else next as real - x
  }

  lemma TooFarAhead(c: Config, d: Descriptor, drift: real)
    requires c.lease >= 0.0 && drift > (Ceiling(c.skew) - 1) as real
    ensures !CurrentThroughoutLease(c, d, drift)
  {
    var next := Ceiling(c.skew);
    var part := Part(drift, next);
    var whole := Above(c.lease) + Above(-drift);
    var built := whole as real + part - c.lease;
    CeilingIs(c.skew);
    FloorShifts(part, whole);
    assert (built + c.lease).Floor == whole;
    assert built + c.lease + drift >= (whole + next) as real;
    assert (built + c.lease + drift).Floor >= whole + next;
    assert !CurrentAfter(c, d, built, c.lease, drift);
  }

  /** A whole number that is not negative and not below `x`. */
  function Above(x: real): (n: int)
    ensures n >= 0 && n as real >= x
  {
    if x <= 0.0 then 0 else x.Floor + 1
  }

  lemma TooFarBehind(c: Config, d: Descriptor, drift: real)
    requires c.lease >= 0.0 && drift < c.lease - (c.lease + c.skew).Floor as real
    ensures !CurrentThroughoutLease(c, d, drift)
  {
    var next := (c.lease + c.skew).Floor + 1;
    var part := Part(c.lease - drift, next);
    var whole := Above(drift);
    var built := whole as real + part - drift;
    FloorShifts(part, whole);
    assert (built + 0.0 + drift).Floor == whole;
    assert built + c.lease >= (whole + next) as real;
    assert (built + c.lease).Floor >= whole + next;
    assert !CurrentAfter(c, d, built, 0.0, drift);
  }

  /** Step `e` writes the entry `key` of a route. */
  predicate Writes(c: Config, st: State, e: Event, route: RouteId, key: (NodeId, SessionId)) {
    e.Register? && e.route == route && KeyOf(e.descriptor) == key && Registers(c, st, route, e.descriptor, e.wall, e.local)
  }

  lemma EntryStep(c: Config, st: State, e: Event, route: RouteId, key: (NodeId, SessionId))
    requires Holds(Step(c, st, e).routes, route, key)
    ensures var entry := Step(c, st, e).routes[route][key];
      if Writes(c, st, e, route, key) then entry == e.descriptor
      else Holds(st.routes, route, key) && entry == st.routes[route][key]
    ensures e.Prune? ==> !Expired(Step(c, st, e).routes[route][key], e.wall)
  {
    hide Size, Registers, Expired, Caches;
  }

  /** Every entry was last written by an accepted registration of exactly that descriptor. */
  lemma {:induction false} LastWrite(c: Config, events: seq<Event>, n: nat, route: RouteId, key: (NodeId, SessionId)) returns (k: nat)
    requires n <= |events| && Holds(After(c, events, n).routes, route, key)
    ensures k < n && Writes(c, After(c, events, k), events[k], route, key)
    ensures After(c, events, n).routes[route][key] == events[k].descriptor
    ensures forall m :: k < m < n ==> !Writes(c, After(c, events, m), events[m], route, key)
  {
    hide Step, Writes;
    var st, e := After(c, events, n - 1), events[n - 1];
    EntryStep(c, st, e, route, key);
    if Writes(c, st, e, route, key) {
      k := n - 1;
    } else {
      k := LastWrite(c, events, n - 1, route, key);
    }
  }

  lemma WrittenRecently(c: Config, d: Descriptor, written: real, pruned: real)
    requires Current(c, d, written) && !Expired(d, pruned)
    ensures pruned - written < c.lease + c.skew + 1.0
  {
    assert pruned - 1.0 < pruned.Floor as real;
    assert written.Floor as real <= written;
  }

  /** After a prune nothing held was last written lease + skew + 1 or more seconds ago. */
  lemma HeldAfterPruneIsRecent(c: Config, events: seq<Event>, p: nat, route: RouteId, key: (NodeId, SessionId)) returns (k: nat)
    requires p < |events| && events[p].Prune? && Holds(After(c, events, p + 1).routes, route, key)
    ensures k < p && Writes(c, After(c, events, k), events[k], route, key)
    ensures After(c, events, p + 1).routes[route][key] == events[k].descriptor
    ensures forall m :: k < m <= p ==> !Writes(c, After(c, events, m), events[m], route, key)
    ensures events[p].wall - events[k].wall < c.lease + c.skew + 1.0
  {
    EntryStep(c, After(c, events, p), events[p], route, key);
    k := LastWrite(c, events, p + 1, route, key);
    hide Step, After;
    WrittenRecently(c, events[k].descriptor, events[k].wall, events[p].wall);
  }
}
