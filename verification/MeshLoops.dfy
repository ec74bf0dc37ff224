/** The loops of the mesh (app/node_mesh.py:147-155, 500-510, 536-549, 629-657) on values, each
    against the step of Membership, Registry or Rendezvous that it carries out. */
module MeshLoops {
  import opened Names
  import opened Numbers
  import Collections
  import Membership
  import Registry
  import Rendezvous
  import Text

  // ---- reconciliation ------------------------------------------------------

  type Reports = map<NodeId, set<NodeId>>

  predicate IsFresh(c: Membership.Config, view: Membership.View, now: real) {
    view.epoch == c.epoch && now - view.receivedAt <= Membership.StaleAfter(c)
  }

  /** The views while those in `left` are still to be looked at, and the reports so far. */
  function ViewsIn(c: Membership.Config, st: Membership.State, now: real, left: set<NodeId>): map<NodeId, Membership.View> {
    map r | r in st.views && (r in left || IsFresh(c, st.views[r], now)) :: st.views[r]
  }

  function ReportsIn(c: Membership.Config, st: Membership.State, now: real, left: set<NodeId>): Reports {
    map[c.self := {c.self} + st.connections]
      + (map r | r in st.views && r !in left && IsFresh(c, st.views[r], now) :: st.views[r].nodes * c.universe)
  }

  lemma ViewsStartAndEnd(c: Membership.Config, st: Membership.State, now: real)
    ensures ViewsIn(c, st, now, st.views.Keys) == st.views
    ensures ReportsIn(c, st, now, st.views.Keys) == map[c.self := {c.self} + st.connections]
    ensures ViewsIn(c, st, now, {}) == Membership.FreshViews(c, st, now)
    ensures ReportsIn(c, st, now, {}) == Membership.Reporters(c, st, now)
  {
    hide Membership.StaleAfter;
    var views := Membership.FreshViews(c, st, now);
    assert (map r | r in st.views && r !in {} && IsFresh(c, st.views[r], now) :: st.views[r].nodes * c.universe)
        == (map r | r in views :: views[r].nodes * c.universe);
  }

  lemma ViewsOneMore(c: Membership.Config, st: Membership.State, now: real, left: set<NodeId>, r: NodeId)
    requires r in left && left <= st.views.Keys && c.self !in st.views
    ensures r in ViewsIn(c, st, now, left) && ViewsIn(c, st, now, left)[r] == st.views[r]
    ensures ViewsIn(c, st, now, left - {r}) ==
      if IsFresh(c, st.views[r], now) then ViewsIn(c, st, now, left) else ViewsIn(c, st, now, left) - {r}
    ensures ReportsIn(c, st, now, left - {r}) ==
      if IsFresh(c, st.views[r], now) then ReportsIn(c, st, now, left)[r := st.views[r].nodes * c.universe]
      else ReportsIn(c, st, now, left)
  {
    hide IsFresh;
  }

  /** app/node_mesh.py:634-641: drops views of another epoch or too old, and collects the rest. */
  method CollectReports(c: Membership.Config, st: Membership.State, now: real)
    returns (views: map<NodeId, Membership.View>, reporters: Reports)
    requires c.self !in st.views
    ensures views == Membership.FreshViews(c, st, now) && reporters == Membership.Reporters(c, st, now)
  {
    hide ViewsIn, ReportsIn, IsFresh, Membership.FreshViews, Membership.Reporters;
    ViewsStartAndEnd(c, st, now);
    views, reporters := st.views, map[c.self := {c.self} + st.connections];
    var left := st.views.Keys;
    while left != {}
      invariant left <= st.views.Keys
      invariant views == ViewsIn(c, st, now, left) && reporters == ReportsIn(c, st, now, left)
      decreases |left|
    {
      var r :| r in left;
      ViewsOneMore(c, st, now, left, r);
      var view := views[r];
      if !IsFresh(c, view, now) {
        views := views - {r};
      } else {
        reporters := reporters[r := view.nodes * c.universe];
      }
      left := left - {r};
    }
  }

  /** `sum(candidate in view for view in reporters.values())`. */
  method CountVotes(reporters: Reports, candidate: NodeId) returns (votes: nat)
    ensures votes == Membership.Votes(reporters, candidate)
  {
    var left := reporters.Keys;
    votes := 0;
    ghost var seen := {};
    while left != {}
      invariant left <= reporters.Keys
      invariant seen == set r | r in reporters && r !in left && candidate in reporters[r]
      invariant votes == |seen|
      decreases |left|
    {
      var r :| r in left;
      if candidate in reporters[r] {
        votes := votes + 1;
        seen := seen + {r};
      }
      left := left - {r};
    }
    assert seen == set r | r in reporters && candidate in reporters[r];
  }

  /** The candidate is past its suspicion: not seen alive, and marked long enough ago. */
  predicate Down(c: Membership.Config, st: Membership.State, now: real, n: NodeId) {
    !Membership.Alive(c, st, now, n) && now - Membership.Mark(st, n, now) >= c.suspicion
  }

  /** Members and marks after only the candidates in `done` were judged. */
  function MembersIn(c: Membership.Config, st: Membership.State, now: real, done: set<NodeId>): set<NodeId> {
    st.members + {c.self}
      + (set n | n in done && Membership.Alive(c, st, now, n))
      - (set n | n in done && Down(c, st, now, n))
  }

  function MarksIn(c: Membership.Config, st: Membership.State, now: real, done: set<NodeId>): map<NodeId, real> {
    map n | n in st.suspected.Keys + done && !(n in done && Membership.Alive(c, st, now, n)) :: Membership.Mark(st, n, now)
  }

  lemma JudgeNoneAndAll(c: Membership.Config, st: Membership.State, now: real)
    requires Membership.Quorate(c, st, now)
    ensures MembersIn(c, st, now, {}) == st.members + {c.self} && MarksIn(c, st, now, {}) == st.suspected
    ensures var next := Membership.Reconcile(c, st, now);
      next.members == MembersIn(c, st, now, Membership.Candidates(c))
      && next.suspected == MarksIn(c, st, now, Membership.Candidates(c))
  {
    hide Membership.Alive, Membership.Quorate, Membership.FreshViews, Membership.Candidates;
    var next, all := Membership.Reconcile(c, st, now), Membership.Candidates(c);
    var up := set n | n in all && Membership.Alive(c, st, now, n);
    var down := set n | n in all && n !in up && now - Membership.Mark(st, n, now) >= c.suspicion;
    assert down == set n | n in all && Down(c, st, now, n);
    assert next.members == st.members + {c.self} + up - down;
    hide Membership.Mark;
    assert next.suspected.Keys == MarksIn(c, st, now, all).Keys;
  }

  lemma JudgeOneMore(c: Membership.Config, st: Membership.State, now: real, done: set<NodeId>, n: NodeId)
    requires n !in done
    ensures var marks := MarksIn(c, st, now, done);
      && (n in marks <==> n in st.suspected) && (n in marks ==> marks[n] == st.suspected[n])
      && MarksIn(c, st, now, done + {n}) ==
           if Membership.Alive(c, st, now, n) then marks - {n} else marks[n := Membership.Mark(st, n, now)]
    ensures var members := MembersIn(c, st, now, done);
      MembersIn(c, st, now, done + {n}) ==
        if Membership.Alive(c, st, now, n) then members + {n}
        else if Down(c, st, now, n) then members - {n} else members
  {
    hide Membership.Alive;
  }

  /** app/node_mesh.py:647-657: adds whoever a majority sees, marks the others, and drops
      those marked for long enough. */
  method JudgeCandidates(c: Membership.Config, st: Membership.State, now: real, reporters: Reports)
    returns (members: set<NodeId>, suspected: map<NodeId, real>)
    requires Membership.Quorate(c, st, now) && reporters == Membership.Reporters(c, st, now)
    ensures members == Membership.Reconcile(c, st, now).members
    ensures suspected == Membership.Reconcile(c, st, now).suspected
  {
    hide MembersIn, MarksIn, Membership.Reconcile, Membership.Reporters, Membership.Quorate, Membership.Votes;
    JudgeNoneAndAll(c, st, now);
    members, suspected := st.members + {c.self}, st.suspected;
    var left := c.universe - {c.self};
    ghost var all := left;
    assert all - left == {};
    while left != {}
      invariant left <= all
      invariant members == MembersIn(c, st, now, all - left) && suspected == MarksIn(c, st, now, all - left)
      decreases |left|
    {
      var n :| n in left;
      JudgeOneMore(c, st, now, all - left, n);
      assert all - (left - {n}) == all - left + {n};
      var votes := CountVotes(reporters, n);
      if votes >= |c.universe| / 2 + 1 {
        members, suspected := members + {n}, suspected - {n};
      } else {
        if n !in suspected {
          suspected := suspected[n := now];
        }
        if now - suspected[n] >= c.suspicion {
          members := members - {n};
        }
      }
      left := left - {n};
    }
    assert all - left == all == Membership.Candidates(c);
  }

  // ---- owners ----------------------------------------------------------------

  /** The least of some ids. */
  method Least(ids: set<NodeId>) returns (least: NodeId)
    requires ids != {}
    ensures least in ids && forall m :: m in ids && m != least ==> Rendezvous.IdLess(least, m)
  {
    least :| least in ids;
    var left := ids - {least};
    ghost var seen := {least};
    while left != {}
      invariant least in seen && seen + left == ids
      invariant forall m :: m in seen && m != least ==> Rendezvous.IdLess(least, m)
      decreases |left|
    {
      var x :| x in left;
      Rendezvous.IdOrder(x, least);
      if Rendezvous.IdLess(x, least) {
        LessThanAll(x, least, seen);
        least := x;
      }
      seen, left := seen + {x}, left - {x};
    }
  }

  lemma LessThanAll(x: NodeId, least: NodeId, seen: set<NodeId>)
    requires Rendezvous.IdLess(x, least) && forall m :: m in seen && m != least ==> Rendezvous.IdLess(least, m)
    ensures forall m :: m in seen ==> Rendezvous.IdLess(x, m)
  {
    forall m | m in seen && m != least ensures Rendezvous.IdLess(x, m) {
      Text.LessIsTransitive(x.text, least.text, m.text);
    }
  }

  lemma LeastIsFirst(ids: set<NodeId>, least: NodeId)
    requires least in ids && forall m :: m in ids && m != least ==> Rendezvous.IdLess(least, m)
    ensures Rendezvous.SortedIds(ids) == [least] + Rendezvous.SortedIds(ids - {least})
  {
    var x :| x in ids && (forall m :: m in ids && m != x ==> Rendezvous.IdLess(x, m))
      && Rendezvous.SortedIds(ids) == [x] + Rendezvous.SortedIds(ids - {x});
    Rendezvous.IdOrder(x, least);
  }

  /** `sorted(members)`. */
  method SortIds(members: set<NodeId>) returns (nodes: seq<NodeId>)
    ensures nodes == Rendezvous.SortedIds(members)
  {
    assert Rendezvous.SortedIds({}) == [];
    hide Rendezvous.SortedIds, Rendezvous.IdLess;
    var left := members;
    nodes := [];
    while left != {}
      invariant left <= members
      invariant nodes + Rendezvous.SortedIds(left) == Rendezvous.SortedIds(members)
      decreases |left|
    {
      var x := Least(left);
      LeastIsFirst(left, x);
      nodes, left := nodes + [x], left - {x};
    }
  }

  /** `owners_for` (app/node_mesh.py:147-155). */
  method OwnersFor(score: Rendezvous.Score, members: set<NodeId>, replicas: nat) returns (owners: seq<NodeId>)
    ensures owners == Rendezvous.OwnersFor(score, members, replicas) && |owners| == Min(Max(1, replicas), |members|)
  {
    Rendezvous.OwnersAreTop(score, members, replicas);
    var nodes := SortIds(members);
    hide Rendezvous.SortedIds, Rendezvous.StableDescending;
    var ranked := Rendezvous.StableDescending(score, nodes);
    var count := Rendezvous.Count(replicas, |members|);
    owners := if count <= |ranked| then ranked[..count] else ranked;
  }

  // ---- the registry ------------------------------------------------------------

  type RouteSelection = map<RouteId, Registry.Entries>

  /** The routes after only those in `done` were cut down to what `kept` says. */
  function CutIn(routes: Registry.Routes, kept: RouteSelection, done: set<RouteId>): Registry.Routes {
    map r | r in routes && (r in done ==> r in kept && kept[r] != map[]) :: if r in done then kept[r] else routes[r]
  }

  lemma CutNoneAndAll(routes: Registry.Routes, kept: RouteSelection)
    ensures CutIn(routes, kept, {}) == routes
    ensures CutIn(routes, kept, routes.Keys) == Registry.Filtered(routes, kept)
  {
  }

  function Left(routes: Registry.Routes, r: RouteId, entries: Registry.Entries): Registry.Routes {
    if entries == map[] then routes - {r} else routes[r := entries]
  }

  lemma CutOneMore(routes: Registry.Routes, kept: RouteSelection, done: set<RouteId>, r: RouteId)
    requires r in routes && r !in done
    ensures var cut, entries := CutIn(routes, kept, done), if r in kept then kept[r] else map[];
      && r in cut && cut[r] == routes[r]
      && CutIn(routes, kept, done + {r}) == Left(cut, r, entries)
      && Registry.Size(Left(cut, r, entries)) == Registry.Size(cut) - |cut[r]| + |entries|
  {
    hide Registry.Size;
    CutRoutes(routes, kept, done, r);
    hide CutIn, Left;
    CutSize(CutIn(routes, kept, done), r, if r in kept then kept[r] else map[]);
  }

  lemma CutRoutes(routes: Registry.Routes, kept: RouteSelection, done: set<RouteId>, r: RouteId)
    requires r in routes && r !in done
    ensures var cut, entries := CutIn(routes, kept, done), if r in kept then kept[r] else map[];
      && r in cut && cut[r] == routes[r]
      && CutIn(routes, kept, done + {r}) == Left(cut, r, entries)
  {
  }

  lemma CutSize(cut: Registry.Routes, r: RouteId, entries: Registry.Entries)
    requires r in cut
    ensures Registry.Size(Left(cut, r, entries)) == Registry.Size(cut) - |cut[r]| + |entries|
  {
    Registry.SizeUpdate(cut, r, entries);
    hide Registry.Size;
  }

  /** The unexpired entries of one route, and how many were dropped (app/node_mesh.py:544-547). */
  method DropExpired(entries: Registry.Entries, wall: real) returns (kept: Registry.Entries, removed: nat)
    ensures kept == Registry.Unexpired(entries, wall) && removed == |entries| - |kept|
  {
    kept, removed := entries, 0;
    var left := entries.Keys;
    while left != {}
      invariant left <= entries.Keys
      invariant kept == map k | k in entries && (k in left || !Registry.Expired(entries[k], wall)) :: entries[k]
      invariant removed + |kept| == |entries|
      decreases |left|
    {
      var k :| k in left;
      if Registry.Expired(kept[k], wall) {
        Collections.DropOne(kept, k);
        kept, removed := kept - {k}, removed + 1;
      }
      left := left - {k};
    }
  }

  /** The entries of one route whose node is active, and how many were dropped
      (app/node_mesh.py:505-508). */
  method DropInactive(entries: Registry.Entries, active: set<NodeId>) returns (kept: Registry.Entries, removed: nat)
    ensures kept == Registry.OfNodes(entries, active) && removed == |entries| - |kept|
  {
    kept, removed := entries, 0;
    var left := entries.Keys;
    while left != {}
      invariant left <= entries.Keys
      invariant kept == map k | k in entries && (k in left || entries[k].node in active) :: entries[k]
      invariant removed + |kept| == |entries|
      decreases |left|
    {
      var k :| k in left;
      if kept[k].node !in active {
        Collections.DropOne(kept, k);
        kept, removed := kept - {k}, removed + 1;
      }
      left := left - {k};
    }
  }

  /** app/node_mesh.py:542-549. */
  method PruneRoutes(routes: Registry.Routes, count: int, wall: real) returns (rest: Registry.Routes, left: int)
    ensures rest == Registry.Pruned(routes, wall)
    ensures left == count - (Registry.Size(routes) - Registry.Size(rest))
  {
    hide CutIn, Left, Registry.Size, Registry.Unexpired, Registry.Filtered;
    ghost var kept := Registry.AllUnexpired(routes, wall);
    CutNoneAndAll(routes, kept);
    rest, left := routes, count;
    var todo := routes.Keys;
    assert routes.Keys - todo == {};
    while todo != {}
      invariant todo <= routes.Keys
      invariant rest == CutIn(routes, kept, routes.Keys - todo)
      invariant left == count - (Registry.Size(routes) - Registry.Size(rest))
      decreases |todo|
    {
      var r :| r in todo;
      CutOneMore(routes, kept, routes.Keys - todo, r);
      assert routes.Keys - (todo - {r}) == routes.Keys - todo + {r};
      var entries, removed := DropExpired(rest[r], wall);
      rest := SetOrDrop(rest, r, entries);
      left := left - removed;
      todo := todo - {r};
    }
    assert routes.Keys - todo == routes.Keys;
  }

  /** A route that lost its last entry goes with it. */
  method SetOrDrop(routes: Registry.Routes, r: RouteId, entries: Registry.Entries) returns (rest: Registry.Routes)
    ensures rest == Left(routes, r, entries)
  {
    rest := routes[r := entries];
    if entries == map[] {
      rest := rest - {r};
      assert rest == routes - {r};
    }
  }

  ghost predicate Owns(digest: (RouteId, NodeId) -> nat, self: NodeId, members: set<NodeId>, replicas: nat, route: RouteId) {
    self in Rendezvous.OwnersFor(n => digest(route, n), members, replicas)
  }

  ghost function Owned(digest: (RouteId, NodeId) -> nat, self: NodeId, members: set<NodeId>, replicas: nat, routes: set<RouteId>): set<RouteId> {
    set r | r in routes && Owns(digest, self, members, replicas, r)
  }

  /** app/node_mesh.py:500-510: drops the routes this node no longer owns, and the entries of
      nodes it is no longer connected to. */
  method DropUnowned(routes: Registry.Routes, count: int, digest: (RouteId, NodeId) -> nat, self: NodeId,
                     members: set<NodeId>, replicas: nat, active: set<NodeId>)
    returns (rest: Registry.Routes, left: int)
    ensures rest == Registry.Rebalanced(routes, Owned(digest, self, members, replicas, routes.Keys), active)
    ensures left == count - (Registry.Size(routes) - Registry.Size(rest))
  {
    hide CutIn, Left, Registry.Size, Registry.OfNodes, Registry.Filtered, Rendezvous.OwnersFor;
    ghost var kept := Registry.AllActive(routes, Owned(digest, self, members, replicas, routes.Keys), active);
    CutNoneAndAll(routes, kept);
    rest, left := routes, count;
    var todo := routes.Keys;
    assert routes.Keys - todo == {};
    while todo != {}
      invariant todo <= routes.Keys
      invariant rest == CutIn(routes, kept, routes.Keys - todo)
      invariant left == count - (Registry.Size(routes) - Registry.Size(rest))
      decreases |todo|
    {
      var r :| r in todo;
      CutOneMore(routes, kept, routes.Keys - todo, r);
      assert routes.Keys - (todo - {r}) == routes.Keys - todo + {r};
      var owners := OwnersFor(n => digest(r, n), members, replicas);
      if self !in owners {
        assert r !in kept;
        DropRoute(rest, r);
        rest, left := rest - {r}, left - |rest[r]|;
      } else {
        var entries, removed := DropInactive(rest[r], active);
        rest := SetOrDrop(rest, r, entries);
        left := left - removed;
      }
      todo := todo - {r};
    }
    assert routes.Keys - todo == routes.Keys;
  }

  lemma DropRoute(routes: Registry.Routes, r: RouteId)
    ensures Left(routes, r, map[]) == routes - {r}
  {
  }

  /** The expired cache entries outside `left`. */
  function GoneOutside(cache: map<SessionId, Registry.Descriptor>, left: set<SessionId>, wall: real): set<SessionId> {
    set s | s in cache && s !in left && Registry.Expired(cache[s], wall)
  }

  lemma ForgetOneMore(st: Registry.State, left: set<SessionId>, s: SessionId, wall: real)
    requires s in left && s in st.cache
    ensures var gone, next := GoneOutside(st.cache, left, wall), GoneOutside(st.cache, left - {s}, wall);
      && s !in gone && s in st.cache - gone
      && next == (if Registry.Expired(st.cache[s], wall) then gone + {s} else gone)
      && st.cache - (gone + {s}) == st.cache - gone - {s}
      && st.bindings - (gone + {s}) == st.bindings - gone - {s}
  {
    hide Registry.Expired;
  }

  /** app/node_mesh.py:538-541: the expired cache entries and their sessions' bindings go. */
  method ForgetExpired(st: Registry.State, wall: real)
    returns (bindings: map<SessionId, NodeId>, cache: map<SessionId, Registry.Descriptor>)
    ensures var next := Registry.Forget(st, Registry.ExpiredCache(st, wall)); bindings == next.bindings && cache == next.cache
  {
    bindings, cache := st.bindings, st.cache;
    var left := st.cache.Keys;
    assert GoneOutside(st.cache, {}, wall) == Registry.ExpiredCache(st, wall);
    assert GoneOutside(st.cache, left, wall) == {};
    hide GoneOutside, Registry.Expired, Registry.ExpiredCache;
    while left != {}
      invariant left <= st.cache.Keys
      invariant bindings == st.bindings - GoneOutside(st.cache, left, wall)
      invariant cache == st.cache - GoneOutside(st.cache, left, wall)
      decreases |left|
    {
      var s :| s in left;
      ForgetOneMore(st, left, s, wall);
      if Registry.Expired(cache[s], wall) {
        bindings, cache := bindings - {s}, cache - {s};
      }
      left := left - {s};
    }
  }

  ghost predicate IsRegistered(routes: Registry.Routes, d: Registry.Descriptor) {
    exists r, k :: Registry.Holds(routes, r, k) && routes[r][k] == d
  }

  ghost predicate NoneRegistered(routes: Registry.Routes, session: SessionId) {
    forall r, k :: Registry.Holds(routes, r, k) ==> routes[r][k].session != session
  }

  /** A descriptor the registry holds for a session, on any route (app/node_mesh.py:242-246). */
  method FindSession(routes: Registry.Routes, session: SessionId) returns (found: Option<Registry.Descriptor>)
    ensures found.Some? ==> found.value.session == session && IsRegistered(routes, found.value)
    ensures found == None ==> NoneRegistered(routes, session)
  {
    var left := routes.Keys;
    while left != {}
      invariant left <= routes.Keys
      invariant forall r, k :: Registry.Holds(routes, r, k) && r !in left ==> routes[r][k].session != session
      decreases |left|
    {
      var r :| r in left;
      found := FindInRoute(routes[r], session);
      if found.Some? {
        var k :| k in routes[r] && routes[r][k] == found.value;
        assert Registry.Holds(routes, r, k);
        return;
      }
      left := left - {r};
    }
    found := None;
  }

  method FindInRoute(entries: Registry.Entries, session: SessionId) returns (found: Option<Registry.Descriptor>)
    ensures found.Some? ==> found.value.session == session && exists k :: k in entries && entries[k] == found.value
    ensures found == None ==> forall k :: k in entries ==> entries[k].session != session
  {
    var left := entries.Keys;
    while left != {}
      invariant left <= entries.Keys
      invariant forall k :: k in entries && k !in left ==> entries[k].session != session
      decreases |left|
    {
      var k :| k in left;
      if entries[k].session == session {
        return Some(entries[k]);
      }
      left := left - {k};
    }
    found := None;
  }

  /** The first entries of a route, at most `limit` of them; the order is left open. */
  method FirstEntries(entries: Registry.Entries, limit: nat) returns (items: seq<Registry.Descriptor>, ghost keys: seq<(NodeId, SessionId)>)
    ensures |items| == Min(limit, |entries|) && forall i :: 0 <= i < |items| ==> items[i] in entries.Values
    ensures |keys| == |items|
    ensures forall i :: 0 <= i < |items| ==> keys[i] in entries && items[i] == entries[keys[i]]
    ensures forall i, j :: 0 <= i < j < |keys| ==> keys[i] != keys[j]
  {
    items, keys := [], [];
    var left := entries.Keys;
    while left != {} && |items| < limit
      invariant left <= entries.Keys && |items| == |keys| && |items| + |left| == |entries| && |items| <= limit
      invariant forall i :: 0 <= i < |items| ==> keys[i] in entries && keys[i] !in left && items[i] == entries[keys[i]]
      invariant forall i, j :: 0 <= i < j < |keys| ==> keys[i] != keys[j]
      decreases |left|
    {
      var k :| k in left;
      items, keys := items + [entries[k]], keys + [k];
      left := left - {k};
    }
  }
}
