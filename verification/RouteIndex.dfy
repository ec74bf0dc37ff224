/** The two-way session/route index with leases (app/hub.py:74-88, 161-245), against a plain
    log of what was granted and given up. */
module RouteIndex {
  import opened Names
  import Collections

  type Leases = map<RouteId, map<SessionId, real>>

  type Held = map<SessionId, set<RouteId>>

  datatype State = State(leases: Leases, held: Held)

  datatype Event =
    | Open(id: SessionId)
    | Attach(id: SessionId, route: RouteId, ttl: real, limit: nat, now: real)
    | Renew(id: SessionId, route: RouteId, ttl: real, now: real)
    | Detach(id: SessionId, route: RouteId)
    | Close(id: SessionId)
    | Prune(now: real)

  predicate Has(leases: Leases, route: RouteId, id: SessionId) {
    route in leases && id in leases[route]
  }

  predicate CanAttach(st: State, id: SessionId, route: RouteId, limit: nat) {
    id in st.held && (route in st.held[id] || |st.held[id]| < limit)
  }

  function Granted(leases: Leases, route: RouteId, id: SessionId, expires: real): Leases {
    leases[route := (if route in leases then leases[route] else map[])[id := expires]]
  }

  /** An entry goes, and its route with it when that was the last one. */
  function Dropped(leases: Leases, route: RouteId, id: SessionId): Leases {
    if route !in leases then leases
    else if leases[route] - {id} == map[] then leases - {route}
    else leases[route := leases[route] - {id}]
  }

  function DroppedAll(leases: Leases, routes: set<RouteId>, id: SessionId): Leases {
    map r | r in leases && (r in routes ==> leases[r] - {id} != map[]) ::
      if r in routes then leases[r] - {id} else leases[r]
  }

  function Unexpired(route: map<SessionId, real>, now: real): map<SessionId, real> {
    map s | s in route && route[s] > now :: route[s]
  }

  function Pruned(st: State, now: real): State {
    State(
      map r | r in st.leases && Unexpired(st.leases[r], now) != map[] :: Unexpired(st.leases[r], now),
      map s | s in st.held :: set r | r in st.held[s] && !(Has(st.leases, r, s) && st.leases[r][s] <= now))
  }

  function Step(st: State, e: Event): State {
    match e
    case Open(id) => if id in st.held then st else st.(held := st.held[id := {}])
    case Attach(id, route, ttl, limit, now) =>
      if CanAttach(st, id, route, limit)
      then State(Granted(st.leases, route, id, now + ttl), st.held[id := st.held[id] + {route}])
      else st
    case Renew(id, route, ttl, now) =>
      if Has(st.leases, route, id) then st.(leases := Granted(st.leases, route, id, now + ttl)) else st
    case Detach(id, route) =>
      State(Dropped(st.leases, route, id), if id in st.held then st.held[id := st.held[id] - {route}] else st.held)
    case Close(id) =>
      if id in st.held then State(DroppedAll(st.leases, st.held[id], id), st.held - {id}) else st
    case Prune(now) => Pruned(st, now)
  }

  const EMPTY := State(map[], map[])

  function After(events: seq<Event>, n: nat): State
    requires n <= |events|
  {
    if n == 0 then EMPTY else Step(After(events, n - 1), events[n - 1])
  }

  function Subscribers(st: State, route: RouteId, exclude: Option<SessionId>, now: real): set<SessionId> {
    if route in st.leases
    then set s | s in st.leases[route] && st.leases[route][s] > now && Some(s) != exclude
    else {}
  }

  /** Routes and per-session route sets mirror each other; no route is empty. */
  ghost predicate Mirrored(st: State) {
    && (forall r, s :: Has(st.leases, r, s) <==> (s in st.held && r in st.held[s]))
    && (forall r :: r in st.leases ==> st.leases[r] != map[])
  }

  // ---------------------------------------------------------------------------
  // The plain log. Pruning writes nothing into it.

  datatype Entry =
    | Lease(id: SessionId, route: RouteId, expires: real)
    | GaveUp(id: SessionId, route: RouteId)
    | Left(id: SessionId)

  /** The expiry of the last grant not followed by a detach or the session's removal. */
  function LastLease(log: seq<Entry>, id: SessionId, route: RouteId): Option<real> {
    if log == [] then None else Revised(LastLease(log[..|log| - 1], id, route), log[|log| - 1], id, route)
  }

  function Revised(earlier: Option<real>, e: Entry, id: SessionId, route: RouteId): Option<real> {
    match e
    case Lease(s, r, expires) => if s == id && r == route then Some(expires) else earlier
    case GaveUp(s, r) => if s == id && r == route then None else earlier
    case Left(s) => if s == id then None else earlier
  }

  function Logged(log: seq<Entry>, st: State, e: Event): seq<Entry> {
    match e
    case Attach(id, route, ttl, limit, now) =>
      if CanAttach(st, id, route, limit) then log + [Lease(id, route, now + ttl)] else log
    case Renew(id, route, ttl, now) => if Has(st.leases, route, id) then log + [Lease(id, route, now + ttl)] else log
    case Detach(id, route) => log + [GaveUp(id, route)]
    case Close(id) => if id in st.held then log + [Left(id)] else log
    case _ => log
  }

  function Log(events: seq<Event>, n: nat): seq<Entry>
    requires n <= |events|
  {
    if n == 0 then [] else Logged(Log(events, n - 1), After(events, n - 1), events[n - 1])
  }

  /** The clock reading of an event, if it takes one. */
  function Clock(e: Event): Option<real> {
    match e
    case Attach(_, _, _, _, now) => Some(now)
    case Renew(_, _, _, now) => Some(now)
    case Prune(now) => Some(now)
    case _ => None
  }

  /** No event of the first `n` read the clock after `now`. */
  ghost predicate NotAfter(events: seq<Event>, n: nat, now: real)
    requires n <= |events|
  {
    forall i :: 0 <= i < n && Clock(events[i]).Some? ==> Clock(events[i]).value <= now
  }

  ghost predicate Ordered(events: seq<Event>) {
    forall i :: 0 <= i < |events| && Clock(events[i]).Some? ==> NotAfter(events, i, Clock(events[i]).value)
  }

  /** The index holds only last leases, and every one that is still running at `now`. */
  ghost predicate Agrees(leases: Leases, log: seq<Entry>, now: real) {
    && (forall r, s :: Has(leases, r, s) ==> LastLease(log, s, r) == Some(leases[r][s]))
    && (forall r, s :: LastLease(log, s, r).Some? && LastLease(log, s, r).value > now ==> Has(leases, r, s))
  }

  // ---------------------------------------------------------------------------

  lemma GrantedHas(leases: Leases, route: RouteId, id: SessionId, expires: real)
    ensures var next := Granted(leases, route, id, expires);
      && (forall r, s :: Has(next, r, s) <==> Has(leases, r, s) || (r == route && s == id))
      && (forall r, s :: Has(next, r, s) ==> next[r][s] == if r == route && s == id then expires else leases[r][s])
  {
  }

  lemma DroppedHas(leases: Leases, route: RouteId, id: SessionId)
    ensures var next := Dropped(leases, route, id);
      && (forall r, s :: Has(next, r, s) <==> Has(leases, r, s) && !(r == route && s == id))
      && (forall r, s :: Has(next, r, s) ==> next[r][s] == leases[r][s])
  {
    if route in leases {
      assert forall s :: s in leases[route] && s != id ==> s in leases[route] - {id};
    }
  }

  lemma DroppedAllHas(leases: Leases, routes: set<RouteId>, id: SessionId)
    ensures var next := DroppedAll(leases, routes, id);
      && (forall r, s :: Has(next, r, s) <==> Has(leases, r, s) && !(r in routes && s == id))
      && (forall r, s :: Has(next, r, s) ==> next[r][s] == leases[r][s])
  {
    var next := DroppedAll(leases, routes, id);
    forall r, s | Has(leases, r, s) && !(r in routes && s == id) ensures Has(next, r, s) {
      if r in routes {
        assert s in leases[r] - {id};
      }
    }
  }

  lemma PrunedHas(st: State, now: real)
    ensures var next := Pruned(st, now);
      && (forall r, s :: Has(next.leases, r, s) <==> Has(st.leases, r, s) && st.leases[r][s] > now)
      && (forall r, s :: Has(next.leases, r, s) ==> next.leases[r][s] == st.leases[r][s])
  {
    var next := Pruned(st, now);
    forall r, s | Has(st.leases, r, s) && st.leases[r][s] > now ensures Has(next.leases, r, s) {
      assert s in Unexpired(st.leases[r], now);
    }
  }

  lemma AttachKeepsMirror(st: State, id: SessionId, route: RouteId, expires: real)
    requires Mirrored(st) && id in st.held
    ensures Mirrored(State(Granted(st.leases, route, id, expires), st.held[id := st.held[id] + {route}]))
  {
    GrantedHas(st.leases, route, id, expires);
    hide Has;
  }

  lemma RenewKeepsMirror(st: State, id: SessionId, route: RouteId, expires: real)
    requires Mirrored(st) && Has(st.leases, route, id)
    ensures Mirrored(st.(leases := Granted(st.leases, route, id, expires)))
  {
    GrantedHas(st.leases, route, id, expires);
    hide Has;
  }

  lemma DetachKeepsMirror(st: State, id: SessionId, route: RouteId)
    requires Mirrored(st)
    ensures Mirrored(Step(st, Detach(id, route)))
  {
    DroppedHas(st.leases, route, id);
    hide Has;
  }

  lemma CloseKeepsMirror(st: State, id: SessionId)
    requires Mirrored(st) && id in st.held
    ensures Mirrored(State(DroppedAll(st.leases, st.held[id], id), st.held - {id}))
  {
    DroppedAllHas(st.leases, st.held[id], id);
    hide Has;
  }

  lemma PruneKeepsMirror(st: State, now: real)
    requires Mirrored(st)
    ensures Mirrored(Pruned(st, now))
  {
    PrunedHas(st, now);
  }

  lemma StepKeepsMirror(st: State, e: Event)
    requires Mirrored(st)
    ensures Mirrored(Step(st, e))
  {
    match e
    case Open(_) =>
    case Attach(id, route, ttl, limit, now) =>
      hide Granted;
      if CanAttach(st, id, route, limit) { AttachKeepsMirror(st, id, route, now + ttl); }
    case Renew(id, route, ttl, now) =>
      hide Granted;
      if Has(st.leases, route, id) { RenewKeepsMirror(st, id, route, now + ttl); }
    case Detach(id, route) =>
      DetachKeepsMirror(st, id, route);
    case Close(id) =>
      if id in st.held { CloseKeepsMirror(st, id); }
    case Prune(now) =>
      PruneKeepsMirror(st, now);
  }

  lemma LastLeasesOfOneMore(log: seq<Entry>, e: Entry)
    ensures forall id, route :: LastLease(log + [e], id, route) == Revised(LastLease(log, id, route), e, id, route)
  {
    assert (log + [e])[..|log|] == log;
  }

  lemma GrantAgrees(leases: Leases, log: seq<Entry>, id: SessionId, route: RouteId, expires: real, now: real)
    requires Agrees(leases, log, now)
    ensures Agrees(Granted(leases, route, id, expires), log + [Lease(id, route, expires)], now)
  {
    GrantedHas(leases, route, id, expires);
    LastLeasesOfOneMore(log, Lease(id, route, expires));
    hide Granted, Has, LastLease;
  }

  lemma DropAgrees(leases: Leases, log: seq<Entry>, id: SessionId, route: RouteId, now: real)
    requires Agrees(leases, log, now)
    ensures Agrees(Dropped(leases, route, id), log + [GaveUp(id, route)], now)
  {
    DroppedHas(leases, route, id);
    LastLeasesOfOneMore(log, GaveUp(id, route));
    hide Dropped, LastLease;
  }

  lemma LeaveAgrees(st: State, log: seq<Entry>, id: SessionId, now: real)
    requires Mirrored(st) && id in st.held && Agrees(st.leases, log, now)
    ensures Agrees(DroppedAll(st.leases, st.held[id], id), log + [Left(id)], now)
  {
    DroppedAllHas(st.leases, st.held[id], id);
    LastLeasesOfOneMore(log, Left(id));
    hide DroppedAll, LastLease;
  }

  lemma StepAgrees(st: State, log: seq<Entry>, e: Event, now: real)
    requires Mirrored(st) && Agrees(st.leases, log, now)
    requires Clock(e).Some? ==> Clock(e).value == now
    ensures Agrees(Step(st, e).leases, Logged(log, st, e), now)
  {
    hide Granted, Dropped, DroppedAll, Pruned, LastLease, Mirrored, Agrees;
    match e
    case Open(_) =>
    case Attach(id, route, ttl, limit, _) =>
      GrantAgrees(st.leases, log, id, route, now + ttl, now);
    case Renew(id, route, ttl, _) =>
      GrantAgrees(st.leases, log, id, route, now + ttl, now);
    case Detach(id, route) =>
      DropAgrees(st.leases, log, id, route, now);
    case Close(id) =>
      if id in st.held { LeaveAgrees(st, log, id, now); }
    case Prune(_) =>
      PruneAgrees(st, log, now);
  }

  lemma PruneAgrees(st: State, log: seq<Entry>, now: real)
    requires Agrees(st.leases, log, now)
    ensures Agrees(Pruned(st, now).leases, log, now)
  {
    PrunedHas(st, now);
    hide Pruned, LastLease;
  }

  lemma {:induction false} RunKeepsMirror(events: seq<Event>, n: nat)
    requires n <= |events|
    ensures Mirrored(After(events, n))
  {
    hide Mirrored, Step;
    if n > 0 {
      RunKeepsMirror(events, n - 1);
      StepKeepsMirror(After(events, n - 1), events[n - 1]);
    } else {
      EmptyMirrors();
    }
  }

  lemma EmptyMirrors()
    ensures Mirrored(EMPTY)
  {
  }

  lemma AgreesLater(leases: Leases, log: seq<Entry>, now: real, later: real)
    requires Agrees(leases, log, now) && now <= later
    ensures Agrees(leases, log, later)
  {
    hide LastLease;
  }

  lemma {:induction false} RunAgrees(events: seq<Event>, n: nat, now: real)
    requires n <= |events| && Ordered(events) && NotAfter(events, n, now)
    ensures Agrees(After(events, n).leases, Log(events, n), now)
  {
    if n > 0 {
      var e, st, log := events[n - 1], After(events, n - 1), Log(events, n - 1);
      var at := if Clock(e).Some? then Clock(e).value else now;
      assert NotAfter(events, n - 1, at);
      RunAgrees(events, n - 1, at);
      RunKeepsMirror(events, n - 1);
      hide Mirrored, Step, Logged, Agrees;
      StepAgrees(st, log, e, at);
      AgreesLater(Step(st, e).leases, Logged(log, st, e), at, now);
    }
  }

  /** The subscribers of a route are exactly the sessions whose last successful attach or
      renewal was not followed by detach or removal and is unexpired. Pruning leaves no trace
      in the log, so it is invisible; and the two sides of the index always mirror. */
  lemma SubscribersAreRunningLeases(events: seq<Event>, n: nat, route: RouteId, exclude: Option<SessionId>, now: real)
    requires n <= |events| && Ordered(events) && NotAfter(events, n, now)
    ensures Mirrored(After(events, n))
    ensures forall s :: s in Subscribers(After(events, n), route, exclude, now) <==>
      LastLease(Log(events, n), s, route).Some? && LastLease(Log(events, n), s, route).value > now && Some(s) != exclude
  {
    RunKeepsMirror(events, n);
    RunAgrees(events, n, now);
    hide After, Log, LastLease;
    var st := After(events, n);
    forall s ensures s in Subscribers(st, route, exclude, now) <==>
      Has(st.leases, route, s) && st.leases[route][s] > now && Some(s) != exclude
    {
    }
  }

  /** Pruning is visible in exactly one kind of renewal: the lease is still indexed and has
      run out. Without the prune app/hub.py:181-187 revives it, after the prune it fails. */
  lemma PruneFailsExpiredRenewals(st: State, id: SessionId, route: RouteId, now: real)
    ensures Has(Pruned(st, now).leases, route, id) != Has(st.leases, route, id)
      <==> Has(st.leases, route, id) && st.leases[route][id] <= now
  {
    PrunedHas(st, now);
  }

  /** The routes of a session whose lease has not run out. */
  function Running(st: State, id: SessionId, now: real): set<RouteId>
    requires id in st.held
  {
    set r | r in st.held[id] && !(Has(st.leases, r, id) && st.leases[r][id] <= now)
  }

  lemma PrunedHolds(st: State, id: SessionId, now: real)
    requires id in st.held
    ensures id in Pruned(st, now).held && Pruned(st, now).held[id] == Running(st, id, now)
  {
  }

  /** Where a prune changes the answer to an attach: it makes room for a new route of a full
      session, or it takes away the very route a session over the limit asks for. */
  lemma PruneChangesAttachIff(st: State, id: SessionId, route: RouteId, limit: nat, now: real)
    requires id in st.held
    ensures !CanAttach(st, id, route, limit) && CanAttach(Pruned(st, now), id, route, limit)
      <==> route !in st.held[id] && |st.held[id]| >= limit && |Running(st, id, now)| < limit
    ensures CanAttach(st, id, route, limit) && !CanAttach(Pruned(st, now), id, route, limit)
      <==> route in st.held[id] && route !in Running(st, id, now) && |Running(st, id, now)| >= limit
  {
    PrunedHolds(st, id, now);
    Collections.SubsetSize(Running(st, id, now), st.held[id]);
    hide Pruned;
  }

  /** Every attach of the session goes by this limit or a smaller one. */
  ghost predicate Limited(events: seq<Event>, id: SessionId, limit: nat) {
    forall i :: 0 <= i < |events| && events[i].Attach? && events[i].id == id ==> events[i].limit <= limit
  }

  lemma HeldStep(st: State, e: Event, id: SessionId, limit: nat)
    requires id in st.held ==> |st.held[id]| <= limit
    requires e.Attach? && e.id == id ==> e.limit <= limit
    ensures id in Step(st, e).held ==> |Step(st, e).held[id]| <= limit
  {
    hide Granted, Dropped, DroppedAll;
    if e.Prune? && id in st.held {
      PrunedHolds(st, id, e.now);
      Collections.SubsetSize(Running(st, id, e.now), st.held[id]);
    } else if e.Detach? && e.id == id && id in st.held {
      Collections.SubsetSize(st.held[id] - {e.route}, st.held[id]);
    } else if e.Attach? && e.id == id && id in st.held && e.route in st.held[id] {
      assert st.held[id] + {e.route} == st.held[id];
    }
  }

  lemma {:induction false} HeldWithinLimit(events: seq<Event>, n: nat, id: SessionId, limit: nat)
    requires n <= |events| && Limited(events, id, limit)
    ensures id in After(events, n).held ==> |After(events, n).held[id]| <= limit
  {
    hide Step;
    if n > 0 {
      HeldWithinLimit(events, n - 1, id, limit);
      HeldStep(After(events, n - 1), events[n - 1], id, limit);
    }
  }

  /** In a run, where a session attaches under one limit, an expired lease occupies a place until
      it is pruned: the prune changes the answer to an attach exactly when the route is new, the
      session is full, and dropping what has run out makes room - from refused to accepted. */
  lemma PruneFreesRoutePlaces(events: seq<Event>, n: nat, id: SessionId, route: RouteId, limit: nat, now: real)
    requires n <= |events| && Limited(events, id, limit) && id in After(events, n).held
    ensures var st := After(events, n);
      CanAttach(Pruned(st, now), id, route, limit) != CanAttach(st, id, route, limit)
      <==> route !in st.held[id] && |st.held[id]| == limit && |Running(st, id, now)| < limit
    ensures CanAttach(After(events, n), id, route, limit) ==> CanAttach(Pruned(After(events, n), now), id, route, limit)
  {
    var st := After(events, n);
    HeldWithinLimit(events, n, id, limit);
    PruneChangesAttachIff(st, id, route, limit, now);
    Collections.SubsetSize(Running(st, id, now), st.held[id]);
    hide Pruned, After;
  }
}
