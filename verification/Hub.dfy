/** The hub (app/hub.py): sessions, routes, replay table and outbound queues in one object.
    Its methods are the await-free regions of the source; each is one step of the state
    machines in Outbound, RouteIndex and ReplayTable. */
module HubModel {
  import opened Names
  import opened Numbers
  import Collections
  import Outbound
  import RateLimits
  import RateRegistry
  import RouteIndex
  import ReplayTable

  datatype Config = Config(
    maxRoutesPerSession: nat,
    routeLeaseSeconds: real,
    sessionStaleSeconds: real,
    maxDedupeEntries: nat,
    maxConcurrency: nat,
    outboundQueueFrames: nat,
    outboundQueueBytes: nat)
  {
    function Limits(): Outbound.Limits {
      Outbound.Limits(outboundQueueFrames, outboundQueueBytes, maxConcurrency)
    }
  }

  datatype Session = Session(lastHeartbeat: real, routes: set<RouteId>, queue: seq<Outbound.Frame>, outboundBytes: int)

  datatype AttachOutcome = Attached | UnknownSession | TooManyRoutes

  type Sessions = map<SessionId, Session>

  type Frames = map<SessionId, seq<Outbound.Frame>>

  function Of(frames: Frames, id: SessionId): seq<Outbound.Frame> {
    if id in frames then frames[id] else []
  }

  function LaneOf(session: Session, accepted: seq<Outbound.Frame>, processed: seq<Outbound.Frame>): Outbound.Lane {
    Outbound.Lane(session.queue, session.outboundBytes, accepted, processed)
  }

  /** The outbound side of the session table. */
  function LanesOf(sessions: Sessions, accepted: Frames, processed: Frames): map<SessionId, Outbound.Lane> {
    map s | s in sessions :: LaneOf(sessions[s], Of(accepted, s), Of(processed, s))
  }

  /** The routing side of the session table. */
  function RoutesOf(sessions: Sessions): RouteIndex.Held {
    map s | s in sessions :: sessions[s].routes
  }

  /** The heartbeat side of the session table. */
  function BeatsOf(sessions: Sessions): map<SessionId, real> {
    map s | s in sessions :: sessions[s].lastHeartbeat
  }

  /** What the steps of a removal act on. */
  datatype Shown = Shown(out: Outbound.State, index: RouteIndex.State, buckets: RateRegistry.BucketTable)

  /** The Remove step of the queues, the Close step of the index and the drop of the buckets. */
  function RemovedFrom(limits: Outbound.Limits, v: Shown, id: SessionId): Shown {
    Shown(
      Outbound.Step(limits, v.out, Outbound.Remove(id)),
      RouteIndex.Step(v.index, RouteIndex.Close(id)),
      if id in v.index.held then RateRegistry.AfterCall(v.buckets, RateRegistry.Drop(id.hex)) else v.buckets)
  }

  function RemovedEach(limits: Outbound.Limits, v: Shown, order: seq<SessionId>, n: nat): Shown
    requires n <= |order|
  {
    if n == 0 then v else RemovedFrom(limits, RemovedEach(limits, v, order, n - 1), order[n - 1])
  }

  lemma {:induction false} RemovedEachPrefix(limits: Outbound.Limits, v: Shown, order: seq<SessionId>, more: seq<SessionId>, n: nat)
    requires n <= |order| && order <= more
    ensures RemovedEach(limits, v, order, n) == RemovedEach(limits, v, more, n)
  {
    hide RemovedFrom;
    if n > 0 {
      RemovedEachPrefix(limits, v, order, more, n - 1);
    }
  }

  function Stale(sessions: Sessions, now: real, limit: real): set<SessionId> {
    set s | s in sessions && now - sessions[s].lastHeartbeat > limit
  }

  lemma StaleAre(sessions: Sessions, now: real, limit: real)
    ensures forall s :: s in Stale(sessions, now, limit) <==> s in sessions && now - sessions[s].lastHeartbeat > limit
  {
  }

  lemma TableLookup(sessions: Sessions, accepted: Frames, processed: Frames, id: SessionId)
    ensures LanesOf(sessions, accepted, processed).Keys == sessions.Keys == RoutesOf(sessions).Keys
    ensures |LanesOf(sessions, accepted, processed)| == |sessions|
    ensures id in sessions ==>
      && LanesOf(sessions, accepted, processed)[id] == LaneOf(sessions[id], Of(accepted, id), Of(processed, id))
      && RoutesOf(sessions)[id] == sessions[id].routes
  {
    assert LanesOf(sessions, accepted, processed).Keys == sessions.Keys;
    assert |LanesOf(sessions, accepted, processed).Keys| == |sessions.Keys|;
  }

  lemma TableUpdate(sessions: Sessions, accepted: Frames, processed: Frames, id: SessionId, session: Session,
                    a: seq<Outbound.Frame>, p: seq<Outbound.Frame>)
    ensures LanesOf(sessions[id := session], accepted[id := a], processed[id := p])
         == LanesOf(sessions, accepted, processed)[id := LaneOf(session, a, p)]
    ensures RoutesOf(sessions[id := session]) == RoutesOf(sessions)[id := session.routes]
    ensures BeatsOf(sessions[id := session]) == BeatsOf(sessions)[id := session.lastHeartbeat]
  {
  }

  lemma TableRemove(sessions: Sessions, accepted: Frames, processed: Frames, id: SessionId)
    ensures LanesOf(sessions - {id}, accepted, processed) == LanesOf(sessions, accepted, processed) - {id}
    ensures RoutesOf(sessions - {id}) == RoutesOf(sessions) - {id}
    ensures BeatsOf(sessions - {id}) == BeatsOf(sessions) - {id}
  {
  }

  /** Changing fields that neither side looks at changes neither side. */
  lemma TableSame(sessions: Sessions, accepted: Frames, processed: Frames, id: SessionId, session: Session)
    requires id in sessions
    ensures session.queue == sessions[id].queue && session.outboundBytes == sessions[id].outboundBytes ==>
      LanesOf(sessions[id := session], accepted, processed) == LanesOf(sessions, accepted, processed)
    ensures session.routes == sessions[id].routes ==> RoutesOf(sessions[id := session]) == RoutesOf(sessions)
    ensures session.lastHeartbeat == sessions[id].lastHeartbeat ==> BeatsOf(sessions[id := session]) == BeatsOf(sessions)
  {
  }

  class Hub {
    const config: Config
    var sessions: map<SessionId, Session>
    var routes: RouteIndex.Leases
    var seen: ReplayTable.Table
    var outboundQueuedBytes: int
    var writers: map<SessionId, Outbound.Writer>
    var buckets: RateRegistry.BucketTable
    ghost var accepted: map<SessionId, seq<Outbound.Frame>>
    ghost var processed: map<SessionId, seq<Outbound.Frame>>

    ghost function Out(): Outbound.State
      reads this
    {
      Outbound.State(LanesOf(sessions, accepted, processed), writers, outboundQueuedBytes)
    }

    ghost function Index(): RouteIndex.State
      reads this
    {
      RouteIndex.State(routes, RoutesOf(sessions))
    }

    ghost predicate Valid()
      reads this
    {
      && Outbound.Inv(config.Limits(), Out())
      && RouteIndex.Mirrored(Index())
      && |seen| <= config.maxDedupeEntries
    }

    constructor (config: Config)
      ensures Valid() && this.config == config
      ensures Out() == Outbound.EMPTY && Index() == RouteIndex.EMPTY && seen == map[] && buckets == map[]
    {
      this.config := config;
      sessions, routes, seen, outboundQueuedBytes, writers, buckets := map[], map[], map[], 0, map[], map[];
      accepted, processed := map[], map[];
      new;
      assert Out() == Outbound.EMPTY && Index() == RouteIndex.EMPTY;
      RouteIndex.EmptyMirrors();
      Outbound.RunKeeps(config.Limits(), []);
    }

    // ---- sessions ----------------------------------------------------------

    /** The capacity gate of app/v2.py:194-197 and create_session, which run without an await
        between them. `id` is a fresh uuid. */
    method AdmitSession(id: SessionId, now: real) returns (ok: bool)
      requires Valid() && id !in sessions && id !in writers
      modifies this`sessions, this`outboundQueuedBytes, this`writers, this`accepted, this`processed
      ensures Valid() && ok == (|old(sessions)| < config.maxConcurrency)
      ensures Out() == Outbound.Step(config.Limits(), old(Out()), Outbound.Connect(id))
      ensures Index() == if ok then RouteIndex.Step(old(Index()), RouteIndex.Open(id)) else old(Index())
      ensures BeatsOf(sessions) == if ok then old(BeatsOf(sessions))[id := now] else old(BeatsOf(sessions))
      ensures seen == old(seen)
    {
      hide Outbound.Inv, RouteIndex.Mirrored, LanesOf, RoutesOf, BeatsOf, RouteIndex.DroppedAll, RouteIndex.Dropped, RouteIndex.Pruned;
      ghost var out, index := Out(), Index();
      TableLookup(sessions, accepted, processed, id);
      Outbound.StepKeeps(config.Limits(), out, Outbound.Connect(id));
      RouteIndex.StepKeepsMirror(index, RouteIndex.Open(id));
      if |sessions| >= config.maxConcurrency {
        return false;
      }
      TableUpdate(sessions, accepted, processed, id, Session(now, {}, [], 0), [], []);
      sessions := sessions[id := Session(now, {}, [], 0)];
      accepted, processed := accepted[id := []], processed[id := []];
      ok := true;
    }

    method TouchHeartbeat(id: SessionId, now: real)
      requires Valid()
      modifies this`sessions
      ensures Valid() && Out() == old(Out()) && Index() == old(Index())
      ensures sessions == if id in old(sessions) then old(sessions)[id := old(sessions)[id].(lastHeartbeat := now)] else old(sessions)
    {
      hide Outbound.Inv, RouteIndex.Mirrored, LanesOf, RoutesOf, BeatsOf, RouteIndex.DroppedAll, RouteIndex.Dropped, RouteIndex.Pruned;
      if id in sessions {
        TableSame(sessions, accepted, processed, id, sessions[id].(lastHeartbeat := now));
        sessions := sessions[id := sessions[id].(lastHeartbeat := now)];
      }
    }

    method RemoveSession(id: SessionId)
      requires Valid()
      modifies this
      ensures Valid() && sessions == old(sessions) - {id}
      ensures Out() == Outbound.Step(config.Limits(), old(Out()), Outbound.Remove(id))
      ensures Index() == RouteIndex.Step(old(Index()), RouteIndex.Close(id))
      ensures buckets == if id in old(sessions) then RateRegistry.AfterCall(old(buckets), RateRegistry.Drop(id.hex)) else old(buckets)
      ensures seen == old(seen)
    {
      hide Outbound.Inv, RouteIndex.Mirrored, LanesOf, RoutesOf, BeatsOf, Outbound.Removed, RouteIndex.DroppedAll;
      TableLookup(sessions, accepted, processed, id);
      if id in sessions {
        RemovePresent(id);
      }
    }

    method RemovePresent(id: SessionId)
      requires Valid() && id in sessions && id in Out().lanes
      modifies this
      ensures Valid() && sessions == old(sessions) - {id}
      ensures Out() == Outbound.Removed(old(Out()), id)
      ensures Index() == RouteIndex.State(
        RouteIndex.DroppedAll(old(routes), old(sessions[id].routes), id), old(Index()).held - {id})
      ensures buckets == RateRegistry.AfterCall(old(buckets), RateRegistry.Drop(id.hex))
      ensures seen == old(seen)
    {
      hide Outbound.Inv, RouteIndex.Mirrored, LanesOf, RoutesOf, BeatsOf, RouteIndex.DroppedAll;
      TableLookup(sessions, accepted, processed, id);
      Outbound.RemovedKeeps(config.Limits(), Out(), id);
      RouteIndex.CloseKeepsMirror(Index(), id);
      TableRemove(sessions, accepted, processed, id);
      var session := sessions[id];
      sessions := sessions - {id};
      if id in writers && writers[id] == Outbound.Waiting {
        writers := writers[id := Outbound.Ended];
      }
      outboundQueuedBytes := Max(0, outboundQueuedBytes - session.outboundBytes);
      routes := DetachAll(routes, session.routes, id);
      buckets := RateRegistry.Without(buckets, id.hex);
    }

    /** Removes every session whose last heartbeat is too old (app/hub.py:232-245), one after
        another in some `order`; closing the orphaned sockets is not modelled. */
    method PruneStaleSessions(now: real) returns (stale: set<SessionId>, ghost order: seq<SessionId>)
      requires Valid()
      modifies this
      ensures Valid() && seen == old(seen)
      ensures stale == Stale(old(sessions), now, config.sessionStaleSeconds)
      ensures forall s :: s in stale <==> s in old(sessions) && now - old(sessions)[s].lastHeartbeat > config.sessionStaleSeconds
      ensures sessions == old(sessions) - stale
      ensures LeasesWithout(routes, old(routes), stale)
      ensures |order| == |stale| && (forall s :: s in order <==> s in stale)
      ensures Now() == RemovedEach(config.Limits(), old(Now()), order, |order|)
    {
      stale := Stale(sessions, now, config.sessionStaleSeconds);
      StaleAre(sessions, now, config.sessionStaleSeconds);
      hide Stale, LeasesWithout, RemovedFrom, Outbound.Inv, RouteIndex.Mirrored, LanesOf, RoutesOf, BeatsOf;
      var left := stale;
      order := [];
      ghost var before, all := sessions, routes;
      NoneGone(routes);
      assert stale - left == {};
      while left != {}
        invariant left <= stale && Valid() && seen == old(seen)
        invariant sessions == before - (stale - left)
        invariant LeasesWithout(routes, all, stale - left)
        invariant |order| + |left| == |stale| && (forall s :: s in order <==> s in stale - left)
        invariant Now() == RemovedEach(config.Limits(), old(Now()), order, |order|)
        decreases |left|
      {
        var s :| s in left;
        ghost var between := routes;
        RemoveStale(s);
        OneMoreGone(routes, between, all, stale - left, s);
        OneMoreSession(before, stale - left, s);
        RemovedEachPrefix(config.Limits(), old(Now()), order, order + [s], |order|);
        assert stale - (left - {s}) == stale - left + {s};
        left := left - {s};
        order := order + [s];
      }
      assert stale - left == stale;
    }

    ghost function Now(): Shown
      reads this
    {
      Shown(Out(), Index(), buckets)
    }

    method RemoveStale(id: SessionId)
      requires Valid()
      modifies this
      ensures Valid() && seen == old(seen) && sessions == old(sessions) - {id}
      ensures LeasesWithout(routes, old(routes), {id})
      ensures Now() == RemovedFrom(config.Limits(), old(Now()), id)
    {
      hide LeasesWithout, Outbound.Inv, Outbound.Step, RouteIndex.Step, RouteIndex.Mirrored, LanesOf, RoutesOf, BeatsOf,
           RateRegistry.AfterCall;
      CloseEndsLeases(Index(), id);
      TableLookup(sessions, accepted, processed, id);
      RemoveSession(id);
    }

    // ---- rate limits -------------------------------------------------------

    /** rate_limiter.check (app/rate_limits.py:59-66). */
    method CheckRate(id: SessionId, op: string, now: real) returns (ok: bool)
      modifies this`buckets
      ensures buckets == RateRegistry.AfterCall(old(buckets), RateRegistry.Check((id.hex, op), now))
      ensures ok == RateLimits.CanPay(RateRegistry.BucketFor(old(buckets), (id.hex, op), now), RateLimits.Attempt(now, 1.0))
    {
      hide RateLimits.CanPay, RateLimits.AfterAttempt, RateRegistry.Defaults;
      var bucket := RateRegistry.BucketFor(buckets, (id.hex, op), now);
      ok := RateLimits.CanPay(bucket, RateLimits.Attempt(now, 1.0));
      buckets := buckets[(id.hex, op) := RateLimits.AfterAttempt(bucket, RateLimits.Attempt(now, 1.0))];
    }

    // ---- outbound ----------------------------------------------------------

    /** send_session up to its answer; closing a slow client's socket is not modelled. */
    method SendSession(id: SessionId, frame: Outbound.Frame) returns (ok: bool)
      requires Valid()
      modifies this`sessions, this`outboundQueuedBytes, this`writers, this`accepted, this`processed
      ensures Valid() && Index() == old(Index()) && seen == old(seen)
      ensures BeatsOf(sessions) == old(BeatsOf(sessions))
      ensures ok == (id in old(sessions) && Outbound.Fits(config.Limits(), old(Out()).lanes[id], frame))
      ensures Out() == Outbound.Step(config.Limits(), old(Out()), Outbound.Send(id, frame))
    {
      hide Outbound.Inv, RouteIndex.Mirrored, LanesOf, RoutesOf, BeatsOf, RouteIndex.DroppedAll, RouteIndex.Dropped, RouteIndex.Pruned;
      ghost var out := Out();
      TableLookup(sessions, accepted, processed, id);
      Outbound.StepKeeps(config.Limits(), out, Outbound.Send(id, frame));
      if id !in sessions {
        return false;
      }
      var session := sessions[id];
      if |session.queue| >= config.outboundQueueFrames || session.outboundBytes + frame.bytes > config.outboundQueueBytes {
        return false;
      }
      session := session.(queue := session.queue + [frame], outboundBytes := session.outboundBytes + frame.bytes);
      TableUpdate(sessions, accepted, processed, id, session, Of(accepted, id) + [frame], Of(processed, id));
      TableSame(sessions, accepted, processed, id, session);
      sessions := sessions[id := session];
      accepted, processed := accepted[id := Of(accepted, id) + [frame]], processed[id := Of(processed, id)];
      outboundQueuedBytes := outboundQueuedBytes + frame.bytes;
      if id !in writers || writers[id] == Outbound.Ended {
        writers := writers[id := Outbound.Waiting];
      }
      ok := true;
    }

    /** The writer gets the next frame (app/hub.py:144-145) and starts to send it. */
    method WriterTake(id: SessionId) returns (frame: Option<Outbound.Frame>)
      requires Valid()
      modifies this`sessions, this`outboundQueuedBytes, this`writers, this`accepted, this`processed
      ensures Valid() && Index() == old(Index()) && seen == old(seen)
      ensures BeatsOf(sessions) == old(BeatsOf(sessions))
      ensures Out() == Outbound.Step(config.Limits(), old(Out()), Outbound.Take(id))
      ensures frame == if Outbound.CanTake(old(Out()), id) then Some(old(Out()).lanes[id].queue[0]) else None
    {
      hide Outbound.Inv, RouteIndex.Mirrored, LanesOf, RoutesOf, BeatsOf, RouteIndex.DroppedAll, RouteIndex.Dropped, RouteIndex.Pruned;
      ghost var out := Out();
      TableLookup(sessions, accepted, processed, id);
      Outbound.StepKeeps(config.Limits(), out, Outbound.Take(id));
      if id !in sessions || id !in writers || writers[id] != Outbound.Waiting || sessions[id].queue == [] {
        return None;
      }
      var session := sessions[id];
      frame := Some(session.queue[0]);
      session := session.(queue := session.queue[1..]);
      TableUpdate(sessions, accepted, processed, id, session, Of(accepted, id), Of(processed, id));
      TableSame(sessions, accepted, processed, id, session);
      sessions := sessions[id := session];
      accepted, processed := accepted[id := Of(accepted, id)], processed[id := Of(processed, id)];
      writers := writers[id := Outbound.Sending(frame.value)];
    }

    /** A send succeeded, failed or was cancelled (app/hub.py:146-157). */
    method WriterFinish(id: SessionId, ok: bool)
      requires Valid() && id in writers && writers[id].Sending?
      modifies this`sessions, this`outboundQueuedBytes, this`writers, this`accepted, this`processed
      ensures Valid() && Index() == old(Index()) && seen == old(seen)
      ensures BeatsOf(sessions) == old(BeatsOf(sessions))
      ensures Out() == Outbound.Step(config.Limits(), old(Out()), Outbound.Finish(id, ok))
      ensures id in sessions ==> outboundQueuedBytes == old(outboundQueuedBytes) - old(writers[id].frame.bytes)
    {
      hide Outbound.Inv, RouteIndex.Mirrored, LanesOf, RoutesOf, BeatsOf, RouteIndex.DroppedAll, RouteIndex.Dropped, RouteIndex.Pruned;
      ghost var out := Out();
      var frame := writers[id].frame;
      TableLookup(sessions, accepted, processed, id);
      if id in sessions {
        Outbound.ClampsNeverFire(config.Limits(), out, id);
      }
      Outbound.StepKeeps(config.Limits(), out, Outbound.Finish(id, ok));
      if id in sessions {
        var session := sessions[id].(outboundBytes := Max(0, sessions[id].outboundBytes - frame.bytes));
        TableUpdate(sessions, accepted, processed, id, session, Of(accepted, id), Of(processed, id) + [frame]);
        TableSame(sessions, accepted, processed, id, session);
        sessions := sessions[id := session];
        accepted, processed := accepted[id := Of(accepted, id)], processed[id := Of(processed, id) + [frame]];
        outboundQueuedBytes := Max(0, outboundQueuedBytes - frame.bytes);
        writers := writers[id := if ok then Outbound.Waiting else Outbound.Ended];
      } else {
        writers := writers[id := Outbound.Ended];
      }
    }

    // ---- routes ------------------------------------------------------------

    method AttachRoute(id: SessionId, route: RouteId, ttlSeconds: Option<real>, maxRoutes: Option<nat>, now: real)
      returns (outcome: AttachOutcome)
      requires Valid()
      modifies this`sessions, this`routes
      ensures Valid() && Out() == old(Out())
      ensures BeatsOf(sessions) == old(BeatsOf(sessions))
      ensures var limit := if maxRoutes.Some? then maxRoutes.value else config.maxRoutesPerSession;
        var ttl := if ttlSeconds.Some? then ttlSeconds.value else config.routeLeaseSeconds;
        && Index() == RouteIndex.Step(old(Index()), RouteIndex.Attach(id, route, ttl, limit, now))
        && (outcome == UnknownSession <==> id !in old(sessions))
        && (outcome == Attached <==>
             id in old(sessions) && (route in old(sessions)[id].routes || |old(sessions)[id].routes| < limit))
        && (outcome == Attached ==> LeaseIs(route, id, now + ttl))
    {
      hide Outbound.Inv, RouteIndex.Mirrored, LanesOf, RoutesOf, BeatsOf;
      TableLookup(sessions, accepted, processed, id);
      if id !in sessions {
        return UnknownSession;
      }
      var session := sessions[id];
      var limit := if maxRoutes.Some? then maxRoutes.value else config.maxRoutesPerSession;
      if route !in session.routes && |session.routes| >= limit {
        return TooManyRoutes;
      }
      var ttl := if ttlSeconds.Some? then ttlSeconds.value else config.routeLeaseSeconds;
      RouteIndex.AttachKeepsMirror(Index(), id, route, now + ttl);
      routes := RouteIndex.Granted(routes, route, id, now + ttl);
      session := session.(routes := session.routes + {route});
      TableSame(sessions, accepted, processed, id, session);
      TableRoutes(sessions, id, session);
      sessions := sessions[id := session];
      outcome := Attached;
    }

    predicate LeaseIs(route: RouteId, id: SessionId, expires: real)
      reads this
    {
      id in sessions && route in sessions[id].routes && route in routes && id in routes[route] && routes[route][id] == expires
    }

    method HeartbeatRoute(id: SessionId, route: RouteId, ttlSeconds: Option<real>, now: real) returns (renewed: bool)
      requires Valid()
      modifies this`routes
      ensures Valid() && Out() == old(Out())
      ensures renewed <==> route in old(routes) && id in old(routes)[route]
      ensures var ttl := if ttlSeconds.Some? then ttlSeconds.value else config.routeLeaseSeconds;
        Index() == RouteIndex.Step(old(Index()), RouteIndex.Renew(id, route, ttl, now))
    {
      hide Outbound.Inv, RouteIndex.Mirrored, LanesOf, RoutesOf, BeatsOf;
      if route !in routes || id !in routes[route] {
        return false;
      }
      var ttl := if ttlSeconds.Some? then ttlSeconds.value else config.routeLeaseSeconds;
      RouteIndex.RenewKeepsMirror(Index(), id, route, now + ttl);
      routes := routes[route := routes[route][id := now + ttl]];
      renewed := true;
    }

    method DetachRoute(id: SessionId, route: RouteId)
      requires Valid()
      modifies this`sessions, this`routes
      ensures Valid() && Out() == old(Out())
      ensures BeatsOf(sessions) == old(BeatsOf(sessions))
      ensures Index() == RouteIndex.Step(old(Index()), RouteIndex.Detach(id, route))
    {
      hide Outbound.Inv, RouteIndex.Mirrored, LanesOf, RoutesOf, BeatsOf, RouteIndex.Dropped;
      TableLookup(sessions, accepted, processed, id);
      RouteIndex.DetachKeepsMirror(Index(), id, route);
      routes := Detach(routes, route, id);
      if id in sessions {
        var session := sessions[id].(routes := sessions[id].routes - {route});
        TableSame(sessions, accepted, processed, id, session);
        TableRoutes(sessions, id, session);
        sessions := sessions[id := session];
      }
    }

    /** The running leases of a route, each session once. */
    method RouteSubscribers(route: RouteId, exclude: Option<SessionId>, now: real) returns (ids: seq<SessionId>)
      ensures (set s | s in ids) == RouteIndex.Subscribers(Index(), route, exclude, now)
      ensures forall i, j :: 0 <= i < j < |ids| ==> ids[i] != ids[j]
    {
      ids := [];
      if route !in routes {
        return;
      }
      ghost var wanted := RouteIndex.Subscribers(Index(), route, exclude, now);
      var left := routes[route].Keys;
      while left != {}
        invariant left <= routes[route].Keys
        invariant forall s :: s in ids <==> s in wanted && s !in left
        invariant forall i, j :: 0 <= i < j < |ids| ==> ids[i] != ids[j]
        decreases |left|
      {
        var s :| s in left;
        if routes[route][s] > now && Some(s) != exclude {
          ids := ids + [s];
        }
        left := left - {s};
      }
    }

    /** Drops every lease that has run out (app/hub.py:216-230). */
    method PruneRoutes(now: real) returns (removed: nat)
      requires Valid()
      modifies this`sessions, this`routes
      ensures Valid() && Out() == old(Out())
      ensures BeatsOf(sessions) == old(BeatsOf(sessions))
      ensures Index() == RouteIndex.Step(old(Index()), RouteIndex.Prune(now))
      ensures removed == |OldLeases(old(routes), old(routes).Keys, now)|
    {
      hide Outbound.Inv, RouteIndex.Mirrored, LanesOf, RoutesOf, BeatsOf, PrunedIn, RouteIndex.Pruned, OldLeases;
      ghost var index := Index();
      NoOldLeases(index.leases, now);
      RouteIndex.PruneKeepsMirror(index, now);
      PruneNothing(index, now);
      PruneEverything(index, now);
      var left := routes.Keys;
      removed := 0;
      assert index.leases.Keys - left == {};
      while left != {}
        invariant left <= index.leases.Keys
        invariant Index() == PrunedIn(index, index.leases.Keys - left, now)
        invariant Out() == old(Out()) && BeatsOf(sessions) == old(BeatsOf(sessions))
        invariant removed == |OldLeases(index.leases, index.leases.Keys - left, now)|
        decreases |left|
      {
        var r :| r in left;
        PruneOneMore(index, index.leases.Keys - left, r, now);
        OldLeasesOfOneMore(index.leases, index.leases.Keys - left, r, now);
        var count := PruneOneRoute(r, now);
        removed := removed + count;
        assert index.leases.Keys - (left - {r}) == index.leases.Keys - left + {r};
        left := left - {r};
      }
      assert index.leases.Keys - left == index.leases.Keys;
    }

    method PruneOneRoute(route: RouteId, now: real) returns (removed: nat)
      requires route in routes
      modifies this`sessions, this`routes
      ensures Out() == old(Out()) && Index() == PruneRoute(old(Index()), old(routes[route]), route, now)
      ensures BeatsOf(sessions) == old(BeatsOf(sessions))
      ensures removed == |old(routes[route])| - |RouteIndex.Unexpired(old(routes[route]), now)|
    {
      hide LanesOf, RoutesOf, BeatsOf, Expired, RouteIndex.Unexpired, PruneRoute;
      ExpiredSides(routes, sessions, accepted, processed, routes[route], route, now);
      var entries;
      entries, sessions, removed := ExpireRoute(routes[route], sessions, route, now);
      routes := if entries == map[] then routes - {route} else routes[route := entries];
    }

    // ---- replay table ------------------------------------------------------

    method CheckAndMarkSeen(key: Key, ttl: real, now: real) returns (ok: bool)
      requires Valid()
      modifies this`seen
      ensures Valid() && Out() == old(Out()) && Index() == old(Index())
      ensures (seen, ok) == ReplayTable.CheckAndMark(old(seen), config.maxDedupeEntries, key, ttl, now)
    {
      hide Outbound.Inv, RouteIndex.Mirrored, LanesOf, RoutesOf, BeatsOf;
      if key in seen && seen[key] > now {
        return false;
      }
      if key !in seen && |seen| >= config.maxDedupeEntries {
        var _ := PruneDedupe(now);
        if |seen| >= config.maxDedupeEntries {
          return false;
        }
        assert key !in seen;
      }
      assert key in seen ==> |seen[key := now + ttl].Keys| == |seen.Keys|;
      seen := seen[key := now + ttl];
      ok := true;
    }

    method PruneDedupe(now: real) returns (removed: nat)
      requires Valid()
      modifies this`seen
      ensures Valid() && Out() == old(Out()) && Index() == old(Index())
      ensures seen == ReplayTable.Pruned(old(seen), now) && removed == |old(seen)| - |seen|
    {
      hide Outbound.Inv, RouteIndex.Mirrored, LanesOf, RoutesOf, BeatsOf;
      var stale := set k | k in seen && seen[k] <= now;
      removed := 0;
      while stale != {}
        invariant stale <= seen.Keys <= old(seen).Keys
        invariant forall k :: k in seen ==> seen[k] == old(seen)[k] && (seen[k] <= now ==> k in stale)
        invariant forall k :: k in old(seen) && old(seen)[k] > now ==> k in seen
        invariant forall k :: k in stale ==> seen[k] <= now
        invariant removed + |seen| == |old(seen)|
        decreases |stale|
      {
        var k :| k in stale;
        assert |seen - {k}| == |seen| - 1 by {
          assert (seen - {k}).Keys == seen.Keys - {k};
        }
        seen := seen - {k};
        stale := stale - {k};
        removed := removed + 1;
      }
    }
  }

  lemma TableRoutes(sessions: Sessions, id: SessionId, session: Session)
    requires id in sessions
    ensures RoutesOf(sessions[id := session]) == RoutesOf(sessions)[id := session.routes]
  {
  }

  /** The leases of `after` are those of `before` but for the sessions in `gone`. */
  ghost predicate LeasesWithout(after: RouteIndex.Leases, before: RouteIndex.Leases, gone: set<SessionId>) {
    forall r, s :: RouteIndex.Has(after, r, s) <==> RouteIndex.Has(before, r, s) && s !in gone
  }

  lemma OneMoreSession(before: Sessions, gone: set<SessionId>, id: SessionId)
    ensures before - (gone + {id}) == before - gone - {id}
  {
  }

  lemma NoneGone(leases: RouteIndex.Leases)
    ensures LeasesWithout(leases, leases, {})
  {
  }

  lemma OneMoreGone(after: RouteIndex.Leases, between: RouteIndex.Leases, before: RouteIndex.Leases, gone: set<SessionId>, id: SessionId)
    requires LeasesWithout(after, between, {id}) && LeasesWithout(between, before, gone)
    ensures LeasesWithout(after, before, gone + {id})
  {
    hide RouteIndex.Has;
  }

  /** A closed session holds no lease, and no other session loses one. */
  lemma CloseEndsLeases(st: RouteIndex.State, id: SessionId)
    requires RouteIndex.Mirrored(st)
    ensures LeasesWithout(RouteIndex.Step(st, RouteIndex.Close(id)).leases, st.leases, {id})
  {
    if id in st.held {
      RouteIndex.DroppedAllHas(st.leases, st.held[id], id);
      hide RouteIndex.DroppedAll;
    }
  }

  /** The session table after the expired entries of one route were discarded from it. */
  function Expired(sessions: Sessions, entries: map<SessionId, real>, route: RouteId, now: real): Sessions {
    map s | s in sessions ::
      if s in entries && entries[s] <= now then sessions[s].(routes := sessions[s].routes - {route}) else sessions[s]
  }

  /** The inner loop of prune_routes (app/hub.py:221-227). */
  method ExpireRoute(entries: map<SessionId, real>, sessions: Sessions, route: RouteId, now: real)
    returns (kept: map<SessionId, real>, rest: Sessions, removed: nat)
    ensures kept == RouteIndex.Unexpired(entries, now) && removed == |entries| - |kept|
    ensures rest == Expired(sessions, entries, route, now)
  {
    hide StillIn, Seen, Expired, RouteIndex.Unexpired;
    kept, rest, removed := entries, sessions, 0;
    var left := entries.Keys;
    SeeNothingAndAll(entries, sessions, route, now);
    while left != {}
      invariant left <= entries.Keys
      invariant kept == StillIn(entries, left, now)
      invariant rest == Expired(sessions, Seen(entries, left), route, now)
      invariant removed + |kept| == |entries|
      decreases |left|
    {
      var s :| s in left;
      SeeOneMore(entries, left, s, sessions, route, now);
      if kept[s] <= now {
        kept := kept - {s};
        removed := removed + 1;
        if s in rest {
          rest := rest[s := rest[s].(routes := rest[s].routes - {route})];
        }
      }
      left := left - {s};
    }
  }

  lemma SeeNothingAndAll(entries: map<SessionId, real>, sessions: Sessions, route: RouteId, now: real)
    ensures StillIn(entries, entries.Keys, now) == entries
    ensures Expired(sessions, Seen(entries, entries.Keys), route, now) == sessions
    ensures StillIn(entries, {}, now) == RouteIndex.Unexpired(entries, now)
    ensures Seen(entries, {}) == entries
  {
  }

  /** The entries already looked at, and the entries that have not been dropped so far. */
  function Seen(entries: map<SessionId, real>, left: set<SessionId>): map<SessionId, real> {
    map s | s in entries && s !in left :: entries[s]
  }

  function StillIn(entries: map<SessionId, real>, left: set<SessionId>, now: real): map<SessionId, real> {
    map s | s in entries && (s in left || entries[s] > now) :: entries[s]
  }

  lemma SeeOneMore(entries: map<SessionId, real>, left: set<SessionId>, s: SessionId, sessions: Sessions, route: RouteId, now: real)
    requires s in left && s in entries
    ensures var kept, next := StillIn(entries, left, now), StillIn(entries, left - {s}, now);
      s in kept && kept[s] == entries[s] && next == (if entries[s] <= now then kept - {s} else kept)
      && |kept - {s}| == |kept| - 1
    ensures var rest, next := Expired(sessions, Seen(entries, left), route, now), Expired(sessions, Seen(entries, left - {s}), route, now);
      && (s in rest <==> s in sessions)
      && next == if s in sessions && entries[s] <= now then rest[s := rest[s].(routes := rest[s].routes - {route})] else rest
  {
    var kept := StillIn(entries, left, now);
    assert (kept - {s}).Keys == kept.Keys - {s};
  }

  /** The leases of the routes in `done` that have run out. */
  function OldLeases(leases: RouteIndex.Leases, done: set<RouteId>, now: real): set<(RouteId, SessionId)> {
    set r, s | r in done && r in leases && s in leases[r] && leases[r][s] <= now :: (r, s)
  }

  lemma NoOldLeases(leases: RouteIndex.Leases, now: real)
    ensures OldLeases(leases, {}, now) == {}
  {
  }

  lemma OldLeasesOfOneMore(leases: RouteIndex.Leases, done: set<RouteId>, route: RouteId, now: real)
    requires route in leases && route !in done
    ensures |OldLeases(leases, done + {route}, now)|
      == |OldLeases(leases, done, now)| + |leases[route]| - |RouteIndex.Unexpired(leases[route], now)|
  {
    var gone := RunOut(leases[route], now);
    var pairs := Collections.Tagged(route, gone);
    Collections.TaggedSize(route, gone);
    assert OldLeases(leases, done + {route}, now) == OldLeases(leases, done, now) + pairs;
    assert OldLeases(leases, done, now) !! pairs;
    hide OldLeases, RunOut, RouteIndex.Unexpired;
    RunOutAndUnexpired(leases[route], now);
  }

  function RunOut(entries: map<SessionId, real>, now: real): set<SessionId> {
    set s | s in entries && entries[s] <= now
  }

  lemma RunOutAndUnexpired(entries: map<SessionId, real>, now: real)
    ensures |RunOut(entries, now)| == |entries| - |RouteIndex.Unexpired(entries, now)|
  {
    var out, kept := RunOut(entries, now), RouteIndex.Unexpired(entries, now);
    Collections.SplitSize(entries.Keys, out);
    assert entries.Keys * out == out && entries.Keys - out == kept.Keys;
    assert |entries| == |entries.Keys| && |kept| == |kept.Keys|;
  }

  /** The index after only the routes in `done` were pruned. */
  function PrunedIn(st: RouteIndex.State, done: set<RouteId>, now: real): RouteIndex.State {
    RouteIndex.State(
      map r | r in st.leases && (r in done ==> RouteIndex.Unexpired(st.leases[r], now) != map[]) ::
        if r in done then RouteIndex.Unexpired(st.leases[r], now) else st.leases[r],
      map s | s in st.held ::
        set r | r in st.held[s] && !(r in done && RouteIndex.Has(st.leases, r, s) && st.leases[r][s] <= now))
  }

  lemma PruneNothing(st: RouteIndex.State, now: real)
    ensures PrunedIn(st, {}, now) == st
  {
    assert forall s :: s in st.held ==> PrunedIn(st, {}, now).held[s] == st.held[s];
  }

  lemma PruneEverything(st: RouteIndex.State, now: real)
    ensures PrunedIn(st, st.leases.Keys, now) == RouteIndex.Pruned(st, now)
  {
    assert forall s :: s in st.held ==> PrunedIn(st, st.leases.Keys, now).held[s] == RouteIndex.Pruned(st, now).held[s];
  }

  /** The index after one more route, which held `entries`, was pruned. */
  function PruneRoute(part: RouteIndex.State, entries: map<SessionId, real>, route: RouteId, now: real): RouteIndex.State {
    var kept := RouteIndex.Unexpired(entries, now);
    RouteIndex.State(
      if kept == map[] then part.leases - {route} else part.leases[route := kept],
      map s | s in part.held :: if s in entries && entries[s] <= now then part.held[s] - {route} else part.held[s])
  }

  lemma PruneOneMore(st: RouteIndex.State, done: set<RouteId>, route: RouteId, now: real)
    requires route in st.leases && route !in done
    ensures route in PrunedIn(st, done, now).leases && PrunedIn(st, done, now).leases[route] == st.leases[route]
    ensures PruneRoute(PrunedIn(st, done, now), st.leases[route], route, now) == PrunedIn(st, done + {route}, now)
  {
    var part, next := PrunedIn(st, done, now), PrunedIn(st, done + {route}, now);
    var step := PruneRoute(part, st.leases[route], route, now);
    assert step.leases == next.leases by {
      hide RouteIndex.Unexpired;
    }
    forall s | s in st.held ensures next.held[s] == step.held[s] {
      PruneOneMoreHeld(st, done, route, now, s);
    }
    hide PruneRoute, PrunedIn, RouteIndex.Unexpired;
    assert step.held.Keys == next.held.Keys == st.held.Keys by {
      PrunedKeys(st, done, route, now);
    }
  }

  lemma PrunedKeys(st: RouteIndex.State, done: set<RouteId>, route: RouteId, now: real)
    requires route in st.leases
    ensures PrunedIn(st, done + {route}, now).held.Keys == st.held.Keys
    ensures PruneRoute(PrunedIn(st, done, now), st.leases[route], route, now).held.Keys == st.held.Keys
  {
    hide RouteIndex.Unexpired;
  }

  lemma PruneOneMoreHeld(st: RouteIndex.State, done: set<RouteId>, route: RouteId, now: real, s: SessionId)
    requires route in st.leases && route !in done && s in st.held
    ensures PruneRoute(PrunedIn(st, done, now), st.leases[route], route, now).held[s] == PrunedIn(st, done + {route}, now).held[s]
  {
    hide RouteIndex.Unexpired;
  }

  lemma ExpiredSides(leases: RouteIndex.Leases, sessions: Sessions, accepted: Frames, processed: Frames,
                     entries: map<SessionId, real>, route: RouteId, now: real)
    ensures var rest := Expired(sessions, entries, route, now);
      && LanesOf(rest, accepted, processed) == LanesOf(sessions, accepted, processed)
      && BeatsOf(rest) == BeatsOf(sessions)
      && PruneRoute(RouteIndex.State(leases, RoutesOf(sessions)), entries, route, now) == RouteIndex.State(
           if RouteIndex.Unexpired(entries, now) == map[] then leases - {route} else leases[route := RouteIndex.Unexpired(entries, now)],
           RoutesOf(rest))
  {
  }

  /** The routing half of detach_route (app/hub.py:190-194). */
  method Detach(leases: RouteIndex.Leases, route: RouteId, id: SessionId) returns (rest: RouteIndex.Leases)
    ensures rest == RouteIndex.Dropped(leases, route, id)
  {
    rest := leases;
    if route in rest {
      rest := rest[route := rest[route] - {id}];
      if rest[route] == map[] {
        rest := rest - {route};
      }
    }
  }

  /** The detach loop of app/hub.py:84-85, run after the session left the table. */
  method DetachAll(leases: RouteIndex.Leases, held: set<RouteId>, id: SessionId) returns (rest: RouteIndex.Leases)
    ensures rest == RouteIndex.DroppedAll(leases, held, id)
  {
    rest := leases;
    var left := held;
    assert RouteIndex.DroppedAll(leases, {}, id) == leases by {
      DropNothing(leases, id);
    }
    assert held - left == {};
    while left != {}
      invariant left <= held
      invariant rest == RouteIndex.DroppedAll(leases, held - left, id)
      decreases |left|
    {
      var r :| r in left;
      DropOneMore(leases, held - left, r, id);
      assert held - (left - {r}) == held - left + {r};
      rest := Detach(rest, r, id);
      left := left - {r};
    }
    assert held - left == held;
  }

  lemma DropNothing(leases: RouteIndex.Leases, id: SessionId)
    ensures RouteIndex.DroppedAll(leases, {}, id) == leases
  {
  }

  lemma DropOneMore(leases: RouteIndex.Leases, done: set<RouteId>, route: RouteId, id: SessionId)
    ensures RouteIndex.Dropped(RouteIndex.DroppedAll(leases, done, id), route, id)
         == RouteIndex.DroppedAll(leases, done + {route}, id)
  {
    var once := RouteIndex.DroppedAll(leases, done, id);
    if route in leases && route in done {
      assert leases[route] - {id} - {id} == leases[route] - {id};
    }
  }
}
