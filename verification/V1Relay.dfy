/** The handler of SIGNAL, FORWARD and PUBLISH on the v1 endpoint (app/routes.py:258-285),
    working on the hub. */
module V1Relay {
  import opened Names
  import opened Numbers
  import opened Json
  import Flood
  import HubModel
  import Outbound
  import RateLimits
  import RateRegistry
  import ReplayTable
  import RouteIndex
  import Utf8

  datatype Outcome = RateLimited | MissingRoute | NotAttached | Duplicate | Exhausted | Relayed

  /** `{**data, "payload": {**payload, "ttl": ...}}`, as send_session measures it. */
  function FrameOf(c: Flood.Config, data: seq<Member>, m: Flood.Message): Outbound.Frame {
    var text := Print(Obj(Flood.Put(data, "payload", Obj(Flood.OutgoingPayload(c, m.payload)))));
    Outbound.Frame(text, |Utf8.Encode(text)|)
  }

  /** The queues after a frame was offered to the first `n` targets. */
  function SendEach(limits: Outbound.Limits, out: Outbound.State, targets: seq<SessionId>, n: nat, frame: Outbound.Frame): Outbound.State
    requires n <= |targets|
  {
    if n == 0 then out
    else Outbound.Step(limits, SendEach(limits, out, targets, n - 1, frame), Outbound.Send(targets[n - 1], frame))
  }

  /** The lane has a place for the frame, and the frame fits its budget. */
  predicate HasRoom(limits: Outbound.Limits, lane: Outbound.Lane, frame: Outbound.Frame) {
    |lane.queue| < limits.frames && lane.bytes + frame.bytes <= limits.bytes
  }

  /** Offered to distinct targets, a frame goes once to the tail of every live one that has room, and
      nothing else in the queues changes. */
  lemma {:induction false} OfferedToEach(limits: Outbound.Limits, out: Outbound.State, targets: seq<SessionId>, n: nat, frame: Outbound.Frame)
    requires n <= |targets| && forall i, j :: 0 <= i < j < |targets| ==> targets[i] != targets[j]
    ensures var next := SendEach(limits, out, targets, n, frame);
      && next.lanes.Keys == out.lanes.Keys
      && forall s :: s in out.lanes ==>
           if s in targets[..n] && HasRoom(limits, out.lanes[s], frame)
           then next.lanes[s].queue == out.lanes[s].queue + [frame] && next.lanes[s].accepted == out.lanes[s].accepted + [frame]
           else next.lanes[s] == out.lanes[s]
  {
    if n > 0 {
      OfferedToEach(limits, out, targets, n - 1, frame);
      var before, t := SendEach(limits, out, targets, n - 1, frame), targets[n - 1];
      assert targets[..n] == targets[..n - 1] + [t];
      hide SendEach, HasRoom;
      SendOne(limits, before, t, frame);
      assert SendEach(limits, out, targets, n, frame) == Outbound.Step(limits, before, Outbound.Send(t, frame)) by {
        SendsNext(limits, out, targets, n, frame);
      }
    }
  }

  lemma SendsNext(limits: Outbound.Limits, out: Outbound.State, targets: seq<SessionId>, n: nat, frame: Outbound.Frame)
    requires 0 < n <= |targets|
    ensures SendEach(limits, out, targets, n, frame)
      == Outbound.Step(limits, SendEach(limits, out, targets, n - 1, frame), Outbound.Send(targets[n - 1], frame))
  {
    hide Outbound.Step;
  }

  lemma SendOne(limits: Outbound.Limits, st: Outbound.State, t: SessionId, frame: Outbound.Frame)
    ensures var next := Outbound.Step(limits, st, Outbound.Send(t, frame));
      && next.lanes.Keys == st.lanes.Keys
      && (forall s :: s in st.lanes && s != t ==> next.lanes[s] == st.lanes[s])
      && (t in st.lanes ==>
           if HasRoom(limits, st.lanes[t], frame)
           then next.lanes[t].queue == st.lanes[t].queue + [frame] && next.lanes[t].accepted == st.lanes[t].accepted + [frame]
           else next.lanes[t] == st.lanes[t])
  {
  }

  /** What a receiver reads in the frame: the members of `data` in their order, with a payload that
      has one hop less; and the size of the frame is that of its text in UTF-8. */
  ghost predicate Carries(c: Flood.Config, frame: Outbound.Frame, data: seq<Member>, m: Flood.Message) {
    && frame.bytes == |Utf8.Encode(frame.data)|
    && exists read :: Decode(frame.data) == Value(Obj(read)) && frame.data == Print(Obj(read)) && HopLess(c, read, data, m)
  }

  ghost predicate HopLess(c: Flood.Config, read: seq<Member>, data: seq<Member>, m: Flood.Message) {
    && |read| == |data|
    && forall i :: 0 <= i < |data| ==>
         && read[i].key == data[i].key
         && (data[i].key != "payload" ==> read[i].value == data[i].value)
         && (data[i].key == "payload" ==> read[i].value.Obj? && Flood.CountedDown(c, m.payload, read[i].value.members))
  }

  lemma FrameCarries(c: Flood.Config, data: seq<Member>, m: Flood.Message)
    requires Flood.Valid(m) && WellFormed(Obj(data)) && Flood.Find(data, "payload") == Some(Obj(m.payload))
    ensures Carries(c, FrameOf(c, data, m), data, m)
  {
    var payload := Obj(Flood.OutgoingPayload(c, m.payload));
    var read := Flood.Put(data, "payload", payload);
    Flood.KeysAreUnique(data);
    assert Flood.Valid(Flood.Message("", m.payload)) by { hide WellFormed; }
    Flood.OutgoingCountsDown(c, m.payload);
    Flood.OutgoingIsWellFormed(c, m);
    Flood.PutIsWellFormed(data, "payload", payload);
    Flood.PutIs(data, "payload", payload);
    DecodeUndoesPrint(Obj(read));
    FoundInPlace(data, "payload", payload);
    hide Print, Decode, WellFormed, Flood.Put, Flood.OutgoingPayload, Flood.CountedDown, Flood.Find, Flood.Valid, Utf8.Encode;
    assert HopLess(c, read, data, m);
  }

  lemma FoundInPlace(data: seq<Member>, key: string, value: Json)
    requires UniqueKeys(data) && Flood.Find(data, key).Some?
    ensures var put := Flood.Put(data, key, value);
      |put| == |data| && forall i :: 0 <= i < |data| ==> put[i].key == data[i].key
  {
  }

  /** The message names a route to which its sender is attached. */
  ghost predicate NamesAttachedRoute(routes: set<RouteId>, m: Flood.Message) {
    exists r :: Member("routeId", Str(r)) in m.payload && r != "" && RouteId(r) in routes
  }

  lemma NamesRouteIff(routes: set<RouteId>, m: Flood.Message)
    requires Flood.Valid(m)
    ensures var route := Flood.RouteOf(m.payload);
      NamesAttachedRoute(routes, m) <==> route.Str? && route.text != "" && RouteId(route.text) in routes
    ensures var route := Flood.RouteOf(m.payload); route.Str? ==> Member("routeId", route) in m.payload
  {
    Flood.KeysAreUnique(m.payload);
    var found := Flood.Find(m.payload, "routeId");
    forall v ensures found == Some(v) <==> Member("routeId", v) in m.payload {
      Flood.FindIsMember(m.payload, "routeId", v);
    }
    hide Flood.Find, UniqueKeys, WellFormed;
    assert found.Some? ==> Member("routeId", found.value) in m.payload;
  }

  /** The distinct sessions in `targets` are `limit` of the subscribers, or all if there are fewer. */
  ghost predicate FirstOf(targets: seq<SessionId>, subscribers: set<SessionId>, limit: nat) {
    && |targets| == Min(limit, |subscribers|)
    && (forall i :: 0 <= i < |targets| ==> targets[i] in subscribers)
    && (forall i, j :: 0 <= i < j < |targets| ==> targets[i] != targets[j])
  }

  method HandleRouteMessage(hub: HubModel.Hub, c: Flood.Config, id: SessionId, data: seq<Member>, m: Flood.Message, now: real)
    returns (outcome: Outcome, targets: seq<SessionId>)
    requires hub.Valid() && id in hub.sessions && Flood.Valid(m)
    requires Flood.Find(data, "payload") == Some(Obj(m.payload)) && c.capacity == hub.config.maxDedupeEntries
    modifies hub
    ensures hub.Valid() && hub.Index() == old(hub.Index())
    ensures var op := if m.kind == "FORWARD" then "FORWARD" else "SIGNAL";
      && hub.buckets == RateRegistry.AfterCall(old(hub.buckets), RateRegistry.Check((id.hex, op), now))
      && (outcome == RateLimited
          <==> !RateLimits.CanPay(RateRegistry.BucketFor(old(hub.buckets), (id.hex, op), now), RateLimits.Attempt(now, 1.0)))
    ensures outcome in {MissingRoute, NotAttached} <==> outcome != RateLimited && !NamesAttachedRoute(old(hub.sessions)[id].routes, m)
    ensures var (table, unseen) := ReplayTable.CheckAndMark(old(hub.seen), c.capacity, Flood.DedupeKey(c, m), c.window, now);
      && hub.seen == (if outcome in {RateLimited, MissingRoute, NotAttached} then old(hub.seen) else table)
      && (outcome in {Exhausted, Relayed} ==> unseen && (outcome == Relayed <==> Flood.HasHops(c, m.payload)))
      && (outcome == Duplicate ==> !unseen)
    ensures outcome != Relayed ==> targets == [] && hub.Out() == old(hub.Out())
    ensures outcome == Relayed ==>
      exists route, frame ::
        && Member("routeId", Str(route)) in m.payload
        && FirstOf(targets, RouteIndex.Subscribers(old(hub.Index()), RouteId(route), Some(id), now), c.maxFanout)
        && hub.Out() == SendEach(hub.config.Limits(), old(hub.Out()), targets, |targets|, frame)
        && (WellFormed(Obj(data)) ==> Carries(c, frame, data, m))
  {
    hide Outbound.Inv, Outbound.Step, RouteIndex.Mirrored, RouteIndex.Subscribers, HubModel.LanesOf, HubModel.RoutesOf,
         RateRegistry.AfterCall, RateRegistry.BucketFor, RateLimits.CanPay, ReplayTable.CheckAndMark,
         Flood.DedupeKey, Flood.RouteOf, Flood.Valid, Flood.Find, Flood.Exhausted, Flood.HasHops, FrameOf, Carries, FirstOf,
         NamesAttachedRoute;
    targets := [];
    NamesRouteIff(hub.sessions[id].routes, m);
    Flood.HasHopsIff(c, m.payload) by { Flood.KeysAreUnique(m.payload) by { IsWellFormed(m); } }
    if WellFormed(Obj(data)) { FrameCarries(c, data, m); }
    hide WellFormed;
    var rateOk := hub.CheckRate(id, if m.kind == "FORWARD" then "FORWARD" else "SIGNAL", now);
    if !rateOk {
      return RateLimited, targets;
    }
    var route := Flood.RouteOf(m.payload);
    if !route.Str? || route.text == "" {
      return MissingRoute, targets;
    }
    if RouteId(route.text) !in hub.sessions[id].routes {
      return NotAttached, targets;
    }
    var unseen := hub.CheckAndMarkSeen(Flood.DedupeKey(c, m), c.window, now);
    if !unseen {
      return Duplicate, targets;
    }
    if Flood.Exhausted(c, m.payload) {
      return Exhausted, targets;
    }
    var subscribers := hub.RouteSubscribers(RouteId(route.text), Some(id), now);
    targets := if |subscribers| <= c.maxFanout then subscribers else subscribers[..c.maxFanout];
    FirstAre(subscribers, c.maxFanout);
    SendAll(hub, targets, FrameOf(c, data, m));
    outcome := Relayed;
  }

  lemma IsWellFormed(m: Flood.Message)
    requires Flood.Valid(m)
    ensures WellFormed(Obj(m.payload))
  {
  }

  /** The gathered sends; each one is atomic. */
  method SendAll(hub: HubModel.Hub, targets: seq<SessionId>, frame: Outbound.Frame)
    requires hub.Valid()
    modifies hub
    ensures hub.Valid() && hub.Index() == old(hub.Index()) && hub.seen == old(hub.seen) && hub.buckets == old(hub.buckets)
    ensures hub.Out() == SendEach(hub.config.Limits(), old(hub.Out()), targets, |targets|, frame)
  {
    hide Outbound.Inv, Outbound.Step, RouteIndex.Mirrored, HubModel.LanesOf, HubModel.RoutesOf;
    for i := 0 to |targets|
      invariant hub.Valid() && hub.Index() == old(hub.Index()) && hub.seen == old(hub.seen) && hub.buckets == old(hub.buckets)
      invariant hub.Out() == SendEach(hub.config.Limits(), old(hub.Out()), targets, i, frame)
    {
      var _ := hub.SendSession(targets[i], frame);
    }
  }

  lemma FirstAre(subscribers: seq<SessionId>, limit: nat)
    requires forall i, j :: 0 <= i < j < |subscribers| ==> subscribers[i] != subscribers[j]
    ensures FirstOf(if |subscribers| <= limit then subscribers else subscribers[..limit], (set s | s in subscribers), limit)
  {
    Distinct(subscribers);
  }

  lemma {:induction false} Distinct(ids: seq<SessionId>)
    requires forall i, j :: 0 <= i < j < |ids| ==> ids[i] != ids[j]
    ensures |set s | s in ids| == |ids|
  {
    if ids == [] {
      assert (set s | s in ids) == {};
    } else {
      Distinct(ids[1..]);
      assert (set s | s in ids) == (set s | s in ids[1..]) + {ids[0]};
    }
  }
}
