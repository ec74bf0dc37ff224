/** Bounded outbound queues and their byte accounting (app/hub.py:74-88, 116-157) under every
    interleaving of sends, writer progress, writer failure and session removal. */
module Outbound {
  import opened Names
  import opened Numbers

  datatype Frame = Frame(data: string, bytes: nat)

  /** A writer task: waiting for a frame, sending one, or ended. */
  datatype Writer = Waiting | Sending(frame: Frame) | Ended

  /** The queue of a live session, with the history of what was accepted and processed. */
  datatype Lane = Lane(queue: seq<Frame>, bytes: int, accepted: seq<Frame>, processed: seq<Frame>)

  datatype Limits = Limits(frames: nat, bytes: nat, sessions: nat)

  /** Writers outlive the session they served until they notice its removal. */
  datatype State = State(lanes: map<SessionId, Lane>, writers: map<SessionId, Writer>, total: int)

  datatype Event =
    | Connect(id: SessionId)
    | Send(id: SessionId, frame: Frame)
    | Take(id: SessionId)
    | Finish(id: SessionId, ok: bool)
    | Remove(id: SessionId)

  function QueueBytes(queue: seq<Frame>): nat {
    if queue == [] then 0 else queue[0].bytes + QueueBytes(queue[1..])
  }

  predicate Fits(limits: Limits, lane: Lane, frame: Frame) {
    |lane.queue| < limits.frames && lane.bytes + frame.bytes <= limits.bytes
  }

  /** The capacity gate app/v2.py:194-197 in front of create_session. */
  predicate Admits(limits: Limits, st: State, id: SessionId) {
    |st.lanes| < limits.sessions && id !in st.lanes && id !in st.writers
  }

  function Queued(lane: Lane, frame: Frame): Lane {
    Lane(lane.queue + [frame], lane.bytes + frame.bytes, lane.accepted + [frame], lane.processed)
  }

  function Dequeued(lane: Lane): Lane
    requires lane.queue != []
  {
    lane.(queue := lane.queue[1..])
  }

  function Settled(lane: Lane, frame: Frame): Lane {
    lane.(bytes := Max(0, lane.bytes - frame.bytes), processed := lane.processed + [frame])
  }

  /** Frames are accepted at the tail; a writer is started when none is alive. */
  function Sent(st: State, id: SessionId, frame: Frame): State
    requires id in st.lanes
  {
    var idle := id !in st.writers || st.writers[id] == Ended;
    State(
      st.lanes[id := Queued(st.lanes[id], frame)],
      if idle then st.writers[id := Waiting] else st.writers,
      st.total + frame.bytes)
  }

  predicate CanTake(st: State, id: SessionId) {
    id in st.lanes && id in st.writers && st.writers[id] == Waiting && st.lanes[id].queue != []
  }

  function Taken(st: State, id: SessionId): State
    requires CanTake(st, id)
  {
    st.(lanes := st.lanes[id := Dequeued(st.lanes[id])], writers := st.writers[id := Sending(st.lanes[id].queue[0])])
  }

  /** A send ends, well or badly; the frame is only un-counted while its session lives. */
  function Finished(st: State, id: SessionId, ok: bool): State
    requires id in st.writers && st.writers[id].Sending?
  {
    var frame := st.writers[id].frame;
    if id in st.lanes then
      State(
        st.lanes[id := Settled(st.lanes[id], frame)],
        st.writers[id := if ok then Waiting else Ended],
        Max(0, st.total - frame.bytes))
    else st.(writers := st.writers[id := Ended])
  }

  /** The session's bytes leave the total at once; a waiting writer is cancelled. */
  function Removed(st: State, id: SessionId): State
    requires id in st.lanes
  {
    State(
      st.lanes - {id},
      if id in st.writers && st.writers[id] == Waiting then st.writers[id := Ended] else st.writers,
      Max(0, st.total - st.lanes[id].bytes))
  }

  /** One atomic step; an event that is not enabled changes nothing. */
  function Step(limits: Limits, st: State, e: Event): State {
    match e
    case Connect(id) =>
      if Admits(limits, st, id) then st.(lanes := st.lanes[id := Lane([], 0, [], [])]) else st
    case Send(id, frame) =>
      if id in st.lanes && Fits(limits, st.lanes[id], frame) then Sent(st, id, frame) else st
    case Take(id) => if CanTake(st, id) then Taken(st, id) else st
    case Finish(id, ok) => if id in st.writers && st.writers[id].Sending? then Finished(st, id, ok) else st
    case Remove(id) => if id in st.lanes then Removed(st, id) else st
  }

  const EMPTY := State(map[], map[], 0)

  function Run(limits: Limits, events: seq<Event>): State {
    if events == [] then EMPTY
    else Step(limits, Run(limits, events[..|events| - 1]), events[|events| - 1])
  }

  // ---------------------------------------------------------------------------

  function InFlight(writers: map<SessionId, Writer>, id: SessionId): seq<Frame> {
    if id in writers && writers[id].Sending? then [writers[id].frame] else []
  }

  ghost function SumBytes(lanes: map<SessionId, Lane>): int {
    if lanes == map[] then 0
    else
      var id :| id in lanes;
      lanes[id].bytes + SumBytes(lanes - {id})
  }

  ghost predicate LaneInv(limits: Limits, lane: Lane, sending: seq<Frame>) {
    && lane.bytes == QueueBytes(lane.queue) + QueueBytes(sending)
    && lane.bytes <= limits.bytes
    && |lane.queue| <= limits.frames
    && lane.accepted == lane.processed + sending + lane.queue
  }

  ghost predicate Inv(limits: Limits, st: State) {
    && (forall id :: id in st.lanes ==> LaneInv(limits, st.lanes[id], InFlight(st.writers, id)))
    && (forall id :: id in st.lanes && st.lanes[id].queue != [] ==> id in st.writers)
    && st.total == SumBytes(st.lanes)
    && |st.lanes| <= limits.sessions
  }

  lemma {:induction false} SumWithout(lanes: map<SessionId, Lane>, id: SessionId)
    requires id in lanes
    ensures SumBytes(lanes) == lanes[id].bytes + SumBytes(lanes - {id})
  {
    var first :| first in lanes && SumBytes(lanes) == lanes[first].bytes + SumBytes(lanes - {first});
    if first != id {
      SumWithout(lanes - {first}, id);
      SumWithout(lanes - {id}, first);
      assert lanes - {first} - {id} == lanes - {id} - {first};
    }
  }

  lemma SumUpdate(lanes: map<SessionId, Lane>, id: SessionId, lane: Lane)
    ensures SumBytes(lanes[id := lane]) ==
      SumBytes(lanes) - (if id in lanes then lanes[id].bytes else 0) + lane.bytes
  {
    SumWithout(lanes[id := lane], id);
    assert lanes[id := lane] - {id} == lanes - {id};
    if id in lanes {
      SumWithout(lanes, id);
    } else {
      assert lanes - {id} == lanes;
    }
  }

  lemma {:induction false} BytesSplit(a: seq<Frame>, b: seq<Frame>)
    ensures QueueBytes(a + b) == QueueBytes(a) + QueueBytes(b)
  {
    if a == [] {
      assert a + b == b;
    } else {
      assert (a + b)[1..] == a[1..] + b;
      BytesSplit(a[1..], b);
    }
  }

  lemma {:induction false} LaneWithinTotal(limits: Limits, lanes: map<SessionId, Lane>, id: SessionId)
    requires id in lanes && forall i :: i in lanes ==> 0 <= lanes[i].bytes <= limits.bytes
    ensures lanes[id].bytes <= SumBytes(lanes)
  {
    SumWithout(lanes, id);
    SumBounds(limits, lanes - {id});
  }

  lemma {:induction false} SumBounds(limits: Limits, lanes: map<SessionId, Lane>)
    requires forall id :: id in lanes ==> 0 <= lanes[id].bytes <= limits.bytes
    ensures 0 <= SumBytes(lanes) <= |lanes| * limits.bytes
  {
    if lanes != map[] {
      var id :| id in lanes && SumBytes(lanes) == lanes[id].bytes + SumBytes(lanes - {id});
      SumBounds(limits, lanes - {id});
      OneMore(|lanes - {id}|, limits.bytes);
      assert |lanes| == |lanes - {id}| + 1;
    }
  }

  lemma OneMore(count: nat, size: nat)
    ensures (count + 1) * size == count * size + size
  {
  }

  lemma QueuedKeeps(limits: Limits, lane: Lane, sending: seq<Frame>, frame: Frame)
    requires LaneInv(limits, lane, sending) && Fits(limits, lane, frame)
    ensures LaneInv(limits, Queued(lane, frame), sending)
  {
    BytesSplit(lane.queue, [frame]);
    assert QueueBytes([frame]) == frame.bytes;
  }

  lemma DequeuedKeeps(limits: Limits, lane: Lane)
    requires LaneInv(limits, lane, []) && lane.queue != []
    ensures LaneInv(limits, Dequeued(lane), [lane.queue[0]])
  {
    assert QueueBytes([lane.queue[0]]) == lane.queue[0].bytes;
    assert lane.queue == [lane.queue[0]] + lane.queue[1..];
  }

  lemma SettledKeeps(limits: Limits, lane: Lane, frame: Frame)
    requires LaneInv(limits, lane, [frame])
    ensures LaneInv(limits, Settled(lane, frame), []) && frame.bytes <= lane.bytes
  {
    assert QueueBytes([frame]) == frame.bytes;
  }

  lemma SentKeeps(limits: Limits, st: State, id: SessionId, frame: Frame)
    requires Inv(limits, st) && id in st.lanes && Fits(limits, st.lanes[id], frame)
    ensures Inv(limits, Sent(st, id, frame))
  {
    QueuedKeeps(limits, st.lanes[id], InFlight(st.writers, id), frame);
    SumUpdate(st.lanes, id, Queued(st.lanes[id], frame));
    hide LaneInv, SumBytes;
  }

  lemma TakenKeeps(limits: Limits, st: State, id: SessionId)
    requires Inv(limits, st) && CanTake(st, id)
    ensures Inv(limits, Taken(st, id))
  {
    DequeuedKeeps(limits, st.lanes[id]);
    SumUpdate(st.lanes, id, Dequeued(st.lanes[id]));
    hide LaneInv, SumBytes;
  }

  /** The clamps of app/hub.py:150-151 and 81 never fire. */
  lemma ClampsNeverFire(limits: Limits, st: State, id: SessionId)
    requires Inv(limits, st) && id in st.lanes
    ensures 0 <= st.lanes[id].bytes <= st.total
    ensures id in st.writers && st.writers[id].Sending? ==> st.writers[id].frame.bytes <= st.lanes[id].bytes
  {
    forall i | i in st.lanes ensures 0 <= st.lanes[i].bytes <= limits.bytes {
      assert LaneInv(limits, st.lanes[i], InFlight(st.writers, i));
    }
    LaneWithinTotal(limits, st.lanes, id);
  }

  lemma FinishedKeeps(limits: Limits, st: State, id: SessionId, ok: bool)
    requires Inv(limits, st) && id in st.writers && st.writers[id].Sending?
    ensures Inv(limits, Finished(st, id, ok))
  {
    hide LaneInv, SumBytes;
    if id in st.lanes {
      ClampsNeverFire(limits, st, id);
      assert LaneInv(limits, st.lanes[id], InFlight(st.writers, id));
      SettledKeeps(limits, st.lanes[id], st.writers[id].frame);
      SumUpdate(st.lanes, id, Settled(st.lanes[id], st.writers[id].frame));
      assert st.total >= st.writers[id].frame.bytes;
    }
  }

  lemma RemovedKeeps(limits: Limits, st: State, id: SessionId)
    requires Inv(limits, st) && id in st.lanes
    ensures Inv(limits, Removed(st, id))
  {
    ClampsNeverFire(limits, st, id);
    SumWithout(st.lanes, id);
    hide LaneInv, SumBytes;
  }

  lemma ConnectedKeeps(limits: Limits, st: State, id: SessionId)
    requires Inv(limits, st) && Admits(limits, st, id)
    ensures Inv(limits, st.(lanes := st.lanes[id := Lane([], 0, [], [])]))
  {
    SumUpdate(st.lanes, id, Lane([], 0, [], []));
    assert LaneInv(limits, Lane([], 0, [], []), []);
    hide LaneInv, SumBytes;
  }

  lemma StepKeeps(limits: Limits, st: State, e: Event)
    requires Inv(limits, st)
    ensures Inv(limits, Step(limits, st, e))
  {
    hide LaneInv, SumBytes, Sent, Taken, Finished, Removed;
    match e
    case Connect(id) =>
      if Admits(limits, st, id) { ConnectedKeeps(limits, st, id); }
    case Send(id, frame) =>
      if id in st.lanes && Fits(limits, st.lanes[id], frame) { SentKeeps(limits, st, id, frame); }
    case Take(id) =>
      if CanTake(st, id) { TakenKeeps(limits, st, id); }
    case Finish(id, ok) =>
      if id in st.writers && st.writers[id].Sending? { FinishedKeeps(limits, st, id, ok); }
    case Remove(id) =>
      if id in st.lanes { RemovedKeeps(limits, st, id); }
  }

  lemma {:induction false} RunKeeps(limits: Limits, events: seq<Event>)
    ensures Inv(limits, Run(limits, events))
  {
    if events != [] {
      RunKeeps(limits, events[..|events| - 1]);
      StepKeeps(limits, Run(limits, events[..|events| - 1]), events[|events| - 1]);
    }
  }

  /** Conservation over all interleavings: a session's count is its queued plus in-flight
      bytes and within budget, its accepted frames are processed ++ in flight ++ queued in
      order, the global counter is the sum over live sessions, and with the capacity gate it
      is at most sessions * budget. */
  lemma Conservation(limits: Limits, events: seq<Event>)
    ensures var st := Run(limits, events);
      && (forall id :: id in st.lanes ==>
           var lane, sending := st.lanes[id], InFlight(st.writers, id);
           && lane.bytes == QueueBytes(lane.queue) + QueueBytes(sending) <= limits.bytes
           && |lane.queue| <= limits.frames
           && lane.accepted == lane.processed + sending + lane.queue)
      && st.total == SumBytes(st.lanes)
      && 0 <= st.total <= limits.sessions * limits.bytes
  {
    RunKeeps(limits, events);
    var st := Run(limits, events);
    forall id | id in st.lanes ensures LaneInv(limits, st.lanes[id], InFlight(st.writers, id)) {
    }
    SumBounds(limits, st.lanes);
    ProductGrows(|st.lanes|, limits.sessions, limits.bytes);
  }
}
