/** When the writer task of a session is at work (app/hub.py:116-157), and which frames its queue
    takes, over every interleaving. */
module Writers {
  import opened Names
  import opened Outbound

  /** Step `i` was the last send to end on the session's queue, it failed, and no frame was
      accepted since. */
  ghost predicate FailedAt(limits: Limits, events: seq<Event>, id: SessionId, i: nat) {
    && i < |events| && events[i] == Finish(id, false)
    && var before := Run(limits, events[..i]);
      && id in before.lanes && id in before.writers && before.writers[id].Sending?
      && forall j :: i < j <= |events| ==> SinceFailure(Run(limits, events[..j]), id, before.lanes[id], before.writers[id].frame)
  }

  ghost predicate SinceFailure(st: State, id: SessionId, lane: Lane, frame: Frame) {
    && id in st.lanes && st.lanes[id].accepted == lane.accepted && st.lanes[id].processed == lane.processed + [frame]
  }

  ghost predicate FailedLast(limits: Limits, events: seq<Event>, id: SessionId) {
    exists i :: FailedAt(limits, events, id, i)
  }

  ghost predicate HasEnded(st: State, id: SessionId) {
    id in st.writers && st.writers[id] == Ended
  }

  /** How a writer of a live session comes to have ended. */
  lemma EndedStep(limits: Limits, st: State, e: Event, id: SessionId)
    ensures var next := Step(limits, st, e);
      id in next.lanes && HasEnded(next, id) ==>
        && id in st.lanes && id in st.writers
        && if HasEnded(st, id) then SameHistory(st.lanes[id], next.lanes[id])
           else e == Finish(id, false) && st.writers[id].Sending? && SinceFailure(next, id, st.lanes[id], st.writers[id].frame)
  {
  }

  ghost predicate SameHistory(a: Lane, b: Lane) {
    a.accepted == b.accepted && a.processed == b.processed
  }

  /** Only an accepted frame brings a new writer. */
  lemma StaysEnded(limits: Limits, st: State, e: Event, id: SessionId)
    requires id in st.lanes && HasEnded(st, id)
    ensures var next := Step(limits, st, e); id in next.lanes && next.lanes[id].accepted == st.lanes[id].accepted ==> HasEnded(next, id)
  {
    if e.Send? && id in st.lanes {
      assert |Queued(st.lanes[id], e.frame).accepted| > |st.lanes[id].accepted|;
    }
  }

  lemma FailureEnds(limits: Limits, st: State, id: SessionId)
    requires id in st.lanes && id in st.writers && st.writers[id].Sending?
    ensures var next := Step(limits, st, Finish(id, false));
      HasEnded(next, id) && SinceFailure(next, id, st.lanes[id], st.writers[id].frame)
  {
  }

  lemma RunSplits(limits: Limits, events: seq<Event>, n: nat)
    requires n < |events|
    ensures Run(limits, events[..n + 1]) == Step(limits, Run(limits, events[..n]), events[n])
  {
    assert events[..n + 1][..n] == events[..n];
    hide Step;
  }

  lemma FailedEarlier(limits: Limits, events: seq<Event>, id: SessionId, i: nat)
    requires i + 1 < |events| && FailedAt(limits, events, id, i)
    ensures FailedAt(limits, events[..|events| - 1], id, i)
  {
    var init := events[..|events| - 1];
    assert init[..i] == events[..i];
    forall j | i < j <= |init|
      ensures SinceFailure(Run(limits, init[..j]), id, Run(limits, events[..i]).lanes[id], Run(limits, events[..i]).writers[id].frame)
    {
      assert init[..j] == events[..j];
    }
    hide Run, SinceFailure;
  }

  lemma FailedStill(limits: Limits, events: seq<Event>, id: SessionId, i: nat)
    requires events != [] && FailedAt(limits, events[..|events| - 1], id, i)
    requires var before, now := Run(limits, events[..|events| - 1]), Run(limits, events);
      id in before.lanes && id in now.lanes && SameHistory(before.lanes[id], now.lanes[id])
    ensures FailedAt(limits, events, id, i)
  {
    hide Run, SinceFailure;
    var n := |events| - 1;
    var init := events[..n];
    assert init[..i] == events[..i];
    var before := Run(limits, events[..i]);
    forall j | i < j <= |events| ensures SinceFailure(Run(limits, events[..j]), id, before.lanes[id], before.writers[id].frame) {
      if j <= n {
        assert init[..j] == events[..j];
      } else {
        assert events[..j] == events && init[..n] == init;
        assert SinceFailure(Run(limits, init[..n]), id, before.lanes[id], before.writers[id].frame);
        FailureLasts(Run(limits, init), Run(limits, events), id, before.lanes[id], before.writers[id].frame);
      }
    }
  }

  lemma FailureLasts(st: State, next: State, id: SessionId, lane: Lane, frame: Frame)
    requires SinceFailure(st, id, lane, frame) && id in next.lanes && SameHistory(st.lanes[id], next.lanes[id])
    ensures SinceFailure(next, id, lane, frame)
  {
  }

  /** The writer of a live session has ended if and only if its last send failed and no frame was
      accepted since. */
  lemma {:induction false} EndedIffFailed(limits: Limits, events: seq<Event>, id: SessionId)
    requires id in Run(limits, events).lanes
    ensures HasEnded(Run(limits, events), id) <==> FailedLast(limits, events, id)
  {
    if events != [] {
      hide Run, Step, FailedAt, HasEnded, SinceFailure;
      var n := |events| - 1;
      var init, e := events[..n], events[n];
      RunSplits(limits, events, n);
      assert events[..n + 1] == events;
      EndedStep(limits, Run(limits, init), e, id);
      if HasEnded(Run(limits, events), id) {
        if HasEnded(Run(limits, init), id) {
          EndedIffFailed(limits, init, id);
          var i :| FailedAt(limits, init, id, i);
          FailedStill(limits, events, id, i);
        } else {
          JustFailed(limits, events, id);
        }
      }
      if i :| FailedAt(limits, events, id, i) {
        FailedImpliesEnded(limits, events, id, i);
      }
    } else {
      NothingFailed(limits, id);
    }
  }

  lemma NothingFailed(limits: Limits, id: SessionId)
    ensures Run(limits, []).lanes == map[]
  {
  }

  lemma JustFailed(limits: Limits, events: seq<Event>, id: SessionId)
    requires events != [] && events[|events| - 1] == Finish(id, false)
    requires var before := Run(limits, events[..|events| - 1]);
      && id in before.lanes && id in before.writers && before.writers[id].Sending?
      && SinceFailure(Run(limits, events), id, before.lanes[id], before.writers[id].frame)
    ensures FailedAt(limits, events, id, |events| - 1)
  {
    assert events[..|events|] == events;
    hide Run, SinceFailure;
  }

  lemma {:induction false} FailedImpliesEnded(limits: Limits, events: seq<Event>, id: SessionId, i: nat)
    requires FailedAt(limits, events, id, i)
    ensures HasEnded(Run(limits, events), id)
    decreases |events|
  {
    hide Run, Step, HasEnded;
    var n := |events| - 1;
    RunSplits(limits, events, n);
    assert events[..n + 1] == events;
    if i == n {
      FailureEnds(limits, Run(limits, events[..n]), id);
    } else {
      FailedEarlier(limits, events, id, i);
      FailedImpliesEnded(limits, events[..n], id, i);
      StaysEnded(limits, Run(limits, events[..n]), events[n], id);
      assert SinceFailure(Run(limits, events[..n]), id, Run(limits, events[..i]).lanes[id], Run(limits, events[..i]).writers[id].frame);
    }
  }

  /** Who is at work, over all interleavings. The writer of a live session has ended if and only if
      its last send failed and no frame was accepted since. Otherwise, when frames are queued and
      none is being sent, it waits, and takes the oldest one next. */
  lemma WriterIsAtWork(limits: Limits, events: seq<Event>, id: SessionId)
    requires id in Run(limits, events).lanes
    ensures var st := Run(limits, events);
      && ((id in st.writers && st.writers[id] == Ended) <==> FailedLast(limits, events, id))
      && (st.lanes[id].queue != [] && !FailedLast(limits, events, id) ==>
           && id in st.writers
           && (!st.writers[id].Sending? ==> TakesNext(Step(limits, st, Take(id)), id, st.lanes[id].queue)))
  {
    EndedIffFailed(limits, events, id);
    RunKeeps(limits, events);
    hide Run, FailedLast;
  }

  /** The oldest frame of the queue is being sent, and the others are left. */
  ghost predicate TakesNext(next: State, id: SessionId, queue: seq<Frame>)
    requires queue != []
  {
    && id in next.writers && next.writers[id] == Sending(queue[0])
    && id in next.lanes && next.lanes[id].queue == queue[1..]
  }

  /** In any run a frame is accepted if and only if the session is live, its queue has a place, and
      the frame fits the budget next to what is queued and in flight; then it goes to the tail, and
      otherwise nothing changes. */
  lemma SendAcceptsIff(limits: Limits, events: seq<Event>, id: SessionId, frame: Frame)
    ensures var st, next := Run(limits, events), Step(limits, Run(limits, events), Send(id, frame));
      if id in st.lanes && |st.lanes[id].queue| < limits.frames
         && QueueBytes(st.lanes[id].queue) + QueueBytes(InFlight(st.writers, id)) + frame.bytes <= limits.bytes
      then
        && next.lanes.Keys == st.lanes.Keys
        && next.lanes[id].queue == st.lanes[id].queue + [frame] && next.lanes[id].accepted == st.lanes[id].accepted + [frame]
        && (forall s :: s in st.lanes && s != id ==> next.lanes[s] == st.lanes[s])
      else next == st
  {
    RunKeeps(limits, events);
    hide Run, SumBytes;
    var st := Run(limits, events);
    assert id in st.lanes ==> LaneInv(limits, st.lanes[id], InFlight(st.writers, id));
  }

  lemma GoneStep(limits: Limits, st: State, e: Event, id: SessionId)
    requires id in st.writers && id !in st.lanes ==> st.writers[id] != Waiting
    ensures var next := Step(limits, st, e); id in next.writers && id !in next.lanes ==> next.writers[id] != Waiting
  {
  }

  /** In any run the writer of a session that is gone does not wait for a frame. */
  lemma {:induction false} NoWriterWaitsForTheGone(limits: Limits, events: seq<Event>, id: SessionId)
    ensures var st := Run(limits, events); id in st.writers && id !in st.lanes ==> st.writers[id] != Waiting
  {
    hide Step;
    if events != [] {
      var n := |events| - 1;
      NoWriterWaitsForTheGone(limits, events[..n], id);
      GoneStep(limits, Run(limits, events[..n]), events[n], id);
    }
  }

  /** In any run a removal takes the session out with the bytes it held, and touches no other session;
      a frame that is being sent for it goes on until its send ends, and then changes no account. */
  lemma RemovalIs(limits: Limits, events: seq<Event>, id: SessionId, ok: bool)
    requires id in Run(limits, events).lanes
    ensures var st := Run(limits, events);
      var gone := Step(limits, st, Remove(id));
      && gone.lanes == st.lanes - {id} && gone.total == st.total - st.lanes[id].bytes
      && gone.writers.Keys == st.writers.Keys && (forall s :: s in st.writers && s != id ==> gone.writers[s] == st.writers[s])
      && (id in st.writers && st.writers[id].Sending? ==>
           && gone.writers[id] == st.writers[id]
           && Step(limits, gone, Finish(id, ok)) == gone.(writers := gone.writers[id := Ended]))
  {
    RunKeeps(limits, events);
    hide Run;
    ClampsNeverFire(limits, Run(limits, events), id);
    hide Inv;
  }
}
