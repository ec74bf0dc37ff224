/** The bounded, lazily pruned replay table (app/hub.py:249-267), refined against an
    unbounded log of every key that was ever accepted. */
module ReplayTable {
  import opened Names
  import Collections

  type Table = map<Key, real>

  datatype Op = Check(key: Key, ttl: real, now: real) | Prune(now: real)

  function Pruned(seen: Table, now: real): Table {
    map k | k in seen && seen[k] > now :: seen[k]
  }

  /** The table after a check, and its answer. */
  function CheckAndMark(seen: Table, capacity: nat, key: Key, ttl: real, now: real): (Table, bool) {
    if key in seen && seen[key] > now then (seen, false)
    else if key !in seen && |seen| >= capacity then
      var pruned := Pruned(seen, now);
      if |pruned| >= capacity then (pruned, false) else (pruned[key := now + ttl], true)
    else (seen[key := now + ttl], true)
  }

  function AfterOp(seen: Table, capacity: nat, op: Op): Table {
    match op
    case Check(key, ttl, now) => CheckAndMark(seen, capacity, key, ttl, now).0
    case Prune(now) => Pruned(seen, now)
  }

  function After(ops: seq<Op>, n: nat, capacity: nat): Table
    requires n <= |ops|
  {
    if n == 0 then map[] else AfterOp(After(ops, n - 1, capacity), capacity, ops[n - 1])
  }

  predicate Accepts(ops: seq<Op>, i: nat, capacity: nat)
    requires i < |ops| && ops[i].Check?
  {
    CheckAndMark(After(ops, i, capacity), capacity, ops[i].key, ops[i].ttl, ops[i].now).1
  }

  // ---------------------------------------------------------------------------
  // The ideal: an unbounded log of accepted keys and when each mark expires.

  datatype Mark = Mark(key: Key, expires: real)

  function LastExpiry(log: seq<Mark>, key: Key): Option<real> {
    if log == [] then None
    else if log[|log| - 1].key == key then Some(log[|log| - 1].expires)
    else LastExpiry(log[..|log| - 1], key)
  }

  predicate Live(log: seq<Mark>, key: Key, now: real) {
    LastExpiry(log, key).Some? && LastExpiry(log, key).value > now
  }

  function LiveKeys(log: seq<Mark>, now: real): set<Key> {
    set m | m in log && Live(log, m.key, now) :: m.key
  }

  /** The ideal answer: accept what is not live while fewer than `capacity` keys are live. */
  predicate IdealAccepts(log: seq<Mark>, capacity: nat, key: Key, now: real) {
    !Live(log, key, now) && |LiveKeys(log, now)| < capacity
  }

  function Logged(log: seq<Mark>, capacity: nat, op: Op): seq<Mark> {
    match op
    case Check(key, ttl, now) => if IdealAccepts(log, capacity, key, now) then log + [Mark(key, now + ttl)] else log
    case Prune(_) => log
  }

  /** The ideal log after `n` operations; pruning does not exist for it. */
  function Log(ops: seq<Op>, n: nat, capacity: nat): seq<Mark>
    requires n <= |ops|
  {
    if n == 0 then [] else Logged(Log(ops, n - 1, capacity), capacity, ops[n - 1])
  }

  ghost predicate Ordered(ops: seq<Op>) {
    forall i, j :: 0 <= i < j < |ops| ==> ops[i].now <= ops[j].now
  }

  /** The table holds every key that is live at `now`, and nothing but last expiries. */
  ghost predicate Refines(seen: Table, log: seq<Mark>, capacity: nat, now: real) {
    && (forall k :: k in seen ==> LastExpiry(log, k) == Some(seen[k]))
    && (forall k :: Live(log, k, now) ==> k in seen)
    && |seen| <= capacity
  }

  lemma {:induction false} LoggedIffExpiry(log: seq<Mark>, key: Key)
    ensures LastExpiry(log, key).Some? <==> exists m :: m in log && m.key == key
  {
    if log != [] {
      var init := log[..|log| - 1];
      LoggedIffExpiry(init, key);
      assert forall m :: m in log <==> m in init || m == log[|log| - 1];
    }
  }

  lemma LiveKeysAre(log: seq<Mark>, now: real)
    ensures forall k :: k in LiveKeys(log, now) <==> Live(log, k, now)
  {
    forall k | Live(log, k, now) ensures k in LiveKeys(log, now) {
      LoggedIffExpiry(log, k);
    }
  }

  /** Pruning a refining table leaves exactly the live keys. */
  lemma PrunedIsLive(seen: Table, log: seq<Mark>, capacity: nat, now: real)
    requires Refines(seen, log, capacity, now)
    ensures Pruned(seen, now).Keys == LiveKeys(log, now)
    ensures |LiveKeys(log, now)| <= |seen|
    ensures Refines(Pruned(seen, now), log, capacity, now)
  {
    LiveKeysAre(log, now);
    Collections.SubsetSize(Pruned(seen, now).Keys, seen.Keys);
  }

  /** One check answers like the ideal log and keeps refining it. */
  lemma CheckRefines(seen: Table, log: seq<Mark>, capacity: nat, key: Key, ttl: real, now: real)
    requires Refines(seen, log, capacity, now)
    ensures CheckAndMark(seen, capacity, key, ttl, now).1 == IdealAccepts(log, capacity, key, now)
    ensures var next := if IdealAccepts(log, capacity, key, now) then log + [Mark(key, now + ttl)] else log;
      Refines(CheckAndMark(seen, capacity, key, ttl, now).0, next, capacity, now)
  {
    PrunedIsLive(seen, log, capacity, now);
    var pruned := Pruned(seen, now);
    assert |pruned| == |LiveKeys(log, now)|;
    assert key in seen ==> (seen[key] > now <==> Live(log, key, now));
    if !Live(log, key, now) {
      Collections.SubsetSize(pruned.Keys, seen.Keys);
      assert key in seen ==> key !in pruned;
      assert (log + [Mark(key, now + ttl)])[..|log|] == log;
    }
  }

  lemma RefinesLater(seen: Table, log: seq<Mark>, capacity: nat, now: real, later: real)
    requires Refines(seen, log, capacity, now) && now <= later
    ensures Refines(seen, log, capacity, later)
  {
    hide LastExpiry;
  }

  lemma OpRefines(seen: Table, log: seq<Mark>, capacity: nat, op: Op)
    requires Refines(seen, log, capacity, op.now)
    ensures Refines(AfterOp(seen, capacity, op), Logged(log, capacity, op), capacity, op.now)
  {
    hide Refines, CheckAndMark, IdealAccepts, Pruned;
    match op
    case Check(key, ttl, now) => CheckRefines(seen, log, capacity, key, ttl, now);
    case Prune(now) => PrunedIsLive(seen, log, capacity, now);
  }

  lemma {:induction false} RefinesAt(ops: seq<Op>, n: nat, capacity: nat, now: real)
    requires n <= |ops| && Ordered(ops) && (n > 0 ==> ops[n - 1].now <= now)
    ensures Refines(After(ops, n, capacity), Log(ops, n, capacity), capacity, now)
  {
    hide Refines, AfterOp, Logged;
    if n > 0 {
      RefinesAt(ops, n - 1, capacity, ops[n - 1].now);
      OpRefines(After(ops, n - 1, capacity), Log(ops, n - 1, capacity), capacity, ops[n - 1]);
      RefinesLater(After(ops, n, capacity), Log(ops, n, capacity), capacity, ops[n - 1].now, now);
    } else {
      EmptyRefines(capacity, now);
    }
  }

  lemma EmptyRefines(capacity: nat, now: real)
    ensures Refines(map[], [], capacity, now)
  {
  }

  /** The refinement theorem. A check accepts exactly when the key is not live and fewer than
      `capacity` keys are live; so pruning, whenever it happens, changes no answer. The table
      never exceeds its capacity. */
  lemma AcceptsIffNotLiveAndRoom(ops: seq<Op>, i: nat, capacity: nat)
    requires i < |ops| && Ordered(ops)
    ensures |After(ops, i, capacity)| <= capacity
    ensures ops[i].Check? ==>
      (Accepts(ops, i, capacity) <==> IdealAccepts(Log(ops, i, capacity), capacity, ops[i].key, ops[i].now))
  {
    RefinesAt(ops, i, capacity, ops[i].now);
    if ops[i].Check? {
      CheckRefines(After(ops, i, capacity), Log(ops, i, capacity), capacity, ops[i].key, ops[i].ttl, ops[i].now);
    }
  }

  /** A non-live key is rejected only when exactly `capacity` keys are live. */
  lemma RejectedOnlyWhenFull(ops: seq<Op>, i: nat, capacity: nat)
    requires i < |ops| && Ordered(ops) && ops[i].Check? && !Accepts(ops, i, capacity)
    requires !Live(Log(ops, i, capacity), ops[i].key, ops[i].now)
    ensures |LiveKeys(Log(ops, i, capacity), ops[i].now)| == capacity
  {
    AcceptsIffNotLiveAndRoom(ops, i, capacity);
    RefinesAt(ops, i, capacity, ops[i].now);
    PrunedIsLive(After(ops, i, capacity), Log(ops, i, capacity), capacity, ops[i].now);
  }

  lemma {:induction false} MarkStaysUntilExpiry(ops: seq<Op>, i: nat, n: nat, capacity: nat)
    requires i < n <= |ops| && Ordered(ops) && ops[i].Check? && Accepts(ops, i, capacity)
    requires n < |ops| ==> ops[n].now < ops[i].now + ops[i].ttl
    ensures n < |ops| ==> LastExpiry(Log(ops, n, capacity), ops[i].key) == Some(ops[i].now + ops[i].ttl)
    decreases n
  {
    hide CheckAndMark, LiveKeys, After;
    if n < |ops| {
      var log, op := Log(ops, n - 1, capacity), ops[n - 1];
      AcceptsIffNotLiveAndRoom(ops, n - 1, capacity);
      if i < n - 1 {
        MarkStaysUntilExpiry(ops, i, n - 1, capacity);
        assert Live(log, ops[i].key, op.now);
      }
      if op.Check? {
        assert (log + [Mark(op.key, op.now + op.ttl)])[..|log|] == log;
      }
    }
  }

  /** Two accepted checks of one key are at least the first one's time to live apart. */
  lemma AcceptsAreSpaced(ops: seq<Op>, i: nat, j: nat, capacity: nat)
    requires i < j < |ops| && Ordered(ops) && ops[i].Check? && ops[j].Check? && ops[i].key == ops[j].key
    requires Accepts(ops, i, capacity) && Accepts(ops, j, capacity)
    ensures ops[j].now >= ops[i].now + ops[i].ttl
  {
    if ops[j].now < ops[i].now + ops[i].ttl {
      MarkStaysUntilExpiry(ops, i, j, capacity);
      AcceptsIffNotLiveAndRoom(ops, j, capacity);
      assert Live(Log(ops, j, capacity), ops[j].key, ops[j].now);
    }
  }

  /** Later operations do not change what happened before. */
  lemma {:induction false} AfterIgnoresLater(ops: seq<Op>, more: seq<Op>, n: nat, capacity: nat)
    requires n <= |ops| && ops <= more
    ensures After(more, n, capacity) == After(ops, n, capacity)
  {
    if n > 0 {
      AfterIgnoresLater(ops, more, n - 1, capacity);
    }
  }

  /** What a table with history `ops` answers to one more check. */
  predicate Takes(ops: seq<Op>, key: Key, ttl: real, now: real, capacity: nat) {
    CheckAndMark(After(ops, |ops|, capacity), capacity, key, ttl, now).1
  }

  lemma TakesIsAccepts(ops: seq<Op>, more: seq<Op>, key: Key, ttl: real, now: real, capacity: nat)
    requires ops + [Check(key, ttl, now)] <= more
    ensures more[|ops|] == Check(key, ttl, now)
    ensures Accepts(more, |ops|, capacity) == Takes(ops, key, ttl, now, capacity)
  {
    hide CheckAndMark;
    assert ops <= more && (ops + [Check(key, ttl, now)])[|ops|] == Check(key, ttl, now);
    AfterIgnoresLater(ops, more, |ops|, capacity);
    hide After;
  }

  /** A key taken twice along one history is taken at times at least the first time to live apart. */
  lemma TakesAreSpaced(early: seq<Op>, late: seq<Op>, key: Key, ttl: real, first: real, second: real, capacity: nat)
    requires early + [Check(key, ttl, first)] <= late && Ordered(late + [Check(key, ttl, second)])
    requires Takes(early, key, ttl, first, capacity) && Takes(late, key, ttl, second, capacity)
    ensures second >= first + ttl
  {
    hide Accepts, Takes;
    var all := late + [Check(key, ttl, second)];
    assert early + [Check(key, ttl, first)] <= all;
    TakesIsAccepts(early, all, key, ttl, first, capacity);
    TakesIsAccepts(late, all, key, ttl, second, capacity);
    AcceptsAreSpaced(all, |early|, |late|, capacity);
  }
}
