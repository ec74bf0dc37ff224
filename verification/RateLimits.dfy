/** Token buckets (app/rate_limits.py) over real time, and the exact sliding-window
    law they implement. */
module RateLimits {
  import opened Numbers

  datatype Bucket = Bucket(capacity: real, tokens: real, rate: real, lastRefill: real)

  datatype Attempt = Attempt(time: real, cost: real)

  function Fresh(capacity: real, rate: real, now: real): Bucket {
    Bucket(capacity, capacity, rate, now)
  }

  /** The credit a bucket earns from `from` to `to`: rate times the time that passed. */
  function Gain(rate: real, from: real, to: real): real {
    if to <= from then 0.0 else rate * (to - from)
  }

  function Refilled(b: Bucket, now: real): Bucket {
    b.(tokens := MinReal(b.capacity, b.tokens + Gain(b.rate, b.lastRefill, now)), lastRefill := now)
  }

  predicate CanPay(b: Bucket, a: Attempt) {
    a.cost <= Refilled(b, a.time).tokens
  }

  function AfterAttempt(b: Bucket, a: Attempt): Bucket {
    var r := Refilled(b, a.time);
    if CanPay(b, a) then r.(tokens := r.tokens - a.cost) else r
  }

  /** The bucket after the first `n` attempts. */
  function Run(b: Bucket, attempts: seq<Attempt>, n: nat): Bucket
    requires n <= |attempts|
  {
    if n == 0 then b else AfterAttempt(Run(b, attempts, n - 1), attempts[n - 1])
  }

  /** Whether attempt `i` of a run that starts in `b` is accepted. */
  predicate Accepted(b: Bucket, attempts: seq<Attempt>, i: nat)
    requires i < |attempts|
  {
    CanPay(Run(b, attempts, i), attempts[i])
  }

  function Cost(b: Bucket, attempts: seq<Attempt>, i: nat): real
    requires i < |attempts|
  {
    if Accepted(b, attempts, i) then attempts[i].cost else 0.0
  }

  /** What the accepted attempts with index in `lo..hi` consumed. */
  function Spent(b: Bucket, attempts: seq<Attempt>, lo: nat, hi: nat): real
    requires hi <= |attempts|
    decreases hi
  {
    if hi <= lo then 0.0
    else Spent(b, attempts, lo, hi - 1) + Cost(b, attempts, hi - 1)
  }

  /** Nondecreasing readings of the monotonic clock, none before the bucket was made. */
  ghost predicate Ordered(created: real, attempts: seq<Attempt>) {
    && (forall i :: 0 <= i < |attempts| ==> created <= attempts[i].time)
    && (forall i, j :: 0 <= i < j < |attempts| ==> attempts[i].time <= attempts[j].time)
  }

  /** The instant window `s` opens: creation for -1, otherwise attempt `s`. */
  function Opens(created: real, attempts: seq<Attempt>, s: int): real
    requires -1 <= s < |attempts|
  {
    if s == -1 then created else attempts[s].time
  }

  /** Attempt `i` fits the window that opens at `s` and closes at the attempt. */
  predicate Fits(b: Bucket, attempts: seq<Attempt>, s: int, i: nat)
    requires -1 <= s <= i < |attempts|
  {
    Spent(b, attempts, if s < 0 then 0 else s, i) + attempts[i].cost
      <= b.capacity + Gain(b.rate, Opens(b.lastRefill, attempts, s), attempts[i].time)
  }

  /** What a window that opened at `s` still allows at time `t`, before attempt `i`:
      every earlier attempt takes its cost out, every elapsed stretch of time puts credit in. */
  function Room(b: Bucket, attempts: seq<Attempt>, s: int, i: nat, t: real): real
    requires -1 <= s <= i <= |attempts|
    decreases i
  {
    if s == i then b.capacity
    else if i == 0 then b.capacity + Gain(b.rate, b.lastRefill, t)
    else Room(b, attempts, s, i - 1, attempts[i - 1].time) - Cost(b, attempts, i - 1) + Gain(b.rate, attempts[i - 1].time, t)
  }

  lemma {:induction false} RunKeepsParameters(b: Bucket, attempts: seq<Attempt>, i: nat)
    requires i <= |attempts|
    ensures Run(b, attempts, i).capacity == b.capacity && Run(b, attempts, i).rate == b.rate
    ensures Run(b, attempts, i).lastRefill == if i == 0 then b.lastRefill else attempts[i - 1].time
  {
    if i > 0 {
      RunKeepsParameters(b, attempts, i - 1);
    }
  }

  /** The level of a bucket is the least room over all windows. */
  lemma {:induction false} LevelIsLeastRoom(b: Bucket, attempts: seq<Attempt>, i: nat, t: real)
    returns (tightest: int)
    requires i <= |attempts| && b.tokens == b.capacity
    ensures -1 <= tightest <= i
    ensures Refilled(Run(b, attempts, i), t).tokens == Room(b, attempts, tightest, i, t)
    ensures forall s :: -1 <= s <= i ==> Refilled(Run(b, attempts, i), t).tokens <= Room(b, attempts, s, i, t)
  {
    RunKeepsParameters(b, attempts, i);
    var level := Refilled(Run(b, attempts, i), t).tokens;
    if i == 0 {
      tightest := if level == b.capacity then 0 else -1;
    } else {
      RunKeepsParameters(b, attempts, i - 1);
      var inner := LevelIsLeastRoom(b, attempts, i - 1, attempts[i - 1].time);
      tightest := if level == b.capacity then i else inner;
    }
  }

  lemma GainGrows(rate: real, from: real, first: real, last: real, to: real)
    requires rate >= 0.0 && from <= first <= last <= to
    ensures 0.0 <= Gain(rate, first, last) <= Gain(rate, from, to)
  {
    var length, rest := last - first, (to - from) - (last - first);
    assert rate * length >= 0.0 && rate * rest >= 0.0;
    assert rate * (length + rest) == rate * length + rate * rest;
  }

  lemma Earned(rate: real, from: real, mid: real, to: real)
    requires from <= mid <= to
    ensures Gain(rate, from, to) == Gain(rate, from, mid) + Gain(rate, mid, to)
  {
  }

  lemma {:induction false} RoomIsCapacityPlusCreditLessSpent(b: Bucket, attempts: seq<Attempt>, s: int, i: nat, t: real)
    requires -1 <= s < i <= |attempts| || (s == -1 && i == 0)
    requires Ordered(b.lastRefill, attempts) && b.lastRefill <= t && (i > 0 ==> attempts[i - 1].time <= t)
    ensures Room(b, attempts, s, i, t) ==
      b.capacity - Spent(b, attempts, if s < 0 then 0 else s, i) + Gain(b.rate, Opens(b.lastRefill, attempts, s), t)
    decreases i
  {
    if i > 0 {
      Earned(b.rate, Opens(b.lastRefill, attempts, s), attempts[i - 1].time, t);
      if s < i - 1 || s == -1 {
        RoomIsCapacityPlusCreditLessSpent(b, attempts, s, i - 1, attempts[i - 1].time);
      }
    }
  }

  lemma FitsIsRoomForCost(b: Bucket, attempts: seq<Attempt>, s: int, i: nat)
    requires -1 <= s <= i < |attempts| && Ordered(b.lastRefill, attempts)
    ensures Fits(b, attempts, s, i) <==> attempts[i].cost <= Room(b, attempts, s, i, attempts[i].time)
  {
    var t := attempts[i].time;
    if s < i {
      RoomIsCapacityPlusCreditLessSpent(b, attempts, s, i, t);
    }
  }

  /** The law of app/rate_limits.py:24-35: an attempt is accepted exactly when accepting it
      keeps consumption within capacity + rate * length for every window that opens at
      creation, at an earlier attempt or at the attempt itself. */
  lemma {:induction false} AcceptedIffEveryWindowFits(b: Bucket, attempts: seq<Attempt>, i: nat)
    requires i < |attempts| && b.tokens == b.capacity && Ordered(b.lastRefill, attempts)
    ensures Accepted(b, attempts, i) <==> forall s :: -1 <= s <= i ==> Fits(b, attempts, s, i)
  {
    var tightest := LevelIsLeastRoom(b, attempts, i, attempts[i].time);
    FitsIsRoomForCost(b, attempts, tightest, i);
    forall s | -1 <= s <= i && Accepted(b, attempts, i)
      ensures Fits(b, attempts, s, i)
    {
      FitsIsRoomForCost(b, attempts, s, i);
    }
  }

  /** Never over-admits: every stretch of attempts inside the closed interval `from..to`
      consumes at most capacity + rate * (to - from), however much of it is rejected. */
  lemma {:induction false} NoWindowOverAdmits(b: Bucket, attempts: seq<Attempt>, lo: nat, hi: nat, from: real, to: real)
    requires lo <= hi <= |attempts| && b.tokens == b.capacity && Ordered(b.lastRefill, attempts)
    requires b.rate >= 0.0 && b.capacity >= 0.0 && from <= to
    requires forall i :: lo <= i < hi ==> from <= attempts[i].time <= to
    ensures Spent(b, attempts, lo, hi) <= b.capacity + Gain(b.rate, from, to)
    decreases hi
  {
    GainGrows(b.rate, from, from, to, to);
    if lo < hi {
      if Accepted(b, attempts, hi - 1) {
        AcceptedIffEveryWindowFits(b, attempts, hi - 1);
        assert Fits(b, attempts, lo, hi - 1);
        GainGrows(b.rate, from, attempts[lo].time, attempts[hi - 1].time, to);
      } else {
        NoWindowOverAdmits(b, attempts, lo, hi - 1, from, to);
      }
    }
  }

  lemma {:induction false} RunIgnoresLater(b: Bucket, attempts: seq<Attempt>, a: Attempt, n: nat)
    requires n <= |attempts|
    ensures Run(b, attempts + [a], n) == Run(b, attempts, n)
  {
    if n > 0 {
      RunIgnoresLater(b, attempts, a, n - 1);
    }
  }

  lemma NeverOverfull(b: Bucket, now: real)
    ensures Refilled(b, now).tokens <= b.capacity
  {
  }

  lemma AttemptKeepsParameters(b: Bucket, a: Attempt)
    ensures var after := AfterAttempt(b, a);
      after.capacity == b.capacity && after.rate == b.rate && after.lastRefill == a.time
  {
  }

  /** One step of a bucket that is only sometimes consulted: either nothing happened and
      nothing is counted, or it was attempted at `now` and counted at most when it paid. */
  ghost predicate Consulted(b: Bucket, after: Bucket, now: real, counted: real) {
    || (after == b && counted == 0.0)
    || (after == AfterAttempt(b, Attempt(now, 1.0)) && counted <= if CanPay(b, Attempt(now, 1.0)) then 1.0 else 0.0)
  }

  /** Consulting a bucket keeps its credit in balance: what it can still pay, plus what was
      counted, stays within the capacity and the credit earned since `start`. */
  lemma ConsultedKeepsBalance(b: Bucket, after: Bucket, start: real, now: real, later: real, used: real, counted: real)
    requires Consulted(b, after, now, counted)
    requires b.lastRefill <= now <= later && start <= now && b.rate >= 0.0
    requires Refilled(b, now).tokens + used <= b.capacity + Gain(b.rate, start, now)
    requires Refilled(b, later).tokens + used <= b.capacity + Gain(b.rate, start, later)
    ensures Refilled(after, later).tokens + (used + counted) <= b.capacity + Gain(b.rate, start, later)
  {
    Earned(b.rate, start, now, later);
  }

  /** app/rate_limits.py:15-35. */
  class TokenBucket {
    const capacity: real
    const refillPerSec: real
    var tokens: real
    var lastRefill: real

    ghost function State(): Bucket
      reads this
    {
      Bucket(capacity, tokens, refillPerSec, lastRefill)
    }

    constructor (capacity: real, refillPerSec: real, now: real)
      ensures State() == Fresh(capacity, refillPerSec, now)
    {
      this.capacity := capacity;
      this.refillPerSec := refillPerSec;
      tokens := capacity;
      lastRefill := now;
    }

    method Refill(now: real)
      modifies this
      ensures State() == Refilled(old(State()), now)
    {
      var elapsed := if now - lastRefill > 0.0 then now - lastRefill else 0.0;
      tokens := MinReal(capacity, tokens + elapsed * refillPerSec);
      lastRefill := now;
    }

    method TryConsume(now: real, cost: real) returns (ok: bool)
      modifies this
      ensures State() == AfterAttempt(old(State()), Attempt(now, cost))
      ensures ok == CanPay(old(State()), Attempt(now, cost))
    {
      Refill(now);
      if tokens < cost {
        return false;
      }
      tokens := tokens - cost;
      ok := true;
    }
  }
}
