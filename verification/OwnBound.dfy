/** When a client of the admission limiter meets its own bound (app/v2.py:46-58): the exact
    condition on the settings and on who calls, over all runs. */
module OwnBound {
  import opened Admission
  import opened Lru
  import opened Numbers
  import opened RateLimits
  import Collections

  ghost predicate AllIn(calls: seq<Call>, clients: set<Client>) {
    forall i :: 0 <= i < |calls| ==> calls[i].client in clients
  }

  /** The calls `lo..hi` of one client stay within its burst and rate * length. */
  ghost predicate MeetsBound(s: Settings, created: real, calls: seq<Call>, client: Client, lo: nat, hi: nat) {
    lo < hi <= |calls| ==>
      Admitted(s, created, calls, lo, hi, {client}) <= s.clientBurst + Gain(s.clientRefill, calls[lo].now, calls[hi - 1].now)
  }

  /** Every client meets its own bound in every window of every run in which only `clients` call. */
  ghost predicate OwnBoundHolds(s: Settings, clients: set<Client>) {
    forall created, calls, client, lo, hi :: InOrder(created, calls) && AllIn(calls, clients) ==>
      MeetsBound(s, created, calls, client, lo, hi)
  }

  /** The global limiter alone keeps a client within its own bound: it is no looser in its rate,
      and it does not pay out one token more than the client's burst any sooner. */
  predicate GlobalCovers(s: Settings) {
    var next := (s.clientBurst.Floor + 1) as real;
    s.clientRefill >= s.globalRefill && s.globalRefill * (next - s.clientBurst) <= s.clientRefill * (next - s.globalBurst)
  }

  // ---- where the bound holds -----------------------------------------------------------

  lemma {:induction false} AdmittedIsWhole(s: Settings, created: real, calls: seq<Call>, lo: nat, hi: nat, clients: set<Client>)
    returns (n: nat)
    requires lo <= hi <= |calls|
    ensures Admitted(s, created, calls, lo, hi, clients) == n as real
    decreases hi
  {
    hide Allowed;
    n := 0;
    if lo < hi {
      n := AdmittedIsWhole(s, created, calls, lo, hi - 1, clients);
      n := n + if Count(s, created, calls, hi - 1, clients) == 1.0 then 1 else 0;
    }
  }

  lemma NeverAllowed(s: Settings, created: real, calls: seq<Call>, i: nat)
    requires i < |calls| && InOrder(created, calls) && (s.clientBurst < 1.0 || s.globalBurst < 1.0)
    ensures !Allowed(s, created, calls, i)
  {
    var l, call := After(s, created, calls, i), calls[i];
    Parameters(s, created, calls, i);
    NeverOverfull(l.shared, call.now);
    NeverOverfull(BucketFor(s, l.buckets, call), call.now);
    hide After, Refilled;
  }

  lemma {:induction false} NoneAdmitted(s: Settings, created: real, calls: seq<Call>, lo: nat, hi: nat, clients: set<Client>)
    requires lo <= hi <= |calls| && InOrder(created, calls) && (s.clientBurst < 1.0 || s.globalBurst < 1.0)
    ensures Admitted(s, created, calls, lo, hi, clients) == 0.0
    decreases hi
  {
    hide Allowed;
    if lo < hi {
      NoneAdmitted(s, created, calls, lo, hi - 1, clients);
      NeverAllowed(s, created, calls, hi - 1);
    }
  }

  lemma FewClientsStay(s: Settings, created: real, calls: seq<Call>, lo: nat, hi: nat, client: Client, clients: set<Client>)
    requires lo <= hi <= |calls| && AllIn(calls, clients) && |clients| <= MAX_CLIENTS
    ensures StaysTracked(s, created, calls, lo, hi, client)
  {
    hide *;
    forall m | lo <= m < hi && client in After(s, created, calls, m).buckets ensures client in After(s, created, calls, m + 1).buckets {
      StaysOneCall(s, created, calls, m, client, clients);
    }
    StaysThroughout(s, created, calls, lo, hi, client);
  }

  lemma StaysThroughout(s: Settings, created: real, calls: seq<Call>, lo: nat, hi: nat, client: Client)
    requires hi <= |calls|
    requires forall m :: lo <= m < hi && client in After(s, created, calls, m).buckets ==>
      client in After(s, created, calls, m + 1).buckets
    ensures StaysTracked(s, created, calls, lo, hi, client)
  {
  }

  lemma StaysOneCall(s: Settings, created: real, calls: seq<Call>, m: nat, client: Client, clients: set<Client>)
    requires m < |calls| && AllIn(calls, clients) && |clients| <= MAX_CLIENTS && client in After(s, created, calls, m).buckets
    ensures client in After(s, created, calls, m + 1).buckets
  {
    hide After, ByLastCall, Distinct, Elements;
    var callers := Callers(calls);
    TrackedIffRecentlyUsed(s, created, calls, m, client);
    TrackedIffRecentlyUsed(s, created, calls, m + 1, client);
    assert callers[..m + 1] == callers[..m] + [callers[m]];
    SinceIsFew(calls, m + 1, client, clients);
  }

  lemma {:induction false} SinceIsAmong(calls: seq<Call>, n: nat, client: Client, clients: set<Client>)
    requires n <= |calls| && AllIn(calls, clients)
    ensures Since(Callers(calls), n, client) <= clients - {client}
  {
    if n > 0 {
      SinceIsAmong(calls, n - 1, client, clients);
      assert Callers(calls)[n - 1] == calls[n - 1].client;
    }
  }

  lemma SinceIsFew(calls: seq<Call>, n: nat, client: Client, clients: set<Client>)
    requires n <= |calls| && AllIn(calls, clients) && |clients| <= MAX_CLIENTS && client in Callers(calls)[..n]
    ensures |Since(Callers(calls), n, client)| < MAX_CLIENTS
  {
    SinceIsAmong(calls, n, client, clients);
    Collections.SubsetSize(Since(Callers(calls), n, client), clients - {client});
    assert client in clients;
  }

  /** What the global limiter admits in a window that it covers. */
  lemma Covered(n: nat, next: nat, burst: real, shared: real, own: real, global: real, length: real)
    requires n >= next && 0.0 < global <= own && length >= 0.0
    requires global * (next as real - burst) <= own * (next as real - shared)
    requires n as real <= shared + global * length
    ensures n as real <= burst + own * length
  {
    var more := (n - next) as real;
    MonotoneLeft(global, own, more);
    assert global * (n as real - burst) == global * (next as real - burst) + global * more;
    assert own * (n as real - shared) == own * (next as real - shared) + own * more;
    assert global * (n as real - burst) <= own * (n as real - shared);
    MonotoneRight(own, n as real - shared, global * length);
    assert own * (global * length) == global * (own * length);
    Cancel(global, n as real - burst, own * length);
  }

  lemma MonotoneLeft(a: real, b: real, x: real)
    requires a <= b && x >= 0.0
    ensures a * x <= b * x
  {
    assert (b - a) * x >= 0.0;
  }

  lemma MonotoneRight(a: real, x: real, y: real)
    requires a >= 0.0 && x <= y
    ensures a * x <= a * y
  {
    assert a * (y - x) >= 0.0;
  }

  lemma Cancel(a: real, x: real, y: real)
    requires a > 0.0 && a * x <= a * y
    ensures x <= y
  {
    assert x > y ==> a * (x - y) > 0.0;
  }

  lemma CoveredWindow(s: Settings, created: real, calls: seq<Call>, client: Client, lo: nat, hi: nat)
    requires lo < hi <= |calls| && InOrder(created, calls) && GlobalCovers(s)
    requires s.globalRefill > 0.0 && s.globalBurst >= 0.0 && s.clientBurst >= 0.0
    ensures MeetsBound(s, created, calls, client, lo, hi)
  {
    hide Admitted, Gain, GlobalCovers, Allowed;
    var from, to := calls[lo].now, calls[hi - 1].now;
    GlobalBound(s, created, calls, lo, hi, from, to, {client});
    var n := AdmittedIsWhole(s, created, calls, lo, hi, {client});
    GainIs(s.clientRefill, from, to);
    GainIs(s.globalRefill, from, to);
    CoveredAmount(s, n, to - from);
  }

  lemma CoveredAmount(s: Settings, n: nat, length: real)
    requires GlobalCovers(s) && s.globalRefill > 0.0 && s.clientBurst >= 0.0 && length >= 0.0
    requires n as real <= s.globalBurst + s.globalRefill * length
    ensures n as real <= s.clientBurst + s.clientRefill * length
  {
    if n as real > s.clientBurst {
      Covered(n, s.clientBurst.Floor + 1, s.clientBurst, s.globalBurst, s.clientRefill, s.globalRefill, length);
    } else {
      MonotoneRight(length, 0.0, s.clientRefill);
      assert s.clientRefill * length == length * s.clientRefill;
    }
  }

  lemma GainIs(rate: real, from: real, to: real)
    requires from <= to
    ensures Gain(rate, from, to) == rate * (to - from)
  {
  }

  lemma WindowMeetsBound(s: Settings, clients: set<Client>, created: real, calls: seq<Call>, client: Client, lo: nat, hi: nat)
    requires s.clientRefill >= 0.0 && s.globalRefill > 0.0 && s.clientBurst >= 0.0 && s.globalBurst >= 0.0
    requires |clients| <= MAX_CLIENTS || s.clientBurst < 1.0 || s.globalBurst < 1.0 || GlobalCovers(s)
    requires InOrder(created, calls) && AllIn(calls, clients)
    ensures MeetsBound(s, created, calls, client, lo, hi)
  {
    hide GlobalCovers, Admitted, Gain;
    if lo < hi <= |calls| {
      var from, to := calls[lo].now, calls[hi - 1].now;
      if |clients| <= MAX_CLIENTS {
        FewClientsStay(s, created, calls, lo, hi, client, clients);
        ClientBound(s, created, calls, lo, hi, from, to, client);
      } else if s.clientBurst < 1.0 || s.globalBurst < 1.0 {
        NoneAdmitted(s, created, calls, lo, hi, {client});
        GainGrows(s.clientRefill, from, from, to, to);
      } else {
        CoveredWindow(s, created, calls, client, lo, hi);
      }
    }
  }

  // ---- runs, one call after another ----------------------------------------------------

  function St(s: Settings, created: real, calls: seq<Call>): Limiter {
    After(s, created, calls, |calls|)
  }

  lemma {:induction false} AfterIgnoresLater(s: Settings, created: real, calls: seq<Call>, more: seq<Call>, n: nat)
    requires n <= |calls| && calls <= more
    ensures After(s, created, more, n) == After(s, created, calls, n)
  {
    hide AfterCall;
    if n > 0 {
      AfterIgnoresLater(s, created, calls, more, n - 1);
    }
  }

  lemma {:induction false} AdmittedIgnoresLater(s: Settings, created: real, calls: seq<Call>, more: seq<Call>, lo: nat, hi: nat, clients: set<Client>)
    requires lo <= hi <= |calls| && calls <= more
    ensures Admitted(s, created, more, lo, hi, clients) == Admitted(s, created, calls, lo, hi, clients)
    decreases hi
  {
    hide After, Allows;
    if lo < hi {
      AdmittedIgnoresLater(s, created, calls, more, lo, hi - 1, clients);
      AfterIgnoresLater(s, created, calls, more, hi - 1);
    }
  }

  /** One more call. */
  lemma OneMore(s: Settings, created: real, calls: seq<Call>, call: Call, lo: nat, clients: set<Client>)
    requires lo <= |calls|
    ensures St(s, created, calls + [call]) == AfterCall(s, St(s, created, calls), call)
    ensures Admitted(s, created, calls + [call], lo, |calls| + 1, clients)
      == Admitted(s, created, calls, lo, |calls|, clients)
         + if call.client in clients && Allows(s, St(s, created, calls), call) then 1.0 else 0.0
  {
    var more := calls + [call];
    AfterIgnoresLater(s, created, calls, more, |calls|);
    AdmittedIgnoresLater(s, created, calls, more, lo, |calls|, clients);
    assert more[|calls|] == call;
    hide AfterCall, Allows;
    assert After(s, created, more, |calls| + 1) == AfterCall(s, After(s, created, more, |calls|), more[|calls|]);
  }

  /** What the global bucket holds at some time. */
  function Level(b: Bucket, t: real): real {
    Refilled(b, t).tokens
  }

  lemma LevelLater(b: Bucket, now: real, later: real)
    requires b.lastRefill <= now <= later && b.rate >= 0.0
    ensures Level(b, later) == MinReal(b.capacity, Level(b, now) + Gain(b.rate, now, later))
  {
    Earned(b.rate, b.lastRefill, now, later);
    GainGrows(b.rate, now, now, later, later);
    hide Gain;
  }

  lemma AttemptLevel(b: Bucket, now: real)
    requires b.lastRefill <= now
    ensures Level(AfterAttempt(b, Attempt(now, 1.0)), now) == Level(b, now) - if Level(b, now) >= 1.0 then 1.0 else 0.0
  {
    GainIs(b.rate, now, now);
    NeverOverfull(b, now);
    hide Gain;
  }

  /** A run that is in order up to `now`, when the global bucket holds `level`. */
  ghost predicate Ready(s: Settings, created: real, calls: seq<Call>, now: real, level: real) {
    && InOrder(created, calls) && created <= now && (calls != [] ==> calls[|calls| - 1].now <= now)
    && SharedReady(s, St(s, created, calls).shared, now, level)
  }

  ghost predicate SharedReady(s: Settings, b: Bucket, now: real, level: real) {
    && b.capacity == s.globalBurst && b.rate == s.globalRefill && b.lastRefill <= now && Level(b, now) == level
  }

  lemma Wait(s: Settings, created: real, calls: seq<Call>, now: real, level: real, later: real)
    requires Ready(s, created, calls, now, level) && now <= later && s.globalRefill >= 0.0
    ensures Ready(s, created, calls, later, MinReal(s.globalBurst, level + Gain(s.globalRefill, now, later)))
  {
    hide St, Level, Gain;
    LevelLater(St(s, created, calls).shared, now, later);
  }

  /** The client's own bucket pays at this state. */
  predicate OwnPays(s: Settings, l: Limiter, call: Call) {
    CanPay(BucketFor(s, l.buckets, call), Attempt(call.now, 1.0))
  }

  lemma SharedAfterCall(s: Settings, l: Limiter, call: Call, level: real)
    requires SharedReady(s, l.shared, call.now, level)
    ensures Allows(s, l, call) <==> OwnPays(s, l, call) && level >= 1.0
    ensures SharedReady(s, AfterCall(s, l, call).shared, call.now, level - if Allows(s, l, call) then 1.0 else 0.0)
  {
    AttemptLevel(l.shared, call.now);
    AttemptKeepsParameters(l.shared, Attempt(call.now, 1.0));
    hide AfterAttempt, BucketFor, Restrict, Trim, Touch, Refilled;
    assert CanPay(l.shared, Attempt(call.now, 1.0)) <==> level >= 1.0 by { PaysAtOne(l.shared, call.now); }
  }

  lemma PaysAtOne(b: Bucket, now: real)
    ensures CanPay(b, Attempt(now, 1.0)) <==> Level(b, now) >= 1.0
  {
  }

  lemma ReadyCall(s: Settings, created: real, calls: seq<Call>, now: real, level: real, client: Client)
    requires Ready(s, created, calls, now, level)
    ensures var l, call := St(s, created, calls), Call(client, now);
      && (Allows(s, l, call) <==> OwnPays(s, l, call) && level >= 1.0)
      && Ready(s, created, calls + [call], now, level - if Allows(s, l, call) then 1.0 else 0.0)
  {
    var l, call := St(s, created, calls), Call(client, now);
    OneMore(s, created, calls, call, 0, {});
    hide St, SharedReady, AfterCall, Allows, OwnPays;
    SharedAfterCall(s, l, call, level);
    assert InOrder(created, calls + [call]);
  }

  /** The limiter's table in any run. */
  lemma Tracked(s: Settings, created: real, calls: seq<Call>)
    ensures var l := St(s, created, calls);
      l.buckets.Keys == Elements(l.order) && Distinct(l.order) && |l.order| <= MAX_CLIENTS
  {
    hide After, ByLastCall;
    if calls == [] {
      TrackedIffRecentlyUsed(s, created, calls, 0, Client(""));
    } else {
      TrackedIffRecentlyUsed(s, created, calls, |calls|, calls[0].client);
    }
  }

  lemma FreshPays(s: Settings, l: Limiter, call: Call)
    requires call.client !in l.buckets && s.clientBurst >= 1.0
    ensures OwnPays(s, l, call)
  {
    GainIs(s.clientRefill, call.now, call.now);
    hide Gain;
  }

  // ---- a crowd pushes a client out -----------------------------------------------------

  predicate EndsWith(order: seq<Client>, tail: seq<Client>) {
    |tail| <= |order| && order[|order| - |tail|..] == tail
  }

  lemma TouchedTail(order: seq<Client>, tail: seq<Client>, o: Client)
    requires EndsWith(order, tail) && o !in tail && |tail| < MAX_CLIENTS
    ensures EndsWith(Trim(Touch(order, o), MAX_CLIENTS), tail + [o])
  {
    var front := order[..|order| - |tail|];
    assert order == front + tail;
    RemoveSplits(front, tail, o);
    RemoveMembers(tail, o);
    hide Remove;
    var all := Touch(order, o);
    assert all == Remove(front, o) + (tail + [o]);
    TrimKeepsTail(Remove(front, o), tail + [o], MAX_CLIENTS);
  }

  lemma TrimKeepsTail(front: seq<Client>, tail: seq<Client>, cap: nat)
    requires |tail| <= cap
    ensures EndsWith(Trim(front + tail, cap), tail)
  {
  }

  function Crowd(calls: seq<Call>, now: real, others: seq<Client>, j: nat): seq<Call>
    requires j <= |others|
  {
    if j == 0 then calls else Crowd(calls, now, others, j - 1) + [Call(others[j - 1], now)]
  }

  /** While the global bucket is short of a token, a crowd is admitted nothing and takes nothing;
      but it takes its places in the table. */
  lemma {:induction false} CrowdPasses(s: Settings, created: real, calls: seq<Call>, now: real, level: real, client: Client,
                                       others: seq<Client>, j: nat, lo: nat, clients: set<Client>)
    requires Ready(s, created, calls, now, level) && level < 1.0 && lo <= |calls|
    requires Distinct(others) && client !in others && j <= |others| <= MAX_CLIENTS
    requires AllIn(calls, clients) && forall o :: o in others ==> o in clients
    ensures var more := Crowd(calls, now, others, j);
      && Ready(s, created, more, now, level) && AllIn(more, clients) && calls <= more && |more| == |calls| + j
      && EndsWith(St(s, created, more).order, others[..j])
      && Admitted(s, created, more, lo, |more|, {client}) == Admitted(s, created, calls, lo, |calls|, {client})
  {
    hide St, Ready, Admitted, EndsWith, Allows, OwnPays;
    if j == 0 {
      assert others[..0] == [];
      assert EndsWith(St(s, created, calls).order, []) by { EndsWithNothing(St(s, created, calls).order); }
    } else {
      CrowdPasses(s, created, calls, now, level, client, others, j - 1, lo, clients);
      var before, o := Crowd(calls, now, others, j - 1), others[j - 1];
      ReadyCall(s, created, before, now, level, o);
      OneMore(s, created, before, Call(o, now), lo, {client});
      TouchedTail(St(s, created, before).order, others[..j - 1], o);
      assert others[..j] == others[..j - 1] + [o];
    }
  }

  lemma EndsWithNothing(order: seq<Client>)
    ensures EndsWith(order, [])
  {
  }

  lemma CrowdEvicts(s: Settings, created: real, calls: seq<Call>, client: Client, others: seq<Client>)
    requires EndsWith(St(s, created, calls).order, others) && |others| == MAX_CLIENTS && client !in others
    ensures client !in St(s, created, calls).buckets
  {
    hide St, Distinct;
    Tracked(s, created, calls);
    assert St(s, created, calls).order == others;
  }

  // ---- rounds: a crowd, a pause for one token, one call --------------------------------

  /** A place for a client that is going to exceed its bound. */
  ghost predicate Placed(s: Settings, clients: set<Client>, client: Client, others: seq<Client>) {
    && s.clientBurst >= 1.0 && s.globalBurst >= 1.0 && s.globalRefill > 0.0 && s.clientRefill >= 0.0
    && client in clients && client !in others && Distinct(others) && |others| == MAX_CLIENTS
    && forall o :: o in others ==> o in clients
  }

  lemma TimeToEarn(rate: real, amount: real, now: real)
    requires rate > 0.0 && amount >= 0.0
    ensures Gain(rate, now, now + amount / rate) == amount && now <= now + amount / rate
  {
    assert rate * (amount / rate) == amount;
  }

  lemma Round(s: Settings, created: real, calls: seq<Call>, now: real, level: real, client: Client, others: seq<Client>,
              lo: nat, clients: set<Client>)
    returns (more: seq<Call>, later: real)
    requires Ready(s, created, calls, now, level) && 0.0 <= level < 1.0 && lo < |calls| && AllIn(calls, clients)
    requires Placed(s, clients, client, others)
    ensures later == now + (1.0 - level) / s.globalRefill && Ready(s, created, more, later, 0.0)
    ensures calls <= more && lo < |more| && AllIn(more, clients) && more[|more| - 1].now == later
    ensures Admitted(s, created, more, lo, |more|, {client}) == Admitted(s, created, calls, lo, |calls|, {client}) + 1.0
  {
    hide St, Ready, Admitted, EndsWith, Allows, OwnPays, Gain;
    CrowdPasses(s, created, calls, now, level, client, others, MAX_CLIENTS, lo, clients);
    assert others[..MAX_CLIENTS] == others;
    var crowded := Crowd(calls, now, others, MAX_CLIENTS);
    CrowdEvicts(s, created, crowded, client, others);
    later := now + (1.0 - level) / s.globalRefill;
    TimeToEarn(s.globalRefill, 1.0 - level, now);
    Wait(s, created, crowded, now, level, later);
    var call := Call(client, later);
    ReadyCall(s, created, crowded, later, 1.0, client);
    FreshPays(s, St(s, created, crowded), call);
    OneMore(s, created, crowded, call, lo, {client});
    more := crowded + [call];
  }

  /** Each round lets the client have one token more, one token's time later. */
  lemma {:induction false} Rounds(s: Settings, created: real, calls: seq<Call>, now: real, level: real, client: Client, others: seq<Client>,
                                  lo: nat, clients: set<Client>, count: nat)
    returns (more: seq<Call>, later: real)
    requires count >= 1 && Ready(s, created, calls, now, level) && 0.0 <= level < 1.0 && lo < |calls| && AllIn(calls, clients)
    requires Placed(s, clients, client, others)
    ensures later == now + (count as real - level) / s.globalRefill && Ready(s, created, more, later, 0.0)
    ensures calls <= more && lo < |more| && AllIn(more, clients) && more[|more| - 1].now == later
    ensures Admitted(s, created, more, lo, |more|, {client}) == Admitted(s, created, calls, lo, |calls|, {client}) + count as real
  {
    hide Ready, Admitted, Placed, AllIn;
    if count == 1 {
      more, later := Round(s, created, calls, now, level, client, others, lo, clients);
    } else {
      var before, at := Rounds(s, created, calls, now, level, client, others, lo, clients, count - 1);
      more, later := Round(s, created, before, at, 0.0, client, others, lo, clients);
      assert s.globalRefill > 0.0 by { PlacedRate(s, clients, client, others); }
      SumOfTimes((count - 1) as real - level, 1.0, s.globalRefill);
    }
  }

  lemma PlacedRate(s: Settings, clients: set<Client>, client: Client, others: seq<Client>)
    requires Placed(s, clients, client, others)
    ensures s.globalRefill > 0.0
  {
  }

  lemma SumOfTimes(a: real, b: real, rate: real)
    requires rate > 0.0
    ensures a / rate + b / rate == (a + b) / rate
  {
  }

  // ---- a burst -------------------------------------------------------------------------

  function Burst(calls: seq<Call>, client: Client, now: real, j: nat): seq<Call> {
    if j == 0 then calls else Burst(calls, client, now, j - 1) + [Call(client, now)]
  }

  /** The client's bucket was full at `now` and has paid `j` tokens at that instant. */
  predicate HasPaid(s: Settings, l: Limiter, client: Client, now: real, j: nat) {
    client in l.buckets && l.buckets[client] == Bucket(s.clientBurst, s.clientBurst - j as real, s.clientRefill, now)
  }

  lemma CallInBurst(s: Settings, l: Limiter, client: Client, now: real, j: nat)
    requires if j == 0 then client !in l.buckets else HasPaid(s, l, client, now, j)
    requires (j + 1) as real <= s.clientBurst
    ensures OwnPays(s, l, Call(client, now)) && HasPaid(s, AfterCall(s, l, Call(client, now)), client, now, j + 1)
  {
    GainIs(s.clientRefill, now, now);
    LastIsKept(l.order, client, MAX_CLIENTS);
    hide Gain, Trim, Touch;
  }

  /** A fresh client takes as many tokens as both buckets hold, at one instant. */
  lemma {:induction false} BurstIsAdmitted(s: Settings, created: real, calls: seq<Call>, now: real, level: real, client: Client,
                                           j: nat, clients: set<Client>)
    requires Ready(s, created, calls, now, level) && AllIn(calls, clients) && client in clients
    requires client !in St(s, created, calls).buckets && j as real <= level && j as real <= s.clientBurst
    ensures var more := Burst(calls, client, now, j);
      && Ready(s, created, more, now, level - j as real) && AllIn(more, clients) && calls <= more && |more| == |calls| + j
      && (forall i :: |calls| <= i < |more| ==> more[i] == Call(client, now))
      && Admitted(s, created, more, |calls|, |more|, {client}) == j as real
    ensures j > 0 ==> HasPaid(s, St(s, created, Burst(calls, client, now, j)), client, now, j)
  {
    hide St, Ready, Allows, OwnPays, AfterCall;
    if j > 0 {
      hide Admitted;
      BurstIsAdmitted(s, created, calls, now, level, client, j - 1, clients);
      var before := Burst(calls, client, now, j - 1);
      ReadyCall(s, created, before, now, level - (j - 1) as real, client);
      OneMore(s, created, before, Call(client, now), |calls|, {client});
      assert j == 1 ==> before == calls;
      CallInBurst(s, St(s, created, before), client, now, j - 1);
    }
  }

  // ---- draining the global bucket ------------------------------------------------------

  /** Among more clients than the table has places, one is not tracked. */
  lemma Untracked(s: Settings, created: real, calls: seq<Call>, clients: set<Client>) returns (client: Client)
    requires |clients| > MAX_CLIENTS
    ensures client in clients && client !in St(s, created, calls).buckets
  {
    var l := St(s, created, calls);
    Tracked(s, created, calls);
    DistinctSize(l.order);
    hide St, Distinct, Elements;
    Collections.SplitSize(clients, l.buckets.Keys);
    Collections.SubsetSize(clients * l.buckets.Keys, l.buckets.Keys);
    assert |clients - l.buckets.Keys| > 0;
    client :| client in clients - l.buckets.Keys;
  }

  /** Clients that are not tracked empty the global bucket down to less than one token. */
  lemma {:induction false} Drain(s: Settings, created: real, calls: seq<Call>, now: real, level: real, clients: set<Client>, whole: nat)
    returns (more: seq<Call>, rest: real)
    requires Ready(s, created, calls, now, level) && AllIn(calls, clients) && |clients| > MAX_CLIENTS && s.clientBurst >= 1.0
    requires whole as real <= level < (whole + 1) as real
    ensures Ready(s, created, more, now, rest) && AllIn(more, clients) && 0.0 <= rest < 1.0
    decreases whole
  {
    hide St, Ready, Allows, OwnPays;
    if whole == 0 {
      more, rest := calls, level;
    } else {
      var client := Untracked(s, created, calls, clients);
      ReadyCall(s, created, calls, now, level, client);
      FreshPays(s, St(s, created, calls), Call(client, now));
      more, rest := Drain(s, created, calls + [Call(client, now)], now, level - 1.0, clients, whole - 1);
    }
  }

  // ---- where the bound breaks ----------------------------------------------------------

  lemma {:induction false} SomeOf(clients: set<Client>, n: nat) returns (some: seq<Client>)
    requires n <= |clients|
    ensures |some| == n && Distinct(some) && forall o :: o in some ==> o in clients
  {
    some := [];
    if n > 0 {
      var x :| x in clients;
      var rest := SomeOf(clients - {x}, n - 1);
      some := [x] + rest;
    }
  }

  /** A client that is not tracked takes a burst of `q` when the global bucket holds `level`, and
      one token in each of `count` rounds after that: more than its bound allows. */
  lemma BreaksBound(s: Settings, created: real, calls: seq<Call>, now: real, level: real, clients: set<Client>, q: nat, count: nat)
    requires Ready(s, created, calls, now, level) && AllIn(calls, clients) && |clients| > MAX_CLIENTS
    requires s.clientBurst >= 1.0 && s.globalBurst >= 1.0 && s.globalRefill > 0.0 && s.clientRefill >= 0.0
    requires q >= 1 && count >= 1 && q as real <= s.clientBurst && q as real <= level < (q + 1) as real
    requires (q + count) as real > s.clientBurst + s.clientRefill * (((q + count) as real - level) / s.globalRefill)
    ensures !OwnBoundHolds(s, clients)
  {
    hide St, Ready, Admitted;
    var client := Untracked(s, created, calls, clients);
    var others := SomeOf(clients - {client}, MAX_CLIENTS);
    BurstIsAdmitted(s, created, calls, now, level, client, q, clients);
    var bursting := Burst(calls, client, now, q);
    var more, later := Rounds(s, created, bursting, now, level - q as real, client, others, |calls|, clients, count);
    assert bursting[|calls|] == Call(client, now);
    ReadyIsInOrder(s, created, more, later, 0.0);
    GainIs(s.clientRefill, now, later);
    assert later - now == ((q + count) as real - level) / s.globalRefill;
    assert !MeetsBound(s, created, more, client, |calls|, |more|);
  }

  lemma ReadyIsInOrder(s: Settings, created: real, calls: seq<Call>, now: real, level: real)
    requires Ready(s, created, calls, now, level)
    ensures InOrder(created, calls) && (calls != [] ==> calls[|calls| - 1].now <= now)
  {
  }

  lemma AtStart(s: Settings)
    ensures Ready(s, 0.0, [], 0.0, s.globalBurst)
  {
  }

  /** Drained to less than a token, the global bucket can be brought to any level it can hold. */
  lemma BringTo(s: Settings, clients: set<Client>, level: real) returns (calls: seq<Call>, now: real)
    requires |clients| > MAX_CLIENTS && s.clientBurst >= 1.0 && s.globalRefill > 0.0 && 1.0 <= level <= s.globalBurst
    ensures Ready(s, 0.0, calls, now, level) && AllIn(calls, clients)
  {
    hide St, Ready, Gain;
    AtStart(s);
    var rest;
    calls, rest := Drain(s, 0.0, [], 0.0, s.globalBurst, clients, s.globalBurst.Floor);
    now := 0.0 + (level - rest) / s.globalRefill;
    TimeToEarn(s.globalRefill, level - rest, 0.0);
    Wait(s, 0.0, calls, 0.0, rest, now);
  }

  /** The client's rate is the slower one: it gets ahead by a token's worth in every round. */
  lemma SlowerRateBreaks(s: Settings, clients: set<Client>)
    requires |clients| > MAX_CLIENTS && s.clientBurst >= 1.0 && s.globalBurst >= 1.0 && 0.0 <= s.clientRefill < s.globalRefill
    ensures !OwnBoundHolds(s, clients)
  {
    hide Ready, AllIn, OwnBoundHolds;
    var calls, now := BringTo(s, clients, 1.0);
    var count := EnoughRounds(s.clientBurst, s.clientRefill, s.globalRefill);
    BreaksBound(s, 0.0, calls, now, 1.0, clients, 1, count);
  }

  lemma EnoughRounds(burst: real, own: real, global: real) returns (count: nat)
    requires 0.0 <= own < global && burst >= 1.0
    ensures count >= 1 && (1 + count) as real > burst + own * (((1 + count) as real - 1.0) / global)
  {
    MonotoneRight(burst - 1.0, 0.0, global);
    count := Multiple((burst - 1.0) * global, global - own);
    GetsAhead(burst - 1.0, own, global, count as real);
  }

  lemma Multiple(need: real, step: real) returns (n: nat)
    requires need >= 0.0 && step > 0.0
    ensures n >= 1 && n as real * step > need
  {
    var share := need / step;
    assert share * step == need;
    assert share >= 0.0;
    n := share.Floor + 1;
    assert (n as real - share) * step > 0.0;
  }

  lemma GetsAhead(lead: real, own: real, global: real, count: real)
    requires 0.0 <= own < global && count * (global - own) > lead * global
    ensures count > lead + own * (count / global)
  {
    var paused := count / global;
    assert paused * global == count;
    Regroup(paused, global, global - own);
    assert lead * global == global * lead;
    assert global * (paused * (global - own)) > global * lead;
    CancelStrict(global, lead, paused * (global - own));
    assert paused * (global - own) == paused * global - own * paused;
  }

  lemma Regroup(a: real, b: real, c: real)
    ensures (a * b) * c == b * (a * c)
  {
  }

  lemma CancelStrict(a: real, x: real, y: real)
    requires a > 0.0 && a * x < a * y
    ensures x < y
  {
    assert x >= y ==> a * (x - y) >= 0.0;
  }

  /** A burst of all the whole tokens a client has, and the next token too soon after it. */
  lemma NextTokenTooSoon(s: Settings, calls: seq<Call>, now: real, clients: set<Client>, k: nat, wait: real)
    requires |clients| > MAX_CLIENTS && s.clientBurst >= 1.0 && s.globalBurst >= 1.0 && k == s.clientBurst.Floor
    requires s.globalRefill > 0.0 && s.clientRefill >= 0.0 && 0.0 < wait <= 1.0
    requires Ready(s, 0.0, calls, now, (k + 1) as real - wait) && AllIn(calls, clients)
    requires s.globalRefill * ((k + 1) as real - s.clientBurst) > s.clientRefill * wait
    ensures !OwnBoundHolds(s, clients)
  {
    hide OwnBoundHolds, Ready, AllIn;
    TooSoon(s.clientBurst, s.clientRefill, s.globalRefill, (k + 1) as real, wait);
    BreaksBound(s, 0.0, calls, now, (k + 1) as real - wait, clients, k, 1);
  }

  /** The global bucket pays out one token more than the client's burst too soon. */
  lemma LooserBurstBreaks(s: Settings, clients: set<Client>)
    requires |clients| > MAX_CLIENTS && s.clientBurst >= 1.0 && s.globalBurst >= 1.0
    requires 0.0 < s.globalRefill <= s.clientRefill && !GlobalCovers(s)
    ensures !OwnBoundHolds(s, clients)
  {
    var k := s.clientBurst.Floor;
    var next := (k + 1) as real;
    var short, wait := next - s.clientBurst, next - s.globalBurst;
    assert s.globalRefill * short > s.clientRefill * wait;
    hide OwnBoundHolds, Ready, AllIn, GlobalCovers;
    if wait > 0.0 {
      LooserThanBurst(s.globalRefill, s.clientRefill, short, wait);
      StartsFull(s, clients);
      NextTokenTooSoon(s, [], 0.0, clients, k, wait);
    } else {
      var gap := SmallGap(s.globalRefill, s.clientRefill, short);
      var calls, now := BringTo(s, clients, next - gap);
      NextTokenTooSoon(s, calls, now, clients, k, gap);
    }
  }

  lemma StartsFull(s: Settings, clients: set<Client>)
    ensures Ready(s, 0.0, [], 0.0, s.globalBurst) && AllIn([], clients)
  {
    AtStart(s);
  }

  lemma LooserThanBurst(global: real, own: real, short: real, wait: real)
    requires 0.0 < global <= own && 0.0 < short <= 1.0 && wait > 0.0 && global * short > own * wait
    ensures wait < short
  {
    if wait >= short {
      MonotoneRight(global, short, wait);
      MonotoneLeft(global, own, wait);
    }
  }

  lemma SmallGap(global: real, own: real, short: real) returns (gap: real)
    requires 0.0 < global <= own && 0.0 < short <= 1.0
    ensures 0.0 < gap <= 1.0 && global * short > own * gap
  {
    var half := global * short / (2.0 * own);
    assert global * short > 0.0;
    assert own * half == global * short / 2.0;
    gap := MinReal(1.0, half);
    MonotoneRight(own, gap, half);
  }

  lemma TooSoon(burst: real, own: real, global: real, next: real, wait: real)
    requires 0.0 < global && 0.0 <= own && 0.0 <= wait && global * (next - burst) > own * wait
    ensures next > burst + own * (wait / global)
  {
    var time := wait / global;
    assert time * global == wait;
    assert own * wait == global * (own * time);
    if next - burst <= own * time {
      MonotoneRight(global, next - burst, own * time);
    }
  }

  // ---- the theorem ---------------------------------------------------------------------

  /** The exact condition. Every client meets its own bound in every window of every run over
      `clients` if and only if the table has a place for each of them, or one of the bursts admits
      nobody, or the global limiter alone covers it. */
  lemma OwnBoundIff(s: Settings, clients: set<Client>)
    requires s.clientRefill >= 0.0 && s.globalRefill > 0.0 && s.clientBurst >= 0.0 && s.globalBurst >= 0.0
    ensures OwnBoundHolds(s, clients)
      <==> |clients| <= MAX_CLIENTS || s.clientBurst < 1.0 || s.globalBurst < 1.0 || GlobalCovers(s)
  {
    if |clients| <= MAX_CLIENTS || s.clientBurst < 1.0 || s.globalBurst < 1.0 || GlobalCovers(s) {
      hide GlobalCovers, MeetsBound;
      forall created, calls, client, lo, hi | InOrder(created, calls) && AllIn(calls, clients)
        ensures MeetsBound(s, created, calls, client, lo, hi)
      {
        WindowMeetsBound(s, clients, created, calls, client, lo, hi);
      }
    } else if s.clientRefill < s.globalRefill {
      SlowerRateBreaks(s, clients);
    } else {
      LooserBurstBreaks(s, clients);
    }
  }

  /** With bursts that are whole numbers, as the configuration demands: the table has a place for
      each client, or the global limiter is no looser than a client's own in burst and rate. */
  lemma OwnBoundForWholeBurstsIff(s: Settings, clients: set<Client>, client: int, shared: int)
    requires client >= 1 && shared >= 1 && s.clientBurst == client as real && s.globalBurst == shared as real
    requires s.clientRefill > 0.0 && s.globalRefill > 0.0
    ensures OwnBoundHolds(s, clients)
      <==> |clients| <= MAX_CLIENTS || (s.globalBurst <= s.clientBurst && s.globalRefill <= s.clientRefill)
  {
    hide OwnBoundHolds, GlobalCovers;
    OwnBoundIff(s, clients);
    CoversWhole(s, client, shared);
  }

  lemma CoversWhole(s: Settings, client: int, shared: int)
    requires s.clientBurst == client as real && s.globalBurst == shared as real && s.clientRefill > 0.0 && s.globalRefill > 0.0
    ensures GlobalCovers(s) <==> shared <= client && s.globalRefill <= s.clientRefill
  {
    var next := s.clientBurst.Floor + 1;
    assert next == client + 1 && next as real - s.clientBurst == 1.0 && next as real - s.globalBurst == (client + 1 - shared) as real;
    WholeRoom(s.clientRefill, client + 1 - shared);
  }

  lemma WholeRoom(rate: real, room: int)
    requires rate > 0.0
    ensures if room >= 1 then rate <= rate * room as real else rate * room as real <= 0.0
  {
    if room >= 1 {
      MonotoneRight(rate, 1.0, room as real);
    } else {
      MonotoneRight(rate, room as real, 0.0);
    }
  }

  /** The default settings (app/config.py:68-71): exactly as long as at most 4096 clients call. */
  lemma OwnBoundAtDefaultsIff(clients: set<Client>)
    ensures OwnBoundHolds(Settings(128.0, 2.0, 256.0, 32.0), clients) <==> |clients| <= MAX_CLIENTS
  {
    OwnBoundForWholeBurstsIff(Settings(128.0, 2.0, 256.0, 32.0), clients, 128, 256);
    hide OwnBoundHolds;
  }
}
