/** When exactly the admission limiter says yes (app/v2.py:34-58): the two sliding-window laws it
    composes, over any run. */
module AdmissionLaw {
  import opened Admission
  import Collections
  import opened Lru
  import opened RateLimits
  import opened Windows

  /** The calls of a client since it was last evicted: calling puts it in, and so many others that
      called since put it out. */
  ghost function OwnAttempts(calls: seq<Call>, n: nat, client: Client): seq<Attempt>
    requires n <= |calls|
  {
    if n == 0 then []
    else if calls[n - 1].client == client then OwnAttempts(calls, n - 1, client) + [Attempt(calls[n - 1].now, 1.0)]
    else if |Since(Callers(calls), n, client)| >= 4096 then []
    else OwnAttempts(calls, n - 1, client)
  }

  /** Call `i` fits the windows of its client, which open at the calls since the last eviction. */
  ghost predicate FitsOwn(s: Settings, calls: seq<Call>, i: nat)
    requires i < |calls|
  {
    var own := OwnAttempts(calls, i, calls[i].client) + [Attempt(calls[i].now, 1.0)];
    EveryWindowFits(s.clientBurst, s.clientRefill, own[0].time, own)
  }

  /** The calls that reached the global bucket: those that fitted their client's windows. */
  ghost function GlobalAttempts(s: Settings, calls: seq<Call>, n: nat): seq<Attempt>
    requires n <= |calls|
  {
    if n == 0 then []
    else GlobalAttempts(s, calls, n - 1) + if FitsOwn(s, calls, n - 1) then [Attempt(calls[n - 1].now, 1.0)] else []
  }

  ghost predicate FitsGlobal(s: Settings, created: real, calls: seq<Call>, i: nat)
    requires i < |calls|
  {
    EveryWindowFits(s.globalBurst, s.globalRefill, created, GlobalAttempts(s, calls, i) + [Attempt(calls[i].now, 1.0)])
  }

  // ---- the limiter ---------------------------------------------------------------------

  /** The bucket of a client is the one its calls since the last eviction lead to. */
  ghost predicate OwnIs(s: Settings, created: real, calls: seq<Call>, n: nat, client: Client)
    requires n <= |calls|
  {
    var l, own := After(s, created, calls, n), OwnAttempts(calls, n, client);
    && (client in l.buckets <==> own != [])
    && (own != [] ==> l.buckets[client] == Run(Fresh(s.clientBurst, s.clientRefill, own[0].time), own, |own|))
  }

  lemma AfterStep(s: Settings, created: real, calls: seq<Call>, n: nat)
    requires n < |calls|
    ensures After(s, created, calls, n + 1) == AfterCall(s, After(s, created, calls, n), calls[n])
  {
    hide AfterCall;
  }

  lemma CallerBucket(s: Settings, l: Limiter, call: Call)
    ensures var next := AfterCall(s, l, call).buckets;
      call.client in next && next[call.client] == AfterAttempt(BucketFor(s, l.buckets, call), Attempt(call.now, 1.0))
  {
    LastIsKept(l.order, call.client, MAX_CLIENTS);
    hide Trim, Touch, BucketFor, AfterAttempt;
  }

  lemma OtherBucket(s: Settings, l: Limiter, call: Call, client: Client)
    requires client != call.client
    ensures var next := AfterCall(s, l, call).buckets;
      client in next ==> client in l.buckets && next[client] == l.buckets[client]
  {
    hide Trim, Touch, BucketFor, AfterAttempt;
  }

  lemma {:induction false} OwnBucketIs(s: Settings, created: real, calls: seq<Call>, n: nat, client: Client)
    requires n <= |calls|
    ensures OwnIs(s, created, calls, n, client)
  {
    hide *;
    if n == 0 {
      NoBuckets(s, created, calls, client);
    } else {
      OwnBucketIs(s, created, calls, n - 1, client);
      AfterStep(s, created, calls, n - 1);
      if calls[n - 1].client == client {
        OwnCall(s, created, calls, n - 1, client);
      } else {
        OtherCall(s, created, calls, n - 1, client);
      }
    }
  }

  lemma NoBuckets(s: Settings, created: real, calls: seq<Call>, client: Client)
    ensures OwnIs(s, created, calls, 0, client)
  {
  }

  lemma OwnCall(s: Settings, created: real, calls: seq<Call>, i: nat, client: Client)
    requires i < |calls| && calls[i].client == client && OwnIs(s, created, calls, i, client)
    requires After(s, created, calls, i + 1) == AfterCall(s, After(s, created, calls, i), calls[i])
    ensures OwnIs(s, created, calls, i + 1, client)
  {
    var l, own, a := After(s, created, calls, i), OwnAttempts(calls, i, client), Attempt(calls[i].now, 1.0);
    CallerBucket(s, l, calls[i]);
    assert OwnAttempts(calls, i + 1, client) == own + [a];
    hide AfterCall, After, AfterAttempt, Run, OwnAttempts;
    if own != [] {
      OneMoreAttempt(Fresh(s.clientBurst, s.clientRefill, own[0].time), own, a);
    } else {
      OneMoreAttempt(Fresh(s.clientBurst, s.clientRefill, a.time), [], a);
      assert own + [a] == [] + [a] == [a];
    }
  }

  lemma OtherCall(s: Settings, created: real, calls: seq<Call>, i: nat, client: Client)
    requires i < |calls| && calls[i].client != client && OwnIs(s, created, calls, i, client)
    requires After(s, created, calls, i + 1) == AfterCall(s, After(s, created, calls, i), calls[i])
    ensures OwnIs(s, created, calls, i + 1, client)
  {
    hide *;
    TrackedThen(s, created, calls, i, client);
    OtherBucket(s, After(s, created, calls, i), calls[i], client);
    StillOwn(s, created, calls, i, client);
  }

  /** Another call changes nothing for the client unless it puts it out. */
  lemma TrackedThen(s: Settings, created: real, calls: seq<Call>, i: nat, client: Client)
    requires i < |calls| && calls[i].client != client
    ensures client in After(s, created, calls, i + 1).buckets
      <==> client in After(s, created, calls, i).buckets && |Since(Callers(calls), i + 1, client)| < 4096
  {
    hide *;
    var callers := Callers(calls);
    TrackedIs(s, created, calls, i, client);
    TrackedIs(s, created, calls, i + 1, client);
    SinceGrows(calls, i, client);
    Collections.SubsetSize(Since(callers, i, client), Since(callers, i + 1, client));
  }

  lemma TrackedIs(s: Settings, created: real, calls: seq<Call>, n: nat, client: Client)
    requires n <= |calls|
    ensures |Callers(calls)| == |calls|
    ensures client in After(s, created, calls, n).buckets <==> client in Callers(calls)[..n] && |Since(Callers(calls), n, client)| < 4096
  {
    TrackedIffRecentlyUsed(s, created, calls, n, client);
    hide After, ByLastCall, Distinct, Elements, Since;
  }

  lemma SinceGrows(calls: seq<Call>, i: nat, client: Client)
    requires i < |calls| && calls[i].client != client
    ensures var callers := Callers(calls);
      && |callers| == |calls| && Since(callers, i, client) <= Since(callers, i + 1, client)
      && (client in callers[..i + 1] <==> client in callers[..i])
  {
    var callers := Callers(calls);
    assert callers[..i + 1] == callers[..i] + [callers[i]] && callers[i] == calls[i].client;
  }

  lemma StillOwn(s: Settings, created: real, calls: seq<Call>, i: nat, client: Client)
    requires i < |calls| && calls[i].client != client && OwnIs(s, created, calls, i, client)
    requires var was, next := After(s, created, calls, i).buckets, After(s, created, calls, i + 1).buckets;
      && (client in next <==> client in was && |Since(Callers(calls), i + 1, client)| < 4096)
      && (client in next ==> next[client] == was[client])
    ensures OwnIs(s, created, calls, i + 1, client)
  {
    hide After, Run, Callers, Since;
  }

  lemma SharedStepIs(s: Settings, created: real, calls: seq<Call>, i: nat)
    requires i < |calls|
    ensures var l := After(s, created, calls, i);
      After(s, created, calls, i + 1).shared
      == if CanPay(BucketFor(s, l.buckets, calls[i]), Attempt(calls[i].now, 1.0))
         then AfterAttempt(l.shared, Attempt(calls[i].now, 1.0)) else l.shared
  {
    AfterStep(s, created, calls, i);
    hide After, CanPay, AfterAttempt, BucketFor, Trim, Touch, Restrict;
  }

  /** The client's own bucket pays for a call exactly when the call fits its windows. */
  lemma OwnPaysIff(s: Settings, created: real, calls: seq<Call>, i: nat)
    requires i < |calls| && InOrder(created, calls)
    ensures CanPay(BucketFor(s, After(s, created, calls, i).buckets, calls[i]), Attempt(calls[i].now, 1.0)) <==> FitsOwn(s, calls, i)
  {
    var x, a := calls[i].client, Attempt(calls[i].now, 1.0);
    var own := OwnAttempts(calls, i, x);
    OwnBucketIs(s, created, calls, i, x);
    assert i > 0 ==> calls[i - 1].now <= calls[i].now;
    OwnTimes(calls, i, x, created, calls[i].now);
    OneMoreUpTo(own, created, calls[i].now, a);
    assert own + [a] != [] && (own == [] ==> own + [a] == [a]);
    var first := (own + [a])[0].time;
    hide After, OwnAttempts, CanPay, Run, EveryWindowFits, InOrder;
    PaysIffWindowsFit(s.clientBurst, s.clientRefill, first, own, a);
    OneMoreAttempt(Fresh(s.clientBurst, s.clientRefill, first), own, a);
  }

  /** Attempts in order, none after `last`. */
  ghost predicate UpTo(attempts: seq<Attempt>, first: real, last: real) {
    && (forall i, j :: 0 <= i < j < |attempts| ==> attempts[i].time <= attempts[j].time)
    && forall i :: 0 <= i < |attempts| ==> first <= attempts[i].time <= last
  }

  lemma OneMoreUpTo(attempts: seq<Attempt>, first: real, last: real, a: Attempt)
    requires UpTo(attempts, first, last) && first <= a.time && last <= a.time
    ensures UpTo(attempts, first, a.time) && UpTo(attempts + [a], first, a.time) && Ordered(first, attempts + [a])
    ensures Ordered((attempts + [a])[0].time, attempts + [a])
  {
  }

  lemma {:induction false} OwnTimes(calls: seq<Call>, n: nat, client: Client, created: real, last: real)
    requires n <= |calls| && InOrder(created, calls) && created <= last && (n > 0 ==> calls[n - 1].now <= last)
    ensures UpTo(OwnAttempts(calls, n, client), created, last)
  {
    if n > 0 {
      assert n > 1 ==> calls[n - 2].now <= calls[n - 1].now;
      OwnTimes(calls, n - 1, client, created, calls[n - 1].now);
      OneMoreUpTo(OwnAttempts(calls, n - 1, client), created, calls[n - 1].now, Attempt(calls[n - 1].now, 1.0));
      hide Since, InOrder, Callers;
    }
  }

  lemma {:induction false} GlobalTimes(s: Settings, calls: seq<Call>, n: nat, created: real, last: real)
    requires n <= |calls| && InOrder(created, calls) && created <= last && (n > 0 ==> calls[n - 1].now <= last)
    ensures UpTo(GlobalAttempts(s, calls, n), created, last)
  {
    if n > 0 {
      assert n > 1 ==> calls[n - 2].now <= calls[n - 1].now;
      GlobalTimes(s, calls, n - 1, created, calls[n - 1].now);
      OneMoreUpTo(GlobalAttempts(s, calls, n - 1), created, calls[n - 1].now, Attempt(calls[n - 1].now, 1.0));
      hide FitsOwn, InOrder;
    }
  }

  /** The global bucket is the one that the calls that reached it lead to. */
  lemma {:induction false} SharedBucketIs(s: Settings, created: real, calls: seq<Call>, n: nat)
    requires n <= |calls| && InOrder(created, calls)
    ensures var all := GlobalAttempts(s, calls, n);
      After(s, created, calls, n).shared == Run(Fresh(s.globalBurst, s.globalRefill, created), all, |all|)
  {
    hide *;
    if n == 0 {
      NothingShared(s, created, calls);
    } else {
      SharedBucketIs(s, created, calls, n - 1);
      SharedStepIs(s, created, calls, n - 1);
      OwnPaysIff(s, created, calls, n - 1);
      OneMoreAttempt(Fresh(s.globalBurst, s.globalRefill, created), GlobalAttempts(s, calls, n - 1), Attempt(calls[n - 1].now, 1.0));
      GlobalStep(s, calls, n - 1);
    }
  }

  lemma NothingShared(s: Settings, created: real, calls: seq<Call>)
    ensures GlobalAttempts(s, calls, 0) == []
    ensures After(s, created, calls, 0).shared == Run(Fresh(s.globalBurst, s.globalRefill, created), [], 0)
  {
  }

  lemma GlobalStep(s: Settings, calls: seq<Call>, n: nat)
    requires n < |calls|
    ensures var all := GlobalAttempts(s, calls, n);
      GlobalAttempts(s, calls, n + 1) == if FitsOwn(s, calls, n) then all + [Attempt(calls[n].now, 1.0)] else all
  {
    hide FitsOwn;
  }

  /** The law of the limiter. A call is admitted if and only if it fits every window of its client,
      over the client's calls since its last eviction, and every window of the global bucket, over the
      calls that fitted their own client's windows. A call that does not fit its client's windows does
      not reach the global bucket, and one that reaches it is charged to its client whatever the
      global bucket says. */
  lemma AllowedIffBothFit(s: Settings, created: real, calls: seq<Call>, i: nat)
    requires i < |calls| && InOrder(created, calls)
    ensures Allowed(s, created, calls, i) <==> FitsOwn(s, calls, i) && FitsGlobal(s, created, calls, i)
  {
    var a := Attempt(calls[i].now, 1.0);
    OwnPaysIff(s, created, calls, i);
    SharedBucketIs(s, created, calls, i);
    assert i > 0 ==> calls[i - 1].now <= calls[i].now;
    GlobalTimes(s, calls, i, created, calls[i].now);
    OneMoreUpTo(GlobalAttempts(s, calls, i), created, calls[i].now, a);
    PaysIffWindowsFit(s.globalBurst, s.globalRefill, created, GlobalAttempts(s, calls, i), a);
    hide After, CanPay, BucketFor, Run, FitsOwn, EveryWindowFits, GlobalAttempts;
  }
}
