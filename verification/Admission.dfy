/** AdmissionLimiter (app/v2.py:34-58): at most 4096 client buckets kept in order of last
    use, in front of one global bucket. */
module Admission {
  import opened RateLimits
  import opened Lru

  const MAX_CLIENTS: nat := 4096

  datatype Settings = Settings(clientBurst: real, clientRefill: real, globalBurst: real, globalRefill: real)

  /** `order` is the insertion order of the dictionary that holds `buckets`. */
  datatype Limiter = Limiter(order: seq<Client>, buckets: map<Client, Bucket>, shared: Bucket)

  datatype Call = Call(client: Client, now: real)

  function BucketFor(s: Settings, buckets: map<Client, Bucket>, call: Call): Bucket {
    if call.client in buckets then buckets[call.client] else Fresh(s.clientBurst, s.clientRefill, call.now)
  }

  function Restrict<T>(entries: map<Client, T>, order: seq<Client>): map<Client, T> {
    map c | c in order && c in entries :: entries[c]
  }

  function AfterCall(s: Settings, l: Limiter, call: Call): Limiter {
    var bucket, attempt := BucketFor(s, l.buckets, call), Attempt(call.now, 1.0);
    var order := Trim(Touch(l.order, call.client), MAX_CLIENTS);
    var all := l.buckets[call.client := AfterAttempt(bucket, attempt)];
    Limiter(
      order,
      Restrict(all, order),
      if CanPay(bucket, attempt) then AfterAttempt(l.shared, attempt) else l.shared)
  }

  predicate Allows(s: Settings, l: Limiter, call: Call) {
    CanPay(BucketFor(s, l.buckets, call), Attempt(call.now, 1.0)) && CanPay(l.shared, Attempt(call.now, 1.0))
  }

  function Start(s: Settings, created: real): Limiter {
    Limiter([], map[], Fresh(s.globalBurst, s.globalRefill, created))
  }

  /** The limiter after the first `n` calls. */
  function After(s: Settings, created: real, calls: seq<Call>, n: nat): Limiter
    requires n <= |calls|
  {
    if n == 0 then Start(s, created) else AfterCall(s, After(s, created, calls, n - 1), calls[n - 1])
  }

  predicate Allowed(s: Settings, created: real, calls: seq<Call>, i: nat)
    requires i < |calls|
  {
    Allows(s, After(s, created, calls, i), calls[i])
  }

  function Callers(calls: seq<Call>): seq<Client> {
    seq(|calls|, i requires 0 <= i < |calls| => calls[i].client)
  }

  lemma {:induction false} OrderIsKept(s: Settings, created: real, calls: seq<Call>, n: nat)
    requires n <= |calls|
    ensures var l := After(s, created, calls, n);
      l.order == Kept(Callers(calls), n, MAX_CLIENTS) && l.buckets.Keys == Elements(l.order)
  {
    if n > 0 {
      OrderIsKept(s, created, calls, n - 1);
      var was, call := After(s, created, calls, n - 1), calls[n - 1];
      EveryEntryHasABucket(was.order, was.buckets, call.client, AfterAttempt(BucketFor(s, was.buckets, call), Attempt(call.now, 1.0)));
    }
  }

  lemma EveryEntryHasABucket<T>(order: seq<Client>, buckets: map<Client, T>, client: Client, bucket: T)
    requires buckets.Keys == Elements(order)
    ensures var kept := Trim(Touch(order, client), MAX_CLIENTS);
      Restrict(buckets[client := bucket], kept).Keys == Elements(kept)
  {
    var kept := Trim(Touch(order, client), MAX_CLIENTS);
    RemoveMembers(order, client);
    forall c | c in kept ensures c in buckets[client := bucket] {
      TrimKeepsMembers(Touch(order, client), MAX_CLIENTS, c);
      assert c in Elements(order) || c == client;
    }
  }

  lemma TrimKeepsMembers(order: seq<Client>, cap: nat, client: Client)
    requires client in Trim(order, cap)
    ensures client in order
  {
  }

  /** After any call sequence a client is tracked exactly when it called and fewer than 4096
      distinct other clients called since its last call; entries are in last-use order. */
  lemma TrackedIffRecentlyUsed(s: Settings, created: real, calls: seq<Call>, n: nat, client: Client)
    requires n <= |calls|
    ensures var l, callers := After(s, created, calls, n), Callers(calls);
      && (client in l.buckets <==> client in callers[..n] && |Since(callers, n, client)| < MAX_CLIENTS)
      && l.buckets.Keys == Elements(l.order) && Distinct(l.order) && |l.order| <= MAX_CLIENTS
      && ByLastCall(callers, n, l.order)
  {
    OrderIsKept(s, created, calls, n);
    KeptIffRecentlyUsed(Callers(calls), n, MAX_CLIENTS, client);
    assert client in After(s, created, calls, n).buckets.Keys <==> client in After(s, created, calls, n).order;
  }

  // ---------------------------------------------------------------------------
  // Admission bounds.

  ghost predicate InOrder(created: real, calls: seq<Call>) {
    && (forall i :: 0 <= i < |calls| ==> created <= calls[i].now)
    && (forall i, j :: 0 <= i < j < |calls| ==> calls[i].now <= calls[j].now)
  }

  function Count(s: Settings, created: real, calls: seq<Call>, i: nat, clients: set<Client>): real
    requires i < |calls|
  {
    if calls[i].client in clients && Allowed(s, created, calls, i) then 1.0 else 0.0
  }

  /** How many of the calls `lo..hi` were allowed calls by one of `clients`. */
  function Admitted(s: Settings, created: real, calls: seq<Call>, lo: nat, hi: nat, clients: set<Client>): real
    requires lo <= hi <= |calls|
    decreases hi
  {
    if hi == lo then 0.0
    else Admitted(s, created, calls, lo, hi - 1, clients) + Count(s, created, calls, hi - 1, clients)
  }

  lemma {:induction false} Parameters(s: Settings, created: real, calls: seq<Call>, n: nat)
    requires n <= |calls| && InOrder(created, calls)
    ensures var l, last := After(s, created, calls, n), if n > 0 then calls[n - 1].now else created;
      && l.shared.capacity == s.globalBurst && l.shared.rate == s.globalRefill && l.shared.lastRefill <= last
      && forall c :: c in l.buckets ==>
           l.buckets[c].capacity == s.clientBurst && l.buckets[c].rate == s.clientRefill && l.buckets[c].lastRefill <= last
  {
    if n > 0 {
      Parameters(s, created, calls, n - 1);
      var l, call := After(s, created, calls, n - 1), calls[n - 1];
      AttemptKeepsParameters(BucketFor(s, l.buckets, call), Attempt(call.now, 1.0));
      AttemptKeepsParameters(l.shared, Attempt(call.now, 1.0));
    }
  }

  function SharedAfter(s: Settings, created: real, calls: seq<Call>, n: nat): Bucket
    requires n <= |calls|
  {
    After(s, created, calls, n).shared
  }

  lemma {:induction false} SharedCredit(s: Settings, created: real, calls: seq<Call>, lo: nat, n: nat, later: real, clients: set<Client>)
    requires lo <= n <= |calls| && lo < |calls| && InOrder(created, calls) && s.globalRefill >= 0.0
    requires calls[lo].now <= later && (n > 0 ==> calls[n - 1].now <= later)
    ensures Refilled(SharedAfter(s, created, calls, n), later).tokens + Admitted(s, created, calls, lo, n, clients)
         <= s.globalBurst + Gain(s.globalRefill, calls[lo].now, later)
    decreases n
  {
    hide After, Allowed, Refilled;
    Parameters(s, created, calls, n);
    if n == lo {
      NeverOverfull(SharedAfter(s, created, calls, n), later);
      GainGrows(s.globalRefill, calls[lo].now, calls[lo].now, later, later);
    } else {
      var now := calls[n - 1].now;
      Parameters(s, created, calls, n - 1);
      SharedCredit(s, created, calls, lo, n - 1, now, clients);
      SharedCredit(s, created, calls, lo, n - 1, later, clients);
      SharedStep(s, created, calls, n - 1, clients);
      ConsultedKeepsBalance(SharedAfter(s, created, calls, n - 1), SharedAfter(s, created, calls, n), calls[lo].now, now,
                            later, Admitted(s, created, calls, lo, n - 1, clients), Count(s, created, calls, n - 1, clients));
    }
  }

  /** Accepted calls in any window are within the global burst plus rate * length. */
  lemma {:induction false} GlobalBound(s: Settings, created: real, calls: seq<Call>, lo: nat, hi: nat, from: real, to: real, clients: set<Client>)
    requires lo <= hi <= |calls| && InOrder(created, calls)
    requires s.globalRefill >= 0.0 && s.globalBurst >= 0.0 && from <= to
    requires forall i :: lo <= i < hi ==> from <= calls[i].now <= to
    ensures Admitted(s, created, calls, lo, hi, clients) <= s.globalBurst + Gain(s.globalRefill, from, to)
    decreases hi
  {
    GainGrows(s.globalRefill, from, from, to, to);
    if lo < hi {
      GlobalBound(s, created, calls, lo, hi - 1, from, to, clients);
      SharedCredit(s, created, calls, lo, hi - 1, calls[hi - 1].now, clients);
      GainGrows(s.globalRefill, from, calls[lo].now, calls[hi - 1].now, to);
    }
  }

  lemma SharedStep(s: Settings, created: real, calls: seq<Call>, i: nat, clients: set<Client>)
    requires i < |calls|
    ensures Consulted(SharedAfter(s, created, calls, i), SharedAfter(s, created, calls, i + 1),
                      calls[i].now, Count(s, created, calls, i, clients))
  {
  }

  /** From call `lo` on the client, once tracked, is not evicted before call `hi`. */
  ghost predicate StaysTracked(s: Settings, created: real, calls: seq<Call>, lo: nat, hi: nat, client: Client)
    requires hi <= |calls|
  {
    forall m :: lo <= m < hi && client in After(s, created, calls, m).buckets ==>
      client in After(s, created, calls, m + 1).buckets
  }

  /** The bucket of a client; an unused full one while the client is not tracked. */
  function Own(s: Settings, created: real, l: Limiter, client: Client): Bucket {
    if client in l.buckets then l.buckets[client] else Fresh(s.clientBurst, s.clientRefill, created)
  }

  /** Call `m` of another client pushed this client out. */
  predicate Evicts(s: Settings, created: real, calls: seq<Call>, m: nat, client: Client)
    requires m < |calls|
  {
    client in After(s, created, calls, m).buckets && client !in After(s, created, calls, m + 1).buckets
  }

  /** How often the client was evicted by the calls `lo..hi`. */
  function Evictions(s: Settings, created: real, calls: seq<Call>, lo: nat, hi: nat, client: Client): nat
    requires lo <= hi <= |calls|
    decreases hi
  {
    if hi == lo then 0
    else Evictions(s, created, calls, lo, hi - 1, client) + if Evicts(s, created, calls, hi - 1, client) then 1 else 0
  }

  /** The burst that each eviction gives away once more. */
  function Renewed(burst: real, evictions: nat): real {
    if evictions == 0 then 0.0 else Renewed(burst, evictions - 1) + burst
  }

  lemma {:induction false} RenewedIs(burst: real, evictions: nat)
    ensures burst + Renewed(burst, evictions) == (1 + evictions) as real * burst
  {
    if evictions > 0 {
      RenewedIs(burst, evictions - 1);
      assert (1 + evictions) as real * burst == evictions as real * burst + burst;
    }
  }

  lemma {:induction false} NotOverdrawn(s: Settings, created: real, calls: seq<Call>, n: nat)
    requires n <= |calls| && s.clientBurst >= 0.0 && s.clientRefill >= 0.0
    ensures forall c :: c in After(s, created, calls, n).buckets ==> After(s, created, calls, n).buckets[c].tokens >= 0.0
    ensures forall c :: c in After(s, created, calls, n).buckets ==>
      After(s, created, calls, n).buckets[c].capacity == s.clientBurst && After(s, created, calls, n).buckets[c].rate == s.clientRefill
  {
    if n > 0 {
      NotOverdrawn(s, created, calls, n - 1);
      var l, call := After(s, created, calls, n - 1), calls[n - 1];
      RefillIsNotNegative(BucketFor(s, l.buckets, call), call.now);
      hide Refilled;
    }
  }

  lemma RefillIsNotNegative(b: Bucket, now: real)
    requires b.tokens >= 0.0 && b.capacity >= 0.0 && b.rate >= 0.0
    ensures Refilled(b, now).tokens >= 0.0 && AfterAttempt(b, Attempt(now, 1.0)).tokens >= 0.0
  {
    if b.lastRefill < now {
      GainGrows(b.rate, b.lastRefill, b.lastRefill, now, now);
    }
  }

  lemma OwnIsNotNegative(s: Settings, created: real, calls: seq<Call>, n: nat, later: real, client: Client)
    requires n <= |calls| && s.clientBurst >= 0.0 && s.clientRefill >= 0.0
    ensures Refilled(Own(s, created, After(s, created, calls, n), client), later).tokens >= 0.0
  {
    NotOverdrawn(s, created, calls, n);
    RefillIsNotNegative(Own(s, created, After(s, created, calls, n), client), later);
  }

  /** What a client can still pay and what it was admitted stay within its burst, once more for
      every eviction, and the credit earned since the window opened. */
  lemma {:induction false} OwnCredit(s: Settings, created: real, calls: seq<Call>, lo: nat, n: nat, later: real, client: Client)
    requires lo <= n <= |calls| && lo < |calls| && InOrder(created, calls) && s.clientRefill >= 0.0 && s.clientBurst >= 0.0
    requires calls[lo].now <= later && (n > 0 ==> calls[n - 1].now <= later)
    ensures Refilled(Own(s, created, After(s, created, calls, n), client), later).tokens
              + Admitted(s, created, calls, lo, n, {client}) - Renewed(s.clientBurst, Evictions(s, created, calls, lo, n, client))
         <= s.clientBurst + Gain(s.clientRefill, calls[lo].now, later)
    decreases n
  {
    hide After, Allowed, Refilled, Evicts;
    Parameters(s, created, calls, n);
    if n == lo {
      NeverOverfull(Own(s, created, After(s, created, calls, n), client), later);
      GainGrows(s.clientRefill, calls[lo].now, calls[lo].now, later, later);
    } else {
      var now := calls[n - 1].now;
      OwnCredit(s, created, calls, lo, n - 1, now, client);
      OwnCredit(s, created, calls, lo, n - 1, later, client);
      if Evicts(s, created, calls, n - 1, client) {
        EvictionStep(s, created, calls, n - 1, later, client);
        OwnIsNotNegative(s, created, calls, n - 1, later, client);
      } else {
        Parameters(s, created, calls, n - 1);
        OwnStep(s, created, calls, n - 1, client);
        var was, next := Own(s, created, After(s, created, calls, n - 1), client), Own(s, created, After(s, created, calls, n), client);
        ConsultedKeepsBalance(
          was, next, calls[lo].now, now, later,
          Admitted(s, created, calls, lo, n - 1, {client}) - Renewed(s.clientBurst, Evictions(s, created, calls, lo, n - 1, client)),
          Count(s, created, calls, n - 1, {client}));
      }
    }
  }

  /** Whoever is evicted did not call, and finds a full bucket next time. */
  lemma EvictionStep(s: Settings, created: real, calls: seq<Call>, i: nat, later: real, client: Client)
    requires i < |calls| && Evicts(s, created, calls, i, client)
    ensures Count(s, created, calls, i, {client}) == 0.0
    ensures Refilled(Own(s, created, After(s, created, calls, i + 1), client), later).tokens <= s.clientBurst
  {
    var l, call := After(s, created, calls, i), calls[i];
    LastIsKept(l.order, call.client, MAX_CLIENTS);
    NeverOverfull(Own(s, created, After(s, created, calls, i + 1), client), later);
    hide Refilled, Trim, Touch;
    assert call.client in After(s, created, calls, i + 1).buckets;
  }

  /** The bound of one client: its admitted calls in any window are within rate * length plus its
      burst, once more for every time it was evicted inside the window. */
  lemma {:induction false} ClientBoundWithEvictions(s: Settings, created: real, calls: seq<Call>, lo: nat, hi: nat,
                                                    from: real, to: real, client: Client)
    requires lo <= hi <= |calls| && InOrder(created, calls)
    requires s.clientRefill >= 0.0 && s.clientBurst >= 0.0 && from <= to
    requires forall i :: lo <= i < hi ==> from <= calls[i].now <= to
    ensures Admitted(s, created, calls, lo, hi, {client})
      <= (1 + Evictions(s, created, calls, lo, hi, client)) as real * s.clientBurst + Gain(s.clientRefill, from, to)
    decreases hi
  {
    hide After, Allowed, Refilled, Evicts;
    GainGrows(s.clientRefill, from, from, to, to);
    RenewedIs(s.clientBurst, Evictions(s, created, calls, lo, hi, client));
    RenewedIsNotNegative(s.clientBurst, Evictions(s, created, calls, lo, hi, client));
    if lo < hi {
      var last := calls[hi - 1];
      OwnCredit(s, created, calls, lo, hi, last.now, client);
      OwnIsNotNegative(s, created, calls, hi, last.now, client);
      GainGrows(s.clientRefill, from, calls[lo].now, last.now, to);
    }
  }

  lemma {:induction false} RenewedIsNotNegative(burst: real, evictions: nat)
    requires burst >= 0.0
    ensures Renewed(burst, evictions) >= 0.0
  {
    if evictions > 0 {
      RenewedIsNotNegative(burst, evictions - 1);
    }
  }

  /** A client that is not evicted inside the window meets its own bound. */
  lemma ClientBound(s: Settings, created: real, calls: seq<Call>, lo: nat, hi: nat, from: real, to: real, client: Client)
    requires lo <= hi <= |calls| && InOrder(created, calls)
    requires s.clientRefill >= 0.0 && s.clientBurst >= 0.0 && from <= to
    requires forall i :: lo <= i < hi ==> from <= calls[i].now <= to
    requires StaysTracked(s, created, calls, lo, hi, client)
    ensures Admitted(s, created, calls, lo, hi, {client}) <= s.clientBurst + Gain(s.clientRefill, from, to)
  {
    ClientBoundWithEvictions(s, created, calls, lo, hi, from, to, client);
    NoEvictions(s, created, calls, lo, hi, client);
  }

  lemma {:induction false} NoEvictions(s: Settings, created: real, calls: seq<Call>, lo: nat, hi: nat, client: Client)
    requires lo <= hi <= |calls| && StaysTracked(s, created, calls, lo, hi, client)
    ensures Evictions(s, created, calls, lo, hi, client) == 0
    decreases hi
  {
    hide After;
    if lo < hi {
      NoEvictions(s, created, calls, lo, hi - 1, client);
    }
  }

  lemma OwnStep(s: Settings, created: real, calls: seq<Call>, i: nat, client: Client)
    requires i < |calls| && created <= calls[i].now && s.clientRefill >= 0.0
    requires !Evicts(s, created, calls, i, client)
    ensures Consulted(Own(s, created, After(s, created, calls, i), client),
                      Own(s, created, After(s, created, calls, i + 1), client),
                      calls[i].now, Count(s, created, calls, i, {client}))
  {
    var l, call := After(s, created, calls, i), calls[i];
    if client == call.client {
      LastIsKept(l.order, client, MAX_CLIENTS);
      UnusedIsFull(s, created, call.now);
    }
  }

  lemma UnusedIsFull(s: Settings, created: real, now: real)
    requires created <= now && s.clientRefill >= 0.0
    ensures Refilled(Fresh(s.clientBurst, s.clientRefill, created), now)
         == Refilled(Fresh(s.clientBurst, s.clientRefill, now), now)
  {
    GainGrows(s.clientRefill, created, created, now, now);
  }

  lemma LastIsKept(order: seq<Client>, client: Client, cap: nat)
    requires cap > 0
    ensures client in Trim(Touch(order, client), cap)
  {
    var kept := Trim(Touch(order, client), cap);
    assert kept[|kept| - 1] == client;
  }

  // ---------------------------------------------------------------------------

  /** No two clients share a bucket object. */
  ghost predicate Separate(buckets: map<Client, TokenBucket>, objects: set<TokenBucket>) {
    && (forall c :: c in buckets ==> buckets[c] in objects)
    && (forall c, d :: c in buckets && d in buckets && buckets[c] == buckets[d] ==> c == d)
  }

  lemma StaysSeparate(buckets: map<Client, TokenBucket>, objects: set<TokenBucket>, client: Client, bucket: TokenBucket,
                      order: seq<Client>)
    requires Separate(buckets, objects)
    requires if client in buckets then bucket == buckets[client] else bucket !in objects
    ensures Separate(Restrict(buckets[client := bucket], order), objects + {bucket})
  {
  }

  class AdmissionLimiter {
    const settings: Settings
    var order: seq<Client>
    var buckets: map<Client, TokenBucket>
    const shared: TokenBucket
    ghost var repr: set<TokenBucket>

    ghost predicate Valid()
      reads this, repr
    {
      && shared in repr
      && Distinct(order)
      && buckets.Keys == Elements(order)
      && Separate(buckets, repr - {shared})
    }

    ghost function Table(): map<Client, Bucket>
      requires Valid()
      reads this, repr
    {
      map c | c in buckets :: buckets[c].State()
    }

    ghost function State(): Limiter
      requires Valid()
      reads this, repr
    {
      Limiter(order, Table(), shared.State())
    }

    constructor (settings: Settings, now: real)
      ensures Valid() && fresh(repr) && this.settings == settings
      ensures State() == Start(settings, now)
    {
      this.settings := settings;
      order := [];
      buckets := map[];
      var bucket := new TokenBucket(settings.globalBurst, settings.globalRefill, now);
      shared := bucket;
      repr := {bucket};
    }

    method Allow(client: Client, now: real) returns (ok: bool)
      requires Valid()
      modifies this, repr
      ensures Valid() && fresh(repr - old(repr))
      ensures State() == AfterCall(settings, old(State()), Call(client, now))
      ensures ok == Allows(settings, old(State()), Call(client, now))
    {
      hide Trim, Touch, Refilled, CanPay, AfterAttempt;
      ghost var before := State();
      var bucket := Entry(client, now);
      ok := Pay(bucket, client, now);
      RestrictUpdate(before.buckets, client, order, BucketFor(settings, before.buckets, Call(client, now)),
                     AfterAttempt(BucketFor(settings, before.buckets, Call(client, now)), Attempt(now, 1.0)));
      if ok {
        ok := shared.TryConsume(now, 1.0);
      }
    }

    /** Charging one client's bucket changes one entry of the table. */
    method Pay(bucket: TokenBucket, client: Client, now: real) returns (ok: bool)
      requires Valid() && client in buckets && buckets[client] == bucket
      modifies bucket
      ensures Valid() && shared.State() == old(shared.State())
      ensures Table() == old(Table())[client := AfterAttempt(old(Table())[client], Attempt(now, 1.0))]
      ensures ok == CanPay(old(Table())[client], Attempt(now, 1.0))
    {
      ok := bucket.TryConsume(now, 1.0);
    }

    /** The client's bucket, or a new one (app/v2.py:49-51). */
    method BucketOf(client: Client, now: real) returns (bucket: TokenBucket)
      requires Valid()
      modifies this`repr
      ensures Valid() && Table() == old(Table()) && fresh(repr - old(repr)) && old(repr) <= repr
      ensures repr - {shared} == old(repr) - {shared} + {bucket}
      ensures if client in buckets then bucket == buckets[client] else bucket !in old(repr) - {shared}
      ensures bucket.State() == BucketFor(settings, Table(), Call(client, now))
    {
      hide Distinct, Elements;
      if client in buckets {
        bucket := buckets[client];
      } else {
        bucket := new TokenBucket(settings.clientBurst, settings.clientRefill, now);
        repr := repr + {bucket};
      }
    }

    /** The dictionary part of app/v2.py:49-55. */
    method Entry(client: Client, now: real) returns (bucket: TokenBucket)
      requires Valid()
      modifies this
      ensures Valid() && fresh(repr - old(repr)) && old(repr) <= repr
      ensures order == Trim(Touch(old(order), client), MAX_CLIENTS)
      ensures client in buckets && buckets[client] == bucket
      ensures Table() == Restrict(old(Table())[client := BucketFor(settings, old(Table()), Call(client, now))], order)
    {
      hide Trim, Touch, Distinct, Elements, BucketFor, Separate;
      ghost var table, objects := buckets, repr - {shared};
      bucket := BucketOf(client, now);
      order, buckets := Reinsert(order, buckets, client, bucket);
      StaysSeparate(table, objects, client, bucket, order);
      LastIsKept(old(order), client, MAX_CLIENTS);
    }
  }

  /** The dictionary part of app/v2.py:49-55: take the client's entry out, put it back as the
      newest, and drop the oldest entries beyond the limit. */
  method Reinsert<T>(order: seq<Client>, buckets: map<Client, T>, client: Client, bucket: T)
    returns (kept: seq<Client>, entries: map<Client, T>)
    requires Distinct(order) && buckets.Keys == Elements(order)
    ensures kept == Trim(Touch(order, client), MAX_CLIENTS) && Distinct(kept)
    ensures entries == Restrict(buckets[client := bucket], kept) && entries.Keys == Elements(kept)
  {
    TouchIsDistinct(order, client);
    EverythingIsKept(order, buckets, client, bucket);
    EveryEntryHasABucket(order, buckets, client, bucket);
    RestrictTwice(buckets[client := bucket], Touch(order, client));
    kept, entries := DropOldest(Remove(order, client) + [client], (buckets - {client})[client := bucket]);
  }

  /** Evicts from the front while the dictionary is over its limit. */
  method DropOldest<T>(order: seq<Client>, entries: map<Client, T>) returns (kept: seq<Client>, left: map<Client, T>)
    requires Distinct(order) && entries == Restrict(entries, order)
    ensures kept == Trim(order, MAX_CLIENTS) && Distinct(kept)
    ensures left == Restrict(entries, kept)
  {
    kept, left := order, entries;
    while |kept| > MAX_CLIENTS
      invariant |kept| <= |order| && kept == order[|order| - |kept|..]
      invariant |kept| < |order| ==> |kept| >= MAX_CLIENTS
      invariant left == Restrict(entries, kept)
      decreases |kept|
    {
      RestrictDropsFirst(entries, kept);
      left := left - {kept[0]};
      kept := kept[1..];
    }
  }

  lemma RestrictUpdate<T>(entries: map<Client, T>, client: Client, order: seq<Client>, old': T, new': T)
    requires client in order
    ensures Restrict(entries[client := old'], order)[client := new'] == Restrict(entries[client := new'], order)
  {
  }

  lemma RestrictTwice<T>(entries: map<Client, T>, order: seq<Client>)
    ensures Restrict(Restrict(entries, order), Trim(order, MAX_CLIENTS)) == Restrict(entries, Trim(order, MAX_CLIENTS))
    ensures Restrict(Restrict(entries, order), order) == Restrict(entries, order)
  {
    var kept := Trim(order, MAX_CLIENTS);
    forall c | c in kept ensures c in order {
      TrimKeepsMembers(order, MAX_CLIENTS, c);
    }
  }

  lemma EverythingIsKept<T>(order: seq<Client>, buckets: map<Client, T>, client: Client, bucket: T)
    requires buckets.Keys == Elements(order)
    ensures (buckets - {client})[client := bucket] == Restrict(buckets[client := bucket], Touch(order, client))
  {
    var all, touched := buckets[client := bucket], Touch(order, client);
    RemoveMembers(order, client);
    forall c | c in all ensures c in touched {
      assert c in Elements(order) || c == client;
      assert c in Remove(order, client) || c == client;
    }
  }

  lemma RestrictDropsFirst<T>(all: map<Client, T>, order: seq<Client>)
    requires order != [] && Distinct(order)
    ensures Restrict(all, order) - {order[0]} == Restrict(all, order[1..])
  {
    assert order[0] !in order[1..];
  }

  lemma {:induction false} TouchIsDistinct(order: seq<Client>, client: Client)
    requires Distinct(order)
    ensures Distinct(Touch(order, client)) && Elements(Touch(order, client)) == Elements(order) + {client}
  {
    RemoveIsDistinct(order, client);
    RemoveMembers(order, client);
    var rest := Remove(order, client);
    assert forall c :: c in Touch(order, client) <==> c in rest || c == client;
  }

  lemma {:induction false} RemoveIsDistinct(order: seq<Client>, client: Client)
    requires Distinct(order)
    ensures Distinct(Remove(order, client))
  {
    if order != [] {
      RemoveIsDistinct(order[1..], client);
      assert order[0] !in order[1..];
      RemoveMembers(order[1..], client);
      var rest := Remove(order[1..], client);
      forall i | 0 <= i < |rest| ensures rest[i] != order[0] {
        assert rest[i] in rest;
      }
    }
  }
}
