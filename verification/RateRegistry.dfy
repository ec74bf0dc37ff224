/** One token bucket per (session, operation): app/rate_limits.py:38-71. */
module RateRegistry {
  import opened RateLimits

  type Key = (string, string)

  type BucketTable = map<Key, Bucket>

  /** Burst and refill rate of each operation. */
  function Defaults(op: string): (real, real) {
    if op == "MESSAGE" then (128.0, 64.0)
    else if op == "ATTACH_ROUTE" then (4.0, 4.0 / 60.0)
    else if op == "SIGNAL" then (40.0, 20.0)
    else if op == "SIGNAL_V2" then (40.0, 20.0)
    else if op == "FORWARD" then (10.0, 5.0)
    else if op == "DISCOVER" then (10.0, 2.0)
    else if op == "HEARTBEAT" then (1.0, 1.0 / 20.0)
    else if op == "PROVE" then (3.0, 0.0)
    else (30.0, 10.0)
  }

  datatype Call = Check(key: Key, now: real) | Drop(session: string)

  function BucketFor(buckets: BucketTable, key: Key, now: real): Bucket {
    if key in buckets then buckets[key] else Fresh(Defaults(key.1).0, Defaults(key.1).1, now)
  }

  function AfterCall(buckets: BucketTable, call: Call): BucketTable {
    match call
    case Check(key, now) => buckets[key := AfterAttempt(BucketFor(buckets, key, now), Attempt(now, 1.0))]
    case Drop(session) => map k | k in buckets && k.0 != session :: buckets[k]
  }

  function Registry(calls: seq<Call>): BucketTable {
    if calls == [] then map[]
    else AfterCall(Registry(calls[..|calls| - 1]), calls[|calls| - 1])
  }

  /** The checks of one key since its session was last dropped. */
  function Own(calls: seq<Call>, key: Key): seq<Attempt> {
    if calls == [] then []
    else
      var earlier := Own(calls[..|calls| - 1], key);
      match calls[|calls| - 1]
      case Check(k, now) => if k == key then earlier + [Attempt(now, 1.0)] else earlier
      case Drop(session) => if session == key.0 then [] else earlier
  }

  /** Sessions and operations do not interfere: whatever else is checked or dropped in
      between, the bucket of a key is the one its own checks alone would have produced. */
  lemma {:induction false} BucketsAreIndependent(calls: seq<Call>, key: Key)
    ensures var own := Own(calls, key);
      && (key in Registry(calls) <==> own != [])
      && (own != [] ==>
           Registry(calls)[key] == Run(Fresh(Defaults(key.1).0, Defaults(key.1).1, own[0].time), own, |own|))
  {
    if calls != [] {
      var earlier := calls[..|calls| - 1];
      BucketsAreIndependent(earlier, key);
      match calls[|calls| - 1]
      case Check(k, now) =>
        if k == key {
          var own, more := Own(earlier, key), Own(calls, key);
          assert more == own + [Attempt(now, 1.0)];
          var start := Fresh(Defaults(key.1).0, Defaults(key.1).1, more[0].time);
          RunIgnoresLater(start, own, Attempt(now, 1.0), |own|);
          assert more[|own|] == Attempt(now, 1.0);
          assert Run(start, more, |more|) == AfterAttempt(Run(start, more, |own|), more[|own|]);
        }
      case Drop(_) =>
    }
  }

  class RateLimiterRegistry {
    var buckets: map<Key, TokenBucket>
    ghost var repr: set<TokenBucket>

    ghost predicate Valid()
      reads this, repr
    {
      && (forall k :: k in buckets ==> buckets[k] in repr)
      && (forall k, l :: k in buckets && l in buckets && buckets[k] == buckets[l] ==> k == l)
    }

    ghost function Buckets(): BucketTable
      requires Valid()
      reads this, repr
    {
      map k | k in buckets :: buckets[k].State()
    }

    constructor ()
      ensures Valid() && Buckets() == map[] && repr == {}
    {
      buckets := map[];
      repr := {};
    }

    method Check(session: string, op: string, now: real) returns (ok: bool)
      requires Valid()
      modifies this, repr
      ensures Valid() && fresh(repr - old(repr))
      ensures Buckets() == AfterCall(old(Buckets()), Call.Check((session, op), now))
      ensures ok == CanPay(BucketFor(old(Buckets()), (session, op), now), Attempt(now, 1.0))
    {
      var key := (session, op);
      if key !in buckets {
        var bucket := new TokenBucket(Defaults(op).0, Defaults(op).1, now);
        buckets := buckets[key := bucket];
        repr := repr + {bucket};
      }
      ok := buckets[key].TryConsume(now, 1.0);
    }

    method DropSession(session: string)
      requires Valid()
      modifies this
      ensures Valid() && repr == old(repr)
      ensures Buckets() == AfterCall(old(Buckets()), Drop(session))
    {
      buckets := Without(buckets, session);
    }
  }

  /** The keys of one session are collected first and then deleted one by one. */
  method Without<T>(table: map<Key, T>, session: string) returns (rest: map<Key, T>)
    ensures rest == map k | k in table && k.0 != session :: table[k]
  {
    var doomed := set k | k in table && k.0 == session;
    rest := table;
    while doomed != {}
      invariant doomed <= rest.Keys <= table.Keys
      invariant forall k :: k in doomed ==> k.0 == session
      invariant forall k :: k in table && k !in rest ==> k.0 == session
      invariant forall k :: k in rest ==> rest[k] == table[k] && (k.0 == session ==> k in doomed)
      decreases |doomed|
    {
      var k :| k in doomed;
      rest := rest - {k};
      doomed := doomed - {k};
    }
  }
}
