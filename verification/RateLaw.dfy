/** The rate limits of app/rate_limits.py:38-66 in numbers: when exactly a check of an operation
    passes, whatever else was checked or dropped before. */
module RateLaw {
  import opened RateLimits
  import opened RateRegistry
  import opened Windows

  const NAMED: set<string> :=
    {"MESSAGE", "ATTACH_ROUTE", "SIGNAL", "SIGNAL_V2", "FORWARD", "DISCOVER", "HEARTBEAT", "PROVE"}

  /** The operation may spend `burst` at once and `rate` a second. */
  predicate Allowance(op: string, burst: real, rate: real) {
    && (op == "MESSAGE" ==> burst == 128.0 && rate == 64.0)
    && (op == "SIGNAL" || op == "SIGNAL_V2" ==> burst == 40.0 && rate == 20.0)
    && (op == "FORWARD" ==> burst == 10.0 && rate == 5.0)
    && (op == "DISCOVER" ==> burst == 10.0 && rate == 2.0)
    && (op == "ATTACH_ROUTE" ==> burst == 4.0 && 60.0 * rate == 4.0)
    && (op == "HEARTBEAT" ==> burst == 1.0 && 20.0 * rate == 1.0)
    && (op == "PROVE" ==> burst == 3.0 && rate == 0.0)
    && (op !in NAMED ==> burst == 30.0 && rate == 10.0)
  }

  lemma AllowancesAreDefaults(op: string, burst: real, rate: real)
    requires Allowance(op, burst, rate)
    ensures Defaults(op) == (burst, rate)
  {
  }

  /** The checks of a key since its session was last dropped, and one more. */
  function Checks(calls: seq<Call>, key: Key, now: real): seq<Attempt> {
    Own(calls, key) + [Attempt(now, 1.0)]
  }

  /** A check passes if and only if every window fits that opens at one of the checks of its session
      and operation since the session was last dropped, or at itself. */
  lemma CheckPassesIff(calls: seq<Call>, key: Key, now: real, burst: real, rate: real)
    requires Allowance(key.1, burst, rate)
    requires var checks := Checks(calls, key, now); forall i, j :: 0 <= i < j < |checks| ==> checks[i].time <= checks[j].time
    ensures var checks := Checks(calls, key, now);
      CanPay(BucketFor(Registry(calls), key, now), Attempt(now, 1.0)) <==> EveryWindowFits(burst, rate, checks[0].time, checks)
  {
    var own, a := Own(calls, key), Attempt(now, 1.0);
    var first := (own + [a])[0].time;
    AllowancesAreDefaults(key.1, burst, rate);
    BucketsAreIndependent(calls, key);
    OneMoreAttempt(Bucket(burst, burst, rate, first), own, a);
    assert Checks(calls, key, now) == own + [a];
    OrderedFromFirst(own + [a]);
    hide CanPay, Own, Registry, Run, Defaults, EveryWindowFits, Ordered, AfterAttempt;
    PaysIffWindowsFit(burst, rate, first, own, a);
  }

  /** So whatever else happens, the checks of a session and operation that pass between two instants
      are at most the burst plus the rate times the time in between. */
  lemma PassesAreBounded(calls: seq<Call>, key: Key, now: real, burst: real, rate: real, s: nat)
    requires Allowance(key.1, burst, rate)
    requires var checks := Checks(calls, key, now); forall i, j :: 0 <= i < j < |checks| ==> checks[i].time <= checks[j].time
    requires s < |Checks(calls, key, now)|
    ensures var checks := Checks(calls, key, now);
      Spent(Bucket(burst, burst, rate, checks[0].time), checks, s, |checks|) <= burst + rate * (now - checks[s].time)
  {
    hide *;
    var checks := Checks(calls, key, now);
    AllowancesAreDefaults(key.1, burst, rate);
    RatesAreNotNegative(key.1);
    LastCheck(calls, key, now);
    OrderedFromFirst(checks);
    assert forall i :: s <= i < |checks| ==> checks[s].time <= checks[i].time <= now;
    NoWindowOverAdmits(Bucket(burst, burst, rate, checks[0].time), checks, s, |checks|, checks[s].time, now);
    GainOver(rate, checks[s].time, now);
  }

  lemma LastCheck(calls: seq<Call>, key: Key, now: real)
    ensures var checks := Checks(calls, key, now); checks != [] && checks[|checks| - 1] == Attempt(now, 1.0)
  {
    hide Own;
  }

  lemma RatesAreNotNegative(op: string)
    ensures Defaults(op).0 >= 1.0 && Defaults(op).1 >= 0.0
  {
  }
}
