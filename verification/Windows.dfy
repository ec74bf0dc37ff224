/** The sliding-window law of a token bucket (app/rate_limits.py:13-35), written out for the buckets
    that registries and limiters keep. */
module Windows {
  import opened RateLimits

  /** At its last attempt, every window has room for it: what was spent in a window that opened with
      the bucket or at an attempt, and the cost of this one, stay within burst + rate * length. */
  ghost predicate EveryWindowFits(burst: real, rate: real, created: real, attempts: seq<Attempt>)
    requires attempts != []
  {
    forall w :: -1 <= w < |attempts| ==> WindowFits(burst, rate, created, attempts, w)
  }

  /** The window opened with the bucket for -1, otherwise at attempt `w`. */
  predicate WindowFits(burst: real, rate: real, created: real, attempts: seq<Attempt>, w: int)
    requires -1 <= w < |attempts| && attempts != []
  {
    var n, from, opens := |attempts| - 1, if w < 0 then 0 else w, if w < 0 then created else attempts[w].time;
    Spent(Bucket(burst, burst, rate, created), attempts, from, n) + attempts[n].cost <= burst + rate * (attempts[n].time - opens)
  }

  lemma GainOver(rate: real, from: real, to: real)
    requires from <= to
    ensures Gain(rate, from, to) == rate * (to - from)
  {
  }

  lemma WindowIs(burst: real, rate: real, created: real, attempts: seq<Attempt>, w: int)
    requires -1 <= w < |attempts| && attempts != [] && Ordered(created, attempts)
    ensures Fits(Bucket(burst, burst, rate, created), attempts, w, |attempts| - 1)
      <==> WindowFits(burst, rate, created, attempts, w)
  {
    var n := |attempts| - 1;
    assert created <= attempts[n].time && (w >= 0 && w < n ==> attempts[w].time <= attempts[n].time);
    var opens := Opens(created, attempts, w);
    GainOver(rate, opens, attempts[n].time);
    hide Spent, Gain, Ordered;
  }

  lemma OrderedFromFirst(attempts: seq<Attempt>)
    requires attempts != [] && forall i, j :: 0 <= i < j < |attempts| ==> attempts[i].time <= attempts[j].time
    ensures Ordered(attempts[0].time, attempts)
    ensures forall i :: 0 <= i < |attempts| ==> attempts[i].time <= attempts[|attempts| - 1].time
  {
  }

  lemma LastIs(b: Bucket, attempts: seq<Attempt>, a: Attempt)
    ensures var all, n := attempts + [a], |attempts|;
      all[n] == a && |all| == n + 1 && Run(b, all, n) == Run(b, attempts, n) && (Accepted(b, all, n) <==> CanPay(Run(b, attempts, n), a))
  {
    RunIgnoresLater(b, attempts, a, |attempts|);
    hide CanPay, Run;
  }

  /** A bucket that was made full at `created` and went through `attempts` pays for one more attempt
      if and only if every window fits. */
  lemma PaysIffWindowsFit(burst: real, rate: real, created: real, attempts: seq<Attempt>, a: Attempt)
    requires Ordered(created, attempts + [a])
    ensures CanPay(Run(Bucket(burst, burst, rate, created), attempts, |attempts|), a)
      <==> EveryWindowFits(burst, rate, created, attempts + [a])
  {
    hide CanPay, Run, Fits, WindowFits, Accepted, Ordered;
    var all, b, n := attempts + [a], Bucket(burst, burst, rate, created), |attempts|;
    LastIs(b, attempts, a);
    AcceptedIffEveryWindowFits(b, all, n);
    forall w | -1 <= w <= n ensures Fits(b, all, w, n) <==> WindowFits(burst, rate, created, all, w) {
      WindowIs(burst, rate, created, all, w);
    }
  }

  /** The next attempt of a run. */
  lemma OneMoreAttempt(b: Bucket, attempts: seq<Attempt>, a: Attempt)
    ensures Run(b, attempts + [a], |attempts| + 1) == AfterAttempt(Run(b, attempts, |attempts|), a)
    ensures Run(b, [], 0) == b
  {
    RunIgnoresLater(b, attempts, a, |attempts|);
    assert (attempts + [a])[|attempts|] == a;
    hide AfterAttempt;
  }
}
