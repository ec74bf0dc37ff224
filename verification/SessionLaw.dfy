/** When exactly the session handlers say yes (app/v2.py:290-348, 418-458; app/routes.py:105-116,
    170-212), over every run and in the numbers of the protocol. */
module SessionLaw {
  import opened Names
  import opened Numbers
  import opened Sessions
  import RateLimits
  import ReplayTable

  /** How many of the first `n` steps were messages of the session that were answered so. */
  function Times(c: Config, shared: RateLimits.Bucket, events: seq<Event>, n: nat, id: SessionId, answers: set<Outcome>): nat
    requires n <= |events|
  {
    if n == 0 then 0
    else Times(c, shared, events, n - 1, id, answers) + if OutcomeAt(c, shared, events, n - 1, id) in answers then 1 else 0
  }

  const GREETED: set<Outcome> := {Challenged}
  const PROVEN: set<Outcome> := {Ready}
  const ATTEMPTED: set<Outcome> := {MissingFields, ProveFailed, Ready}

  /** The bucket of the proofs after so many attempts were paid. */
  predicate ProofTokens(s: Session, paid: nat) {
    match s.proofs
    case None => paid == 0
    case Some(b) => b.capacity == 3.0 && b.rate == 0.0 && paid <= 3 && b.tokens == 3.0 - paid as real
  }

  /** What the answers so far say about a session. */
  ghost predicate Tally(st: State, id: SessionId, hellos: nat, proofs: nat, paid: nat) {
    && (id !in st.used ==> hellos == 0 && proofs == 0 && paid == 0)
    && (id in st.sessions ==>
         && (Greeted(st.sessions[id]) <==> hellos > 0) && (st.sessions[id].proven <==> proofs > 0)
         && ProofTokens(st.sessions[id], paid))
  }

  function One(yes: bool): nat {
    if yes then 1 else 0
  }

  lemma ProveTally(c: Config, s: Session, signature: Option<Signature>, now: real, paid: nat)
    requires WellFormed(s) && ProofTokens(s, paid)
    ensures var (next, outcome) := HandleProve(c, s, signature, now);
      && outcome != Challenged && (Greeted(next) <==> Greeted(s)) && (next.proven <==> s.proven || outcome == Ready)
      && ProofTokens(next, paid + One(outcome in ATTEMPTED))
  {
  }

  lemma HandleTally(c: Config, st: State, id: SessionId, message: Message, at: Clock, nonce: Challenge, hellos: nat, proofs: nat, paid: nat)
    requires AllWellFormed(st) && Tally(st, id, hellos, proofs, paid) && id in st.sessions
    ensures var (next, outcome) := Handle(c, st, id, message, at, nonce);
      Tally(next, id, hellos + One(outcome in GREETED), proofs + One(outcome in PROVEN), paid + One(outcome in ATTEMPTED))
  {
    var s := st.sessions[id];
    UsedIfPresent(st, id);
    hide AllWellFormed;
    HandleAdvances(c, st, id, message, at, nonce);
    match message
    case Prove(signature) =>
      ProveTally(c, s, signature, at.now, paid);
      hide HandleProve, HandleHello, HandleHelloV1, HandleSignal, ProofTokens, WellFormed;
    case Relay(signal, proof) =>
      RelayTally(c, st, id, signal, proof, at);
      hide HandleProve, HandleHello, HandleHelloV1, HandleSignal, ProofTokens, WellFormed;
    case _ =>
      hide HandleProve, HandleSignal, ProofTokens;
  }

  lemma RelayTally(c: Config, st: State, id: SessionId, signal: Signal, proof: Signature, at: Clock)
    requires id in st.sessions
    ensures var (next, outcome) := HandleSignal(c, st, id, signal, proof, at);
      && outcome !in GREETED && outcome !in PROVEN && outcome !in ATTEMPTED && next.used == st.used
      && id in next.sessions && next.sessions[id].challenge == st.sessions[id].challenge
      && next.sessions[id].proven == st.sessions[id].proven && next.sessions[id].proofs == st.sessions[id].proofs
  {
    hide TakeToken, SenderMatches, InSignalWindow, ReplayTable.CheckAndMark, ReplayKey;
  }

  lemma TallyStep(c: Config, st: State, e: Event, id: SessionId, hellos: nat, proofs: nat, paid: nat)
    requires AllWellFormed(st) && Tally(st, id, hellos, proofs, paid)
    ensures var outcome := if e.Receive? && e.id == id then Handle(c, st, id, e.message, e.at, e.nonce).1 else Unknown;
      Tally(Step(c, st, e), id, hellos + One(outcome in GREETED), proofs + One(outcome in PROVEN), paid + One(outcome in ATTEMPTED))
  {
    if e.Receive? {
      HandleIsStep(c, st, e);
      HandleAdvances(c, st, e.id, e.message, e.at, e.nonce) by { hide *; PresentIsWellFormed(st, e.id); }
      if e.id == id {
        if id in st.sessions {
          HandleTally(c, st, id, e.message, e.at, e.nonce, hellos, proofs, paid);
        }
        hide HandleProve, HandleSignal, HandleHello, HandleHelloV1, AllWellFormed, Tally, Step;
        assert id !in st.sessions ==> Handle(c, st, id, e.message, e.at, e.nonce) == (st, Unknown);
      } else {
        hide Handle, AllWellFormed, WellFormed, ProofTokens, Step;
      }
    } else {
      OtherTally(c, st, e, id, hellos, proofs, paid);
      hide Handle, Step, Tally;
    }
  }

  lemma PresentIsWellFormed(st: State, id: SessionId)
    requires AllWellFormed(st)
    ensures id in st.sessions ==> WellFormed(st.sessions[id])
  {
  }

  lemma OtherTally(c: Config, st: State, e: Event, id: SessionId, hellos: nat, proofs: nat, paid: nat)
    requires AllWellFormed(st) && Tally(st, id, hellos, proofs, paid) && !e.Receive?
    ensures Tally(Step(c, st, e), id, hellos, proofs, paid)
  {
    hide Handle, ReplayTable.CheckAndMark, ReplayTable.Pruned, WellFormed;
  }

  lemma {:induction false} RunTally(c: Config, shared: RateLimits.Bucket, events: seq<Event>, n: nat, id: SessionId)
    requires n <= |events|
    ensures Tally(After(c, shared, events, n), id, Times(c, shared, events, n, id, GREETED),
                  Times(c, shared, events, n, id, PROVEN), Times(c, shared, events, n, id, ATTEMPTED))
  {
    if n > 0 {
      hide Step, Handle, AllWellFormed, Tally, GREETED, PROVEN, ATTEMPTED;
      RunTally(c, shared, events, n - 1, id);
      RunIsWellFormed(c, shared, events, n - 1);
      TallyStep(c, After(c, shared, events, n - 1), events[n - 1], id, Times(c, shared, events, n - 1, id, GREETED),
                Times(c, shared, events, n - 1, id, PROVEN), Times(c, shared, events, n - 1, id, ATTEMPTED));
    }
  }

  // ---- HELLO and PROVE -----------------------------------------------------------------

  /** A HELLO is answered with a challenge if and only if it is the first one of its session that is,
      and, on the v2 endpoint, both keys are points and the grant admits the identity key. Then the
      session holds exactly that challenge and that key, unproven. */
  lemma HelloIsChallengedIff(c: Config, shared: RateLimits.Bucket, events: seq<Event>, i: nat, id: SessionId)
    requires i < |events| && events[i].Receive? && events[i].id == id && id in After(c, shared, events, i).sessions
    requires var m, endpoint := events[i].message, After(c, shared, events, i).sessions[id].endpoint;
      (m.Hello? && endpoint == V2) || (m.HelloV1? && endpoint == V1)
    ensures var m, at := events[i].message, events[i].at;
      OutcomeAt(c, shared, events, i, id) == Challenged
      <==> Times(c, shared, events, i, id, {Challenged}) == 0
           && (m.Hello? ==> c.isPoint(m.identity) && c.isPoint(m.encryption) && c.admits(m.grant, m.identity, at.wall))
    ensures id in After(c, shared, events, i + 1).sessions
    ensures OutcomeAt(c, shared, events, i, id) == Challenged ==>
      var m, s := events[i].message, After(c, shared, events, i + 1).sessions[id];
      && s.challenge == Some(events[i].nonce) && !s.proven
      && s.key == (if m.Hello? then Some(m.identity) else m.publicKey) && (m.Hello? ==> s.identity == Some(m.identity))
  {
    RunTally(c, shared, events, i, id);
    AfterStep(c, shared, events, i);
    HandleIsStep(c, After(c, shared, events, i), events[i]);
    hide Step, After, HandleProve, HandleSignal, ProofTokens, Times;
  }

  lemma AfterStep(c: Config, shared: RateLimits.Bucket, events: seq<Event>, n: nat)
    requires n < |events|
    ensures After(c, shared, events, n + 1) == Step(c, After(c, shared, events, n), events[n])
  {
    hide Step;
  }

  /** The key that a HELLO names. */
  function NamedKey(m: Message): Option<PublicKey> {
    match m
    case Hello(identity, _, _) => Some(identity)
    case HelloV1(publicKey) => publicKey
    case _ => None
  }

  /** Step `k` was the challenged HELLO of the session, and the signature verifies under the key it
      named, against the challenge it was given. */
  ghost predicate Answers(c: Config, shared: RateLimits.Bucket, events: seq<Event>, k: nat, i: nat, id: SessionId, signature: Signature)
    requires i <= |events|
  {
    && k < i && GreetedAt(c, shared, events, k, id)
    && NamedKey(events[k].message).Some?
    && c.verifies(NamedKey(events[k].message).value, Nonce(events[k].nonce), signature)
  }

  lemma GreetedKey(c: Config, shared: RateLimits.Bucket, events: seq<Event>, k: nat, id: SessionId)
    requires k < |events| && GreetedAt(c, shared, events, k, id)
    ensures id in After(c, shared, events, k + 1).sessions
    ensures After(c, shared, events, k + 1).sessions[id].key == NamedKey(events[k].message)
  {
    HelloFacts(c, shared, events, k, id);
    RunIsWellFormed(c, shared, events, k);
    AnsweredAt(c, shared, events, k, id);
    var st, e := After(c, shared, events, k), events[k];
    AfterStep(c, shared, events, k);
    HandleIsStep(c, st, e);
    hide AllWellFormed, Handle, GreetedAt, Step, After;
    KnownIfAnswered(c, st, e);
    UsedIfPresent(st, id);
    AcceptedHello(c, st, id, e.message, e.at, e.nonce);
    HandleAdvances(c, st, id, e.message, e.at, e.nonce);
  }

  lemma ProveIsReadyIff(c: Config, s: Session, signature: Signature, now: real, paid: nat)
    requires WellFormed(s) && ProofTokens(s, paid)
    ensures HandleProve(c, s, Some(signature), now).1 == Ready
      <==> !s.proven && s.challenge.Some? && paid < 3 && s.key.Some? && c.verifies(s.key.value, Nonce(s.challenge.value), signature)
  {
  }

  /** A proof is accepted if and only if the session is not proven yet, fewer than three attempts
      were spent on it, and the signature verifies under the key of its challenged HELLO, against
      the challenge of that HELLO. */
  lemma ProofIsAcceptedIff(c: Config, shared: RateLimits.Bucket, events: seq<Event>, i: nat, id: SessionId, signature: Signature)
    requires i < |events| && events[i].Receive? && events[i].id == id && events[i].message == Prove(Some(signature))
    requires id in After(c, shared, events, i).sessions
    ensures OutcomeAt(c, shared, events, i, id) == Ready
      <==> Times(c, shared, events, i, id, {Ready}) == 0
           && Times(c, shared, events, i, id, {MissingFields, ProveFailed, Ready}) < 3
           && exists k :: Answers(c, shared, events, k, i, id, signature)
    ensures id in After(c, shared, events, i + 1).sessions
    ensures OutcomeAt(c, shared, events, i, id) == Ready ==> After(c, shared, events, i + 1).sessions[id].proven
  {
    var st, e := After(c, shared, events, i), events[i];
    var s := st.sessions[id];
    RunIsWellFormed(c, shared, events, i);
    UsedIfPresent(st, id);
    RunTally(c, shared, events, i, id);
    ProveIsReadyIff(c, s, signature, e.at.now, Times(c, shared, events, i, id, ATTEMPTED));
    ReadyIsProven(c, shared, events, i, id, signature);
    hide After, Step, AllWellFormed, Times, HandleProve, GreetedAt, ProofTokens;
    if s.challenge.Some? {
      var k := KeysComeFromHello(c, shared, events, i, id);
      GreetedKey(c, shared, events, k, id);
      ChallengeIsTheHellos(c, shared, events, k, i, id);
      assert s.key.Some? && c.verifies(s.key.value, Nonce(s.challenge.value), signature) ==> Answers(c, shared, events, k, i, id, signature);
      if l :| Answers(c, shared, events, l, i, id, signature) {
        OneHelloPerSession(c, shared, events, k, l, id);
      }
    } else if !s.proven {
      if l :| Answers(c, shared, events, l, i, id, signature) {
        StaysGreeted(c, shared, events, l, i, id);
        assert false;
      }
    }
  }

  lemma ReadyIsProven(c: Config, shared: RateLimits.Bucket, events: seq<Event>, i: nat, id: SessionId, signature: Signature)
    requires i < |events| && events[i].Receive? && events[i].id == id && events[i].message == Prove(Some(signature))
    requires id in After(c, shared, events, i).sessions
    ensures var st, e := After(c, shared, events, i), events[i];
      && OutcomeAt(c, shared, events, i, id) == HandleProve(c, st.sessions[id], Some(signature), e.at.now).1
      && id in After(c, shared, events, i + 1).sessions
      && (OutcomeAt(c, shared, events, i, id) == Ready ==> After(c, shared, events, i + 1).sessions[id].proven)
  {
    AfterStep(c, shared, events, i);
    HandleIsStep(c, After(c, shared, events, i), events[i]);
    hide After, Step, TakeToken;
  }

  // ---- SIGNAL --------------------------------------------------------------------------

  /** What a bucket of 40 tokens at 20 a second that is made at its first use holds at `now`. */
  function SignalTokens(s: Session, now: real): real {
    match s.signals
    case None => 40.0
    case Some(b) => MinReal(40.0, b.tokens + 20.0 * MaxReal(0.0, now - b.lastRefill))
  }

  function SharedTokens(b: RateLimits.Bucket, now: real): real {
    MinReal(b.capacity, b.tokens + b.rate * MaxReal(0.0, now - b.lastRefill))
  }

  /** The signal bucket of a session has the numbers of SIGNAL_V2. */
  predicate SignalBucket(s: Session) {
    s.signals.Some? ==> s.signals.value.capacity == 40.0 && s.signals.value.rate == 20.0
  }

  ghost predicate SignalBuckets(st: State) {
    forall id :: id in st.sessions ==> SignalBucket(st.sessions[id])
  }

  lemma SignalBucketsStep(c: Config, st: State, e: Event)
    requires SignalBuckets(st)
    ensures SignalBuckets(Step(c, st, e))
  {
    if e.Receive? {
      HandleIsStep(c, st, e);
      if e.id in st.sessions {
        var s := st.sessions[e.id];
        match e.message
        case Relay(signal, proof) =>
          HandleKeepsBuckets(c, st, e.id, signal, proof, e.at);
          hide HandleProve, HandleHello, HandleHelloV1, HandleSignal, Step, SignalBucket;
        case Prove(signature) =>
          ProveKeepsSignals(c, s, signature, e.at.now);
          hide HandleProve, HandleHello, HandleHelloV1, HandleSignal, Step;
        case _ =>
          hide HandleProve, HandleSignal, Step;
      }
    } else {
      hide Handle, ReplayTable.CheckAndMark, ReplayTable.Pruned;
    }
  }

  lemma ProveKeepsSignals(c: Config, s: Session, signature: Option<Signature>, now: real)
    ensures HandleProve(c, s, signature, now).0.signals == s.signals
  {
    hide TakeToken;
  }

  lemma HandleKeepsBuckets(c: Config, st: State, id: SessionId, signal: Signal, proof: Signature, at: Clock)
    requires id in st.sessions && SignalBuckets(st)
    ensures SignalBuckets(HandleSignal(c, st, id, signal, proof, at).0)
  {
    hide SenderMatches, InSignalWindow, ReplayTable.CheckAndMark, ReplayKey;
  }

  lemma {:induction false} RunKeepsBuckets(c: Config, shared: RateLimits.Bucket, events: seq<Event>, n: nat)
    requires n <= |events|
    ensures SignalBuckets(After(c, shared, events, n))
  {
    hide Step, SignalBuckets;
    if n == 0 {
      NoBuckets(shared);
    } else {
      RunKeepsBuckets(c, shared, events, n - 1);
      SignalBucketsStep(c, After(c, shared, events, n - 1), events[n - 1]);
    }
  }

  lemma NoBuckets(shared: RateLimits.Bucket)
    ensures SignalBuckets(Start(shared))
  {
  }

  /** The signal is bound to the session it comes from and to the present. */
  predicate Bound(c: Config, s: Session, id: SessionId, signal: Signal, wall: real) {
    && signal.route in s.routes
    && signal.sender == id && s.identity == Some(signal.senderKey) && signal.senderKeyId == c.keyId(signal.senderKey)
    && wall.Floor - 5 <= signal.expiresAt <= wall.Floor + 300
  }

  /** A signal is accepted if and only if it comes from a proven v2 session that is attached to its
      route; it names the session and the key of its HELLO, with that key's id; it expires no more
      than 5 seconds ago and no more than 300 from now; the session has a token left of 40 that
      refill at 20 a second, and so has the global limiter; its signature verifies under the key of
      the HELLO; its number is greater than every one accepted before; and the replay table has or
      can make room. */
  lemma SignalIsAcceptedIff(c: Config, shared: RateLimits.Bucket, events: seq<Event>, i: nat, id: SessionId)
    requires i < |events| && events[i].Receive? && events[i].id == id && events[i].message.Relay?
    ensures var st, m, at := After(c, shared, events, i), events[i].message, events[i].at;
      SignalAccepted(c, shared, events, i, id)
      <==> id in st.sessions && var s := st.sessions[id];
           && s.endpoint == V2 && s.proven && Bound(c, s, id, m.signal, at.wall)
           && SignalTokens(s, at.now) >= 1.0 && SharedTokens(st.shared, at.now) >= 1.0
           && s.identity.Some? && c.verifies(s.identity.value, Fields(m.signal), m.proof)
           && s.lastSequence < m.signal.sequence
           && (|st.seen| < c.maxDedupe || |ReplayTable.Pruned(st.seen, at.now)| < c.maxDedupe)
  {
    var st, e := After(c, shared, events, i), events[i];
    RunKeepsBuckets(c, shared, events, i);
    RunIsWellFormed(c, shared, events, i);
    if id in st.sessions {
      var s := st.sessions[id];
      UsedIfPresent(st, id);
      TokensAre(s, st.shared, e.at.now);
      hide AllWellFormed, After, TakeToken, SignalTokens, SharedTokens, ReplayKey, ReplayTable.Pruned, ReplayTable.CheckAndMark, Step;
      if Verified(c, st, id, e.message.signal, e.message.proof, e.at) {
        VerifiedSignalIsAcceptedIff(c, shared, events, i);
        hide Handle;
      } else {
        OnlyVerified(c, st, id, e.message, e.at, e.nonce);
        hide HandleSignal;
      }
    } else {
      hide AllWellFormed, After;
    }
  }

  lemma OnlyVerified(c: Config, st: State, id: SessionId, message: Message, at: Clock, nonce: Challenge)
    requires id in st.sessions && message.Relay? && !Verified(c, st, id, message.signal, message.proof, at)
    ensures Handle(c, st, id, message, at, nonce).1 != Accepted
  {
    hide TakeToken, SenderMatches, InSignalWindow, ReplayTable.CheckAndMark, ReplayKey;
  }

  lemma TokensAre(s: Session, shared: RateLimits.Bucket, now: real)
    requires SignalBucket(s)
    ensures TakeToken(s.signals, SIGNAL_BURST, SIGNAL_RATE, now).1 <==> SignalTokens(s, now) >= 1.0
    ensures TakeToken(Some(shared), 0.0, 0.0, now).1 <==> SharedTokens(shared, now) >= 1.0
  {
  }

  /** The bucket with one token less if it holds one. */
  function Charged(capacity: real, rate: real, tokens: real, now: real): RateLimits.Bucket {
    RateLimits.Bucket(capacity, if tokens >= 1.0 then tokens - 1.0 else tokens, rate, now)
  }

  /** What a signal of a proven v2 session costs. One that is not bound to its session and the
      present costs nothing and changes nothing. Any other pays from the session's bucket and, if it
      could, from the global one, before its signature is looked at; only an accepted one moves the
      last sequence number. */
  lemma SignalCharges(c: Config, shared: RateLimits.Bucket, events: seq<Event>, i: nat, id: SessionId)
    requires i < |events| && events[i].Receive? && events[i].id == id && events[i].message.Relay?
    requires var sessions := After(c, shared, events, i).sessions; id in sessions && sessions[id].endpoint == V2 && sessions[id].proven
    ensures var st, next, m, at := After(c, shared, events, i), After(c, shared, events, i + 1), events[i].message, events[i].at;
      var s, tokens := st.sessions[id], SignalTokens(st.sessions[id], at.now);
      if !Bound(c, s, id, m.signal, at.wall) then next == st
      else
        && next.used == st.used && next.sessions == st.sessions[id := s.(
             signals := Some(Charged(40.0, 20.0, tokens, at.now)),
             lastSequence := if OutcomeAt(c, shared, events, i, id) == Accepted then m.signal.sequence else s.lastSequence)]
        && next.shared == if tokens >= 1.0 then Charged(st.shared.capacity, st.shared.rate, SharedTokens(st.shared, at.now), at.now)
                          else st.shared
  {
    RunKeepsBuckets(c, shared, events, i);
    AfterStep(c, shared, events, i);
    HandleIsStep(c, After(c, shared, events, i), events[i]);
    var st, e := After(c, shared, events, i), events[i];
    ChargesAre(c, st.sessions[id], e.at.now);
    SharedChargesAre(st.shared, e.at.now);
    hide After, Step, TakeToken, SignalTokens, SharedTokens, Charged, ReplayTable.CheckAndMark, ReplayKey, SignalBucket;
    HandledSignal(c, st, id, e.message.signal, e.message.proof, e.at);
    hide HandleSignal, Bound;
  }

  lemma HandledSignal(c: Config, st: State, id: SessionId, signal: Signal, proof: Signature, at: Clock)
    requires id in st.sessions
    ensures var (next, outcome) := HandleSignal(c, st, id, signal, proof, at);
      var s := st.sessions[id];
      var (bucket, ok) := TakeToken(s.signals, SIGNAL_BURST, SIGNAL_RATE, at.now);
      if !Bound(c, s, id, signal, at.wall) then next == st
      else
        && next.used == st.used && next.sessions == st.sessions[id := s.(
             signals := Some(bucket), lastSequence := if outcome == Accepted then signal.sequence else s.lastSequence)]
        && next.shared == if ok then TakeToken(Some(st.shared), 0.0, 0.0, at.now).0 else st.shared
  {
    hide TakeToken, ReplayTable.CheckAndMark, ReplayKey;
  }

  lemma ChargesAre(c: Config, s: Session, now: real)
    requires SignalBucket(s)
    ensures var (bucket, ok) := TakeToken(s.signals, SIGNAL_BURST, SIGNAL_RATE, now);
      bucket == Charged(40.0, 20.0, SignalTokens(s, now), now) && (ok <==> SignalTokens(s, now) >= 1.0)
  {
  }

  lemma SharedChargesAre(shared: RateLimits.Bucket, now: real)
    ensures TakeToken(Some(shared), 0.0, 0.0, now).0 == Charged(shared.capacity, shared.rate, SharedTokens(shared, now), now)
  {
  }
}
