/** The session protocol of both websocket endpoints: the HELLO/PROVE handshake and the v2
    signal checks (app/v2.py:290-348, 418-458; app/routes.py:105-116, 170-212). Signatures,
    grants and curve points are judged by abstract predicates; every message is one event,
    because the handlers do not await between their guards and their updates. */
module Sessions {
  import opened Names
  import Decimal
  import RateLimits
  import ReplayTable

  datatype PublicKey = PublicKey(hex: string)

  datatype Challenge = Challenge(hex: string)

  datatype Grant = Grant(text: string)

  datatype Signature = Signature(hex: string)

  datatype Endpoint = V1 | V2

  /** A SIGNAL payload without its signature. */
  datatype Signal = Signal(
    route: RouteId,
    sender: SessionId,
    target: SessionId,
    senderKey: PublicKey,
    senderKeyId: Key,
    messageId: Key,
    sequence: nat,
    expiresAt: int,
    content: Key)

  /** What a signature is checked against. */
  datatype Signed = Nonce(challenge: Challenge) | Fields(signal: Signal)

  datatype Config = Config(
    dedupeWindow: real,
    maxDedupe: nat,
    isPoint: PublicKey -> bool,
    admits: (Grant, PublicKey, real) -> bool,
    verifies: (PublicKey, Signed, Signature) -> bool,
    keyId: PublicKey -> Key)

  /** `proofs` and `signals` are the session's own buckets in the rate limiter registry. */
  datatype Session = Session(
    endpoint: Endpoint,
    proven: bool,
    challenge: Option<Challenge>,
    key: Option<PublicKey>,
    identity: Option<PublicKey>,
    lastSequence: int,
    routes: set<RouteId>,
    proofs: Option<RateLimits.Bucket>,
    signals: Option<RateLimits.Bucket>)

  datatype Message =
    | Hello(identity: PublicKey, encryption: PublicKey, grant: Grant)
    | HelloV1(publicKey: Option<PublicKey>)
    | Prove(signature: Option<Signature>)
    | Relay(signal: Signal, proof: Signature)

  datatype Outcome =
    | Unknown | NotProven | InvalidState | BadKey | BadGrant | Challenged
    | RateLimited | MissingFields | ProveFailed | Ready
    | NotAttached | SenderMismatch | ExpiredSignal | Capacity | BadSignature | Replayed | Accepted

  /** Readings of both clocks: `now` is monotonic, `wall` in seconds since the epoch. */
  datatype Clock = Clock(now: real, wall: real)

  /** `used` are all session ids ever given out; `shared` is the global signal limiter. */
  datatype State = State(sessions: map<SessionId, Session>, used: set<SessionId>, seen: ReplayTable.Table, shared: RateLimits.Bucket)

  datatype Event =
    | Open(id: SessionId, endpoint: Endpoint)
    | Close(id: SessionId)
    | RoutesChange(id: SessionId, routes: set<RouteId>)
    | Receive(id: SessionId, message: Message, at: Clock, nonce: Challenge)
    | OtherCheck(key: Key, ttl: real, now: real)
    | PruneSeen(now: real)

  // ---------------------------------------------------------------------------
  // Handlers.

  const PROOF_BURST: real := 3.0
  const SIGNAL_BURST: real := 40.0
  const SIGNAL_RATE: real := 20.0

  /** One check of a bucket that is created at its first use. */
  function TakeToken(bucket: Option<RateLimits.Bucket>, capacity: real, rate: real, now: real): (RateLimits.Bucket, bool) {
    var b := if bucket.Some? then bucket.value else RateLimits.Fresh(capacity, rate, now);
    (RateLimits.AfterAttempt(b, RateLimits.Attempt(now, 1.0)), RateLimits.CanPay(b, RateLimits.Attempt(now, 1.0)))
  }

  function ReplayKey(id: SessionId, messageId: Key, sequence: nat): Key {
    Key("v2:" + id.hex + ":" + messageId.text + ":" + Decimal.Digits(sequence))
  }

  /** HELLO is only valid once per session. */
  predicate HelloAllowed(s: Session) {
    s.challenge == None && !s.proven
  }

  function HandleHello(c: Config, s: Session, identity: PublicKey, encryption: PublicKey, grant: Grant, wall: real, nonce: Challenge)
    : (Session, Outcome)
  {
    if !HelloAllowed(s) then (s, InvalidState)
    else if !c.isPoint(identity) || !c.isPoint(encryption) then (s, BadKey)
    else if !c.admits(grant, identity, wall) then (s, BadGrant)
    else (s.(challenge := Some(nonce), key := Some(identity), proven := false, identity := Some(identity)), Challenged)
  }

  function HandleHelloV1(s: Session, publicKey: Option<PublicKey>, nonce: Challenge): (Session, Outcome) {
    if !HelloAllowed(s) then (s, InvalidState)
    else (s.(challenge := Some(nonce), key := publicKey, proven := false), Challenged)
  }

  function HandleProve(c: Config, s: Session, signature: Option<Signature>, now: real): (Session, Outcome) {
    if s.proven || s.challenge == None then (s, InvalidState)
    else
      var (bucket, ok) := TakeToken(s.proofs, PROOF_BURST, 0.0, now);
      var s := s.(proofs := Some(bucket));
      if !ok then (s, RateLimited)
      else if s.key == None || signature == None then (s, MissingFields)
      else if !c.verifies(s.key.value, Nonce(s.challenge.value), signature.value) then (s, ProveFailed)
      else (s.(proven := true, challenge := None), Ready)
  }

  predicate SenderMatches(c: Config, s: Session, id: SessionId, signal: Signal) {
    && signal.sender == id
    && s.identity == Some(signal.senderKey)
    && signal.senderKeyId == c.keyId(signal.senderKey)
  }

  predicate InSignalWindow(signal: Signal, wall: real) {
    wall.Floor - 5 <= signal.expiresAt <= wall.Floor + 300
  }

  function HandleSignal(c: Config, st: State, id: SessionId, signal: Signal, proof: Signature, at: Clock): (State, Outcome)
    requires id in st.sessions
  {
    var s := st.sessions[id];
    if signal.route !in s.routes then (st, NotAttached)
    else if !SenderMatches(c, s, id, signal) then (st, SenderMismatch)
    else if !InSignalWindow(signal, at.wall) then (st, ExpiredSignal)
    else
      var (bucket, ok) := TakeToken(s.signals, SIGNAL_BURST, SIGNAL_RATE, at.now);
      var s := s.(signals := Some(bucket));
      var st := st.(sessions := st.sessions[id := s]);
      if !ok then (st, RateLimited)
      else
        var (shared, ok) := TakeToken(Some(st.shared), 0.0, 0.0, at.now);
        var st := st.(shared := shared);
        if !ok then (st, Capacity)
        else if s.key == None || !c.verifies(s.key.value, Fields(signal), proof) then (st, BadSignature)
        else if signal.sequence <= s.lastSequence then (st, Replayed)
        else
          var (seen, ok) := ReplayTable.CheckAndMark(
            st.seen, c.maxDedupe, ReplayKey(id, signal.messageId, signal.sequence), c.dedupeWindow, at.now);
          if !ok then (st.(seen := seen), Replayed)
          else (st.(seen := seen, sessions := st.sessions[id := s.(lastSequence := signal.sequence)]), Accepted)
  }

  /** One message on one session; the v1 endpoint knows no v2 messages and conversely. */
  function Handle(c: Config, st: State, id: SessionId, message: Message, at: Clock, nonce: Challenge): (State, Outcome) {
    if id !in st.sessions then (st, Unknown)
    else
      var s := st.sessions[id];
      match message
      case Hello(identity, encryption, grant) =>
        if s.endpoint != V2 then (st, Unknown)
        else
          var (next, outcome) := HandleHello(c, s, identity, encryption, grant, at.wall, nonce);
          (st.(sessions := st.sessions[id := next]), outcome)
      case HelloV1(publicKey) =>
        if s.endpoint != V1 then (st, Unknown)
        else
          var (next, outcome) := HandleHelloV1(s, publicKey, nonce);
          (st.(sessions := st.sessions[id := next]), outcome)
      case Prove(signature) =>
        var (next, outcome) := HandleProve(c, s, signature, at.now);
        (st.(sessions := st.sessions[id := next]), outcome)
      case Relay(signal, proof) =>
        if s.endpoint != V2 then (st, Unknown)
        else if !s.proven then (st, NotProven)
        else HandleSignal(c, st, id, signal, proof, at)
  }

  const NO_SEQUENCE := -1

  function NewSession(endpoint: Endpoint): Session {
    Session(endpoint, false, None, None, None, NO_SEQUENCE, {}, None, None)
  }

  /** Keys of other users of the replay table: hashes and mesh messages. */
  predicate Foreign(key: Key) {
    !("v2:" <= key.text)
  }

  /** One event; a session id is a fresh uuid without a colon. */
  function Step(c: Config, st: State, e: Event): State {
    match e
    case Open(id, endpoint) =>
      if id in st.used || ':' in id.hex then st
      else st.(sessions := st.sessions[id := NewSession(endpoint)], used := st.used + {id})
    case Close(id) => st.(sessions := st.sessions - {id})
    case RoutesChange(id, routes) =>
      if id in st.sessions then st.(sessions := st.sessions[id := st.sessions[id].(routes := routes)]) else st
    case Receive(id, message, at, nonce) => Handle(c, st, id, message, at, nonce).0
    case OtherCheck(key, ttl, now) =>
      if Foreign(key) then st.(seen := ReplayTable.CheckAndMark(st.seen, c.maxDedupe, key, ttl, now).0) else st
    case PruneSeen(now) => st.(seen := ReplayTable.Pruned(st.seen, now))
  }

  function Start(shared: RateLimits.Bucket): State {
    State(map[], {}, map[], shared)
  }

  function After(c: Config, shared: RateLimits.Bucket, events: seq<Event>, n: nat): State
    requires n <= |events|
  {
    if n == 0 then Start(shared) else Step(c, After(c, shared, events, n - 1), events[n - 1])
  }

  /** How step `i` was answered, if it was a message of session `id`. */
  function OutcomeAt(c: Config, shared: RateLimits.Bucket, events: seq<Event>, i: nat, id: SessionId): Outcome
    requires i < |events|
  {
    var e := events[i];
    if e.Receive? && e.id == id then Handle(c, After(c, shared, events, i), id, e.message, e.at, e.nonce).1 else Unknown
  }

  // ---------------------------------------------------------------------------
  // What one step does to one session.

  /** A challenge was issued, whether it was answered yet or not. */
  predicate Greeted(s: Session) {
    s.challenge.Some? || s.proven
  }

  /** Progress never goes back: a greeted session keeps its keys, its challenge stands until it
      is answered, a proven one stays proven, and the last sequence number does not drop. */
  predicate Advances(a: Session, b: Session) {
    && a.endpoint == b.endpoint
    && (Greeted(a) ==> Greeted(b) && a.key == b.key && a.identity == b.identity)
    && (a.challenge.Some? && !b.proven ==> b.challenge == a.challenge)
    && (a.proven ==> b.proven)
    && a.lastSequence <= b.lastSequence
  }

  /** The handshake is in one of its three phases. */
  predicate WellFormed(s: Session) {
    && (s.challenge.Some? ==> !s.proven)
    && (!Greeted(s) ==> s.key == None && s.identity == None)
    && (s.endpoint == V2 && Greeted(s) ==> s.key.Some? && s.identity == s.key)
    && (s.proven ==> s.key.Some?)
    && (s.lastSequence > NO_SEQUENCE ==> s.proven && s.endpoint == V2)
  }

  lemma HelloAdvances(c: Config, s: Session, identity: PublicKey, encryption: PublicKey, grant: Grant, wall: real, nonce: Challenge)
    requires WellFormed(s) && s.endpoint == V2
    ensures var next := HandleHello(c, s, identity, encryption, grant, wall, nonce).0;
      Advances(s, next) && WellFormed(next) && next.proofs == s.proofs
  {
  }

  lemma HelloV1Advances(s: Session, publicKey: Option<PublicKey>, nonce: Challenge)
    requires WellFormed(s) && s.endpoint == V1
    ensures var next := HandleHelloV1(s, publicKey, nonce).0;
      Advances(s, next) && WellFormed(next) && next.proofs == s.proofs
  {
  }

  lemma ProveAdvances(c: Config, s: Session, signature: Option<Signature>, now: real)
    requires WellFormed(s)
    ensures var next := HandleProve(c, s, signature, now).0;
      Advances(s, next) && WellFormed(next)
  {
    hide TakeToken;
  }

  lemma SignalAdvances(c: Config, st: State, id: SessionId, signal: Signal, proof: Signature, at: Clock)
    requires id in st.sessions && WellFormed(st.sessions[id]) && st.sessions[id].proven && st.sessions[id].endpoint == V2
    ensures var next := HandleSignal(c, st, id, signal, proof, at).0;
      && id in next.sessions && next.sessions == st.sessions[id := next.sessions[id]] && next.used == st.used
      && Advances(st.sessions[id], next.sessions[id]) && WellFormed(next.sessions[id])
      && next.sessions[id].proofs == st.sessions[id].proofs
  {
    hide TakeToken, SenderMatches, InSignalWindow, ReplayTable.CheckAndMark, ReplayKey;
  }

  /** A message changes no session but its own, and that one only forward. */
  lemma HandleAdvances(c: Config, st: State, id: SessionId, message: Message, at: Clock, nonce: Challenge)
    requires id in st.sessions ==> WellFormed(st.sessions[id])
    ensures var next := Handle(c, st, id, message, at, nonce).0;
      && next.used == st.used
      && (if id !in st.sessions then next == st
          else id in next.sessions && next.sessions == st.sessions[id := next.sessions[id]]
               && Advances(st.sessions[id], next.sessions[id]) && WellFormed(next.sessions[id]))
  {
    if id in st.sessions {
      var s := st.sessions[id];
      assert st.sessions == st.sessions[id := s];
      match message
      case Hello(identity, encryption, grant) =>
        if s.endpoint == V2 { HelloAdvances(c, s, identity, encryption, grant, at.wall, nonce); }
        hide HandleHello, HandleProve, HandleSignal, WellFormed;
      case HelloV1(publicKey) =>
        if s.endpoint == V1 { HelloV1Advances(s, publicKey, nonce); }
        hide HandleHello, HandleHelloV1, HandleProve, HandleSignal, WellFormed;
      case Prove(signature) =>
        ProveAdvances(c, s, signature, at.now);
        hide HandleHello, HandleProve, HandleSignal, WellFormed;
      case Relay(signal, proof) =>
        if s.endpoint == V2 && s.proven { SignalAdvances(c, st, id, signal, proof, at); }
        hide HandleHello, HandleProve, HandleSignal, WellFormed;
    }
  }

  ghost predicate AllWellFormed(st: State) {
    && st.sessions.Keys <= st.used
    && (forall id :: id in st.used ==> ':' !in id.hex)
    && forall id :: id in st.sessions ==> WellFormed(st.sessions[id])
  }

  /** Seen from session `id`: once used, it is only ever moved forward, and never comes back
      once it was closed. */
  lemma StepAdvances(c: Config, st: State, e: Event, id: SessionId)
    requires AllWellFormed(st)
    ensures AllWellFormed(Step(c, st, e)) && st.used <= Step(c, st, e).used
    ensures id in st.used && id in Step(c, st, e).sessions ==>
      id in st.sessions && Advances(st.sessions[id], Step(c, st, e).sessions[id])
  {
    if e.Receive? {
      HandleAdvances(c, st, e.id, e.message, e.at, e.nonce);
      hide Handle, Advances, WellFormed;
      assert id in st.sessions ==> Advances(st.sessions[id], st.sessions[id]) by {
        if id in st.sessions { AdvancesItself(st.sessions[id]); }
      }
    } else {
      hide Handle, ReplayTable.CheckAndMark, ReplayTable.Pruned;
    }
  }

  lemma AdvancesItself(s: Session)
    ensures Advances(s, s)
  {
  }

  lemma {:induction false} RunIsWellFormed(c: Config, shared: RateLimits.Bucket, events: seq<Event>, n: nat)
    requires n <= |events|
    ensures AllWellFormed(After(c, shared, events, n))
  {
    if n > 0 {
      hide Step, AllWellFormed;
      RunIsWellFormed(c, shared, events, n - 1);
      StepAdvances(c, After(c, shared, events, n - 1), events[n - 1], SessionId(""));
    }
  }

  /** Along every run: `proven` never reverts, the keys of a greeted session never change, and
      a session id never comes back. */
  lemma {:induction false} ProgressIsPermanent(c: Config, shared: RateLimits.Bucket, events: seq<Event>, i: nat, n: nat, id: SessionId)
    requires i <= n <= |events| && id in After(c, shared, events, i).used
    ensures id in After(c, shared, events, n).used
    ensures id in After(c, shared, events, n).sessions ==>
      && id in After(c, shared, events, i).sessions
      && Advances(After(c, shared, events, i).sessions[id], After(c, shared, events, n).sessions[id])
    decreases n
  {
    hide Step, AllWellFormed, Advances;
    if i == n {
      var sessions := After(c, shared, events, i).sessions;
      if id in sessions { AdvancesItself(sessions[id]); }
    } else {
      ProgressIsPermanent(c, shared, events, i, n - 1, id);
      RunIsWellFormed(c, shared, events, n - 1);
      StepAdvances(c, After(c, shared, events, n - 1), events[n - 1], id);
      var a, b, d := After(c, shared, events, i).sessions, After(c, shared, events, n - 1).sessions, After(c, shared, events, n).sessions;
      if id in d { AdvancesChain(a[id], b[id], d[id]); }
    }
  }

  lemma AdvancesChain(a: Session, b: Session, d: Session)
    requires Advances(a, b) && Advances(b, d)
    ensures Advances(a, d)
  {
  }

  // ---------------------------------------------------------------------------
  // The key of a proven session.

  /** Step `k` was the accepted HELLO of session `id`. */
  predicate GreetedAt(c: Config, shared: RateLimits.Bucket, events: seq<Event>, k: nat, id: SessionId)
    requires k < |events|
  {
    events[k].Receive? && OutcomeAt(c, shared, events, k, id) == Challenged
  }

  lemma GreetingStep(c: Config, st: State, e: Event, id: SessionId)
    requires AllWellFormed(st) && id in Step(c, st, e).sessions && Greeted(Step(c, st, e).sessions[id])
    requires !(id in st.sessions && Greeted(st.sessions[id]))
    ensures e.Receive? && e.id == id && id in st.sessions && Handle(c, st, id, e.message, e.at, e.nonce).1 == Challenged
  {
    hide SenderMatches, InSignalWindow, TakeToken, ReplayTable.CheckAndMark, ReplayTable.Pruned, ReplayKey;
  }

  lemma AcceptedHello(c: Config, st: State, id: SessionId, message: Message, at: Clock, nonce: Challenge)
    requires id in st.sessions && WellFormed(st.sessions[id]) && Handle(c, st, id, message, at, nonce).1 == Challenged
    ensures !Greeted(st.sessions[id])
    ensures var s := Handle(c, st, id, message, at, nonce).0.sessions[id];
      && Greeted(s) && s.challenge == Some(nonce)
      && (s.endpoint == V2 ==>
           && message.Hello? && s.key == s.identity == Some(message.identity)
           && c.isPoint(message.identity) && c.isPoint(message.encryption)
           && c.admits(message.grant, message.identity, at.wall))
      && (s.endpoint == V1 ==> message.HelloV1? && s.key == message.publicKey)
  {
    hide TakeToken, SenderMatches, InSignalWindow, ReplayTable.CheckAndMark, ReplayKey;
  }

  /** A greeted session had an accepted HELLO, and its keys are still those of that HELLO. */
  lemma {:induction false} KeysComeFromHello(c: Config, shared: RateLimits.Bucket, events: seq<Event>, n: nat, id: SessionId)
    returns (k: nat)
    requires n <= |events| && id in After(c, shared, events, n).sessions && Greeted(After(c, shared, events, n).sessions[id])
    ensures k < n && GreetedAt(c, shared, events, k, id)
    ensures id in After(c, shared, events, k + 1).sessions
    ensures After(c, shared, events, n).sessions[id].key == After(c, shared, events, k + 1).sessions[id].key
  {
    hide Step, Handle, AllWellFormed;
    var before := After(c, shared, events, n - 1);
    RunIsWellFormed(c, shared, events, n - 1);
    if id in before.sessions && Greeted(before.sessions[id]) {
      k := KeysComeFromHello(c, shared, events, n - 1, id);
      UsedIfPresent(before, id);
      StepAdvances(c, before, events[n - 1], id);
    } else {
      GreetingStep(c, before, events[n - 1], id);
      k := n - 1;
    }
  }

  lemma UsedIfPresent(st: State, id: SessionId)
    requires AllWellFormed(st) && id in st.sessions
    ensures id in st.used && WellFormed(st.sessions[id])
  {
  }

  /** A session accepts at most one HELLO in its whole life. */
  lemma OneHelloPerSession(c: Config, shared: RateLimits.Bucket, events: seq<Event>, i: nat, j: nat, id: SessionId)
    requires i < |events| && j < |events| && GreetedAt(c, shared, events, i, id) && GreetedAt(c, shared, events, j, id)
    ensures i == j
  {
    if i != j {
      NotGreetedTwice(c, shared, events, if i < j then i else j, if i < j then j else i, id);
    }
  }

  /** Once a HELLO was accepted, the session is greeted whenever it is still there. */
  lemma StaysGreeted(c: Config, shared: RateLimits.Bucket, events: seq<Event>, i: nat, j: nat, id: SessionId)
    requires i < j < |events| && GreetedAt(c, shared, events, i, id)
    ensures id in After(c, shared, events, j).sessions ==> Greeted(After(c, shared, events, j).sessions[id])
  {
    HelloFacts(c, shared, events, i, id);
    RunIsWellFormed(c, shared, events, i + 1);
    hide AllWellFormed, WellFormed, Handle, GreetedAt, Step, After;
    UsedIfPresent(After(c, shared, events, i + 1), id);
    ProgressIsPermanent(c, shared, events, i + 1, j, id);
  }

  lemma NotGreetedTwice(c: Config, shared: RateLimits.Bucket, events: seq<Event>, i: nat, j: nat, id: SessionId)
    requires i < j < |events| && GreetedAt(c, shared, events, i, id)
    ensures !GreetedAt(c, shared, events, j, id)
  {
    if GreetedAt(c, shared, events, j, id) {
      var second, e := After(c, shared, events, j), events[j];
      StaysGreeted(c, shared, events, i, j, id);
      RunIsWellFormed(c, shared, events, j);
      hide AllWellFormed, WellFormed, Handle, GreetedAt;
      AnsweredAt(c, shared, events, j, id);
      KnownIfAnswered(c, second, e);
      UsedIfPresent(second, id);
      AcceptedHello(c, second, id, e.message, e.at, e.nonce);
      assert false;
    }
  }

  lemma KnownIfAnswered(c: Config, st: State, e: Event)
    requires e.Receive? && Handle(c, st, e.id, e.message, e.at, e.nonce).1 != Unknown
    ensures e.id in st.sessions
  {
    hide HandleHello, HandleProve, HandleSignal;
  }

  /** The key of a greeted v2 session is the one whose grant verified at its only accepted HELLO. */
  lemma V2KeyWasAdmitted(c: Config, shared: RateLimits.Bucket, events: seq<Event>, n: nat, id: SessionId) returns (k: nat)
    requires n <= |events| && id in After(c, shared, events, n).sessions
    requires var s := After(c, shared, events, n).sessions[id]; s.endpoint == V2 && (s.proven || s.challenge.Some?)
    ensures k < n && GreetedAt(c, shared, events, k, id)
    ensures forall m :: 0 <= m < |events| && GreetedAt(c, shared, events, m, id) ==> m == k
    ensures var s, e := After(c, shared, events, n).sessions[id], events[k];
      && e.message.Hello? && s.key == s.identity == Some(e.message.identity)
      && c.admits(e.message.grant, e.message.identity, e.at.wall)
      && c.isPoint(e.message.identity) && c.isPoint(e.message.encryption)
  {
    k := KeysComeFromHello(c, shared, events, n, id);
    HelloFacts(c, shared, events, k, id);
    RunIsWellFormed(c, shared, events, k + 1);
    RunIsWellFormed(c, shared, events, n);
    hide AllWellFormed, Handle, GreetedAt, Step, After;
    UsedIfPresent(After(c, shared, events, k + 1), id);
    UsedIfPresent(After(c, shared, events, n), id);
    ProgressIsPermanent(c, shared, events, k + 1, n, id);
    forall m | 0 <= m < |events| && GreetedAt(c, shared, events, m, id) ensures m == k {
      OneHelloPerSession(c, shared, events, m, k, id);
    }
  }

  /** What the accepted HELLO at step `k` leaves behind. */
  lemma HelloFacts(c: Config, shared: RateLimits.Bucket, events: seq<Event>, k: nat, id: SessionId)
    requires k < |events| && GreetedAt(c, shared, events, k, id)
    ensures id in After(c, shared, events, k + 1).sessions && events[k].Receive?
    ensures var s, e := After(c, shared, events, k + 1).sessions[id], events[k];
      && Greeted(s) && s.challenge == Some(e.nonce)
      && (s.endpoint == V2 ==>
           && e.message.Hello? && s.key == s.identity == Some(e.message.identity)
           && c.isPoint(e.message.identity) && c.isPoint(e.message.encryption)
           && c.admits(e.message.grant, e.message.identity, e.at.wall))
  {
    var st, e := After(c, shared, events, k), events[k];
    RunIsWellFormed(c, shared, events, k);
    AnsweredAt(c, shared, events, k, id);
    assert After(c, shared, events, k + 1) == Step(c, st, e);
    HandleIsStep(c, st, e);
    hide AllWellFormed, Handle, GreetedAt, Step, After;
    KnownIfAnswered(c, st, e);
    UsedIfPresent(st, id);
    AcceptedHello(c, st, id, e.message, e.at, e.nonce);
    HandleAdvances(c, st, id, e.message, e.at, e.nonce);
  }

  lemma AnsweredAt(c: Config, shared: RateLimits.Bucket, events: seq<Event>, k: nat, id: SessionId)
    requires k < |events| && GreetedAt(c, shared, events, k, id)
    ensures var e := events[k];
      e.Receive? && e.id == id && Handle(c, After(c, shared, events, k), id, e.message, e.at, e.nonce).1 == Challenged
  {
    hide Handle;
  }

  // ---------------------------------------------------------------------------
  // Proof attempts.

  /** Step `i` checked a proof signature of session `id`. */
  predicate ChecksProof(c: Config, shared: RateLimits.Bucket, events: seq<Event>, i: nat, id: SessionId)
    requires i < |events|
  {
    OutcomeAt(c, shared, events, i, id) in {ProveFailed, Ready}
  }

  function ProofChecks(c: Config, shared: RateLimits.Bucket, events: seq<Event>, n: nat, id: SessionId): nat
    requires n <= |events|
  {
    if n == 0 then 0
    else ProofChecks(c, shared, events, n - 1, id) + if ChecksProof(c, shared, events, n - 1, id) then 1 else 0
  }

  /** Each checked proof costs one of the three tokens the bucket was born with. */
  predicate Budget(s: Session, checks: nat) {
    match s.proofs
    case None => checks == 0
    case Some(b) => b.capacity == PROOF_BURST && b.rate == 0.0 && 0.0 <= b.tokens && b.tokens + checks as real <= PROOF_BURST
  }

  lemma BudgetStep(c: Config, s: Session, signature: Option<Signature>, now: real, checks: nat)
    requires Budget(s, checks)
    ensures var (next, outcome) := HandleProve(c, s, signature, now);
      Budget(next, checks + if outcome in {ProveFailed, Ready} then 1 else 0)
  {
  }

  lemma OtherMessagesKeepBudget(c: Config, st: State, id: SessionId, message: Message, at: Clock, nonce: Challenge)
    requires id in st.sessions && !message.Prove?
    ensures var (next, outcome) := Handle(c, st, id, message, at, nonce);
      && id in next.sessions && next.sessions[id].proofs == st.sessions[id].proofs && outcome !in {ProveFailed, Ready}
  {
    hide TakeToken, SenderMatches, InSignalWindow, ReplayTable.CheckAndMark, ReplayKey;
  }

  /** The proofs spent on a session: never more than its bucket ever held. */
  ghost predicate Within(st: State, id: SessionId, checks: nat) {
    && checks <= 3
    && (id !in st.used ==> checks == 0)
    && (id in st.sessions ==> Budget(st.sessions[id], checks))
  }

  lemma WithinStep(c: Config, st: State, e: Event, id: SessionId, checks: nat)
    requires AllWellFormed(st) && Within(st, id, checks)
    ensures var more := if e.Receive? && e.id == id && Handle(c, st, id, e.message, e.at, e.nonce).1 in {ProveFailed, Ready} then 1 else 0;
      Within(Step(c, st, e), id, checks + more)
  {
    if e.Receive? && e.id == id {
      if id in st.sessions {
        UsedIfPresent(st, id);
        hide AllWellFormed, WellFormed;
        if e.message.Prove? {
          BudgetStep(c, st.sessions[id], e.message.signature, e.at.now, checks);
          hide HandleProve;
        } else {
          OtherMessagesKeepBudget(c, st, id, e.message, e.at, e.nonce);
          HandleAdvances(c, st, id, e.message, e.at, e.nonce);
          hide Handle;
        }
      }
    } else if e.Receive? {
      HandleAdvances(c, st, e.id, e.message, e.at, e.nonce);
      hide Handle, AllWellFormed, WellFormed, Budget;
    } else {
      hide Handle, ReplayTable.CheckAndMark, ReplayTable.Pruned;
    }
  }

  /** At most three proof signatures are ever checked per session. */
  lemma {:induction false} AtMostThreeProofs(c: Config, shared: RateLimits.Bucket, events: seq<Event>, n: nat, id: SessionId)
    requires n <= |events|
    ensures ProofChecks(c, shared, events, n, id) <= 3
    ensures Within(After(c, shared, events, n), id, ProofChecks(c, shared, events, n, id))
  {
    if n > 0 {
      hide Step, Handle, AllWellFormed;
      AtMostThreeProofs(c, shared, events, n - 1, id);
      RunIsWellFormed(c, shared, events, n - 1);
      WithinStep(c, After(c, shared, events, n - 1), events[n - 1], id, ProofChecks(c, shared, events, n - 1, id));
      hide Within;
      assert Within(After(c, shared, events, n), id, ProofChecks(c, shared, events, n, id));
      WithinIsAtMostThree(After(c, shared, events, n), id, ProofChecks(c, shared, events, n, id));
    }
  }

  lemma WithinIsAtMostThree(st: State, id: SessionId, checks: nat)
    requires Within(st, id, checks)
    ensures checks <= 3
  {
  }

  // ---------------------------------------------------------------------------
  // Proven means a proof was verified.

  lemma ProvingStep(c: Config, st: State, e: Event, id: SessionId)
    requires AllWellFormed(st) && id in Step(c, st, e).sessions && Step(c, st, e).sessions[id].proven
    requires !(id in st.sessions && st.sessions[id].proven)
    ensures e.Receive? && e.id == id && id in st.sessions && e.message.Prove? && e.message.signature.Some?
    ensures var s := st.sessions[id];
      s.challenge.Some? && s.key.Some? && c.verifies(s.key.value, Nonce(s.challenge.value), e.message.signature.value)
  {
    hide SenderMatches, InSignalWindow, TakeToken, ReplayTable.CheckAndMark, ReplayTable.Pruned, ReplayKey;
  }

  /** A proven session proved itself at some step `j`, with its key and against the challenge
      its accepted HELLO at step `k` was answered with. */
  lemma {:induction false} ProvenWasVerified(c: Config, shared: RateLimits.Bucket, events: seq<Event>, n: nat, id: SessionId)
    returns (k: nat, j: nat)
    requires n <= |events| && id in After(c, shared, events, n).sessions && After(c, shared, events, n).sessions[id].proven
    ensures k < j < n && GreetedAt(c, shared, events, k, id)
    ensures events[j].Receive? && events[j].id == id && events[j].message.Prove? && events[j].message.signature.Some?
    ensures var key := After(c, shared, events, n).sessions[id].key;
      key.Some? && c.verifies(key.value, Nonce(events[k].nonce), events[j].message.signature.value)
  {
    hide Step, Handle, AllWellFormed, GreetedAt, WellFormed;
    var before, e := After(c, shared, events, n - 1), events[n - 1];
    RunIsWellFormed(c, shared, events, n - 1);
    if id in before.sessions && before.sessions[id].proven {
      k, j := ProvenWasVerified(c, shared, events, n - 1, id);
      UsedIfPresent(before, id);
      StepAdvances(c, before, e, id);
    } else {
      ProvingStep(c, before, e, id);
      UsedIfPresent(before, id);
      StepAdvances(c, before, e, id);
      j := n - 1;
      k := KeysComeFromHello(c, shared, events, n - 1, id);
      ChallengeIsTheHellos(c, shared, events, k, n - 1, id);
    }
  }

  lemma ChallengeIsTheHellos(c: Config, shared: RateLimits.Bucket, events: seq<Event>, k: nat, n: nat, id: SessionId)
    requires k < n <= |events| && GreetedAt(c, shared, events, k, id)
    requires id in After(c, shared, events, n).sessions && !After(c, shared, events, n).sessions[id].proven
    ensures After(c, shared, events, n).sessions[id].challenge == Some(events[k].nonce)
  {
    HelloFacts(c, shared, events, k, id);
    RunIsWellFormed(c, shared, events, k + 1);
    hide AllWellFormed, WellFormed, Handle, GreetedAt, Step, After;
    UsedIfPresent(After(c, shared, events, k + 1), id);
    ProgressIsPermanent(c, shared, events, k + 1, n, id);
  }

  // ---------------------------------------------------------------------------
  // Accepted signals.

  predicate SignalAccepted(c: Config, shared: RateLimits.Bucket, events: seq<Event>, i: nat, id: SessionId)
    requires i < |events|
  {
    events[i].Receive? && OutcomeAt(c, shared, events, i, id) == Accepted
  }

  lemma AcceptedRelay(c: Config, st: State, id: SessionId, message: Message, at: Clock, nonce: Challenge)
    requires id in st.sessions && Handle(c, st, id, message, at, nonce).1 == Accepted
    ensures var s := st.sessions[id];
      && message.Relay? && s.endpoint == V2 && s.proven && message.signal.route in s.routes && message.signal.sender == id
      && s.identity == Some(message.signal.senderKey) && InSignalWindow(message.signal, at.wall)
      && s.key.Some? && c.verifies(s.key.value, Fields(message.signal), message.proof)
      && s.lastSequence < message.signal.sequence
    ensures id in Handle(c, st, id, message, at, nonce).0.sessions
    ensures Handle(c, st, id, message, at, nonce).0.sessions[id].lastSequence == message.signal.sequence
  {
    hide TakeToken, InSignalWindow, ReplayTable.CheckAndMark, ReplayKey;
  }

  /** An accepted signal comes from a proven session, names the key whose grant verified at that
      session's only HELLO as its sender, and is signed with it. */
  lemma AcceptedSignalsCarryTheAdmittedKey(c: Config, shared: RateLimits.Bucket, events: seq<Event>, i: nat, id: SessionId)
    returns (k: nat)
    requires i < |events| && SignalAccepted(c, shared, events, i, id)
    ensures k < i && GreetedAt(c, shared, events, k, id) && events[k].message.Hello?
    ensures var hello, e := events[k].message, events[i];
      && e.message.Relay? && e.message.signal.sender == id && e.message.signal.senderKey == hello.identity
      && c.admits(hello.grant, hello.identity, events[k].at.wall)
      && c.verifies(hello.identity, Fields(e.message.signal), e.message.proof)
  {
    var st, e := After(c, shared, events, i), events[i];
    hide Handle, GreetedAt;
    assert e.id == id && Handle(c, st, id, e.message, e.at, e.nonce).1 == Accepted;
    KnownIfAnswered(c, st, e);
    AcceptedRelay(c, st, id, e.message, e.at, e.nonce);
    k := V2KeyWasAdmitted(c, shared, events, i, id);
  }

  lemma AcceptedSequence(c: Config, shared: RateLimits.Bucket, events: seq<Event>, i: nat, id: SessionId)
    requires i < |events| && SignalAccepted(c, shared, events, i, id)
    ensures id in After(c, shared, events, i).sessions && id in After(c, shared, events, i + 1).sessions
    ensures events[i].message.Relay?
    ensures var sequence := events[i].message.signal.sequence;
      After(c, shared, events, i).sessions[id].lastSequence < sequence == After(c, shared, events, i + 1).sessions[id].lastSequence
  {
    var st, e := After(c, shared, events, i), events[i];
    assert e.id == id && Handle(c, st, id, e.message, e.at, e.nonce).1 == Accepted by {
      hide Handle;
    }
    assert After(c, shared, events, i + 1) == Step(c, st, e);
    HandleIsStep(c, st, e);
    hide Handle, Step, After;
    KnownIfAnswered(c, st, e);
    AcceptedRelay(c, st, id, e.message, e.at, e.nonce);
  }

  /** The sequence numbers of a session's accepted signals strictly increase. */
  lemma SequencesIncrease(c: Config, shared: RateLimits.Bucket, events: seq<Event>, i: nat, j: nat, id: SessionId)
    requires i < j < |events| && SignalAccepted(c, shared, events, i, id) && SignalAccepted(c, shared, events, j, id)
    ensures events[i].message.Relay? && events[j].message.Relay?
    ensures events[i].message.signal.sequence < events[j].message.signal.sequence
  {
    hide SignalAccepted, Step, AllWellFormed, WellFormed;
    AcceptedSequence(c, shared, events, i, id);
    AcceptedSequence(c, shared, events, j, id);
    RunIsWellFormed(c, shared, events, i + 1);
    UsedIfPresent(After(c, shared, events, i + 1), id);
    ProgressIsPermanent(c, shared, events, i + 1, j, id);
  }

  // ---------------------------------------------------------------------------
  // What the replay table adds to the sequence check.

  lemma Joined(a: string, b: string)
    ensures var s := a + ":" + b;
      && |s| == |a| + 1 + |b| && s[..|a|] == a && s[|a|] == ':' && s[|a| + 1..] == b
      && (forall i :: 0 <= i < |a| ==> s[i] == a[i]) && (forall i :: |a| < i < |s| ==> s[i] == b[i - |a| - 1])
  {
  }

  lemma SplitAtFirst(a: string, b: string, x: string, y: string)
    requires ':' !in a && ':' !in x && a + ":" + b == x + ":" + y
    ensures a == x && b == y
  {
    Joined(a, b);
    Joined(x, y);
    assert |a| == |x|;
  }

  lemma SplitAtLast(a: string, b: string, x: string, y: string)
    requires ':' !in b && ':' !in y && a + ":" + b == x + ":" + y
    ensures a == x && b == y
  {
    Joined(a, b);
    Joined(x, y);
    assert |a| == |x|;
  }

  /** A replay key determines the session, the message id and the sequence number, whatever
      colons the message id holds. */
  lemma ReplayKeysAreInjective(id: SessionId, m: Key, q: nat, id': SessionId, m': Key, q': nat)
    requires ':' !in id.hex && ':' !in id'.hex && ReplayKey(id, m, q) == ReplayKey(id', m', q')
    ensures id == id' && m == m' && q == q'
  {
    var d, d' := Decimal.Digits(q), Decimal.Digits(q');
    Decimal.DigitsRoundTrip(q);
    Decimal.DigitsRoundTrip(q');
    var a, a' := "v2:" + id.hex + ":" + m.text, "v2:" + id'.hex + ":" + m'.text;
    assert a + ":" + d == a' + ":" + d';
    SplitAtLast(a, d, a', d');
    assert a == "v2:" + (id.hex + ":" + m.text) && a' == "v2:" + (id'.hex + ":" + m'.text);
    assert a[3..] == id.hex + ":" + m.text && a'[3..] == id'.hex + ":" + m'.text;
    SplitAtFirst(id.hex, m.text, id'.hex, m'.text);
    Decimal.DigitsAreInjective(q, q');
  }

  lemma ReplayKeysAreNotForeign(id: SessionId, m: Key, q: nat)
    ensures !Foreign(ReplayKey(id, m, q))
  {
    assert ReplayKey(id, m, q).text[..3] == "v2:";
  }

  /** Every mark of a live session in the replay table lies at or behind its last sequence number. */
  ghost predicate MarksAreBehind(st: State) {
    forall id, m, q: nat :: ReplayKey(id, m, q) in st.seen && ':' !in id.hex ==>
      id in st.used && (id in st.sessions ==> q <= st.sessions[id].lastSequence)
  }

  /** What an event can add to the replay table. */
  lemma SeenStep(c: Config, st: State, e: Event, key: Key)
    requires key in Step(c, st, e).seen && key !in st.seen && !Foreign(key)
    ensures e.Receive? && e.message.Relay? && e.id in st.sessions
    ensures Handle(c, st, e.id, e.message, e.at, e.nonce).1 == Accepted
    ensures key == ReplayKey(e.id, e.message.signal.messageId, e.message.signal.sequence)
  {
    hide TakeToken, SenderMatches, InSignalWindow, ReplayKey, Foreign;
  }

  lemma MarksStayBehind(c: Config, st: State, e: Event)
    requires AllWellFormed(st) && MarksAreBehind(st)
    ensures MarksAreBehind(Step(c, st, e))
  {
    var next := Step(c, st, e);
    hide Step, Handle, AllWellFormed, WellFormed, ReplayKey;
    forall id, m, q: nat | ReplayKey(id, m, q) in next.seen && ':' !in id.hex
      ensures id in next.used && (id in next.sessions ==> q <= next.sessions[id].lastSequence)
    {
      StepAdvances(c, st, e, id);
      if ReplayKey(id, m, q) !in st.seen {
        ReplayKeysAreNotForeign(id, m, q);
        SeenStep(c, st, e, ReplayKey(id, m, q));
        UsedIfPresent(st, e.id);
        NoColon(st, e.id);
        ReplayKeysAreInjective(id, m, q, e.id, e.message.signal.messageId, e.message.signal.sequence);
        AcceptedRelay(c, st, id, e.message, e.at, e.nonce);
        HandleIsStep(c, st, e);
      }
    }
  }

  lemma NoColon(st: State, id: SessionId)
    requires AllWellFormed(st) && id in st.used
    ensures ':' !in id.hex
  {
  }

  lemma HandleIsStep(c: Config, st: State, e: Event)
    requires e.Receive?
    ensures Step(c, st, e) == Handle(c, st, e.id, e.message, e.at, e.nonce).0
  {
    hide Handle;
  }

  lemma {:induction false} RunKeepsMarksBehind(c: Config, shared: RateLimits.Bucket, events: seq<Event>, n: nat)
    requires n <= |events|
    ensures MarksAreBehind(After(c, shared, events, n))
  {
    if n > 0 {
      hide Step, AllWellFormed, MarksAreBehind;
      RunKeepsMarksBehind(c, shared, events, n - 1);
      RunIsWellFormed(c, shared, events, n - 1);
      MarksStayBehind(c, After(c, shared, events, n - 1), events[n - 1]);
    }
  }

  /** Every check before the replay guard passes (app/v2.py:421-449). */
  predicate Verified(c: Config, st: State, id: SessionId, signal: Signal, proof: Signature, at: Clock)
    requires id in st.sessions
  {
    var s := st.sessions[id];
    && s.endpoint == V2 && s.proven && signal.route in s.routes && SenderMatches(c, s, id, signal) && InSignalWindow(signal, at.wall)
    && TakeToken(s.signals, SIGNAL_BURST, SIGNAL_RATE, at.now).1
    && TakeToken(Some(st.shared), 0.0, 0.0, at.now).1
    && s.key.Some? && c.verifies(s.key.value, Fields(signal), proof)
  }

  /** The replay table never turns away a sequence number that is not a replay unless it is
      full: a verified signal is accepted exactly when its number is greater than every one
      accepted on the session before and the table has or can make room. */
  lemma VerifiedSignalIsAcceptedIff(c: Config, shared: RateLimits.Bucket, events: seq<Event>, i: nat)
    requires i < |events| && events[i].Receive? && events[i].message.Relay?
    requires var st, e := After(c, shared, events, i), events[i];
      e.id in st.sessions && Verified(c, st, e.id, e.message.signal, e.message.proof, e.at)
    ensures var st, e := After(c, shared, events, i), events[i];
      SignalAccepted(c, shared, events, i, e.id) <==>
        && st.sessions[e.id].lastSequence < e.message.signal.sequence
        && (|st.seen| < c.maxDedupe || |ReplayTable.Pruned(st.seen, e.at.now)| < c.maxDedupe)
  {
    var st, e := After(c, shared, events, i), events[i];
    RunIsWellFormed(c, shared, events, i);
    RunKeepsMarksBehind(c, shared, events, i);
    UsedIfPresent(st, e.id);
    NoColon(st, e.id);
    hide AllWellFormed, WellFormed, After, TakeToken, SenderMatches, InSignalWindow, ReplayKey, ReplayTable.Pruned;
    var key := ReplayKey(e.id, e.message.signal.messageId, e.message.signal.sequence);
    assert st.sessions[e.id].lastSequence < e.message.signal.sequence ==> key !in st.seen;
  }
}
