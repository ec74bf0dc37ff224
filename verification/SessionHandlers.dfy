/** The message handlers of both endpoints, which write the session they are called for
    (app/v2.py:290-348, 418-458; app/routes.py:105-116, 170-212). Sending the answer is not
    modelled; the outcome says which one it is. */
module SessionHandlers {
  import opened Names
  import RateLimits
  import ReplayTable
  import opened Sessions

  class SessionTable {
    const config: Config
    var sessions: map<SessionId, Session>
    var seen: ReplayTable.Table
    var signalLimiter: RateLimits.Bucket
    ghost var used: set<SessionId>

    ghost function Now(): State
      reads this
    {
      State(sessions, used, seen, signalLimiter)
    }

    constructor (config: Config, burst: real, rate: real, now: real)
      ensures Now() == Start(RateLimits.Fresh(burst, rate, now)) && this.config == config
    {
      this.config := config;
      sessions, seen, used := map[], map[], {};
      signalLimiter := RateLimits.Fresh(burst, rate, now);
    }

    method HandleHello(id: SessionId, identity: PublicKey, encryption: PublicKey, grant: Grant, at: Clock, nonce: Challenge)
      returns (outcome: Outcome)
      requires id in sessions && sessions[id].endpoint == V2
      modifies this`sessions
      ensures (Now(), outcome) == Handle(config, old(Now()), id, Hello(identity, encryption, grant), at, nonce)
    {
      Unwritten(sessions, id);
      var session := sessions[id];
      if session.challenge.Some? || session.proven {
        return InvalidState;
      }
      if !config.isPoint(identity) || !config.isPoint(encryption) {
        return BadKey;
      }
      if !config.admits(grant, identity, at.wall) {
        return BadGrant;
      }
      session := session.(challenge := Some(nonce));
      session := session.(key := Some(identity), proven := false);
      session := session.(identity := Some(identity));
      sessions := sessions[id := session];
      outcome := Challenged;
    }

    method HandleHelloV1(id: SessionId, publicKey: Option<PublicKey>, at: Clock, nonce: Challenge) returns (outcome: Outcome)
      requires id in sessions && sessions[id].endpoint == V1
      modifies this`sessions
      ensures (Now(), outcome) == Handle(config, old(Now()), id, HelloV1(publicKey), at, nonce)
    {
      Unwritten(sessions, id);
      var session := sessions[id];
      if session.challenge.Some? || session.proven {
        return InvalidState;
      }
      session := session.(challenge := Some(nonce), proven := false, key := None);
      if publicKey.Some? {
        session := session.(key := publicKey);
      }
      sessions := sessions[id := session];
      outcome := Challenged;
    }

    method HandleProve(id: SessionId, signature: Option<Signature>, at: Clock, nonce: Challenge) returns (outcome: Outcome)
      requires id in sessions
      modifies this`sessions
      ensures (Now(), outcome) == Handle(config, old(Now()), id, Prove(signature), at, nonce)
    {
      hide TakeToken;
      Unwritten(sessions, id);
      var session := sessions[id];
      if session.proven || session.challenge == None {
        return InvalidState;
      }
      var (bucket, ok) := TakeToken(session.proofs, PROOF_BURST, 0.0, at.now);
      session := session.(proofs := Some(bucket));
      sessions := sessions[id := session];
      if !ok {
        return RateLimited;
      }
      if session.key == None || signature == None {
        return MissingFields;
      }
      if !config.verifies(session.key.value, Nonce(session.challenge.value), signature.value) {
        return ProveFailed;
      }
      session := session.(proven := true, challenge := None);
      assert sessions[id := session] == old(sessions)[id := session];
      sessions := sessions[id := session];
      outcome := Ready;
    }

    method HandleSignal(id: SessionId, signal: Signal, proof: Signature, at: Clock) returns (outcome: Outcome)
      requires id in sessions && sessions[id].endpoint == V2 && sessions[id].proven
      modifies this`sessions, this`seen, this`signalLimiter
      ensures (Now(), outcome) == Sessions.HandleSignal(config, old(Now()), id, signal, proof, at)
    {
      hide TakeToken, SenderMatches, InSignalWindow, ReplayTable.CheckAndMark, ReplayKey;
      if signal.route !in sessions[id].routes {
        return NotAttached;
      }
      if !SenderMatches(config, sessions[id], id, signal) {
        return SenderMismatch;
      }
      if !InSignalWindow(signal, at.wall) {
        return ExpiredSignal;
      }
      var (bucket, ok) := TakeToken(sessions[id].signals, SIGNAL_BURST, SIGNAL_RATE, at.now);
      var session := sessions[id].(signals := Some(bucket));
      sessions := sessions[id := session];
      if !ok {
        return RateLimited;
      }
      var (shared, admitted) := TakeToken(Some(signalLimiter), 0.0, 0.0, at.now);
      signalLimiter := shared;
      if !admitted {
        return Capacity;
      }
      if session.key == None || !config.verifies(session.key.value, Fields(signal), proof) {
        return BadSignature;
      }
      if signal.sequence <= session.lastSequence {
        return Replayed;
      }
      var (table, unseen) := ReplayTable.CheckAndMark(
        seen, config.maxDedupe, ReplayKey(id, signal.messageId, signal.sequence), config.dedupeWindow, at.now);
      seen := table;
      if !unseen {
        return Replayed;
      }
      sessions := sessions[id := session.(lastSequence := signal.sequence)];
      outcome := Accepted;
    }
  }

  lemma Unwritten(sessions: map<SessionId, Session>, id: SessionId)
    requires id in sessions
    ensures sessions[id := sessions[id]] == sessions
  {
  }
}
