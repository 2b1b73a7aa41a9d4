/**
 One transport's authentication run: the retransmit loop with its replay cache,
 decryption, and the signature and challenge checks of every response.
 */
module Transport {
  import opened Prelude
  import opened Messages

  datatype Packet = Packet(temporalId: Bytes, ciphertext: Bytes)

  datatype PairedServer = PairedServer(publicKey: string, allowedUsers: seq<string>)

  datatype AuthError = TimedOut | TransportFailed | Undecryptable | ExplicitDenial

  /** What the run is for: keys, paired servers and this session's challenge. */
  datatype Session = Session(
    scheme: Scheme,
    decrypt: Bytes -> Option<Wrapper>,      // under this session's CSK
    servers: map<string, PairedServer>,
    challenge: Bytes)

  datatype Receive = ReceiveError | NoResponse | Received(packet: Packet)

  /** One pass of the loop: time since the start at its top (ms), the send, the wait. */
  datatype Round = Round(elapsed: nat, sent: bool, receive: Receive)

  /** `get_session_timeout`, in milliseconds. */
  const SESSION_TIMEOUT: nat := 120_000

  /** The replay cache's key for a packet. */
  function Fingerprint(p: Packet): Bytes {
    p.temporalId + p.ciphertext
  }

  /** The stored key of a paired server, when it decodes to 32 bytes. */
  function KeyOf(s: Session, id: string): Option<Bytes>
    requires id in s.servers
  {
    var decoded := s.scheme.hexDecode(s.servers[id].publicKey);
    if decoded.Some? && |decoded.value| == 32 then decoded else None
  }

  /** `verify_response_signature`. */
  predicate SignedByPaired(s: Session, w: Wrapper) {
    exists id | id in s.servers :: KeyOf(s, id).Some? && VerifyWrapper(s.scheme, w, KeyOf(s, id).value)
  }

  /** The check of `handle_auth_grant`. */
  predicate GrantValid(s: Session, w: Wrapper) {
    exists id | id in s.servers :: KeyOf(s, id).Some?
        && VerifyGrant(s.scheme, w, s.challenge, KeyOf(s, id).value) == Ok(())
  }

  datatype Reaction = Final(result: Result<(), AuthError>) | Retry | KeepWaiting

  /** What a packet that is not a replay leads to. */
  function React(s: Session, p: Packet): Reaction {
    var plain := s.decrypt(p.ciphertext);
    if plain.None? then Final(Err(Undecryptable))
    else if !SignedByPaired(s, plain.value) then Retry
    else
      match plain.value.payload
      case Some(AuthGrant(_)) => if GrantValid(s, plain.value) then Final(Ok(())) else KeepWaiting
      case Some(AuthDenial(challenge)) => if challenge == s.challenge then Final(Err(ExplicitDenial)) else KeepWaiting
      case _ => KeepWaiting
  }

  datatype Progress = Progress(
    result: Option<Result<(), AuthError>>,
    attempt: nat,
    nonceCache: set<Bytes>,
    sends: nat,
    decrypted: seq<Bytes>)                  // fingerprints handed to the decryption, in order

  const INITIAL := Progress(None, 0, {}, 0, [])

  /** One pass of `authenticate_with_transport`; nothing happens after a result. */
  function Step(s: Session, q: Progress, r: Round): Progress {
    if q.result.Some? then q
    else if r.elapsed >= SESSION_TIMEOUT then q.(result := Some(Err(TimedOut)))
    else if !r.sent then q.(result := Some(Err(TransportFailed)))
    else
      var t := q.(sends := q.sends + 1);
      match r.receive
      case ReceiveError => t.(result := Some(Err(TransportFailed)))
      case NoResponse => t.(attempt := t.attempt + 1)
      case Received(p) =>
        var fp := Fingerprint(p);
        if fp in t.nonceCache then t.(attempt := t.attempt + 1)
        else
          var u := t.(nonceCache := t.nonceCache + {fp}, decrypted := t.decrypted + [fp]);
          match React(s, p)
          case Final(result) => u.(result := Some(result))
          case Retry => u.(attempt := u.attempt + 1)
          case KeepWaiting => u
  }

  function Run(s: Session, rounds: seq<Round>): Progress {
    if rounds == [] then INITIAL else Step(s, Run(s, Front(rounds)), Last(rounds))
  }

  /** `authenticate_with_transport` and `wait_for_response`, over the passes it makes. */
  method AuthenticateWithTransport(s: Session, rounds: seq<Round>)
    returns (result: Option<Result<(), AuthError>>, sends: nat, attempt: nat)
    ensures result == Run(s, rounds).result
    ensures sends == Run(s, rounds).sends && attempt == Run(s, rounds).attempt
  {
    attempt := 0;
    var nonceCache: set<Bytes> := {};
    ghost var decrypted: seq<Bytes> := [];
    sends := 0;
    var i := 0;
    while i < |rounds|
      invariant i <= |rounds|
      invariant Run(s, rounds[..i]) == Progress(None, attempt, nonceCache, sends, decrypted)
    {
      var round := rounds[i];
      i := i + 1;
      assert Front(rounds[..i]) == rounds[..i - 1];
      if round.elapsed >= SESSION_TIMEOUT {
        Stuck(s, rounds, i);
        return Some(Err(TimedOut)), sends, attempt;
      }
      if !round.sent {
        Stuck(s, rounds, i);
        return Some(Err(TransportFailed)), sends, attempt;
      }
      sends := sends + 1;
      match round.receive {
        case ReceiveError =>
          Stuck(s, rounds, i);
          return Some(Err(TransportFailed)), sends, attempt;
        case NoResponse =>
          attempt := attempt + 1;
        case Received(packet) =>
          var fp := Fingerprint(packet);
          if fp in nonceCache {
            attempt := attempt + 1;
            continue;
          }
          nonceCache := nonceCache + {fp};
          decrypted := decrypted + [fp];
          var plain := s.decrypt(packet.ciphertext);
          if plain.None? {
            Stuck(s, rounds, i);
            return Some(Err(Undecryptable)), sends, attempt;
          }
          var wrapper := plain.value;
          if !SignedByPaired(s, wrapper) {
            attempt := attempt + 1;
            continue;
          }
          match wrapper.payload {
            case Some(AuthGrant(_)) =>
              if GrantValid(s, wrapper) {
                Stuck(s, rounds, i);
                return Some(Ok(())), sends, attempt;
              }
            case Some(AuthDenial(challenge)) =>
              if challenge == s.challenge {
                Stuck(s, rounds, i);
                return Some(Err(ExplicitDenial)), sends, attempt;
              }
            case _ =>
          }
      }
    }
    assert rounds[..i] == rounds;
    result := None;
  }

  /** A run that has its result keeps it. */
  lemma {:induction false} Stuck(s: Session, rounds: seq<Round>, n: nat)
    requires n <= |rounds| && Run(s, rounds[..n]).result.Some?
    ensures Run(s, rounds) == Run(s, rounds[..n])
  {
    if n == |rounds| {
      assert rounds[..n] == rounds;
    } else {
      assert Front(rounds)[..n] == rounds[..n];
      Stuck(s, Front(rounds), n);
    }
  }

  // ---- When a run ends, and why ---------------------------------------------

  predicate IsPacket(r: Round, fp: Bytes) {
    r.receive.Received? && Fingerprint(r.receive.packet) == fp
  }

  /** Some earlier round already brought a packet with this fingerprint. */
  predicate SeenBefore(rounds: seq<Round>, k: nat, fp: Bytes)
    requires k <= |rounds|
  {
    exists i | 0 <= i < k :: IsPacket(rounds[i], fp)
  }

  /** The result round `k` would give a run still going, from the received input alone. */
  function Decision(s: Session, rounds: seq<Round>, k: nat): Option<Result<(), AuthError>>
    requires k < |rounds|
  {
    var r := rounds[k];
    if r.elapsed >= SESSION_TIMEOUT then Some(Err(TimedOut))
    else if !r.sent || r.receive.ReceiveError? then Some(Err(TransportFailed))
    else if r.receive.NoResponse? || SeenBefore(rounds, k, Fingerprint(r.receive.packet)) then None
    else if React(s, r.receive.packet).Final? then Some(React(s, r.receive.packet).result)
    else None
  }

  /** While a run is going, the cache holds exactly the fingerprints received so far. */
  ghost predicate CacheExact(rounds: seq<Round>, cache: set<Bytes>) {
    forall fp :: fp in cache <==> SeenBefore(rounds, |rounds|, fp)
  }

  lemma SeenAppend(rounds: seq<Round>, r: Round, fp: Bytes)
    ensures SeenBefore(rounds + [r], |rounds| + 1, fp) <==> SeenBefore(rounds, |rounds|, fp) || IsPacket(r, fp)
  {
    var all := rounds + [r];
    assert all[|rounds|] == r;
    assert forall i | 0 <= i < |rounds| :: all[i] == rounds[i];
  }

  lemma DecisionOfPrefix(s: Session, rounds: seq<Round>, n: nat, k: nat)
    requires k < n <= |rounds|
    ensures Decision(s, rounds[..n], k) == Decision(s, rounds, k)
  {
    assert forall fp :: SeenBefore(rounds[..n], k, fp) == SeenBefore(rounds, k, fp);
  }

  /** A run still going takes the decision of its next round, and remembers the packet. */
  lemma LastRoundDecides(s: Session, rounds: seq<Round>)
    requires rounds != [] && Run(s, Front(rounds)).result.None?
    requires CacheExact(Front(rounds), Run(s, Front(rounds)).nonceCache)
    ensures Run(s, rounds).result == Decision(s, rounds, |rounds| - 1)
    ensures Run(s, rounds).result.None? ==> CacheExact(rounds, Run(s, rounds).nonceCache)
  {
    var front := Front(rounds);
    assert front + [Last(rounds)] == rounds;
    forall fp {
      SeenAppend(front, Last(rounds), fp);
    }
    assert forall fp :: SeenBefore(rounds, |front|, fp) == SeenBefore(front, |front|, fp);
  }

  /**
   A run ends at the first round with a decision, with that decision; it is still
   going when no round has one.
   */
  lemma {:induction false} RunEndsAtFirstDecision(s: Session, rounds: seq<Round>) returns (k: nat)
    ensures k <= |rounds|
    ensures forall i | 0 <= i < k :: Decision(s, rounds, i) == None
    ensures Run(s, rounds).result == if k < |rounds| then Decision(s, rounds, k) else None
    ensures k < |rounds| ==> Run(s, rounds).result.Some?
    ensures k == |rounds| ==> CacheExact(rounds, Run(s, rounds).nonceCache)
  {
    if rounds == [] {
      return 0;
    }
    var front := Front(rounds);
    k := RunEndsAtFirstDecision(s, front);
    forall i | 0 <= i < |front| ensures Decision(s, front, i) == Decision(s, rounds, i) {
      DecisionOfPrefix(s, rounds, |front|, i);
    }
    if k == |front| {
      LastRoundDecides(s, rounds);
      if Run(s, rounds).result.None? {
        k := k + 1;
      }
    }
  }

  /** Ed25519 accepts the wrapper's signature over its encoding without that signature. */
  predicate SignatureVerifies(s: Session, w: Wrapper, key: Bytes) {
    s.scheme.verify(key, s.scheme.encode(Wrapper(w.version, w.signatureAlgorithm, [], w.payload)), w.signature)
  }

  /** The server is paired, and its stored text decodes to this 32-byte key. */
  predicate PairedKey(s: Session, id: string, key: Bytes) {
    id in s.servers && s.scheme.hexDecode(s.servers[id].publicKey) == Some(key) && |key| == 32
  }

  /** Round `k` brings a packet not received before that opens under the CSK to this wrapper. */
  predicate Opens(s: Session, rounds: seq<Round>, k: nat, w: Wrapper) {
    && k < |rounds| && rounds[k].receive.Received?
    && !SeenBefore(rounds, k, Fingerprint(rounds[k].receive.packet))
    && s.decrypt(rounds[k].receive.packet.ciphertext) == Some(w)
  }

  /**
   The packet of round `k` is not a replay and opens under the CSK to a grant, and
   one paired key verifies both the wrapper and the signature over this session's
   challenge.
   */
  predicate VerifiedGrant(s: Session, rounds: seq<Round>, k: nat, id: string) {
    && k < |rounds| && rounds[k].receive.Received? && id in s.servers && |s.challenge| == 32
    && var plain := s.decrypt(rounds[k].receive.packet.ciphertext);
    && var key := s.scheme.hexDecode(s.servers[id].publicKey);
    && plain.Some? && Opens(s, rounds, k, plain.value)
    && key.Some? && PairedKey(s, id, key.value)
    && SignatureVerifies(s, plain.value, key.value)
    && plain.value.payload.Some? && plain.value.payload.value.AuthGrant?
    && s.scheme.verify(key.value, s.challenge, plain.value.payload.value.signedChallenge)
  }

  /** The same for a denial, which carries the challenge itself. */
  predicate VerifiedDenial(s: Session, rounds: seq<Round>, k: nat, id: string) {
    && k < |rounds| && rounds[k].receive.Received? && id in s.servers
    && var plain := s.decrypt(rounds[k].receive.packet.ciphertext);
    && var key := s.scheme.hexDecode(s.servers[id].publicKey);
    && plain.Some? && Opens(s, rounds, k, plain.value)
    && key.Some? && PairedKey(s, id, key.value)
    && SignatureVerifies(s, plain.value, key.value)
    && plain.value.payload == Some(AuthDenial(s.challenge))
  }

  /** A round in time whose send went through. */
  predicate InTime(r: Round) {
    r.elapsed < 120_000 && r.sent
  }

  /** The packet of round `k` was not received before and does not open under the CSK. */
  predicate Garbled(s: Session, rounds: seq<Round>, k: nat) {
    && k < |rounds| && rounds[k].receive.Received?
    && !SeenBefore(rounds, k, Fingerprint(rounds[k].receive.packet))
    && s.decrypt(rounds[k].receive.packet.ciphertext).None?
  }

  predicate Granted(s: Session, rounds: seq<Round>, k: nat) {
    exists id | id in s.servers :: VerifiedGrant(s, rounds, k, id)
  }

  predicate Denied(s: Session, rounds: seq<Round>, k: nat) {
    exists id | id in s.servers :: VerifiedDenial(s, rounds, k, id)
  }

  /** Round `k` ends a run that is still going: too late, not sent, broken, garbled, granted or denied. */
  predicate EndsRun(s: Session, rounds: seq<Round>, k: nat)
    requires k < |rounds|
  {
    || !InTime(rounds[k]) || rounds[k].receive.ReceiveError?
    || Garbled(s, rounds, k) || Granted(s, rounds, k) || Denied(s, rounds, k)
  }

  ghost predicate FirstEnd(s: Session, rounds: seq<Round>, k: nat) {
    k < |rounds| && EndsRun(s, rounds, k) && forall i | 0 <= i < k :: !EndsRun(s, rounds, i)
  }

  lemma ReactIff(s: Session, rounds: seq<Round>, k: nat)
    requires k < |rounds| && rounds[k].receive.Received?
    requires !SeenBefore(rounds, k, Fingerprint(rounds[k].receive.packet))
    ensures var r := React(s, rounds[k].receive.packet);
            && (r == Final(Err(Undecryptable)) <==> Garbled(s, rounds, k))
            && (r == Final(Ok(())) <==> Granted(s, rounds, k))
            && (r == Final(Err(ExplicitDenial)) <==> Denied(s, rounds, k))
            && (r.Final? ==> r.result in {Err(Undecryptable), Ok(()), Err(ExplicitDenial)})
  {
    var p := rounds[k].receive.packet;
    if s.decrypt(p.ciphertext).Some? {
      var w := s.decrypt(p.ciphertext).value;
      GrantIff(s, rounds, k, w);
      DenialIff(s, rounds, k, w);
    }
  }

  lemma GrantIff(s: Session, rounds: seq<Round>, k: nat, w: Wrapper)
    requires Opens(s, rounds, k, w)
    ensures Granted(s, rounds, k) <==>
              SignedByPaired(s, w) && w.payload.Some? && w.payload.value.AuthGrant? && GrantValid(s, w)
  {
    forall id | id in s.servers && KeyOf(s, id).Some?
      ensures VerifyGrant(s.scheme, w, s.challenge, KeyOf(s, id).value) == Ok(()) <==> VerifiedGrant(s, rounds, k, id)
    {
      VerifyGrantIff(s.scheme, w, s.challenge, KeyOf(s, id).value);
    }
    if GrantValid(s, w) {
      var id :| id in s.servers && KeyOf(s, id).Some?
                && VerifyGrant(s.scheme, w, s.challenge, KeyOf(s, id).value) == Ok(());
      assert VerifiedGrant(s, rounds, k, id) && VerifyWrapper(s.scheme, w, KeyOf(s, id).value);
    }
    if Granted(s, rounds, k) {
      var id :| id in s.servers && VerifiedGrant(s, rounds, k, id);
      assert KeyOf(s, id).Some? && VerifyGrant(s.scheme, w, s.challenge, KeyOf(s, id).value) == Ok(());
    }
  }

  lemma DenialIff(s: Session, rounds: seq<Round>, k: nat, w: Wrapper)
    requires Opens(s, rounds, k, w)
    ensures Denied(s, rounds, k) <==> SignedByPaired(s, w) && w.payload == Some(AuthDenial(s.challenge))
  {
    if SignedByPaired(s, w) && w.payload == Some(AuthDenial(s.challenge)) {
      var id :| id in s.servers && KeyOf(s, id).Some? && VerifyWrapper(s.scheme, w, KeyOf(s, id).value);
      assert VerifiedDenial(s, rounds, k, id);
    }
    if Denied(s, rounds, k) {
      var id :| id in s.servers && VerifiedDenial(s, rounds, k, id);
      assert KeyOf(s, id).Some? && VerifyWrapper(s.scheme, w, KeyOf(s, id).value);
    }
  }

  lemma DecisionIff(s: Session, rounds: seq<Round>, k: nat)
    requires k < |rounds|
    ensures var d, r := Decision(s, rounds, k), rounds[k];
            && (d == None <==> !EndsRun(s, rounds, k))
            && (d == Some(Err(TimedOut)) <==> r.elapsed >= 120_000)
            && (d == Some(Err(TransportFailed)) <==> r.elapsed < 120_000 && (!r.sent || r.receive.ReceiveError?))
            && (d == Some(Err(Undecryptable)) <==> InTime(r) && Garbled(s, rounds, k))
            && (d == Some(Ok(())) <==> InTime(r) && Granted(s, rounds, k))
            && (d == Some(Err(ExplicitDenial)) <==> InTime(r) && Denied(s, rounds, k))
  {
    var r := rounds[k];
    if r.receive.Received? && !SeenBefore(rounds, k, Fingerprint(r.receive.packet)) {
      ReactIff(s, rounds, k);
    }
  }

  /** The round a run ends at, and with what. */
  lemma EndOfRun(s: Session, rounds: seq<Round>) returns (k: nat)
    ensures if k == |rounds| then Run(s, rounds).result == None && forall i | 0 <= i < k :: !EndsRun(s, rounds, i)
            else FirstEnd(s, rounds, k) && Run(s, rounds).result == Decision(s, rounds, k)
    ensures forall j: nat :: FirstEnd(s, rounds, j) ==> j == k
  {
    k := RunEndsAtFirstDecision(s, rounds);
    forall i | 0 <= i < |rounds| ensures Decision(s, rounds, i) == None <==> !EndsRun(s, rounds, i) {
      DecisionIff(s, rounds, i);
    }
  }

  /**
   For every sequence of received packets the run succeeds exactly when some round
   in time brings a verified grant before any round has ended the run.
   */
  lemma SuccessIffVerifiedGrant(s: Session, rounds: seq<Round>)
    ensures Run(s, rounds).result == Some(Ok(())) <==>
            exists k: nat, id :: FirstEnd(s, rounds, k) && InTime(rounds[k]) && VerifiedGrant(s, rounds, k, id)
  {
    var end := EndOfRun(s, rounds);
    if end < |rounds| {
      DecisionIff(s, rounds, end);
    }
    if Run(s, rounds).result == Some(Ok(())) {
      var id :| id in s.servers && VerifiedGrant(s, rounds, end, id);
    }
    if k: nat, id :| FirstEnd(s, rounds, k) && InTime(rounds[k]) && VerifiedGrant(s, rounds, k, id) {
      assert Granted(s, rounds, end);
    }
  }

  /** And it is explicitly denied exactly when a verified denial comes first. */
  lemma DenialIffVerifiedDenial(s: Session, rounds: seq<Round>)
    ensures Run(s, rounds).result == Some(Err(ExplicitDenial)) <==>
            exists k: nat, id :: FirstEnd(s, rounds, k) && InTime(rounds[k]) && VerifiedDenial(s, rounds, k, id)
  {
    var end := EndOfRun(s, rounds);
    if end < |rounds| {
      DecisionIff(s, rounds, end);
    }
    if Run(s, rounds).result == Some(Err(ExplicitDenial)) {
      var id :| id in s.servers && VerifiedDenial(s, rounds, end, id);
    }
    if k: nat, id :| FirstEnd(s, rounds, k) && InTime(rounds[k]) && VerifiedDenial(s, rounds, k, id) {
      assert Denied(s, rounds, end);
    }
  }

  /**
   It goes on while no round ends it, so a grant or denial for another challenge, a
   wrong signature or a replay never does; and it fails exactly when the first round
   to end it is too late, not sent or broken, or brings a packet that does not open.
   */
  lemma FailureIff(s: Session, rounds: seq<Round>)
    ensures Run(s, rounds).result == None <==> forall k | 0 <= k < |rounds| :: !EndsRun(s, rounds, k)
    ensures Run(s, rounds).result == Some(Err(TimedOut))
            <==> exists k: nat :: FirstEnd(s, rounds, k) && rounds[k].elapsed >= 120_000
    ensures Run(s, rounds).result == Some(Err(TransportFailed))
            <==> exists k: nat :: FirstEnd(s, rounds, k) && rounds[k].elapsed < 120_000
                                  && (!rounds[k].sent || rounds[k].receive.ReceiveError?)
    ensures Run(s, rounds).result == Some(Err(Undecryptable))
            <==> exists k: nat :: FirstEnd(s, rounds, k) && InTime(rounds[k]) && Garbled(s, rounds, k)
  {
    var end := EndOfRun(s, rounds);
    if end < |rounds| {
      DecisionIff(s, rounds, end);
      assert EndsRun(s, rounds, end);
    }
  }

  /**
   Completeness: a grant a paired phone makes for this challenge, seals under the
   CSK and gets through in time is accepted.
   */
  lemma HonestGrantIsAccepted(s: Session, rounds: seq<Round>, k: nat, id: string, key: Bytes)
    requires Correct(s.scheme) && |s.challenge| == CHALLENGE_LENGTH
    requires id in s.servers && KeyOf(s, id) == Some(s.scheme.publicKey(key))
    requires k < |rounds| && InTime(rounds[k]) && rounds[k].receive.Received?
    requires s.decrypt(rounds[k].receive.packet.ciphertext)
             == Some(Signed(s.scheme, Wrap(CreateGrant(s.scheme, key, s.challenge).value), key))
    requires !SeenBefore(rounds, k, Fingerprint(rounds[k].receive.packet))
    requires forall i | 0 <= i < k :: !EndsRun(s, rounds, i)
    ensures Run(s, rounds).result == Some(Ok(()))
  {
    var w := Signed(s.scheme, Wrap(CreateGrant(s.scheme, key, s.challenge).value), key);
    GrantRoundTrip(s.scheme, key, s.challenge);
    VerifyGrantIff(s.scheme, w, s.challenge, s.scheme.publicKey(key));
    assert VerifiedGrant(s, rounds, k, id);
    assert FirstEnd(s, rounds, k);
    SuccessIffVerifiedGrant(s, rounds);
  }

  // ---- How often a run asks -------------------------------------------------

  /** No paired key verifies the wrapper. */
  predicate Unsigned(s: Session, w: Wrapper) {
    forall id | id in s.servers && KeyOf(s, id).Some? :: !SignatureVerifies(s, w, KeyOf(s, id).value)
  }

  /** A round that lengthens the next wait: silence, a replay, or a packet no paired phone signed. */
  predicate Retries(s: Session, rounds: seq<Round>, k: nat)
    requires k < |rounds|
  {
    var receive := rounds[k].receive;
    || receive.NoResponse?
    || (receive.Received? && SeenBefore(rounds, k, Fingerprint(receive.packet)))
    || (receive.Received? && s.decrypt(receive.packet.ciphertext).Some?
        && Unsigned(s, s.decrypt(receive.packet.ciphertext).value))
  }

  function CountRetries(s: Session, rounds: seq<Round>, n: nat): nat
    requires n <= |rounds|
  {
    if n == 0 then 0 else CountRetries(s, rounds, n - 1) + if Retries(s, rounds, n - 1) then 1 else 0
  }

  lemma {:induction false} CountOfPrefix(s: Session, rounds: seq<Round>, m: nat, n: nat)
    requires n <= m <= |rounds|
    ensures CountRetries(s, rounds[..m], n) == CountRetries(s, rounds, n)
  {
    if n > 0 {
      CountOfPrefix(s, rounds, m, n - 1);
      var k := n - 1;
      assert forall fp :: SeenBefore(rounds[..m], k, fp) == SeenBefore(rounds, k, fp);
    }
  }

  /**
   While a run goes on it sends once per round, and the wait grows once per round of
   silence, per replay and per packet no paired phone signed, but not for a signed
   message that does not answer this challenge.
   */
  lemma {:induction false} AsksOncePerRound(s: Session, rounds: seq<Round>)
    requires Run(s, rounds).result == None
    ensures Run(s, rounds).sends == |rounds|
    ensures Run(s, rounds).attempt == CountRetries(s, rounds, |rounds|)
  {
    if rounds != [] {
      var front := Front(rounds);
      AsksOncePerRound(s, front);
      CountOfPrefix(s, rounds, |front|, |front|);
      var k := RunEndsAtFirstDecision(s, front);
      assert rounds[..|front|] == front;
      var r := Last(rounds);
      if r.receive.Received? {
        var fp := Fingerprint(r.receive.packet);
        assert SeenBefore(rounds, |front|, fp) == SeenBefore(front, |front|, fp);
        SignedIff(s, r.receive.packet);
      }
    }
  }

  lemma SignedIff(s: Session, p: Packet)
    ensures s.decrypt(p.ciphertext).Some? ==>
              (SignedByPaired(s, s.decrypt(p.ciphertext).value) <==> !Unsigned(s, s.decrypt(p.ciphertext).value))
  {
    if s.decrypt(p.ciphertext).Some? {
      var w := s.decrypt(p.ciphertext).value;
      forall id | id in s.servers && KeyOf(s, id).Some?
        ensures VerifyWrapper(s.scheme, w, KeyOf(s, id).value) <==> SignatureVerifies(s, w, KeyOf(s, id).value)
      {
        assert w.(signature := []) == Wrapper(w.version, w.signatureAlgorithm, [], w.payload);
      }
    }
  }

  /** A run that has ended sent once per round before its last, and in its last if that was in time. */
  lemma AskedUntilTheEnd(s: Session, rounds: seq<Round>, k: nat)
    requires FirstEnd(s, rounds, k)
    ensures Run(s, rounds).sends == k + if InTime(rounds[k]) then 1 else 0
  {
    var before, upto := rounds[..k], rounds[..k + 1];
    var end := EndOfRun(s, rounds);
    var b := RunEndsAtFirstDecision(s, before);
    forall i | 0 <= i < k ensures Decision(s, before, i) == None {
      DecisionOfPrefix(s, rounds, k, i);
      DecisionIff(s, rounds, i);
    }
    AsksOncePerRound(s, before);
    assert Front(upto) == before && Last(upto) == rounds[k];
    LastRoundDecides(s, upto);
    DecisionOfPrefix(s, rounds, k + 1, k);
    DecisionIff(s, rounds, k);
    Stuck(s, rounds, k + 1);
  }

  // ---- Replays --------------------------------------------------------------

  /** The rounds without later packets of a fingerprint already received. */
  function WithoutReplays(rounds: seq<Round>): seq<Round> {
    if rounds == [] then []
    else
      var r := Last(rounds);
      if r.receive.Received? && SeenBefore(rounds, |rounds| - 1, Fingerprint(r.receive.packet))
      then WithoutReplays(Front(rounds))
      else WithoutReplays(Front(rounds)) + [r]
  }

  /** Two runs that can only differ in how often they tried. */
  predicate Alike(p: Progress, q: Progress) {
    p.result == q.result && p.nonceCache == q.nonceCache && p.decrypted == q.decrypted
  }

  lemma StepKeepsAlike(s: Session, p: Progress, q: Progress, r: Round)
    requires Alike(p, q)
    ensures Alike(Step(s, p, r), Step(s, q, r))
  {
  }

  /** In time and sent, a round with a packet already in the cache leaves a run as it was. */
  lemma ReplayIsSkipped(s: Session, p: Progress, r: Round)
    requires InTime(r) && r.receive.Received? && (p.result.Some? || Fingerprint(r.receive.packet) in p.nonceCache)
    ensures Alike(Step(s, p, r), p)
  {
  }

  /** Round `k` brings a packet whose fingerprint was received before. */
  predicate IsReplay(rounds: seq<Round>, k: nat)
    requires k < |rounds|
  {
    rounds[k].receive.Received? && SeenBefore(rounds, k, Fingerprint(rounds[k].receive.packet))
  }

  /**
   Replays are invisible, except that a round spent on one may be the round in which
   the session runs out or its send fails: dropping those in time and sent changes
   neither the verdict nor what gets decrypted.
   */
  lemma {:induction false} ReplaysChangeNothing(s: Session, rounds: seq<Round>)
    requires forall k | 0 <= k < |rounds| && IsReplay(rounds, k) :: InTime(rounds[k])
    ensures Alike(Run(s, rounds), Run(s, WithoutReplays(rounds)))
  {
    if rounds != [] {
      var front, r := Front(rounds), Last(rounds);
      forall k | 0 <= k < |front| && IsReplay(front, k) ensures InTime(front[k]) {
        assert IsReplay(rounds, k);
      }
      ReplaysChangeNothing(s, front);
      if IsReplay(rounds, |front|) {
        var k := RunEndsAtFirstDecision(s, front);
        assert SeenBefore(front, |front|, Fingerprint(r.receive.packet));
        ReplayIsSkipped(s, Run(s, front), r);
      } else {
        assert Front(WithoutReplays(front) + [r]) == WithoutReplays(front);
        StepKeepsAlike(s, Run(s, front), Run(s, WithoutReplays(front)), r);
      }
    }
  }

  /** Everything decrypted is in the cache, and nothing was decrypted twice. */
  ghost predicate NoneTwice(q: Progress) {
    && (forall fp | fp in q.decrypted :: fp in q.nonceCache)
    && (forall i, j | 0 <= i < j < |q.decrypted| :: q.decrypted[i] != q.decrypted[j])
  }

  /** No fingerprint ever reaches the decryption twice, replayed or not. */
  lemma {:induction false} DecryptedOnce(s: Session, rounds: seq<Round>)
    ensures NoneTwice(Run(s, rounds))
  {
    if rounds != [] {
      DecryptedOnce(s, Front(rounds));
      var p, q := Run(s, Front(rounds)), Run(s, rounds);
      if q.decrypted != p.decrypted {
        var fp := Fingerprint(Last(rounds).receive.packet);
        assert fp !in p.nonceCache && q.nonceCache == p.nonceCache + {fp} && q.decrypted == p.decrypted + [fp];
        assert NoneTwice(q);
      }
    }
  }

  // ---- What the fingerprint can tell apart ----------------------------------

  /** Packets with identifiers of these lengths share a fingerprint only if they are equal. */
  ghost predicate Injective(m: nat, n: nat) {
    forall p: Packet, q: Packet | |p.temporalId| == m && |q.temporalId| == n
        && Fingerprint(p) == Fingerprint(q) :: p == q
  }

  lemma SameLengthSamePacket(p: Packet, q: Packet)
    requires |p.temporalId| == |q.temporalId| && Fingerprint(p) == Fingerprint(q)
    ensures p == q
  {
    var n := |p.temporalId|;
    assert Fingerprint(p)[..n] == p.temporalId && Fingerprint(q)[..n] == q.temporalId;
    assert Fingerprint(p)[n..] == p.ciphertext && Fingerprint(q)[n..] == q.ciphertext;
  }

  /** The boundary is not part of the key: moving it gives another packet with the same fingerprint. */
  function Moved(m: nat, n: nat): (Packet, Packet)
    requires m < n
  {
    var z: Bytes := seq(n, _ => 0);
    (Packet(z[..m], z[m..]), Packet(z, []))
  }

  lemma MovedBoundaryCollides(m: nat, n: nat)
    requires m < n
    ensures var (p, q) := Moved(m, n);
            |p.temporalId| == m && |q.temporalId| == n && p.ciphertext != [] && q.ciphertext == []
                && Fingerprint(p) == Fingerprint(q)
  {
    var z: Bytes := seq(n, _ => 0);
    assert z[..m] + z[m..] == z + [];
  }

  /**
   A fingerprint stands for one packet if and only if the identifiers have one length.
   Phones make them 16 bytes long; the daemon takes what it receives.
   */
  lemma InjectiveIffSameLength(m: nat, n: nat)
    ensures Injective(m, n) <==> m == n
  {
    if m == n {
      forall p: Packet, q: Packet | |p.temporalId| == m && |q.temporalId| == n
          && Fingerprint(p) == Fingerprint(q) ensures p == q {
        SameLengthSamePacket(p, q);
      }
    } else if m < n {
      MovedBoundaryCollides(m, n);
      var (p, q) := Moved(m, n);
      assert p != q;
    } else {
      MovedBoundaryCollides(n, m);
      var (p, q) := Moved(n, m);
      assert q != p;
    }
  }

  // ---- A run without the cache ----------------------------------------------

  /** What a round decides by itself, whatever was received before. */
  function Verdict(s: Session, r: Round): Option<Result<(), AuthError>> {
    if r.elapsed >= SESSION_TIMEOUT then Some(Err(TimedOut))
    else if !r.sent || r.receive.ReceiveError? then Some(Err(TransportFailed))
    else if r.receive.Received? && React(s, r.receive.packet).Final? then Some(React(s, r.receive.packet).result)
    else None
  }

  type Judge = Round -> Option<Result<(), AuthError>>

  function JudgeOf(s: Session): Judge {
    r => Verdict(s, r)
  }

  /** The first verdict of a judge who remembers nothing. */
  function First(judge: Judge, rounds: seq<Round>): Option<Result<(), AuthError>> {
    if rounds == [] then None
    else if First(judge, Front(rounds)).Some? then First(judge, Front(rounds))
    else judge(Last(rounds))
  }

  /** The verdict of a run without the replay cache. */
  function FirstVerdict(s: Session, rounds: seq<Round>): Option<Result<(), AuthError>> {
    First(JudgeOf(s), rounds)
  }

  lemma {:induction false} FirstIs(judge: Judge, rounds: seq<Round>, k: nat)
    requires k <= |rounds| && forall i | 0 <= i < k :: judge(rounds[i]) == None
    requires k < |rounds| ==> judge(rounds[k]).Some?
    ensures First(judge, rounds) == if k < |rounds| then judge(rounds[k]) else None
  {
    if rounds != [] {
      FirstIs(judge, Front(rounds), if k < |rounds| then k else |rounds| - 1);
    }
  }

  /** The identifiers received have one of these two lengths. */
  ghost predicate IdLengths(rounds: seq<Round>, m: nat, n: nat) {
    forall k | 0 <= k < |rounds| && rounds[k].receive.Received? ::
      |rounds[k].receive.packet.temporalId| == m || |rounds[k].receive.packet.temporalId| == n
  }

  /** A round without a decision has no verdict either: a replay repeats one that had none. */
  lemma {:induction false} NoDecisionNoVerdict(s: Session, rounds: seq<Round>, n: nat, i: nat)
    requires IdLengths(rounds, n, n) && i < |rounds|
    requires forall j | 0 <= j <= i :: Decision(s, rounds, j) == None
    ensures Verdict(s, rounds[i]) == None
  {
    var r := rounds[i];
    assert Decision(s, rounds, i) == None;
    if r.receive.Received? && SeenBefore(rounds, i, Fingerprint(r.receive.packet)) {
      var j :| 0 <= j < i && IsPacket(rounds[j], Fingerprint(r.receive.packet));
      SameLengthSamePacket(rounds[j].receive.packet, r.receive.packet);
      NoDecisionNoVerdict(s, rounds, n, j);
    }
  }

  /** The replay cache decides nothing: with identifiers of one length, a run ends as one that remembers nothing. */
  lemma CacheIsInvisible(s: Session, rounds: seq<Round>, n: nat)
    requires IdLengths(rounds, n, n)
    ensures Run(s, rounds).result == FirstVerdict(s, rounds)
  {
    var k := RunEndsAtFirstDecision(s, rounds);
    forall i | 0 <= i < k ensures JudgeOf(s)(rounds[i]) == None {
      NoDecisionNoVerdict(s, rounds, n, i);
    }
    FirstIs(JudgeOf(s), rounds, k);
  }

  ghost predicate CacheInvisible(m: nat, n: nat) {
    forall s, rounds | IdLengths(rounds, m, n) :: Run(s, rounds).result == FirstVerdict(s, rounds)
  }

  /** Opens everything but the empty ciphertext; the key of its only server does not decode. */
  function Distrustful(): Session {
    Session(Scheme(k => k, (k, m) => m, (pk, m, sig) => false, w => [], t => None),
            c => if c == [] then None else Some(Wrapper(1, ED25519, [], None)),
            map["a" := PairedServer("not hex", ["u"])], seq(CHALLENGE_LENGTH, _ => 0))
  }

  /** Of two packets with one fingerprint the second is not looked at, though alone it would end the run. */
  lemma CacheHidesAPacket(m: nat, n: nat)
    requires m < n
    ensures !CacheInvisible(m, n) && !CacheInvisible(n, m)
  {
    MovedBoundaryCollides(m, n);
    var (p, q) := Moved(m, n);
    var s := Distrustful();
    var one, two := [Round(0, true, Received(p))], [Round(0, true, Received(p)), Round(1, true, Received(q))];
    assert Front(one) == [] && Front(two) == one;
    assert React(s, p) == Retry && React(s, q) == Final(Err(Undecryptable));
    assert Run(s, one) == Progress(None, 1, {Fingerprint(p)}, 1, [Fingerprint(p)]);
    assert Run(s, two).result == None;
    assert JudgeOf(s)(two[0]) == None && JudgeOf(s)(two[1]) == Some(Err(Undecryptable));
    FirstIs(JudgeOf(s), two, 1);
    assert IdLengths(two, m, n) && IdLengths(two, n, m);
  }

  /** The cache leaves every verdict alone if and only if the identifiers have one length. */
  lemma CacheInvisibleIffOneLength(m: nat, n: nat)
    ensures CacheInvisible(m, n) <==> m == n
  {
    if m == n {
      forall s, rounds | IdLengths(rounds, m, n) ensures Run(s, rounds).result == FirstVerdict(s, rounds) {
        CacheIsInvisible(s, rounds, m);
      }
    } else if m < n {
      CacheHidesAPacket(m, n);
    } else {
      CacheHidesAPacket(n, m);
    }
  }

  // ---- Copies under another identifier --------------------------------------

  predicate SameCiphertext(r: Round, t: Round) {
    r.receive.Received? && t.receive.Received? && r.receive.packet.ciphertext == t.receive.packet.ciphertext
  }

  /** Round `k` brings a ciphertext received before, under whatever identifier. */
  predicate IsCopy(rounds: seq<Round>, k: nat)
    requires k < |rounds|
  {
    exists i | 0 <= i < k :: SameCiphertext(rounds[i], rounds[k])
  }

  /** Every round that repeats an earlier ciphertext is in time and sent. */
  predicate CopiesInTime(rounds: seq<Round>) {
    rounds == [] || (CopiesInTime(Front(rounds)) && (IsCopy(rounds, |rounds| - 1) ==> InTime(Last(rounds))))
  }

  function WithoutCopies(rounds: seq<Round>): seq<Round> {
    if rounds == [] then []
    else if IsCopy(rounds, |rounds| - 1) then WithoutCopies(Front(rounds))
    else WithoutCopies(Front(rounds)) + [Last(rounds)]
  }

  lemma {:induction false} NoneBefore(judge: Judge, rounds: seq<Round>, i: nat)
    requires i < |rounds| && First(judge, rounds) == None
    ensures judge(rounds[i]) == None
  {
    if i < |rounds| - 1 {
      NoneBefore(judge, Front(rounds), i);
    }
  }

  /** A judge who looks at the ciphertext only, once a round is in time. */
  ghost predicate ByCiphertext(judge: Judge) {
    forall r, t {:trigger SameCiphertext(r, t)} | SameCiphertext(r, t) && InTime(t) && judge(r) == None ::
      judge(t) == None
  }

  lemma CopyRepeats(judge: Judge, rounds: seq<Round>)
    requires rounds != [] && ByCiphertext(judge) && First(judge, Front(rounds)) == None
    requires IsCopy(rounds, |rounds| - 1) && InTime(Last(rounds))
    ensures judge(Last(rounds)) == None
  {
    var i :| 0 <= i < |rounds| - 1 && SameCiphertext(rounds[i], Last(rounds));
    NoneBefore(judge, Front(rounds), i);
  }

  lemma {:induction false} CopiesDoNotMatter(judge: Judge, rounds: seq<Round>)
    requires ByCiphertext(judge) && CopiesInTime(rounds)
    ensures First(judge, rounds) == First(judge, WithoutCopies(rounds))
  {
    if rounds != [] {
      var front, r := Front(rounds), Last(rounds);
      CopiesDoNotMatter(judge, front);
      if !IsCopy(rounds, |front|) {
        assert Front(WithoutCopies(front) + [r]) == WithoutCopies(front);
      } else if First(judge, front).None? {
        CopyRepeats(judge, rounds);
      }
    }
  }

  lemma VerdictIsByCiphertext(s: Session)
    ensures ByCiphertext(JudgeOf(s))
  {
    forall r, t | SameCiphertext(r, t) && InTime(t) && JudgeOf(s)(r) == None ensures JudgeOf(s)(t) == None {
      assert React(s, r.receive.packet) == React(s, t.receive.packet);
    }
  }

  lemma {:induction false} CopiesKeepLengths(rounds: seq<Round>, n: nat)
    requires IdLengths(rounds, n, n)
    ensures IdLengths(WithoutCopies(rounds), n, n)
  {
    if rounds != [] {
      CopiesKeepLengths(Front(rounds), n);
    }
  }

  /** Later copies of a ciphertext under changed identifiers, which the cache does not catch, change no verdict. */
  lemma CopiesChangeNothing(s: Session, rounds: seq<Round>, n: nat)
    requires IdLengths(rounds, n, n) && CopiesInTime(rounds)
    ensures Run(s, rounds).result == Run(s, WithoutCopies(rounds)).result
  {
    CacheIsInvisible(s, rounds, n);
    CopiesKeepLengths(rounds, n);
    CacheIsInvisible(s, WithoutCopies(rounds), n);
    VerdictIsByCiphertext(s);
    CopiesDoNotMatter(JudgeOf(s), rounds);
  }

  // ---- One grant, one session -----------------------------------------------

  /** Under the paired keys of two sessions a signature is one over a single challenge. */
  ghost predicate Binding(s: Session, t: Session) {
    forall id, jd, m: Bytes, n: Bytes, sig
      | id in s.servers && KeyOf(s, id).Some? && jd in t.servers && KeyOf(t, jd).Some?
        && |m| == |n| == CHALLENGE_LENGTH
        && s.scheme.verify(KeyOf(s, id).value, m, sig) && t.scheme.verify(KeyOf(t, jd).value, n, sig) ::
      m == n
  }

  /** With signatures that bind challenges, no grant is accepted in two sessions with different ones. */
  lemma GrantServesOneSession(s: Session, t: Session, rs: seq<Round>, rt: seq<Round>, i: nat, j: nat,
                              id: string, jd: string)
    requires Binding(s, t) && s.challenge != t.challenge
    requires |s.challenge| == |t.challenge| == CHALLENGE_LENGTH
    requires VerifiedGrant(s, rs, i, id) && VerifiedGrant(t, rt, j, jd)
    ensures s.decrypt(rs[i].receive.packet.ciphertext) != t.decrypt(rt[j].receive.packet.ciphertext)
  {
    assert KeyOf(s, id).Some? && KeyOf(t, jd).Some?;
  }
}
