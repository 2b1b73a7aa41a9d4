/**
 Signed wrapper messages. Signatures, the protobuf encoding and hex decoding are
 library code: a `Scheme` holds them as functions, and what is assumed of them is
 stated where it is needed.
 */
module Messages {
  import opened Prelude

  datatype Payload =
    | AuthRequest(challenge: Bytes, username: string, hostname: string, timestamp: nat)
    | AuthGrant(signedChallenge: Bytes)
    | AuthDenial(challenge: Bytes)
    | GrantConfirmation(challenge: Bytes)
    | AuthCancel(challenge: Bytes)

  datatype Wrapper = Wrapper(version: nat, signatureAlgorithm: int, signature: Bytes, payload: Option<Payload>)

  /** SignatureAlgorithm.ED25519 */
  const ED25519 := 1
  const CHALLENGE_LENGTH := 32

  datatype ProtocolError = InvalidMessageFormat | InvalidSignature

  datatype Scheme = Scheme(
    publicKey: Bytes -> Bytes,              // of a signing key
    sign: (Bytes, Bytes) -> Bytes,          // signing key, message
    verify: (Bytes, Bytes, Bytes) -> bool,  // public key, message, signature
    encode: Wrapper -> Bytes,               // protobuf
    hexDecode: string -> Option<Bytes>)

  /** Section 5.1.7 of RFC 8032: what a key signs, its public key verifies. */
  ghost predicate Correct(c: Scheme) {
    forall key, m :: c.verify(c.publicKey(key), m, c.sign(key, m))
  }

  /** What `sign_wrapper_message` leaves in the wrapper. */
  function Signed(c: Scheme, w: Wrapper, key: Bytes): Wrapper {
    var cleared := w.(signatureAlgorithm := ED25519, signature := []);
    cleared.(signature := c.sign(key, c.encode(cleared)))
  }

  /** `verify_wrapper_signature`. */
  predicate VerifyWrapper(c: Scheme, w: Wrapper, publicKey: Bytes) {
    c.verify(publicKey, c.encode(w.(signature := [])), w.signature)
  }

  /** `create_auth_grant`. */
  function CreateGrant(c: Scheme, key: Bytes, challenge: Bytes): (r: Result<Payload, ProtocolError>)
    ensures r.Ok? <==> |challenge| == 32
  {
    if |challenge| != CHALLENGE_LENGTH then Err(InvalidMessageFormat)
    else Ok(AuthGrant(c.sign(key, challenge)))
  }

  /** `wrap_auth_grant` and its siblings. */
  function Wrap(payload: Payload): Wrapper {
    Wrapper(1, ED25519, [], Some(payload))
  }

  /** `verify_auth_grant`. */
  function VerifyGrant(c: Scheme, w: Wrapper, challenge: Bytes, publicKey: Bytes): Result<(), ProtocolError> {
    if |challenge| != CHALLENGE_LENGTH then Err(InvalidMessageFormat)
    else if !VerifyWrapper(c, w, publicKey) then Err(InvalidSignature)
    else if w.payload.None? || !w.payload.value.AuthGrant? then Err(InvalidMessageFormat)
    else if !c.verify(publicKey, challenge, w.payload.value.signedChallenge) then Err(InvalidSignature)
    else Ok(())
  }

  /**
   Signing makes the wrapper verify whatever its signature fields held before,
   and changes nothing a reader of the message looks at.
   */
  lemma SignThenVerify(c: Scheme, w: Wrapper, key: Bytes)
    requires Correct(c)
    ensures VerifyWrapper(c, Signed(c, w, key), c.publicKey(key))
    ensures Signed(c, w, key).payload == w.payload && Signed(c, w, key).version == w.version
    ensures Signed(c, w, key).signatureAlgorithm == 1
    ensures forall alg, sig :: Signed(c, w.(signatureAlgorithm := alg, signature := sig), key) == Signed(c, w, key)
  {
    var signed := Signed(c, w, key);
    assert signed.(signature := []) == w.(signatureAlgorithm := ED25519, signature := []);
  }

  /** A grant made for a challenge, wrapped and signed by the same key, is accepted for it. */
  lemma GrantRoundTrip(c: Scheme, key: Bytes, challenge: Bytes)
    requires Correct(c) && |challenge| == CHALLENGE_LENGTH
    ensures CreateGrant(c, key, challenge).Ok?
    ensures var w := Signed(c, Wrap(CreateGrant(c, key, challenge).value), key);
            VerifyGrant(c, w, challenge, c.publicKey(key)) == Ok(())
  {
    SignThenVerify(c, Wrap(CreateGrant(c, key, challenge).value), key);
  }

  /**
   What a verified grant is: a wrapper whose signature verifies over its own encoding
   with that signature taken out, holding a grant whose signature verifies over the
   challenge, both under the one key.
   */
  lemma VerifyGrantIff(c: Scheme, w: Wrapper, challenge: Bytes, key: Bytes)
    ensures VerifyGrant(c, w, challenge, key) == Ok(()) <==>
              && |challenge| == 32
              && c.verify(key, c.encode(Wrapper(w.version, w.signatureAlgorithm, [], w.payload)), w.signature)
              && w.payload.Some? && w.payload.value.AuthGrant?
              && c.verify(key, challenge, w.payload.value.signedChallenge)
  {
    var r := VerifyGrant(c, w, challenge, key);
    assert r.Ok? ==> r.value == ();
  }

  /** Encodings tell messages apart, and under this key a signature is one over a single encoding. */
  ghost predicate BindsWrappers(c: Scheme, key: Bytes) {
    && (forall v, w | c.encode(v) == c.encode(w) :: v == w)
    && (forall v, w, sig | c.verify(key, c.encode(v), sig) && c.verify(key, c.encode(w), sig) :: v == w)
  }

  /** Then two wrappers with one signature that both verify are the same message: nothing in it can be changed. */
  lemma SignatureCoversMessage(c: Scheme, v: Wrapper, w: Wrapper, key: Bytes)
    requires BindsWrappers(c, key) && v.signature == w.signature
    requires VerifyWrapper(c, v, key) && VerifyWrapper(c, w, key)
    ensures v == w
  {
    assert v.(signature := []) == w.(signature := []);
  }

  /** A wrapper message that is signed in place. */
  class WrapperMessage {
    var message: Wrapper

    constructor (w: Wrapper)
      ensures message == w
    {
      message := w;
    }

    /** `sign_wrapper_message`. */
    method Sign(c: Scheme, key: Bytes)
      modifies this
      ensures message == Signed(c, old(message), key)
    {
      message := message.(signatureAlgorithm := ED25519);
      message := message.(signature := []);
      var dataToSign := c.encode(message);
      message := message.(signature := c.sign(key, dataToSign));
    }
  }
}
