/**
 The two-party pairing protocol. The client (desktop) and the server (phone) are
 two state machines; the network between them may deliver anything.
 */
module PairingSession {
  import opened Prelude

  const PAIRING_VERSION: nat := 1
  const KEY_LENGTH: nat := 32

  /** Key agreement, derivation, authenticated encryption and hashing, as functions. */
  datatype Crypto = Crypto(
    publicOf: Bytes -> Bytes,                     // X25519
    agree: (Bytes, Bytes) -> Option<Bytes>,       // own secret, peer public
    derivePsk: Bytes -> Bytes,                    // HKDF
    deriveSas: (Bytes, Bytes, Bytes) -> string,   // psk, client public, server public
    seal: (Bytes, Bytes, Bytes) -> Bytes,         // key, nonce, plaintext
    unseal: (Bytes, Bytes) -> Option<Bytes>,      // key, ciphertext
    hash: Bytes -> Bytes)

  /** Section 6.1 of RFC 7748: both sides compute the same secret. */
  ghost predicate AgreementCommutes(c: Crypto) {
    forall a, b :: c.agree(a, c.publicOf(b)) == c.agree(b, c.publicOf(a))
  }

  ghost predicate UnsealInverts(c: Crypto) {
    forall k, n, m :: c.unseal(k, c.seal(k, n, m)) == Some(m)
  }

  /** On 32-byte inputs the hash is injective and moves every input. */
  ghost predicate HashSeparates(c: Crypto) {
    && (forall x, y | |x| == |y| == KEY_LENGTH && c.hash(x) == c.hash(y) :: x == y)
    && (forall x | |x| == KEY_LENGTH :: c.hash(x) != x)
  }

  datatype Hello = Hello(version: nat, x25519: Bytes, ed25519: Bytes, name: string)
  datatype Response = Response(version: nat, x25519: Bytes, ed25519: Bytes, name: string)
  datatype CskMessage = CskMessage(encryptedCsk: Bytes, username: string)
  datatype Complete = Complete(success: bool, cskHash: Bytes)

  datatype Error = InvalidMessage | CryptoFailed | MissingField

  // ---- The client -----------------------------------------------------------

  datatype Client = Client(secret: Bytes, ed25519: Bytes, serverKey: Option<Bytes>, psk: Option<Bytes>,
                           sas: Option<string>)

  /** What `initiate_pairing` hands back besides the stream. */
  datatype Peer = Peer(ed25519: Bytes, name: string, sas: string)

  /** `initiate_pairing` on the hello that arrived; `None` is one that cannot be read. */
  function Initiate(c: Crypto, s: Client, hello: Option<Hello>): (Client, Result<Peer, Error>) {
    if hello.None? || hello.value.version != PAIRING_VERSION || |hello.value.x25519| != KEY_LENGTH
    then (s, Err(InvalidMessage))
    else
      var theirs := hello.value.x25519;
      var secret := c.agree(s.secret, theirs);
      if secret.None? then (s.(serverKey := Some(theirs)), Err(CryptoFailed))
      else
        var psk := c.derivePsk(secret.value);
        var sas := c.deriveSas(psk, c.publicOf(s.secret), theirs);
        (s.(serverKey := Some(theirs), psk := Some(psk), sas := Some(sas)),
         if |hello.value.ed25519| != KEY_LENGTH then Err(InvalidMessage)
         else Ok(Peer(hello.value.ed25519, hello.value.name, sas)))
  }

  /** The response `initiate_pairing` sends on the way. */
  function ResponseOf(c: Crypto, s: Client, name: string): Response {
    Response(PAIRING_VERSION, c.publicOf(s.secret), s.ed25519, name)
  }

  /** `send_csk_message`. */
  function SealCsk(c: Crypto, s: Client, csk: Bytes, nonce: Bytes, username: string): Result<CskMessage, Error> {
    if s.psk.None? then Err(MissingField) else Ok(CskMessage(c.seal(s.psk.value, nonce, csk), username))
  }

  /** `receive_pairing_complete`. */
  function CheckComplete(c: Crypto, s: Client, complete: Option<Complete>, csk: Bytes): Result<(), Error> {
    if complete.None? || !complete.value.success then Err(InvalidMessage)
    else if s.psk.None? then Err(MissingField)
    else
      var got := c.unseal(s.psk.value, complete.value.cskHash);
      if got.None? then Err(CryptoFailed)
      else if got.value != c.hash(csk) then Err(InvalidMessage)
      else Ok(())
  }

  // ---- The server -----------------------------------------------------------

  datatype Server = Server(secret: Bytes, ed25519: Bytes, clientKey: Option<Bytes>, clientEd25519: Bytes,
                           clientName: string, psk: Option<Bytes>, sas: Option<string>, csk: Option<Bytes>)

  function HelloOf(c: Crypto, s: Server, name: string): Hello {
    Hello(PAIRING_VERSION, c.publicOf(s.secret), s.ed25519, name)
  }

  /** `complete_pairing` up to the SAS. */
  function TakeResponse(c: Crypto, s: Server, response: Option<Response>): (Server, Result<string, Error>) {
    if response.None? || response.value.version != PAIRING_VERSION || |response.value.x25519| != KEY_LENGTH
    then (s, Err(InvalidMessage))
    else
      var theirs := response.value.x25519;
      var secret := c.agree(s.secret, theirs);
      if secret.None? then (s.(clientKey := Some(theirs)), Err(CryptoFailed))
      else
        var psk := c.derivePsk(secret.value);
        var sas := c.deriveSas(psk, theirs, c.publicOf(s.secret));
        (s.(clientKey := Some(theirs), clientEd25519 := response.value.ed25519, clientName := response.value.name,
            psk := Some(psk), sas := Some(sas)),
         Ok(sas))
  }

  /** `receive_csk_message` and `send_pairing_complete`. */
  function TakeCsk(c: Crypto, s: Server, message: Option<CskMessage>, nonce: Bytes): (Server, Result<Complete, Error>) {
    if message.None? then (s, Err(InvalidMessage))
    else if s.psk.None? then (s, Err(MissingField))
    else
      var got := c.unseal(s.psk.value, message.value.encryptedCsk);
      if got.None? then (s, Err(CryptoFailed))
      else if |got.value| != KEY_LENGTH then (s, Err(InvalidMessage))
      else (s.(csk := got), Ok(Complete(true, c.seal(s.psk.value, nonce, c.hash(got.value)))))
  }

  /** What `complete_pairing` returns: the CSK, the client's Ed25519 key and name, and the SAS. */
  datatype Paired = Paired(csk: Bytes, ed25519: Bytes, name: string, sas: string)

  /** The end of `complete_pairing`, once the acknowledgement is sent. */
  function FinishServer(s: Server): Result<Paired, Error> {
    if s.csk.None? || s.sas.None? then Err(MissingField)
    else if |s.clientEd25519| != KEY_LENGTH then Err(InvalidMessage)
    else Ok(Paired(s.csk.value, s.clientEd25519, s.clientName, s.sas.value))
  }

  // ---- Which messages are refused, and what the others lead to --------------

  /** The pairing key and the SAS two public keys lead to, for the side that holds `secret`. */
  predicate Derived(c: Crypto, secret: Bytes, theirs: Bytes, clientKey: Bytes, serverKey: Bytes, psk: Option<Bytes>,
                    sas: Option<string>) {
    && c.agree(secret, theirs).Some?
    && psk == Some(c.derivePsk(c.agree(secret, theirs).value))
    && sas == Some(c.deriveSas(psk.value, clientKey, serverKey))
  }

  /**
   The client accepts a hello exactly if it can be read, has version 1 and two keys of
   32 bytes, and the keys agree; it is handed the phone's Ed25519 key and name, and a
   SAS over the client's key first and the phone's second.
   */
  lemma InitiateIff(c: Crypto, s: Client, hello: Option<Hello>)
    ensures var (t, r) := Initiate(c, s, hello);
            && (r.Ok? <==> hello.Some? && hello.value.version == 1 && |hello.value.x25519| == 32
                           && |hello.value.ed25519| == 32 && c.agree(s.secret, hello.value.x25519).Some?)
            && (r == Err(CryptoFailed) <==> hello.Some? && hello.value.version == 1 && |hello.value.x25519| == 32
                                            && c.agree(s.secret, hello.value.x25519).None?)
            && (r == Err(CryptoFailed) ==> t == s.(serverKey := Some(hello.value.x25519)))
            && (r.Err? ==> r.error != MissingField)
            && (r.Ok? ==> r.value.ed25519 == hello.value.ed25519 && r.value.name == hello.value.name
                          && t.sas == Some(r.value.sas) && t.serverKey == Some(hello.value.x25519)
                          && Derived(c, s.secret, hello.value.x25519, c.publicOf(s.secret), hello.value.x25519,
                                     t.psk, t.sas))
            && t.secret == s.secret && t.ed25519 == s.ed25519
  {
  }

  /** The phone's session likewise, except that it looks at the client's Ed25519 key only at the end. */
  lemma TakeResponseIff(c: Crypto, s: Server, response: Option<Response>)
    ensures var (t, r) := TakeResponse(c, s, response);
            && (r.Ok? <==> response.Some? && response.value.version == 1 && |response.value.x25519| == 32
                           && c.agree(s.secret, response.value.x25519).Some?)
            && (r == Err(CryptoFailed) <==> response.Some? && response.value.version == 1
                                            && |response.value.x25519| == 32
                                            && c.agree(s.secret, response.value.x25519).None?)
            && (r == Err(CryptoFailed) ==> t == s.(clientKey := Some(response.value.x25519)))
            && (r.Err? ==> r.error != MissingField)
            && (r.Ok? ==> t.sas == Some(r.value) && t.clientKey == Some(response.value.x25519)
                          && t.clientEd25519 == response.value.ed25519 && t.clientName == response.value.name
                          && Derived(c, s.secret, response.value.x25519, response.value.x25519, c.publicOf(s.secret),
                                     t.psk, t.sas))
            && t.secret == s.secret && t.ed25519 == s.ed25519 && t.csk == s.csk
  {
  }

  /** The phone's session takes a CSK exactly if it opens to 32 bytes, and acknowledges with its sealed hash. */
  lemma TakeCskIff(c: Crypto, s: Server, message: Option<CskMessage>, nonce: Bytes)
    ensures var (t, r) := TakeCsk(c, s, message, nonce);
            && (r.Ok? <==> message.Some? && s.psk.Some? && c.unseal(s.psk.value, message.value.encryptedCsk).Some?
                           && |c.unseal(s.psk.value, message.value.encryptedCsk).value| == 32)
            && (r.Ok? ==> t == s.(csk := c.unseal(s.psk.value, message.value.encryptedCsk)) && r.value.success
                          && r.value.cskHash == c.seal(s.psk.value, nonce, c.hash(t.csk.value)))
            && (r.Err? ==> t == s)
            && (r == Err(MissingField) <==> message.Some? && s.psk.None?)
            && (r == Err(CryptoFailed) <==> message.Some? && s.psk.Some?
                                            && c.unseal(s.psk.value, message.value.encryptedCsk).None?)
  {
  }

  /** The client accepts an acknowledgement exactly if it says success and opens to the hash of the CSK it sent. */
  lemma CheckCompleteIff(c: Crypto, s: Client, complete: Option<Complete>, csk: Bytes)
    ensures var r := CheckComplete(c, s, complete, csk);
            var said := complete.Some? && complete.value.success;
            && (r == Ok(()) <==> said && s.psk.Some?
                                 && c.unseal(s.psk.value, complete.value.cskHash) == Some(c.hash(csk)))
            && (r == Err(MissingField) <==> said && s.psk.None?)
            && (r == Err(CryptoFailed) <==> said && s.psk.Some?
                                            && c.unseal(s.psk.value, complete.value.cskHash).None?)
  {
    var r := CheckComplete(c, s, complete, csk);
    assert r.Ok? ==> r.value == ();
  }

  // ---- Undisturbed delivery -------------------------------------------------

  /** Both sides of one pairing, what each was told about the other, and the message with the CSK. */
  datatype Exchange = Exchange(client: Client, server: Server, peer: Peer, message: CskMessage,
                               clientResult: Result<(), Error>, serverResult: Result<Paired, Error>)

  /** Device names and the user, as the messages carry them. */
  datatype Labels = Labels(client: string, server: string, user: string)

  /** One pairing; `ed` is the client's Ed25519 key as the phone received it. */
  function Deliver(c: Crypto, client: Client, server: Server, l: Labels, ed: Bytes, csk: Bytes, n1: Bytes, n2: Bytes)
    : Option<Exchange>
  {
    var (client1, peer) := Initiate(c, client, Some(HelloOf(c, server, l.server)));
    var (server1, sas) := TakeResponse(c, server, Some(ResponseOf(c, client, l.client).(ed25519 := ed)));
    if peer.Err? || sas.Err? then None
    else
      var message := SealCsk(c, client1, csk, n1, l.user);
      if message.Err? then None
      else
        var (server2, complete) := TakeCsk(c, server1, Some(message.value), n2);
        if complete.Err? then None
        else
          Some(Exchange(client1, server2, peer.value, message.value,
                        CheckComplete(c, client1, Some(complete.value), csk), FinishServer(server2)))
  }

  /**
   When messages arrive as sent, both sides show the same SAS and hold the same
   pairing key, each is told the other's Ed25519 key and name, and the phone ends up
   with exactly the client's CSK and the user it is for.
   */
  lemma HonestPairingAgrees(c: Crypto, client: Client, server: Server, l: Labels, csk: Bytes, n1: Bytes, n2: Bytes)
    requires AgreementCommutes(c) && UnsealInverts(c)
    requires |c.publicOf(client.secret)| == |c.publicOf(server.secret)| == KEY_LENGTH
    requires |client.ed25519| == |server.ed25519| == |csk| == KEY_LENGTH
    requires c.agree(client.secret, c.publicOf(server.secret)).Some?
    ensures var x := Deliver(c, client, server, l, client.ed25519, csk, n1, n2);
            && x.Some?
            && x.value.client.sas.Some? && x.value.client.sas == x.value.server.sas
            && x.value.client.psk == x.value.server.psk
            && x.value.peer == Peer(server.ed25519, l.server, x.value.client.sas.value)
            && x.value.message.username == l.user
            && x.value.clientResult == Ok(())
            && x.value.serverResult == Ok(Paired(csk, client.ed25519, l.client, x.value.client.sas.value))
  {
    ExchangeAgrees(c, client, server, l, client.ed25519, csk, n1, n2);
  }

  /**
   The client cannot see the phone's last check: its Ed25519 key travels outside
   the authenticated part, and when that field arrives with another length the
   client still finishes while the phone gives up. That length is the whole
   condition.
   */
  lemma ExchangeAgrees(c: Crypto, client: Client, server: Server, l: Labels, ed: Bytes, csk: Bytes, n1: Bytes,
                       n2: Bytes)
    requires AgreementCommutes(c) && UnsealInverts(c)
    requires |c.publicOf(client.secret)| == |c.publicOf(server.secret)| == KEY_LENGTH
    requires |server.ed25519| == |csk| == KEY_LENGTH
    requires c.agree(client.secret, c.publicOf(server.secret)).Some?
    ensures var x := Deliver(c, client, server, l, ed, csk, n1, n2);
            && x.Some?
            && x.value.client.sas.Some? && x.value.client.sas == x.value.server.sas
            && x.value.client.psk == x.value.server.psk
            && x.value.peer == Peer(server.ed25519, l.server, x.value.client.sas.value)
            && x.value.message.username == l.user
            && x.value.clientResult == Ok(())
            && x.value.serverResult == (if |ed| == 32 then Ok(Paired(csk, ed, l.client, x.value.client.sas.value))
                                        else Err(InvalidMessage))
  {
    var psk := c.derivePsk(c.agree(client.secret, c.publicOf(server.secret)).value);
    assert c.agree(server.secret, c.publicOf(client.secret)) == c.agree(client.secret, c.publicOf(server.secret));
    assert c.unseal(psk, c.seal(psk, n1, csk)) == Some(csk);
    assert c.unseal(psk, c.seal(psk, n2, c.hash(csk))) == Some(c.hash(csk));
  }

  // ---- Any delivery ---------------------------------------------------------

  /** A ciphertext some session produced, with what it sealed and under which key. */
  datatype Sealed = Sealed(server: Option<nat>, key: Bytes, plaintext: Bytes)

  /** One client, any number of phones, and every ciphertext made so far. */
  datatype System = System(client: Client, csk: Bytes, sent: bool, finished: Option<Result<(), Error>>,
                           servers: map<nat, Server>, made: seq<Sealed>)

  datatype Event =
    | ClientHears(hello: Option<Hello>)
    | ClientSendsCsk(nonce: Bytes)
    | ClientHearsComplete(complete: Option<Complete>)
    | ServerHears(i: nat, response: Option<Response>)
    | ServerHearsCsk(i: nat, message: Option<CskMessage>, nonce: Bytes)

  /**
   Authenticated encryption under one key: what opens under it was sealed under it by
   a session of this system. Asked of the client's pairing key only; phones may hear
   anything, sealed by other desktops or by anybody who knows their pairing key.
   */
  ghost predicate Authentic(c: Crypto, made: seq<Sealed>, key: Bytes, ciphertext: Bytes) {
    forall m | c.unseal(key, ciphertext) == Some(m) :: exists e | e in made :: e.key == key && e.plaintext == m
  }

  /** Nothing the client cannot open, or that was sealed in this system under its key. */
  ghost predicate ClientMayHear(c: Crypto, s: System, complete: Option<Complete>) {
    complete.Some? && s.client.psk.Some? ==> Authentic(c, s.made, s.client.psk.value, complete.value.cskHash)
  }

  ghost function Step(c: Crypto, s: System, e: Event): System {
    match e
    case ClientHears(hello) =>
      if s.client.serverKey.Some? then s else s.(client := Initiate(c, s.client, hello).0)
    case ClientSendsCsk(nonce) =>
      if s.sent || s.client.psk.None? then s
      else s.(sent := true, made := s.made + [Sealed(None, s.client.psk.value, s.csk)])
    case ClientHearsComplete(complete) =>
      if !s.sent || s.finished.Some? || !ClientMayHear(c, s, complete) then s
      else s.(finished := Some(CheckComplete(c, s.client, complete, s.csk)))
    case ServerHears(i, response) =>
      if i !in s.servers || s.servers[i].clientKey.Some? then s
      else s.(servers := s.servers[i := TakeResponse(c, s.servers[i], response).0])
    case ServerHearsCsk(i, message, nonce) =>
      if i !in s.servers || s.servers[i].csk.Some? then s
      else
        var (server, complete) := TakeCsk(c, s.servers[i], message, nonce);
        if complete.Err? then s
        else s.(servers := s.servers[i := server], made := s.made + [Sealed(Some(i), server.psk.value,
            c.hash(server.csk.value))])
  }

  ghost function Run(c: Crypto, start: System, es: seq<Event>): System {
    if es == [] then start else Step(c, Run(c, start, Front(es)), Last(es))
  }

  /** Nobody has done anything yet. */
  ghost predicate Fresh(s: System) {
    && s.client.serverKey.None? && s.client.psk.None?
    && !s.sent && s.finished.None? && s.made == []
    && |s.csk| == KEY_LENGTH
    && forall i | i in s.servers :: s.servers[i].clientKey.None? && s.servers[i].psk.None? && s.servers[i].csk.None?
  }

  /** Every ciphertext is the client's CSK or some phone's hash of the key it decrypted. */
  ghost predicate Accounted(c: Crypto, s: System, e: Sealed) {
    match e.server
    case None => s.client.psk == Some(e.key) && e.plaintext == s.csk
    case Some(i) =>
      && i in s.servers && s.servers[i].psk == Some(e.key)
      && s.servers[i].csk.Some? && |s.servers[i].csk.value| == KEY_LENGTH
      && e.plaintext == c.hash(s.servers[i].csk.value)
  }

  /** Some phone shares the client's pairing key and decrypted exactly its CSK. */
  ghost predicate PhoneHoldsCsk(s: System) {
    exists i | i in s.servers :: s.client.psk.Some? && s.servers[i].psk == s.client.psk
        && s.servers[i].csk == Some(s.csk)
  }

  ghost predicate Inv(c: Crypto, s: System) {
    && |s.csk| == KEY_LENGTH
    && (s.client.psk.Some? ==> s.client.serverKey.Some?)
    && (forall i | i in s.servers :: s.servers[i].psk.Some? ==> s.servers[i].clientKey.Some?)
    && (forall i | i in s.servers :: s.servers[i].csk.Some? ==> s.servers[i].psk.Some?)
    && (forall e | e in s.made :: Accounted(c, s, e))
    && (s.finished == Some(Ok(())) ==> PhoneHoldsCsk(s))
  }

  /** An acknowledgement the client accepts was made by a phone that has its CSK. */
  lemma AcceptedCompleteIsBacked(c: Crypto, s: System, complete: Complete)
    requires HashSeparates(c) && Inv(c, s)
    requires ClientMayHear(c, s, Some(complete))
    requires CheckComplete(c, s.client, Some(complete), s.csk) == Ok(())
    ensures PhoneHoldsCsk(s)
  {
    var e :| e in s.made && e.key == s.client.psk.value && e.plaintext == c.hash(s.csk);
    assert Accounted(c, s, e);
  }

  /** Keys, once set, stay. */
  ghost predicate Extends(s: System, t: System) {
    && t.csk == s.csk
    && (s.client.psk.Some? ==> t.client.psk == s.client.psk)
    && (forall i | i in s.servers ::
          && i in t.servers
          && (s.servers[i].psk.Some? ==> t.servers[i].psk == s.servers[i].psk)
          && (s.servers[i].csk.Some? ==> t.servers[i].csk == s.servers[i].csk))
  }

  lemma ExtendingKeepsFacts(c: Crypto, s: System, t: System)
    requires Extends(s, t)
    ensures forall e | Accounted(c, s, e) :: Accounted(c, t, e)
    ensures PhoneHoldsCsk(s) ==> PhoneHoldsCsk(t)
  {
    if PhoneHoldsCsk(s) {
      var i :| i in s.servers && s.client.psk.Some? && s.servers[i].psk == s.client.psk
          && s.servers[i].csk == Some(s.csk);
      assert i in t.servers && t.servers[i].psk == t.client.psk && t.servers[i].csk == Some(t.csk);
    }
  }

  lemma StepExtends(c: Crypto, s: System, e: Event)
    requires Inv(c, s)
    ensures Extends(s, Step(c, s, e))
  {
  }

  lemma ClientStepKeepsInv(c: Crypto, s: System, e: Event)
    requires HashSeparates(c) && Inv(c, s)
    requires e.ClientHears? || e.ClientSendsCsk? || e.ClientHearsComplete?
    ensures Inv(c, Step(c, s, e))
  {
    var t := Step(c, s, e);
    StepExtends(c, s, e);
    ExtendingKeepsFacts(c, s, t);
    match e
    case ClientHearsComplete(Some(complete)) =>
      if t.finished != s.finished && t.finished == Some(Ok(())) {
        AcceptedCompleteIsBacked(c, s, complete);
      }
    case _ =>
  }

  /** A phone that has gone one step further, and the ciphertext it may have made. */
  lemma ServerAdvances(c: Crypto, s: System, t: System, i: nat, server: Server, more: seq<Sealed>)
    requires Inv(c, s) && i in s.servers
    requires t == s.(servers := s.servers[i := server], made := s.made + more) && Extends(s, t)
    requires (server.psk.Some? ==> server.clientKey.Some?) && (server.csk.Some? ==> server.psk.Some?)
    requires forall m | m in more :: Accounted(c, t, m)
    ensures Inv(c, t)
  {
    ExtendingKeepsFacts(c, s, t);
  }

  lemma ServerStepKeepsInv(c: Crypto, s: System, e: Event)
    requires Inv(c, s)
    requires e.ServerHears? || e.ServerHearsCsk?
    ensures Inv(c, Step(c, s, e))
  {
    var t := Step(c, s, e);
    StepExtends(c, s, e);
    if t != s {
      match e
      case ServerHears(i, response) =>
        assert s.made + [] == s.made;
        ServerAdvances(c, s, t, i, TakeResponse(c, s.servers[i], response).0, []);
      case ServerHearsCsk(i, message, nonce) =>
        var (server, complete) := TakeCsk(c, s.servers[i], message, nonce);
        ServerAdvances(c, s, t, i, server, [Sealed(Some(i), server.psk.value, c.hash(server.csk.value))]);
    }
  }

  /**
   Under any delivery schedule, with any number of phones, messages lost, doubled,
   swapped, changed or made up: when the client's `finish_pairing` returns Ok, some phone
   session with the same pairing key has decrypted exactly the client's CSK.
   */
  lemma {:induction false} FinishedMeansPhoneHoldsCsk(c: Crypto, start: System, es: seq<Event>)
    requires HashSeparates(c) && Fresh(start)
    ensures Inv(c, Run(c, start, es))
    ensures Run(c, start, es).finished == Some(Ok(())) ==> PhoneHoldsCsk(Run(c, start, es))
  {
    if es != [] {
      FinishedMeansPhoneHoldsCsk(c, start, Front(es));
      var before, e := Run(c, start, Front(es)), Last(es);
      if e.ServerHears? || e.ServerHearsCsk? {
        ServerStepKeepsInv(c, before, e);
      } else {
        ClientStepKeepsInv(c, before, e);
      }
    }
  }

  /**
   Why the hash must move its input: the client's own ciphertext, sent back as the
   acknowledgement, passes exactly when the CSK hashes to itself.
   */
  lemma ReflectedCsk(c: Crypto, client: Client, csk: Bytes, nonce: Bytes, user: string)
    requires UnsealInverts(c) && client.psk.Some?
    ensures CheckComplete(c, client, Some(Complete(true, SealCsk(c, client, csk, nonce, user).value.encryptedCsk)),
            csk) == Ok(())
            <==> c.hash(csk) == csk
  {
    assert c.unseal(client.psk.value, c.seal(client.psk.value, nonce, csk)) == Some(csk);
  }

  // ---- The sessions as the code runs them -----------------------------------

  class ClientPairingSession {
    const secret: Bytes
    const ed25519: Bytes
    var serverKey: Option<Bytes>
    var psk: Option<Bytes>
    var sas: Option<string>

    ghost function View(): Client
      reads this
    {
      Client(secret, ed25519, serverKey, psk, sas)
    }

    constructor (secret: Bytes, ed25519: Bytes)
      ensures View() == Client(secret, ed25519, None, None, None)
    {
      this.secret, this.ed25519 := secret, ed25519;
      serverKey, psk, sas := None, None, None;
    }

    method InitiatePairing(c: Crypto, hello: Option<Hello>) returns (r: Result<Peer, Error>)
      modifies this
      ensures (View(), r) == Initiate(c, old(View()), hello)
    {
      if hello.None? || hello.value.version != PAIRING_VERSION {
        return Err(InvalidMessage);
      }
      if |hello.value.x25519| != KEY_LENGTH {
        return Err(InvalidMessage);
      }
      serverKey := Some(hello.value.x25519);
      var shared := c.agree(secret, serverKey.value);
      if shared.None? {
        return Err(CryptoFailed);
      }
      psk := Some(c.derivePsk(shared.value));
      var code := c.deriveSas(psk.value, c.publicOf(secret), serverKey.value);
      sas := Some(code);
      if |hello.value.ed25519| != KEY_LENGTH {
        return Err(InvalidMessage);
      }
      return Ok(Peer(hello.value.ed25519, hello.value.name, code));
    }

    method ReceivePairingComplete(c: Crypto, complete: Option<Complete>, csk: Bytes) returns (r: Result<(), Error>)
      ensures r == CheckComplete(c, View(), complete, csk)
      ensures r == Ok(()) ==>
                psk.Some? && complete.Some? && c.unseal(psk.value, complete.value.cskHash) == Some(c.hash(csk))
    {
      if complete.None? || !complete.value.success {
        return Err(InvalidMessage);
      }
      if psk.None? {
        return Err(MissingField);
      }
      var decryptedHash := c.unseal(psk.value, complete.value.cskHash);
      if decryptedHash.None? {
        return Err(CryptoFailed);
      }
      if decryptedHash.value != c.hash(csk) {
        return Err(InvalidMessage);
      }
      return Ok(());
    }
  }

  class ServerPairingSession {
    const secret: Bytes
    const ed25519: Bytes
    var clientKey: Option<Bytes>
    var clientEd25519: Bytes
    var clientName: string
    var psk: Option<Bytes>
    var sas: Option<string>
    var csk: Option<Bytes>

    ghost function View(): Server
      reads this
    {
      Server(secret, ed25519, clientKey, clientEd25519, clientName, psk, sas, csk)
    }

    constructor (secret: Bytes, ed25519: Bytes)
      ensures View() == Server(secret, ed25519, None, [], "", None, None, None)
    {
      this.secret, this.ed25519 := secret, ed25519;
      clientKey, clientEd25519, clientName, psk, sas, csk := None, [], "", None, None, None;
    }

    /** `complete_pairing` from the response to the SAS. */
    method ReceiveResponse(c: Crypto, response: Option<Response>) returns (r: Result<string, Error>)
      modifies this
      ensures (View(), r) == TakeResponse(c, old(View()), response)
    {
      if response.None? || response.value.version != PAIRING_VERSION || |response.value.x25519| != KEY_LENGTH {
        return Err(InvalidMessage);
      }
      clientKey := Some(response.value.x25519);
      var shared := c.agree(secret, clientKey.value);
      if shared.None? {
        return Err(CryptoFailed);
      }
      clientEd25519 := response.value.ed25519;
      clientName := response.value.name;
      psk := Some(c.derivePsk(shared.value));
      var code := c.deriveSas(psk.value, clientKey.value, c.publicOf(secret));
      sas := Some(code);
      return Ok(code);
    }

    /** `receive_csk_message`, then `send_pairing_complete`. */
    method ReceiveCsk(c: Crypto, message: Option<CskMessage>, nonce: Bytes) returns (r: Result<Complete, Error>)
      modifies this
      ensures (View(), r) == TakeCsk(c, old(View()), message, nonce)
    {
      if message.None? {
        return Err(InvalidMessage);
      }
      if psk.None? {
        return Err(MissingField);
      }
      var plaintext := c.unseal(psk.value, message.value.encryptedCsk);
      if plaintext.None? {
        return Err(CryptoFailed);
      }
      if |plaintext.value| != KEY_LENGTH {
        return Err(InvalidMessage);
      }
      csk := plaintext;
      var cskHash := c.hash(plaintext.value);
      return Ok(Complete(true, c.seal(psk.value, nonce, cskHash)));
    }

    /** What `complete_pairing` returns in the end. */
    method Finish() returns (r: Result<Paired, Error>)
      ensures r == FinishServer(View())
      ensures r.Ok? <==> csk.Some? && sas.Some? && |clientEd25519| == 32
      ensures r.Ok? ==> r.value == Paired(csk.value, clientEd25519, clientName, sas.value)
    {
      if csk.None? || sas.None? {
        return Err(MissingField);
      }
      if |clientEd25519| != KEY_LENGTH {
        return Err(InvalidMessage);
      }
      return Ok(Paired(csk.value, clientEd25519, clientName, sas.value));
    }
  }
}
