/**
 The whole path of a login: packets on the two transports, the daemon's race, its
 response, the event loop that reads it, the PAM module's record, and the code
 handed to the host.
 */
module EndToEnd {
  import opened Prelude
  import Framing
  import Messages
  import Transport
  import opened AuthSession
  import PairingStore
  import PamRace
  import StoreSnapshot
  import StoreUpdates
  import VerdictCache

  /** One transport's task: the packets it saw, and whether its task panicked. */
  datatype Task = Task(rounds: seq<Transport.Round>, panicked: bool)

  /** One daemon session and the order in which its tasks and the cancel were observed. */
  datatype SessionRun = SessionRun(
    daemon: Daemon,
    user: string,
    duplicate: bool,
    challenged: bool,
    prepared: bool,
    inTime: bool,
    keys: Transport.Session,
    ble: Task,
    udp: Task,
    order: seq<RaceEvent>)

  /** How a task ends, given what its transport run returned. */
  function TaskResultOf(enabled: bool, keys: Transport.Session, t: Task): Option<TaskResult> {
    if !enabled then Some(Failed)
    else if t.panicked then Some(Panicked)
    else
      match Transport.Run(keys, t.rounds).result
      case None => None
      case Some(Ok(_)) => Some(Granted)
      case Some(Err(ExplicitDenial)) => Some(Denied)
      case Some(Err(_)) => Some(Failed)
  }

  /** A task grants or denies exactly if its enabled transport did and it did not panic; it is done when either is. */
  lemma TaskResultIff(enabled: bool, keys: Transport.Session, t: Task)
    ensures var r, run := TaskResultOf(enabled, keys, t), Transport.Run(keys, t.rounds).result;
            && (r == Some(Granted) <==> enabled && !t.panicked && run == Some(Ok(())))
            && (r == Some(Denied) <==> enabled && !t.panicked && run == Some(Err(Transport.ExplicitDenial)))
            && (r == None <==> enabled && !t.panicked && run == None)
  {
    var run := Transport.Run(keys, t.rounds).result;
    assert run.Some? && run.value.Ok? ==> run.value.value == ();
  }

  /** The events are what the tasks produced, each at most once, in some order. */
  ghost predicate Genuine(r: SessionRun) {
    && |r.keys.challenge| == Messages.CHALLENGE_LENGTH
    && r.keys.servers == r.daemon.servers
    && EachOnce(r.order)
    && (forall i | 0 <= i < |r.order| ::
          match r.order[i]
          case BleDone(result) => TaskResultOf(r.daemon.ble, r.keys, r.ble) == Some(result)
          case UdpDone(result) => TaskResultOf(r.daemon.network, r.keys, r.udp) == Some(result)
          case Cancelled => true)
  }

  /** The response the PAM module receives for this session. */
  function ResponseOf(r: SessionRun): int {
    Raw(Respond(r.daemon, r.user, r.duplicate, r.challenged, r.prepared, r.inTime, Winner(r.order)))
  }

  /** A task of an enabled transport. */
  predicate Ran(r: SessionRun, task: Task) {
    !task.panicked && ((r.daemon.ble && task == r.ble) || (r.daemon.network && task == r.udp))
  }

  /** A paired phone's grant for this session's challenge was received in time and verified. */
  ghost predicate GrantReceived(r: SessionRun) {
    exists task, k: nat, id ::
      Ran(r, task) && Transport.VerifiedGrant(r.keys, task.rounds, k, id) && Transport.InTime(task.rounds[k])
  }

  ghost predicate DenialReceived(r: SessionRun) {
    exists task, k: nat, id ::
      Ran(r, task) && Transport.VerifiedDenial(r.keys, task.rounds, k, id) && Transport.InTime(task.rounds[k])
  }

  /** Raw outcome 0 needs a verified grant and a server paired for the user; 1 a verified denial. */
  lemma ResponseIsBacked(r: SessionRun)
    requires Genuine(r)
    ensures ResponseOf(r) == 0 ==>
              && GrantReceived(r)
              && exists id | id in r.daemon.servers :: UserAllowed(r.daemon.servers[id], r.user)
    ensures ResponseOf(r) == 1 ==> DenialReceived(r)
  {
    if ResponseOf(r) == 0 || ResponseOf(r) == 1 {
      var t := FirstTerminal(r.order);
      assert t < |r.order| && !r.order[t].Cancelled?;
      var task := if r.order[t].BleDone? then r.ble else r.udp;
      var rounds := task.rounds;
      Transport.SuccessIffVerifiedGrant(r.keys, rounds);
      Transport.DenialIffVerifiedDenial(r.keys, rounds);
      if ResponseOf(r) == 0 {
        assert Transport.Run(r.keys, rounds).result.value.value == ();
        var k: nat, id :| Transport.VerifiedGrant(r.keys, rounds, k, id) && Transport.InTime(rounds[k]);
        assert Ran(r, task);
      } else {
        assert Transport.Run(r.keys, rounds).result == Some(Err(Transport.ExplicitDenial));
        var k: nat, id :| Transport.VerifiedDenial(r.keys, rounds, k, id) && Transport.InTime(rounds[k]);
        assert Ran(r, task);
      }
    }
  }

  /** The session could start. */
  ghost predicate Started(r: SessionRun) {
    && !r.duplicate && r.challenged && r.prepared
    && (r.daemon.network || r.daemon.ble) && r.daemon.hasKeypair && r.daemon.hasCsk
    && Authorized(r.daemon, r.user)
  }

  /** And race and clean-up were over in time. */
  ghost predicate Ready(r: SessionRun) {
    Started(r) && r.inTime
  }

  /** There is nothing to ask, or nobody to ask it of. */
  ghost predicate Pointless(r: SessionRun) {
    || r.duplicate
    || (r.challenged && ((!r.daemon.network && !r.daemon.ble) || r.daemon.servers == map[]))
    || (r.challenged && r.daemon.hasKeypair && r.daemon.hasCsk && !Authorized(r.daemon, r.user))
  }

  /** Both transports are done and neither granted nor denied, or the session was cancelled before one did. */
  ghost predicate Lost(order: seq<RaceEvent>) {
    || (exists t | 0 <= t < |order| :: OpenUntil(order, t) && order[t] == Cancelled)
    || (OpenUntil(order, |order|) && BothGone(order))
  }

  /**
   The response is 0 or 1 exactly if the session was ready and the first to decide it
   granted or denied, 2 exactly if it started and was not over in time, and 3 exactly if
   there was no point in asking or nobody decided.
   */
  lemma ResponseIff(r: SessionRun)
    ensures ResponseOf(r) == 2
            <==> Started(r) && (!r.inTime || (OpenUntil(r.order, |r.order|) && !BothGone(r.order)))
    ensures ResponseOf(r) == 3 <==> Pointless(r) || (Ready(r) && Lost(r.order))
    ensures ResponseOf(r) == 0
            <==> Ready(r) && exists t | 0 <= t < |r.order| :: OpenUntil(r.order, t) && Brings(r.order[t], Granted)
    ensures ResponseOf(r) == 1
            <==> Ready(r) && exists t | 0 <= t < |r.order| :: OpenUntil(r.order, t) && Brings(r.order[t], Denied)
  {
    OutcomeIff(r.daemon, r.user, r.duplicate, r.challenged, r.prepared, r.inTime, Winner(r.order));
    RaceIff(r.order);
    RaceIsOpen(r.order);
    assert Started(r) ==> r.daemon.servers != map[];
  }

  /** The first task to decide the race, and the round that ended its run. */
  ghost predicate DecidedBy(r: SessionRun, t: nat, task: Task, k: nat) {
    && OpenUntil(r.order, t) && t < |r.order| && Ran(r, task)
    && ((r.order[t].BleDone? && r.daemon.ble && task == r.ble)
        || (r.order[t].UdpDone? && r.daemon.network && task == r.udp))
    && Transport.FirstEnd(r.keys, task.rounds, k) && Transport.InTime(task.rounds[k])
  }

  /**
   The way back: when a ready session's race is decided by a task whose run ends with a
   verified grant or denial, the daemon answers 0 or 1, and a flow ended by that
   response returns PAM_SUCCESS or PAM_PERM_DENIED.
   */
  lemma PhoneDecides(r: SessionRun, t: nat, task: Task, k: nat, f: Flow)
    requires Genuine(r) && Ready(r) && DecidedBy(r, t, task, k) && EndedBy(f, ResponseOf(r))
    ensures Transport.Granted(r.keys, task.rounds, k) ==>
              ResponseOf(r) == 0 && FlowCode(f) == Some(VerdictCache.Success)
    ensures Transport.Denied(r.keys, task.rounds, k) ==>
              ResponseOf(r) == 1 && FlowCode(f) == Some(VerdictCache.PermDenied)
  {
    DaemonAnswers(r, t, task, k);
    FlowIff(f, ResponseOf(r));
  }

  lemma DaemonAnswers(r: SessionRun, t: nat, task: Task, k: nat)
    requires Genuine(r) && Ready(r) && DecidedBy(r, t, task, k)
    ensures Transport.Granted(r.keys, task.rounds, k) ==> ResponseOf(r) == 0
    ensures Transport.Denied(r.keys, task.rounds, k) ==> ResponseOf(r) == 1
  {
    EndDecides(r.keys, task.rounds, k);
    assert r.order[t].BleDone? ==> TaskResultOf(r.daemon.ble, r.keys, r.ble) == Some(r.order[t].result);
    assert r.order[t].UdpDone? ==> TaskResultOf(r.daemon.network, r.keys, r.udp) == Some(r.order[t].result);
    ResponseIff(r);
  }

  lemma EndDecides(keys: Transport.Session, rounds: seq<Transport.Round>, k: nat)
    requires Transport.FirstEnd(keys, rounds, k) && Transport.InTime(rounds[k])
    ensures Transport.Granted(keys, rounds, k) ==> Transport.Run(keys, rounds).result == Some(Ok(()))
    ensures Transport.Denied(keys, rounds, k) ==>
              Transport.Run(keys, rounds).result == Some(Err(Transport.ExplicitDenial))
  {
    Transport.SuccessIffVerifiedGrant(keys, rounds);
    Transport.DenialIffVerifiedDenial(keys, rounds);
  }

  /** The code a flow that has returned leads to. */
  function FlowCode(f: Flow): Option<VerdictCache.Code> {
    var path := FlowPath(f);
    if path.None? then None else Some(VerdictCache.CodeOf(path.value))
  }

  // ---- The event loops ------------------------------------------------------

  /** How the PAM module waited for the response: one of its three flows, with all it saw. */
  datatype Flow =
    | Threaded(es: seq<PamRace.Event>)
    | Sequential(passes: seq<PamRace.Pass>)
    | Terminal(keys: seq<PamRace.TtyPass>)

  /** The path a flow took, once it has returned. */
  function FlowPath(f: Flow): Option<VerdictCache.Path> {
    match f
    case Threaded(es) => if PamRace.Run(es).main.Done? then Some(PamRace.PathOf(PamRace.Run(es))) else None
    case Sequential(passes) =>
      var v := PamRace.SequentialVerdict(passes);
      if v == PamRace.Again then None else Some(PamRace.PathOfExit(v))
    case Terminal(keys) => PamRace.TerminalPath(keys, true)
  }

  /** The flow has returned, and the first thing that ended its loop was this response. */
  ghost predicate EndedBy(f: Flow, raw: int) {
    match f
    case Threaded(es) =>
      var s := PamRace.Run(es);
      s.main.Done? && s.spawns > 0 && exists k: nat :: PamRace.EndsAt(s.passes, k) && PamRace.Answered(s.passes[k], raw)
    case Sequential(passes) =>
      exists k: nat :: PamRace.SequentialEndsAt(passes, k) && passes[k].Ready?
                       && PamRace.SocketAnswers(passes[k].ipc, passes[k].read, raw)
    case Terminal(keys) =>
      exists k: nat :: PamRace.TerminalEndsAt(keys, true, k) && PamRace.TtyAnswered(keys[k], raw)
  }

  ghost predicate Returned(f: Flow) {
    match f
    case Threaded(es) => PamRace.Run(es).main.Done?
    case Sequential(passes) => exists k | 0 <= k < |passes| :: PamRace.SequentialEnds(passes[k])
    case Terminal(keys) => exists k | 0 <= k < |keys| :: PamRace.TerminalEnds(keys, true, k)
  }

  /** Each of the three flows has a path exactly once it has returned, and a response's exactly if that ended it. */
  lemma FlowIff(f: Flow, raw: int)
    ensures FlowPath(f).Some? <==> Returned(f)
    ensures FlowPath(f) == Some(VerdictCache.Responded(raw)) <==> EndedBy(f, raw)
  {
    match f
    case Threaded(es) => PamRace.ThreadedRespondsIff(PamRace.Run(es).passes, raw);
    case Sequential(passes) =>
      PamRace.SequentialExits(passes);
      PamRace.SequentialRespondsIff(passes, raw);
    case Terminal(keys) => PamRace.TerminalExits(keys, true);
  }

  predicate PassReads(p: PamRace.Pass, raw: int) {
    p.Ready? && p.read.Frame? ==> p.read.raw == raw
  }

  predicate TtyPassReads(p: PamRace.TtyPass, raw: int) {
    p.TtyReady? && p.read.Frame? ==> p.read.raw == raw
  }

  /** Every complete frame the flow read was this response. */
  ghost predicate OnlyReads(f: Flow, raw: int) {
    match f
    case Threaded(es) => forall i | 0 <= i < |PamRace.Run(es).passes| :: PassReads(PamRace.Run(es).passes[i], raw)
    case Sequential(passes) => forall i | 0 <= i < |passes| :: PassReads(passes[i], raw)
    case Terminal(keys) => forall i | 0 <= i < |keys| :: TtyPassReads(keys[i], raw)
  }

  /** A flow that took the path of a response took that of the response it read. */
  lemma FlowAnswersWhatItRead(f: Flow, sent: int, raw: int)
    requires OnlyReads(f, sent) && FlowPath(f) == Some(VerdictCache.Responded(raw))
    ensures raw == sent
  {
    match f
    case Threaded(es) =>
      PamRace.ResponseWasRead(PamRace.Run(es).passes, raw);
    case Sequential(passes) =>
      var all := PamRace.AllWithoutWorker(passes);
      PamRace.ResponseWasRead(all, raw);
      var i: nat :| i < |all| && all[i].Ready? && all[i].read == PamRace.Frame(raw);
      assert PassReads(passes[i], sent);
    case Terminal(keys) =>
      PamRace.TerminalResponseWasRead(keys, true, raw);
      var i: nat :| i < |keys| && keys[i].TtyReady? && keys[i].read == PamRace.Frame(raw);
      assert TtyPassReads(keys[i], sent);
  }

  // ---- The socket between daemon and PAM module -----------------------------

  /** The frame the daemon wrote, how the bytes of it came in, and how a payload is decoded. */
  datatype Wire = Wire(sent: Bytes, calls: seq<Framing.Arrival>, decode: Bytes -> Option<int>)

  /** The daemon wrote this response, and what has come in so far is the beginning of it. */
  ghost predicate Carries(w: Wire, raw: int) {
    && |w.sent| <= Framing.CLIENT_LIMIT && w.decode(w.sent) == Some(raw)
    && Framing.Stream(w.calls) <= Framing.Encode([w.sent])
  }

  /** A response read is the answer of some non-blocking call. */
  ghost predicate ReadOff(w: Wire, read: PamRace.ReadResult) {
    read.Frame? ==>
      exists n: nat | n <= |w.calls| :: Framing.Response(w.decode, Framing.Run(w.calls[..n]).last) == Ok(Some(read.raw))
  }

  ghost predicate FlowReadsOff(f: Flow, w: Wire) {
    match f
    case Threaded(es) =>
      forall i | 0 <= i < |PamRace.Run(es).passes| ::
        PamRace.Run(es).passes[i].Ready? ==> ReadOff(w, PamRace.Run(es).passes[i].read)
    case Sequential(passes) => forall i | 0 <= i < |passes| :: passes[i].Ready? ==> ReadOff(w, passes[i].read)
    case Terminal(keys) => forall i | 0 <= i < |keys| :: keys[i].TtyReady? ==> ReadOff(w, keys[i].read)
  }

  lemma ReadIsSent(w: Wire, raw: int, read: PamRace.ReadResult)
    requires Carries(w, raw) && ReadOff(w, read) && read.Frame?
    ensures read.raw == raw
  {
    var n: nat :| n <= |w.calls| && Framing.Response(w.decode, Framing.Run(w.calls[..n]).last) == Ok(Some(read.raw));
    Framing.DeliveredWasSent(w.sent, w.calls, n);
  }

  /** However the daemon's frame is cut on its way, a flow reads nothing but the response in it. */
  lemma FlowOnlyReadsWhatWasSent(f: Flow, w: Wire, raw: int)
    requires Carries(w, raw) && FlowReadsOff(f, w)
    ensures OnlyReads(f, raw)
  {
    match f
    case Threaded(es) =>
      var passes := PamRace.Run(es).passes;
      forall i | 0 <= i < |passes| && passes[i].Ready? && passes[i].read.Frame? ensures PassReads(passes[i], raw) {
        ReadIsSent(w, raw, passes[i].read);
      }
    case Sequential(passes) =>
      forall i | 0 <= i < |passes| && passes[i].Ready? && passes[i].read.Frame? ensures PassReads(passes[i], raw) {
        ReadIsSent(w, raw, passes[i].read);
      }
    case Terminal(keys) =>
      forall i | 0 <= i < |keys| && keys[i].TtyReady? && keys[i].read.Frame? ensures TtyPassReads(keys[i], raw) {
        ReadIsSent(w, raw, keys[i].read);
      }
  }

  // ---- From packets to the PAM code -----------------------------------------

  /** The session, the socket and the event loop of one call. */
  datatype Service = Service(session: SessionRun, wire: Wire, flow: Flow)

  /** The call waited in this flow, and if it was answered, then by this session over this socket. */
  ghost predicate ServedBy(call: VerdictCache.Call, v: Service) {
    && FlowPath(v.flow) == Some(call.path)
    && (call.path.Responded? ==>
          && Genuine(v.session)
          && v.session.user == call.user
          && Carries(v.wire, ResponseOf(v.session))
          && FlowReadsOff(v.flow, v.wire))
  }

  /** Each call that sent its request was served by what stands beside it. */
  ghost predicate Served(log: seq<VerdictCache.Finished>, services: seq<Service>) {
    && |services| == |log|
    && forall i | 0 <= i < |log| && VerdictCache.Sent(log[i].of.call.path) && !VerdictCache.Replayed(log[i]) ::
         ServedBy(log[i].of.call, services[i])
  }

  /** The code of a call answered by its own threaded flow is the one that flow returned, whatever the threads did. */
  lemma CodeIsTheFlows(es: seq<VerdictCache.Event>, services: seq<Service>, i: nat)
    requires Served(VerdictCache.Run(es).log, services)
    requires i < |services| && services[i].flow.Threaded? && VerdictCache.Sent(VerdictCache.Run(es).log[i].of.call.path)
    requires !VerdictCache.Replayed(VerdictCache.Run(es).log[i])
    ensures PamRace.Run(services[i].flow.es).main == PamRace.Done(VerdictCache.Run(es).log[i].of.code)
  {
    VerdictCache.RecordRefinesHistory(es, i);
    assert ServedBy(VerdictCache.Run(es).log[i].of.call, services[i]);
    var race := services[i].flow.es;
    PamRace.DoneCodeIsPathCode(race, PamRace.Run(race).main.code);
  }

  /** A service that answers 0 is backed by a phone's grant and a server paired for the user. */
  lemma ServiceIsBacked(call: VerdictCache.Call, v: Service)
    requires ServedBy(call, v) && call.path == VerdictCache.Responded(0)
    ensures GrantReceived(v.session)
    ensures exists id | id in v.session.daemon.servers :: UserAllowed(v.session.daemon.servers[id], call.user)
  {
    FlowOnlyReadsWhatWasSent(v.flow, v.wire, ResponseOf(v.session));
    FlowAnswersWhatItRead(v.flow, ResponseOf(v.session), 0);
    ResponseIsBacked(v.session);
  }

  /**
   Whatever the calls, the packets, the threads, the cuts and the interleaving: if the
   PAM module returns PAM_SUCCESS for a user, then a paired phone's grant, made for a
   challenge of a session for that very user, was received and verified, and the frame
   saying so was read, either in this call or in one real call for the same user and
   service that had returned when this one looked, less than 500 ms before it read
   the clock.
   */
  lemma SuccessMeansAPhoneGranted(es: seq<VerdictCache.Event>, services: seq<Service>, i: nat)
    requires Served(VerdictCache.Run(es).log, services)
    requires i < |services| && VerdictCache.Run(es).log[i].of.code == VerdictCache.Success
    ensures var log := VerdictCache.Run(es).log;
            exists j: nat | j <= i ::
              && (j == i || VerdictCache.MayReplay(log[i], log[j]))
              && services[j].session.user == log[i].of.call.user
              && FlowPath(services[j].flow) == Some(VerdictCache.Responded(0))
              && GrantReceived(services[j].session)
              && exists id | id in services[j].session.daemon.servers ::
                   UserAllowed(services[j].session.daemon.servers[id], log[i].of.call.user)
  {
    var log := VerdictCache.Run(es).log;
    VerdictCache.SuccessIsARecentGrant(es, i);
    var j: nat := i;
    if log[i].of.call.path != VerdictCache.Responded(0) || VerdictCache.Replayed(log[i]) {
      j :| j < i && VerdictCache.MayReplay(log[i], log[j]) && log[j].of.call.path == VerdictCache.Responded(0);
    }
    assert ServedBy(log[j].of.call, services[j]);
    ServiceIsBacked(log[j].of.call, services[j]);
  }

  // ---- What the store has to do with it -------------------------------------

  /** The servers a session takes from the daemon's snapshot; an entry is stored under its public key. */
  ghost predicate Reflects(servers: map<string, Transport.PairedServer>, snapshot: PairingStore.Snapshot) {
    && servers.Keys == snapshot.servers.Keys
    && forall id | id in servers :: servers[id] == Transport.PairedServer(id, snapshot.servers[id])
  }

  /** No other stored identifier decodes to the same key, as for identifiers written in lower-case hex. */
  ghost predicate OwnKey(c: Messages.Scheme, stored: map<string, PairingStore.Users>, id: string) {
    forall other | other in stored && c.hexDecode(other) == c.hexDecode(id) :: other == id
  }

  /** A verified grant under a key of one of these servers and not under that of `id`. */
  ghost predicate GrantedWithout(r: SessionRun, stored: map<string, PairingStore.Users>, id: string) {
    exists task, k: nat, other ::
      && Ran(r, task) && Transport.VerifiedGrant(r.keys, task.rounds, k, other)
      && other in stored && Transport.KeyOf(r.keys, other) != r.keys.scheme.hexDecode(id)
  }

  /**
   A removal shuts the phone out. When the edits made so far leave no entry for a
   phone and no request is in flight, a session begun then succeeds only through a
   grant under the key of another phone, stored on disk, and only for a user some
   stored phone is paired for.
   */
  lemma RemovedPhoneIsShutOut(p: PairingStore.Policy, es: seq<PairingStore.Event>, r: SessionRun, id: string)
    requires StoreSnapshot.ReloadsAlone(p) && StoreUpdates.EditsAlone(p) && PairingStore.Follows(p, es)
    requires PairingStore.ReadsSucceed(es) && PairingStore.AtRest(PairingStore.Run(es))
    requires !PairingStore.Run(es).disk.servers.TornServers?
    requires Genuine(r) && Reflects(r.daemon.servers, PairingStore.Run(es).snapshot) && ResponseOf(r) == 0
    requires id !in PairingStore.Run(es).serial && OwnKey(r.keys.scheme, PairingStore.Run(es).serial, id)
    ensures PairingStore.LoadServers(PairingStore.Run(es).disk, true) == Some(PairingStore.Run(es).serial)
    ensures GrantedWithout(r, PairingStore.Run(es).serial, id)
    ensures exists other | other in PairingStore.Run(es).serial :: r.user in PairingStore.Run(es).serial[other]
  {
    StoreSnapshot.AtRestSnapshotIsDisk(p, es);
    StoreUpdates.RunKeepsEditInv(p, es);
    ShutOut(r, PairingStore.Run(es).snapshot, id);
  }

  lemma ShutOut(r: SessionRun, snapshot: PairingStore.Snapshot, id: string)
    requires Genuine(r) && Reflects(r.daemon.servers, snapshot) && ResponseOf(r) == 0
    requires id !in snapshot.servers && OwnKey(r.keys.scheme, snapshot.servers, id)
    ensures GrantedWithout(r, snapshot.servers, id)
    ensures exists other | other in snapshot.servers :: r.user in snapshot.servers[other]
  {
    ResponseIsBacked(r);
    var task, k: nat, other :| Ran(r, task) && Transport.VerifiedGrant(r.keys, task.rounds, k, other);
    assert r.keys.servers[other].publicKey == other;
    assert Transport.KeyOf(r.keys, other) == r.keys.scheme.hexDecode(other);
    var allowed :| allowed in r.daemon.servers && UserAllowed(r.daemon.servers[allowed], r.user);
    assert r.user in snapshot.servers[allowed];
  }

  // ---- One grant, one session -----------------------------------------------

  /** The wrapper a packet of a task carried. */
  function Opened(r: SessionRun, task: Task, k: nat): Option<Messages.Wrapper>
    requires k < |task.rounds| && task.rounds[k].receive.Received?
  {
    r.keys.decrypt(task.rounds[k].receive.packet.ciphertext)
  }

  /** With challenges that differ and signatures that bind their message, no grant serves two sessions. */
  lemma NoGrantServesTwoSessions(r: SessionRun, q: SessionRun, a: Task, b: Task, i: nat, j: nat,
                                 id: string, jd: string)
    requires Genuine(r) && Genuine(q)
    requires Transport.Binding(r.keys, q.keys) && r.keys.challenge != q.keys.challenge
    requires Ran(r, a) && Transport.VerifiedGrant(r.keys, a.rounds, i, id)
    requires Ran(q, b) && Transport.VerifiedGrant(q.keys, b.rounds, j, jd)
    ensures Opened(r, a, i) != Opened(q, b, j)
  {
    Transport.GrantServesOneSession(r.keys, q.keys, a.rounds, b.rounds, i, j, id, jd);
  }
}
