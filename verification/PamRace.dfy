/**
 The threaded GUI flow of the PAM module: a worker collects the password inside
 libpam while the calling thread polls the daemon socket and a self-pipe, then
 cancels (or not) and joins the worker before it touches libpam again.

 Each thread advances one atomic action at a time, in any interleaving.
 */
module PamRace {
  import opened Prelude
  import VerdictCache

  datatype ExitReason = Timeout | IpcResponseReceived | IpcError | PasswordEntered | PasswordFailed

  /** The two texts `pending_error` can hold. */
  datatype ErrorText = ConnectionLost | CommunicationError

  datatype ReadResult = Frame(raw: int) | Incomplete | ReadError

  /** `revents` of the daemon socket. */
  datatype Revents = Revents(pollIn: bool, hangupOrError: bool)

  /** What one pass of the event loop gets to see. */
  datatype Pass =
    | DeadlineReached
    | NothingReady                                       // poll returned 0
    | Interrupted                                        // EINTR
    | PollFailed
    | Ready(flag: bool, ipc: Revents, read: ReadResult, pipeIn: bool)

  datatype Verdict = Again | Exit(reason: ExitReason, response: Option<int>, error: Option<ErrorText>)

  /** One pass of `run_gui_event_loop`. */
  function Decide(pass: Pass): Verdict {
    match pass
    case DeadlineReached => Exit(Timeout, None, None)
    case NothingReady => Again
    case Interrupted => Again
    case PollFailed => Exit(IpcError, None, Some(CommunicationError))
    case Ready(flag, ipc, read, pipeIn) =>
      if flag then Exit(PasswordEntered, None, None)
      else if ipc.pollIn then
        match read
        case Frame(raw) => Exit(IpcResponseReceived, Some(raw), None)
        case Incomplete => if ipc.hangupOrError then Exit(IpcError, None, Some(ConnectionLost)) else Again
        case ReadError => Exit(IpcError, None, Some(CommunicationError))
      else if ipc.hangupOrError then Exit(IpcError, None, Some(ConnectionLost))
      else if pipeIn then Exit(PasswordFailed, None, None)
      else Again
  }

  /** The verdict of the first pass that has one. */
  function LoopVerdict(passes: seq<Pass>): Verdict {
    if passes == [] then Again
    else if Decide(passes[0]) != Again then Decide(passes[0])
    else LoopVerdict(passes[1..])
  }

  /** `run_gui_event_loop` over the passes it makes; `Again` when it is still looping. */
  method RunGuiEventLoop(passes: seq<Pass>) returns (exit: Verdict)
    ensures exit == LoopVerdict(passes)
  {
    var authResponse: Option<int> := None;
    var pendingError: Option<ErrorText> := None;
    var i := 0;
    while i < |passes|
      invariant i <= |passes|
      invariant authResponse == None && pendingError == None
      invariant LoopVerdict(passes) == LoopVerdict(passes[i..])
    {
      var pass := passes[i];
      i := i + 1;
      assert passes[i - 1..][1..] == passes[i..];
      match pass {
        case DeadlineReached =>
          return Exit(Timeout, authResponse, pendingError);
        case NothingReady =>
          continue;
        case Interrupted =>
          continue;
        case PollFailed =>
          pendingError := Some(CommunicationError);
          return Exit(IpcError, authResponse, pendingError);
        case Ready(flag, ipc, read, pipeIn) =>
          if flag {
            return Exit(PasswordEntered, authResponse, pendingError);
          }
          if ipc.pollIn {
            match read {
              case Frame(raw) =>
                authResponse := Some(raw);
                return Exit(IpcResponseReceived, authResponse, pendingError);
              case Incomplete =>
                if ipc.hangupOrError {
                  pendingError := Some(ConnectionLost);
                  return Exit(IpcError, authResponse, pendingError);
                }
                continue;
              case ReadError =>
                pendingError := Some(CommunicationError);
                return Exit(IpcError, authResponse, pendingError);
            }
          } else if ipc.hangupOrError {
            pendingError := Some(ConnectionLost);
            return Exit(IpcError, authResponse, pendingError);
          }
          if pipeIn {
            return Exit(PasswordFailed, authResponse, pendingError);
          }
      }
    }
    exit := Again;
  }

  // ---- What ends the loop, told from the passes alone -----------------------

  /** The socket gave a complete response. */
  predicate SocketAnswers(ipc: Revents, read: ReadResult, raw: int) {
    ipc.pollIn && read == Frame(raw)
  }

  /** Reading failed, or the daemon hung up without a complete response. */
  predicate SocketBroken(ipc: Revents, read: ReadResult) {
    (ipc.pollIn && read == ReadError) || (ipc.hangupOrError && (ipc.pollIn ==> read == Incomplete))
  }

  predicate SocketEnds(ipc: Revents, read: ReadResult) {
    (ipc.pollIn && read.Frame?) || SocketBroken(ipc, read)
  }

  /** The token was there when the flag was loaded, whatever the socket has. */
  predicate Typed(p: Pass) {
    p.Ready? && p.flag
  }

  predicate Answered(p: Pass, raw: int) {
    p.Ready? && !p.flag && SocketAnswers(p.ipc, p.read, raw)
  }

  predicate Lost(p: Pass) {
    p.Ready? && !p.flag && p.ipc.hangupOrError && (p.ipc.pollIn ==> p.read == Incomplete)
  }

  predicate Failed(p: Pass) {
    p.PollFailed? || (p.Ready? && !p.flag && p.ipc.pollIn && p.read == ReadError)
  }

  /** The pipe is readable while the socket is silent. */
  predicate Dismissed(p: Pass) {
    p.Ready? && !p.flag && !p.ipc.pollIn && !p.ipc.hangupOrError && p.pipeIn
  }

  predicate Ends(p: Pass) {
    || p.DeadlineReached?
    || p.PollFailed?
    || Typed(p)
    || Dismissed(p)
    || (p.Ready? && !p.flag && SocketEnds(p.ipc, p.read))
  }

  /** Pass `k` is the first that ends the loop. */
  ghost predicate EndsAt(passes: seq<Pass>, k: nat) {
    k < |passes| && Ends(passes[k]) && forall i | 0 <= i < k :: !Ends(passes[i])
  }

  lemma {:induction false} EndingPass(passes: seq<Pass>) returns (k: nat)
    ensures if k == |passes| then LoopVerdict(passes) == Again && forall i | 0 <= i < |passes| :: !Ends(passes[i])
            else EndsAt(passes, k) && LoopVerdict(passes) == Decide(passes[k])
  {
    if passes == [] || Ends(passes[0]) {
      k := 0;
    } else {
      k := EndingPass(passes[1..]);
      k := k + 1;
      assert forall i | 0 < i < |passes| :: passes[i] == passes[1..][i - 1];
    }
  }

  /**
   The loop goes on exactly while no pass ends it, and the first one that does fixes
   the exit: a response, the deadline, a token, a dismissed dialog, or one of the two
   errors.
   */
  lemma LoopExits(passes: seq<Pass>)
    ensures LoopVerdict(passes) == Again <==> forall k | 0 <= k < |passes| :: !Ends(passes[k])
    ensures forall raw :: LoopVerdict(passes) == Exit(IpcResponseReceived, Some(raw), None)
                          <==> exists k: nat :: EndsAt(passes, k) && Answered(passes[k], raw)
    ensures LoopVerdict(passes) == Exit(Timeout, None, None)
            <==> exists k: nat :: EndsAt(passes, k) && passes[k].DeadlineReached?
    ensures LoopVerdict(passes) == Exit(PasswordEntered, None, None)
            <==> exists k: nat :: EndsAt(passes, k) && Typed(passes[k])
    ensures LoopVerdict(passes) == Exit(PasswordFailed, None, None)
            <==> exists k: nat :: EndsAt(passes, k) && Dismissed(passes[k])
    ensures LoopVerdict(passes) == Exit(IpcError, None, Some(ConnectionLost))
            <==> exists k: nat :: EndsAt(passes, k) && Lost(passes[k])
    ensures LoopVerdict(passes) == Exit(IpcError, None, Some(CommunicationError))
            <==> exists k: nat :: EndsAt(passes, k) && Failed(passes[k])
  {
    var k := EndingPass(passes);
    assert forall j: nat :: EndsAt(passes, j) ==> j == k;
  }

  /** A pass as the sequential loop sees it: there is no worker, so no flag and no pipe. */
  function WithoutWorker(pass: Pass): Pass {
    match pass
    case Ready(_, ipc, read, _) => Ready(false, ipc, read, false)
    case _ => pass
  }

  function AllWithoutWorker(passes: seq<Pass>): seq<Pass> {
    seq(|passes|, i requires 0 <= i < |passes| => WithoutWorker(passes[i]))
  }

  /** The sequential loop ends as the threaded one would if the worker never moved. */
  function SequentialVerdict(passes: seq<Pass>): Verdict {
    LoopVerdict(AllWithoutWorker(passes))
  }

  predicate SequentialEnds(p: Pass) {
    p.DeadlineReached? || p.PollFailed? || (p.Ready? && SocketEnds(p.ipc, p.read))
  }

  predicate SequentialFails(p: Pass) {
    p.PollFailed? || (p.Ready? && SocketBroken(p.ipc, p.read))
  }

  ghost predicate SequentialEndsAt(passes: seq<Pass>, k: nat) {
    k < |passes| && SequentialEnds(passes[k]) && forall i | 0 <= i < k :: !SequentialEnds(passes[i])
  }

  /** Deadline, socket and poll decide it, whatever flag and pipe may say. */
  lemma SequentialExits(passes: seq<Pass>)
    ensures SequentialVerdict(passes) == Again <==> forall k | 0 <= k < |passes| :: !SequentialEnds(passes[k])
    ensures forall raw :: SequentialVerdict(passes) == Exit(IpcResponseReceived, Some(raw), None)
                          <==> exists k: nat :: SequentialEndsAt(passes, k) && passes[k].Ready?
                                                && SocketAnswers(passes[k].ipc, passes[k].read, raw)
    ensures SequentialVerdict(passes) == Exit(Timeout, None, None)
            <==> exists k: nat :: SequentialEndsAt(passes, k) && passes[k].DeadlineReached?
    ensures SequentialVerdict(passes).Exit? && SequentialVerdict(passes).reason == IpcError
            <==> exists k: nat :: SequentialEndsAt(passes, k) && SequentialFails(passes[k])
  {
    var all := AllWithoutWorker(passes);
    assert forall i | 0 <= i < |passes| :: Ends(all[i]) <==> SequentialEnds(passes[i]);
    var k := EndingPass(all);
    assert forall j: nat :: SequentialEndsAt(passes, j) ==> j == k;
    assert k < |passes| ==> SequentialEndsAt(passes, k);
  }

  /** `run_sequential_event_loop`. */
  method RunSequentialEventLoop(passes: seq<Pass>) returns (exit: Option<(ExitReason, Option<int>)>)
    ensures var v := SequentialVerdict(passes);
            exit == if v == Again then None else Some((v.reason, v.response))
  {
    ghost var all := AllWithoutWorker(passes);
    var i := 0;
    while i < |passes|
      invariant i <= |passes|
      invariant LoopVerdict(all) == LoopVerdict(all[i..])
    {
      var pass := passes[i];
      i := i + 1;
      assert all[i - 1] == WithoutWorker(pass);
      assert all[i - 1..][1..] == all[i..];
      match pass {
        case DeadlineReached =>
          return Some((Timeout, None));
        case NothingReady =>
          continue;
        case Interrupted =>
          continue;
        case PollFailed =>
          return Some((IpcError, None));
        case Ready(_, ipc, read, _) =>
          if ipc.pollIn {
            match read {
              case Frame(raw) =>
                return Some((IpcResponseReceived, Some(raw)));
              case Incomplete =>
                if ipc.hangupOrError {
                  return Some((IpcError, None));
                }
              case ReadError =>
                return Some((IpcError, None));
            }
          } else if ipc.hangupOrError {
            return Some((IpcError, None));
          }
      }
    }
    exit := None;
  }

  // ---- The terminal loop ----------------------------------------------------

  /** What reading one byte from the terminal gives. */
  datatype KeyRead = Enter | OtherKey | EndOfFile | WouldBlock | TtyError

  /** One pass of the loop that polls the daemon and /dev/tty; a failed poll is only tried again. */
  datatype TtyPass =
    | TtyDeadline
    | TtyNothing
    | TtyReady(ipc: Revents, read: ReadResult, tty: Revents, key: KeyRead)

  /** How an exit looks to `authenticate_inner`: a response, or none. */
  function PathOfExit(v: Verdict): VerdictCache.Path {
    if v.Exit? && v.response.Some? then VerdictCache.Responded(v.response.value) else VerdictCache.Unanswered
  }

  /** Whether the terminal is worth polling again. */
  predicate TtyGoesOn(tty: Revents, key: KeyRead) {
    if tty.pollIn then key != EndOfFile && key != TtyError else !tty.hangupOrError
  }

  /** How the terminal flow ends; `pollTty` says whether the terminal is still listened to. */
  function TerminalPath(passes: seq<TtyPass>, pollTty: bool): Option<VerdictCache.Path> {
    if passes == [] then None
    else
      match passes[0]
      case TtyDeadline => Some(VerdictCache.Unanswered)
      case TtyNothing => TerminalPath(passes[1..], pollTty)
      case TtyReady(ipc, read, tty, key) =>
        var v := Decide(Ready(false, ipc, read, false));
        if v != Again then Some(PathOfExit(v))
        else if pollTty && tty.pollIn && key == Enter then Some(VerdictCache.Unanswered)
        else TerminalPath(passes[1..], pollTty && TtyGoesOn(tty, key))
  }

  /** The terminal branch of `authenticate_inner`. */
  method RunTerminalLoop(passes: seq<TtyPass>) returns (path: Option<VerdictCache.Path>)
    ensures path == TerminalPath(passes, true)
  {
    var pollTty := true;
    var i := 0;
    while i < |passes|
      invariant i <= |passes|
      invariant TerminalPath(passes, true) == TerminalPath(passes[i..], pollTty)
    {
      var pass := passes[i];
      i := i + 1;
      assert passes[i - 1..][1..] == passes[i..];
      match pass {
        case TtyDeadline =>
          return Some(VerdictCache.Unanswered);
        case TtyNothing =>
          continue;
        case TtyReady(ipc, read, tty, key) =>
          if ipc.pollIn {
            match read {
              case Frame(raw) =>
                return Some(VerdictCache.Responded(raw));
              case Incomplete =>
                if ipc.hangupOrError {
                  return Some(VerdictCache.Unanswered);
                }
              case ReadError =>
                return Some(VerdictCache.Unanswered);
            }
          } else if ipc.hangupOrError {
            return Some(VerdictCache.Unanswered);
          }
          if pollTty {
            if tty.pollIn {
              match key {
                case Enter =>
                  return Some(VerdictCache.Unanswered);
                case EndOfFile =>
                  pollTty := false;
                case TtyError =>
                  pollTty := false;
                case _ =>
              }
            } else if tty.hangupOrError {
              pollTty := false;
            }
          }
      }
    }
    path := None;
  }

  function WithoutTty(pass: TtyPass): Pass {
    match pass
    case TtyDeadline => DeadlineReached
    case TtyNothing => NothingReady
    case TtyReady(ipc, read, _, _) => Ready(false, ipc, read, false)
  }

  function AllWithoutTty(passes: seq<TtyPass>): seq<Pass> {
    seq(|passes|, i requires 0 <= i < |passes| => WithoutTty(passes[i]))
  }

  /** The terminal is still listened to when pass `i` begins. */
  predicate ListenedTo(passes: seq<TtyPass>, pollTty: bool, i: nat)
    requires i <= |passes|
  {
    pollTty && forall k | 0 <= k < i :: !ClosesTty(passes[k])
  }

  /** The terminal ended, failed, or hung up with nothing to read. */
  predicate ClosesTty(p: TtyPass) {
    p.TtyReady? && if p.tty.pollIn then p.key == EndOfFile || p.key == TtyError else p.tty.hangupOrError
  }

  /** Pass `i` reads Enter from a terminal listened to, and the socket has decided nothing so far. */
  predicate SkippedAt(passes: seq<TtyPass>, pollTty: bool, i: nat)
    requires i < |passes|
  {
    && passes[i].TtyReady? && passes[i].tty.pollIn && passes[i].key == Enter && ListenedTo(passes, pollTty, i)
    && forall k | 0 <= k <= i :: Decide(WithoutTty(passes[k])) == Again
  }

  predicate SkippedByUser(passes: seq<TtyPass>, pollTty: bool) {
    exists i: nat | i < |passes| :: SkippedAt(passes, pollTty, i)
  }

  /** What the rest of the loop listens to after its first pass. */
  function ListensOn(pass: TtyPass, pollTty: bool): bool {
    pollTty && (pass.TtyReady? ==> TtyGoesOn(pass.tty, pass.key))
  }

  lemma SkippedLater(passes: seq<TtyPass>, pollTty: bool)
    requires passes != [] && Decide(WithoutTty(passes[0])) == Again && !SkippedAt(passes, pollTty, 0)
    ensures SkippedByUser(passes, pollTty) <==> SkippedByUser(passes[1..], ListensOn(passes[0], pollTty))
  {
    var rest, on := passes[1..], ListensOn(passes[0], pollTty);
    forall i: nat | i < |rest| ensures SkippedAt(rest, on, i) <==> SkippedAt(passes, pollTty, i + 1) {
      assert forall k | 0 <= k < |rest| :: rest[k] == passes[k + 1];
      assert ListenedTo(rest, on, i) <==> ListenedTo(passes, pollTty, i + 1) by {
        assert forall k | 0 < k < i + 1 :: passes[k] == rest[k - 1];
      }
      if SkippedAt(rest, on, i) {
        forall k | 0 <= k <= i + 1 ensures Decide(WithoutTty(passes[k])) == Again {
          assert k > 0 ==> passes[k] == rest[k - 1];
        }
      }
    }
    if i: nat :| i < |passes| && SkippedAt(passes, pollTty, i) {
      assert SkippedAt(rest, on, i - 1);
    }
  }

  /**
   The terminal flow is unanswered when the user presses Enter while the terminal is
   listened to and the socket has decided nothing; in every other case it ends as the
   sequential loop does on the same socket.
   */
  lemma {:induction false} TerminalEndsAsSequential(passes: seq<TtyPass>, pollTty: bool)
    ensures var v := LoopVerdict(AllWithoutTty(passes));
            TerminalPath(passes, pollTty)
            == if SkippedByUser(passes, pollTty) then Some(VerdictCache.Unanswered)
               else if v == Again then None
               else Some(PathOfExit(v))
  {
    if passes != [] {
      assert AllWithoutTty(passes)[0] == WithoutTty(passes[0]);
      assert AllWithoutTty(passes)[1..] == AllWithoutTty(passes[1..]);
      if Decide(WithoutTty(passes[0])) == Again {
        if !SkippedAt(passes, pollTty, 0) {
          TerminalEndsAsSequential(passes[1..], ListensOn(passes[0], pollTty));
          SkippedLater(passes, pollTty);
        }
      } else {
        assert !SkippedByUser(passes, pollTty);
      }
    }
  }

  /** Pass `k` ends the terminal loop: deadline, socket, or Enter on a terminal listened to. */
  predicate TerminalEnds(passes: seq<TtyPass>, pollTty: bool, k: nat)
    requires k < |passes|
  {
    var p := passes[k];
    || p.TtyDeadline?
    || (p.TtyReady? && SocketEnds(p.ipc, p.read))
    || (p.TtyReady? && p.tty.pollIn && p.key == Enter && ListenedTo(passes, pollTty, k))
  }

  ghost predicate TerminalEndsAt(passes: seq<TtyPass>, pollTty: bool, k: nat) {
    k < |passes| && TerminalEnds(passes, pollTty, k) && forall i | 0 <= i < k :: !TerminalEnds(passes, pollTty, i)
  }

  predicate TtyAnswered(p: TtyPass, raw: int) {
    p.TtyReady? && SocketAnswers(p.ipc, p.read, raw)
  }

  lemma TerminalEndsShift(passes: seq<TtyPass>, pollTty: bool, k: nat)
    requires 0 < k < |passes|
    ensures TerminalEnds(passes, pollTty, k) <==> TerminalEnds(passes[1..], ListensOn(passes[0], pollTty), k - 1)
  {
    var rest := passes[1..];
    assert forall i | 0 < i < |passes| :: passes[i] == rest[i - 1];
    assert ListenedTo(passes, pollTty, k) <==> ListenedTo(rest, ListensOn(passes[0], pollTty), k - 1) by {
      assert forall i | 0 <= i < k - 1 :: rest[i] == passes[i + 1];
    }
  }

  lemma {:induction false} TerminalEndingPass(passes: seq<TtyPass>, pollTty: bool) returns (k: nat)
    ensures if k == |passes|
            then && TerminalPath(passes, pollTty) == None
                 && forall i | 0 <= i < |passes| :: !TerminalEnds(passes, pollTty, i)
            else TerminalEndsAt(passes, pollTty, k)
                 && TerminalPath(passes, pollTty)
                    == Some(if passes[k].TtyReady? && passes[k].ipc.pollIn && passes[k].read.Frame?
                            then VerdictCache.Responded(passes[k].read.raw)
                            else VerdictCache.Unanswered)
  {
    if passes == [] || TerminalEnds(passes, pollTty, 0) {
      k := 0;
    } else {
      var rest, on := passes[1..], ListensOn(passes[0], pollTty);
      k := TerminalEndingPass(rest, on);
      k := k + 1;
      forall i | 0 < i < |passes| ensures TerminalEnds(passes, pollTty, i) <==> TerminalEnds(rest, on, i - 1) {
        TerminalEndsShift(passes, pollTty, i);
      }
      assert k < |passes| ==> passes[k] == rest[k - 1];
    }
  }

  /** The terminal loop answers with the first response that nothing ended before; any other end is unanswered. */
  lemma TerminalExits(passes: seq<TtyPass>, pollTty: bool)
    ensures TerminalPath(passes, pollTty) == None
            <==> forall k | 0 <= k < |passes| :: !TerminalEnds(passes, pollTty, k)
    ensures forall raw :: TerminalPath(passes, pollTty) == Some(VerdictCache.Responded(raw))
                          <==> exists k: nat :: TerminalEndsAt(passes, pollTty, k) && TtyAnswered(passes[k], raw)
    ensures TerminalPath(passes, pollTty) == Some(VerdictCache.Unanswered)
            <==> exists k: nat :: TerminalEndsAt(passes, pollTty, k) && forall raw :: !TtyAnswered(passes[k], raw)
  {
    var k := TerminalEndingPass(passes, pollTty);
    assert forall j: nat :: TerminalEndsAt(passes, pollTty, j) ==> j == k;
    if k < |passes| && passes[k].TtyReady? && passes[k].ipc.pollIn && passes[k].read.Frame? {
      assert TtyAnswered(passes[k], passes[k].read.raw);
    }
  }

  // ---- The two threads ------------------------------------------------------

  /** Where the worker is. Only `InAuthtok` is inside libpam and the conversation. */
  datatype Worker =
    | NotSpawned
    | InAuthtok
    | Returned(token: bool)          // left pam_get_authtok, flag not stored yet
    | Notifying(token: bool)         // flag stored if there is a token, pipe not written yet
    | Finished(token: bool)
    | Unwound                        // cancelled inside pam_get_authtok

  /** Where the calling thread is. */
  datatype Main =
    | Preparing                      // request sent; the pipe and the thread come next
    | LoopTop
    | Polled(ipc: Revents, pipeIn: bool)
    | FlagLoaded(flag: bool, ipc: Revents, pipeIn: bool)
    | Left(exit: Verdict)            // the loop returned, cancel_and_join comes next
    | Joining(exit: Verdict)
    | Joined(exit: Verdict)          // free to use the conversation again
    | InConversation(exit: Verdict)
    | Done(code: VerdictCache.Code)

  datatype State = State(
    main: Main,
    worker: Worker,
    flag: bool,                      // ThreadContext.password_entered
    pipe: nat,                       // bytes in the self-pipe; never read
    cancelPending: bool,
    cancelFailed: bool,              // pthread_cancel itself reported an error
    passes: seq<Pass>,               // what the event loop has seen
    spawns: nat,
    joins: nat)

  datatype Event =
    // calling thread
    | PrepareFails                                  // pipe2 or pthread_create failed
    | Spawn
    | SkipPass(pass: Pass)                          // a pass in which poll reported nothing
    | Poll(ipc: Revents, pipeIn: bool)
    | LoadFlag
    | FinishPass(read: ReadResult)
    | CancelOrNot(cancelErrors: bool)
    | Join
    | EnterConversation
    | LeaveConversation
    | ReturnToHost
    // worker
    | AuthtokReturns(token: bool)
    | AuthtokUnwinds
    | StoreFlag
    | WritePipe(written: bool)

  const INITIAL := State(Preparing, NotSpawned, false, 0, false, false, [], 0, 0)

  /** `exit_reason != PasswordEntered && exit_reason != PasswordFailed`. */
  predicate WantsCancel(exit: Verdict) {
    exit.Exit? && exit.reason != PasswordEntered && exit.reason != PasswordFailed
  }

  predicate Gone(w: Worker) {
    w.Finished? || w.Unwound?
  }

  /** The code of the threaded flow: a response decides, anything else is unavailable. */
  function FinalCode(exit: Verdict): VerdictCache.Code {
    if exit.Exit? && exit.response.Some? then VerdictCache.MapOutcome(exit.response.value)
        else VerdictCache.AuthInfoUnavail
  }

  /** A pass ends: either back to the top or out of the loop. */
  function EndPass(s: State, pass: Pass): State {
    var verdict := Decide(pass);
    s.(passes := s.passes + [pass], main := if verdict == Again then LoopTop else Left(verdict))
  }

  /** Steps of the calling thread; what is not enabled changes nothing. */
  function MainStep(s: State, e: Event): State {
    match e
    case PrepareFails =>
      if s.main.Preparing? then s.(main := Done(VerdictCache.AuthErr)) else s
    case Spawn =>
      if s.main.Preparing? then s.(main := LoopTop, worker := InAuthtok, spawns := s.spawns + 1) else s
    case SkipPass(pass) =>
      if s.main.LoopTop? && !pass.Ready? then EndPass(s, pass) else s
    case Poll(ipc, pipeIn) =>
      // poll may report the pipe readable only if a byte is there
      if s.main.LoopTop? && (pipeIn ==> s.pipe > 0) then s.(main := Polled(ipc, pipeIn)) else s
    case LoadFlag =>
      if s.main.Polled? then s.(main := FlagLoaded(s.flag, s.main.ipc, s.main.pipeIn)) else s
    case FinishPass(read) =>
      if s.main.FlagLoaded? then EndPass(s, Ready(s.main.flag, s.main.ipc, read, s.main.pipeIn)) else s
    case CancelOrNot(cancelErrors) =>
      if !s.main.Left? then s
      else if WantsCancel(s.main.exit) then
        s.(main := Joining(s.main.exit), cancelPending := !cancelErrors, cancelFailed := cancelErrors)
      else s.(main := Joining(s.main.exit))
    case Join =>
      if s.main.Joining? && Gone(s.worker) then s.(main := Joined(s.main.exit), joins := s.joins + 1) else s
    case EnterConversation =>
      if s.main.Joined? then s.(main := InConversation(s.main.exit)) else s
    case LeaveConversation =>
      if s.main.InConversation? then s.(main := Joined(s.main.exit)) else s
    case ReturnToHost =>
      if s.main.Joined? then s.(main := Done(FinalCode(s.main.exit))) else s
    case _ => s
  }

  /** Steps of the worker; the raw pipe write is not a cancellation point. */
  function WorkerStep(s: State, e: Event): State {
    match e
    case AuthtokReturns(token) =>
      if s.worker.InAuthtok? then s.(worker := Returned(token)) else s
    case AuthtokUnwinds =>
      if s.worker.InAuthtok? && s.cancelPending then s.(worker := Unwound) else s
    case StoreFlag =>
      if s.worker.Returned? then s.(flag := s.flag || s.worker.token, worker := Notifying(s.worker.token)) else s
    case WritePipe(written) =>
      if s.worker.Notifying? then
        s.(pipe := if written then s.pipe + 1 else s.pipe, worker := Finished(s.worker.token))
      else s
    case _ => s
  }

  function Step(s: State, e: Event): State {
    WorkerStep(MainStep(s, e), e)
  }

  function Run(es: seq<Event>): State {
    if es == [] then INITIAL else Step(Run(Front(es)), Last(es))
  }

  // ---- The invariant --------------------------------------------------------

  predicate Holds(w: Worker, token: bool) {
    (w.Notifying? || w.Finished?) && w.token == token
  }

  /** Worker, flag and pipe: the flag store precedes the pipe write. */
  predicate WorkerInv(s: State) {
    && (s.flag <==> Holds(s.worker, true))
    && (s.pipe > 0 ==> s.worker.Finished?)
    && (s.worker.NotSpawned? <==> s.spawns == 0)
    && s.spawns <= 1
    && (s.worker.Unwound? ==> s.cancelPending)
  }

  /** The worker as the exit reason describes it. */
  predicate ExitInv(exit: Verdict, w: Worker) {
    && exit.Exit?
    && !w.NotSpawned?
    && (exit.reason == PasswordEntered ==> Holds(w, true))
    && (exit.reason == PasswordFailed ==> w == Finished(false))
  }

  predicate ByPassword(exit: Verdict) {
    exit.Exit? && (exit.reason == PasswordEntered || exit.reason == PasswordFailed)
  }

  predicate MainInv(s: State) {
    match s.main
    case Preparing => s.spawns == 0 && s.joins == 0 && s.passes == [] && !s.cancelPending
    case LoopTop => s.spawns == 1 && s.joins == 0 && LoopVerdict(s.passes) == Again && !s.cancelPending
    case Polled(_, pipeIn) =>
      && s.spawns == 1 && s.joins == 0 && LoopVerdict(s.passes) == Again && !s.cancelPending
      && (pipeIn ==> s.pipe > 0)
    case FlagLoaded(flag, _, pipeIn) =>
      && s.spawns == 1 && s.joins == 0 && LoopVerdict(s.passes) == Again && !s.cancelPending
      && (flag ==> s.flag)
      && (pipeIn ==> s.pipe > 0 && flag == s.flag)
    case Left(exit) =>
      && s.spawns == 1 && s.joins == 0 && LoopVerdict(s.passes) == exit && !s.cancelPending
      && ExitInv(exit, s.worker)
    case Joining(exit) =>
      && s.spawns == 1 && s.joins == 0 && LoopVerdict(s.passes) == exit
      && ExitInv(exit, s.worker)
      && (WantsCancel(exit) ==> s.cancelPending || s.cancelFailed)
      && (s.cancelPending ==> !ByPassword(exit))
    case Joined(exit) =>
      && s.spawns == 1 && s.joins == 1 && LoopVerdict(s.passes) == exit && Gone(s.worker)
      && ExitInv(exit, s.worker) && (s.cancelPending ==> !ByPassword(exit))
    case InConversation(exit) =>
      && s.spawns == 1 && s.joins == 1 && LoopVerdict(s.passes) == exit && Gone(s.worker)
      && ExitInv(exit, s.worker) && (s.cancelPending ==> !ByPassword(exit))
    case Done(code) =>
      && s.joins == s.spawns
      && (s.spawns == 0 ==> code == VerdictCache.AuthErr)
      && (s.spawns == 1 ==> Gone(s.worker) && code == FinalCode(LoopVerdict(s.passes)))
  }

  predicate Inv(s: State) {
    WorkerInv(s) && MainInv(s)
  }

  lemma {:induction false} LoopVerdictAppend(passes: seq<Pass>, pass: Pass)
    ensures LoopVerdict(passes + [pass]) == if LoopVerdict(passes) == Again then Decide(pass) else LoopVerdict(passes)
  {
    if passes != [] {
      assert (passes + [pass])[1..] == passes[1..] + [pass];
      LoopVerdictAppend(passes[1..], pass);
    }
  }

  lemma MainStepKeepsInv(s: State, e: Event)
    requires Inv(s)
    ensures Inv(MainStep(s, e))
  {
    match e
    case SkipPass(pass) => LoopVerdictAppend(s.passes, pass);
    case FinishPass(read) =>
      if s.main.FlagLoaded? {
        LoopVerdictAppend(s.passes, Ready(s.main.flag, s.main.ipc, read, s.main.pipeIn));
      }
    case _ =>
  }

  lemma WorkerStepKeepsInv(s: State, e: Event)
    requires Inv(s)
    ensures Inv(WorkerStep(s, e))
  {
  }

  lemma {:induction false} RunKeepsInv(es: seq<Event>)
    ensures Inv(Run(es))
  {
    if es != [] {
      RunKeepsInv(Front(es));
      MainStepKeepsInv(Run(Front(es)), Last(es));
      WorkerStepKeepsInv(MainStep(Run(Front(es)), Last(es)), Last(es));
    }
  }

  // ---- What every interleaving guarantees -----------------------------------

  /**
   The calling thread and the worker are never in libpam together, the calling
   thread stays out of it from spawn to join, and control goes back to the host
   only when the worker is gone.
   */
  lemma LibpamIsExclusive(es: seq<Event>)
    ensures var s := Run(es);
            && (s.main.InConversation? ==> !s.worker.InAuthtok?)
            && (s.spawns > s.joins ==> !s.main.InConversation? && !s.main.Done?)
            && (s.main.Done? ==> s.worker.NotSpawned? || Gone(s.worker))
  {
    RunKeepsInv(es);
  }

  /** Whatever way the call ends, the worker it spawned was joined exactly once. */
  lemma JoinedExactlyOnce(es: seq<Event>)
    ensures Run(es).joins <= Run(es).spawns <= 1
    ensures Run(es).main.Done? ==> Run(es).joins == Run(es).spawns
  {
    RunKeepsInv(es);
  }

  /**
   The cancel is left out only when the worker has already left pam_get_authtok,
   and unless pthread_cancel itself fails, the join needs nothing from the user:
   steps the worker takes on its own are enough to complete it.
   */
  lemma JoinNeverWaitsForTheUser(es: seq<Event>)
    requires Run(es).main.Joining?
    ensures !WantsCancel(Run(es).main.exit) ==> !Run(es).worker.InAuthtok?
    ensures !Run(es).cancelFailed ==>
              Step(Step(Step(Step(Run(es), AuthtokUnwinds), StoreFlag), WritePipe(false)), Join).main.Joined?
  {
    RunKeepsInv(es);
    if !Run(es).cancelFailed {
      WorkerEndsAlone(Run(es));
    }
  }

  lemma WorkerEndsAlone(s: State)
    requires Inv(s) && s.main.Joining? && !s.cancelFailed
    ensures Step(Step(Step(Step(s, AuthtokUnwinds), StoreFlag), WritePipe(false)), Join).main.Joined?
  {
    var w := Step(Step(Step(s, AuthtokUnwinds), StoreFlag), WritePipe(false));
    assert w.main == s.main;
    assert Gone(w.worker);
  }

  /**
   A typed password survives the join: after an exit by password the worker was not
   cancelled, and it has finished with the token, or without one when the dialog was
   dismissed.
   */
  lemma PasswordSurvivesTheJoin(es: seq<Event>)
    requires Run(es).main.Joined? && ByPassword(Run(es).main.exit)
    ensures !Run(es).cancelPending
    ensures Run(es).worker == Finished(Run(es).main.exit.reason == PasswordEntered)
  {
    RunKeepsInv(es);
  }

  /** The exit the event loop took, once it has left. */
  function ExitOf(m: Main): Option<Verdict> {
    if m.Left? || m.Joining? then Some(m.exit) else None
  }

  /**
   The exit reason tells the truth about the worker: `PasswordFailed` only when it
   finished without a token, `PasswordEntered` only when it holds one, whatever
   happened between the poll and the flag load. The daemon's response is present
   exactly for `IpcResponseReceived`, an error text exactly for `IpcError`, and
   the exit is the one `run_gui_event_loop` computes from what it saw.
   */
  lemma ExitReasonIsTruthful(es: seq<Event>)
    requires ExitOf(Run(es).main).Some?
    ensures var s := Run(es); var exit := ExitOf(s.main).value;
            && exit.Exit?
            && exit == LoopVerdict(s.passes)
            && (exit.reason == PasswordFailed ==> s.worker == Finished(false))
            && (exit.reason == PasswordEntered ==> s.flag && Holds(s.worker, true))
            && (exit.response.Some? <==> exit.reason == IpcResponseReceived)
            && (exit.error.Some? <==> exit.reason == IpcError)
  {
    RunKeepsInv(es);
    LoopExitShape(Run(es).passes);
  }

  lemma {:induction false} LoopExitShape(passes: seq<Pass>)
    ensures var v := LoopVerdict(passes);
            v.Exit? ==>
              && (v.response.Some? <==> v.reason == IpcResponseReceived)
              && (v.error.Some? <==> v.reason == IpcError)
  {
    if passes != [] {
      LoopExitShape(passes[1..]);
    }
  }

  /** The password wins: a response read in the same pass as a stored token is not used. */
  lemma GrantNeedsAFrameAndNoPassword(es: seq<Event>)
    requires Run(es).main == Done(VerdictCache.Success)
    ensures exists i: nat | i < |Run(es).passes| ::
              var p := Run(es).passes[i];
              p.Ready? && !p.flag && p.ipc.pollIn && p.read == Frame(0)
  {
    RunKeepsInv(es);
    var i := DecidingPass(Run(es).passes);
  }

  lemma {:induction false} DecidingPass(passes: seq<Pass>) returns (i: nat)
    requires LoopVerdict(passes) != Again
    ensures i < |passes| && Decide(passes[i]) == LoopVerdict(passes)
    ensures forall k | 0 <= k < i :: Decide(passes[k]) == Again
  {
    if Decide(passes[0]) != Again {
      i := 0;
    } else {
      i := DecidingPass(passes[1..]);
      i := i + 1;
    }
  }

  /** Bytes the worker got into the pipe. */
  function Sent(es: seq<Event>): nat {
    if es == [] then 0
    else Sent(Front(es)) + if Last(es) == WritePipe(true) && Run(Front(es)).worker.Notifying? then 1 else 0
  }

  /** The pipe holds what was written, at most one byte, and only a worker that is done has written it. */
  lemma {:induction false} PipeHoldsWhatWasSent(es: seq<Event>)
    ensures Run(es).pipe == Sent(es) <= 1
    ensures Sent(es) == 1 ==> Run(es).worker.Finished?
  {
    if es != [] {
      RunKeepsInv(Front(es));
      PipeHoldsWhatWasSent(Front(es));
    }
  }

  // ---- Every way out can be taken -------------------------------------------

  function From(s: State, es: seq<Event>): State {
    if es == [] then s else Step(From(s, Front(es)), Last(es))
  }

  ghost predicate WithoutUser(es: seq<Event>) {
    forall i | 0 <= i < |es| :: !es[i].AuthtokReturns?
  }

  /** Some steps lead from one state to the other, if need be none of them the user's. */
  ghost predicate Leads(s: State, t: State, alone: bool) {
    exists es :: From(s, es) == t && (alone ==> WithoutUser(es))
  }

  lemma Stays(s: State, alone: bool)
    ensures Leads(s, s, alone)
  {
    assert From(s, []) == s;
  }

  lemma Goes(s: State, t: State, e: Event, alone: bool)
    requires Leads(s, t, alone) && !(alone && e.AuthtokReturns?)
    ensures Leads(s, Step(t, e), alone)
  {
    var es :| From(s, es) == t && (alone ==> WithoutUser(es));
    assert Front(es + [e]) == es;
    assert From(s, es + [e]) == Step(t, e);
  }

  lemma StepsLead(s: State, a: Event, b: Event, c: Event, d: Event, alone: bool)
    requires alone ==> WithoutUser([a, b, c, d])
    ensures Leads(s, Step(Step(Step(Step(s, a), b), c), d), alone)
  {
    assert Front([a]) == [] && Front([a, b]) == [a] && Front([a, b, c]) == [a, b];
    assert Front([a, b, c, d]) == [a, b, c];
    assert From(s, [a, b, c, d]) == Step(From(s, [a, b, c]), d);
    assert From(s, [a, b, c]) == Step(From(s, [a, b]), c);
    assert From(s, [a, b]) == Step(From(s, [a]), b);
    assert From(s, [a]) == Step(s, a);
  }

  lemma {:induction false} RunIsFrom(es: seq<Event>)
    ensures Run(es) == From(INITIAL, es)
  {
    if es != [] {
      RunIsFrom(Front(es));
    }
  }

  /** What leads on from the start is a run. */
  lemma LeadsIsRun(s: State) returns (es: seq<Event>)
    requires Leads(INITIAL, s, false)
    ensures Run(es) == s
  {
    es :| From(INITIAL, es) == s;
    RunIsFrom(es);
  }

  /** Until the worker is spawned a failing preparation ends the call, with nobody in libpam. */
  lemma PreparationFails(es: seq<Event>)
    requires Run(es).spawns == 0
    ensures var s := Run(es + [PrepareFails]); s.main == Done(VerdictCache.AuthErr) && s.worker == NotSpawned
  {
    RunKeepsInv(es);
    assert Front(es + [PrepareFails]) == es;
  }

  /** A pass in which the worker has not moved. */
  predicate Quiet(p: Pass) {
    p.Ready? ==> !p.flag && !p.pipeIn
  }

  /** Spawned, with the dialog open and these passes behind it. */
  function Waiting(passes: seq<Pass>): State {
    State(LoopTop, InAuthtok, false, 0, false, false, passes, 1, 0)
  }

  lemma MakePass(passes: seq<Pass>, p: Pass)
    requires Leads(INITIAL, Waiting(passes), false) && Quiet(p)
    ensures Leads(INITIAL, EndPass(Waiting(passes), p), false)
  {
    var s := Waiting(passes);
    if p.Ready? {
      Goes(INITIAL, s, Poll(p.ipc, false), false);
      s := Step(s, Poll(p.ipc, false));
      Goes(INITIAL, s, LoadFlag, false);
      s := Step(s, LoadFlag);
      Goes(INITIAL, s, FinishPass(p.read), false);
    } else {
      Goes(INITIAL, s, SkipPass(p), false);
    }
  }

  lemma {:induction false} CanWait(passes: seq<Pass>)
    requires forall i | 0 <= i < |passes| :: Quiet(passes[i]) && !Ends(passes[i])
    ensures Leads(INITIAL, Waiting(passes), false)
  {
    if passes == [] {
      Stays(INITIAL, false);
      Goes(INITIAL, INITIAL, Spawn, false);
    } else {
      CanWait(Front(passes));
      MakePass(Front(passes), Last(passes));
      assert Front(passes) + [Last(passes)] == passes;
    }
  }

  /** While the user does nothing, whatever ends the loop ends the call: the dialog is cancelled and joined. */
  lemma RemoteEndIsReached(passes: seq<Pass>, k: nat) returns (es: seq<Event>)
    requires EndsAt(passes, k) && k + 1 == |passes| && forall i | 0 <= i < |passes| :: Quiet(passes[i])
    ensures Run(es).passes == passes && Run(es).main.Done? && Run(es).worker == Unwound && Run(es).joins == 1
  {
    CanWait(passes[..k]);
    MakePass(passes[..k], passes[k]);
    var left := EndPass(Waiting(passes[..k]), passes[k]);
    assert passes[..k] + [passes[k]] == passes;
    var end := DialogIsCancelled(left);
    LeadsOn(INITIAL, left, end, false);
    es := LeadsIsRun(end);
  }

  lemma DialogIsCancelled(s: State) returns (t: State)
    requires s.main.Left? && WantsCancel(s.main.exit) && s.worker.InAuthtok?
    ensures Leads(s, t, false)
    ensures t.main.Done? && t.worker == Unwound && t.passes == s.passes && t.joins == s.joins + 1
  {
    StepsLead(s, CancelOrNot(false), AuthtokUnwinds, Join, ReturnToHost, false);
    t := Step(s, CancelOrNot(false));
    assert t == s.(main := Joining(s.main.exit), cancelPending := true, cancelFailed := false);
    t := Step(t, AuthtokUnwinds);
    t := Step(Step(t, Join), ReturnToHost);
  }

  /** The worker is back with a token or without one, and has said so. */
  function Notified(passes: seq<Pass>, token: bool): State {
    State(LoopTop, Finished(token), token, 1, false, false, passes, 1, 0)
  }

  lemma UserEndsDialog(passes: seq<Pass>, token: bool)
    requires Leads(INITIAL, Waiting(passes), false)
    ensures Leads(INITIAL, Notified(passes, token), false)
  {
    var s := Waiting(passes);
    Goes(INITIAL, s, AuthtokReturns(token), false);
    s := Step(s, AuthtokReturns(token));
    Goes(INITIAL, s, StoreFlag, false);
    s := Step(s, StoreFlag);
    Goes(INITIAL, s, WritePipe(true), false);
  }

  lemma LoopNotices(passes: seq<Pass>, token: bool)
    requires Leads(INITIAL, Notified(passes, token), false)
    ensures var pass := Ready(token, Revents(false, false), Incomplete, true);
            Leads(INITIAL, EndPass(Notified(passes, token), pass), false)
  {
    var s := Notified(passes, token);
    Goes(INITIAL, s, Poll(Revents(false, false), true), false);
    s := Step(s, Poll(Revents(false, false), true));
    Goes(INITIAL, s, LoadFlag, false);
    s := Step(s, LoadFlag);
    Goes(INITIAL, s, FinishPass(Incomplete), false);
  }

  /**
   At any time the user may end the dialog, with a token or without one. The loop
   notices, nothing is cancelled, and the conversation is free for what comes next.
   */
  lemma PasswordEndIsReached(passes: seq<Pass>, token: bool) returns (es: seq<Event>, after: State)
    requires forall i | 0 <= i < |passes| :: Quiet(passes[i]) && !Ends(passes[i])
    ensures Run(es).main == InConversation(Exit(if token then PasswordEntered else PasswordFailed, None, None))
    ensures Run(es).worker == Finished(token) && !Run(es).cancelPending
    ensures Leads(Run(es), after, true) && after.main == Done(VerdictCache.AuthInfoUnavail)
  {
    CanWait(passes);
    UserEndsDialog(passes, token);
    LoopNotices(passes, token);
    var left := EndPass(Notified(passes, token), Ready(token, Revents(false, false), Incomplete, true));
    var s := DialogIsJoined(left);
    LeadsOn(INITIAL, left, s, false);
    es := LeadsIsRun(s);
    after := ReturnCanFollow(s);
  }

  lemma DialogIsJoined(s: State) returns (t: State)
    requires s.main.Left? && !WantsCancel(s.main.exit) && s.worker.Finished?
    ensures Leads(s, t, false)
    ensures t == s.(main := InConversation(s.main.exit), joins := s.joins + 1)
  {
    Stays(s, false);
    Goes(s, s, CancelOrNot(false), false);
    t := s.(main := Joining(s.main.exit));
    Goes(s, t, Join, false);
    t := Step(t, Join);
    Goes(s, t, EnterConversation, false);
    t := Step(t, EnterConversation);
  }

  lemma LoopCanEnd(s: State) returns (t: State)
    requires s.main.LoopTop? || s.main.Polled? || s.main.FlagLoaded?
    ensures Leads(s, t, true) && t.main.Left? && t.cancelFailed == s.cancelFailed
  {
    t := s;
    Stays(s, true);
    if t.main.Polled? {
      Goes(s, t, LoadFlag, true);
      t := Step(t, LoadFlag);
    }
    if t.main.FlagLoaded? {
      Goes(s, t, FinishPass(ReadError), true);
      t := Step(t, FinishPass(ReadError));
    }
    if t.main.LoopTop? {
      Goes(s, t, SkipPass(DeadlineReached), true);
      t := Step(t, SkipPass(DeadlineReached));
    }
  }

  lemma ReturnCanFollow(s: State) returns (t: State)
    requires s.main.Joined? || s.main.InConversation?
    ensures Leads(s, t, true) && t.main.Done?
    ensures t.main == Done(FinalCode(s.main.exit))
  {
    Stays(s, true);
    Goes(s, s, LeaveConversation, true);
    t := Step(s, LeaveConversation);
    Goes(s, t, ReturnToHost, true);
    t := Step(t, ReturnToHost);
  }

  lemma JoinCanEnd(s: State) returns (t: State)
    requires Inv(s) && s.main.Joining?
    ensures Leads(s, t, !s.cancelFailed) && t.main.Joined?
  {
    var first := if s.cancelFailed then AuthtokReturns(false) else AuthtokUnwinds;
    StepsLead(s, first, StoreFlag, WritePipe(false), Join, !s.cancelFailed);
    t := Step(Step(Step(s, first), StoreFlag), WritePipe(false));
    assert t.main == s.main;
    assert Gone(t.worker);
    t := Step(t, Join);
  }

  lemma LeadsOn(s: State, t: State, u: State, alone: bool)
    requires Leads(s, t, alone) && Leads(t, u, alone)
    ensures Leads(s, u, alone)
  {
    var more :| From(t, more) == u && (alone ==> WithoutUser(more));
    LeadsThrough(s, t, more, alone);
  }

  lemma {:induction false} LeadsThrough(s: State, t: State, more: seq<Event>, alone: bool)
    requires Leads(s, t, alone) && (alone ==> WithoutUser(more))
    ensures Leads(s, From(t, more), alone)
  {
    if more != [] {
      LeadsThrough(s, t, Front(more), alone);
      Goes(s, From(t, Front(more)), Last(more), alone);
    }
  }

  /** With or without the user: what needs no help may be helped. */
  lemma LeadsFurther(s: State, t: State, u: State, alone: bool, unaided: bool)
    requires Leads(s, t, alone) && Leads(t, u, unaided) && (alone ==> unaided)
    ensures Leads(s, u, alone)
  {
    assert Leads(t, u, alone) by {
      var more :| From(t, more) == u && (unaided ==> WithoutUser(more));
    }
    LeadsOn(s, t, u, alone);
  }

  lemma {:induction false} FromKeepsInv(s: State, es: seq<Event>)
    requires Inv(s)
    ensures Inv(From(s, es))
  {
    if es != [] {
      FromKeepsInv(s, Front(es));
      MainStepKeepsInv(From(s, Front(es)), Last(es));
      WorkerStepKeepsInv(MainStep(From(s, Front(es)), Last(es)), Last(es));
    }
  }

  lemma LeadsKeepsInv(s: State, t: State, alone: bool)
    requires Inv(s) && Leads(s, t, alone)
    ensures Inv(t)
  {
    var es :| From(s, es) == t && (alone ==> WithoutUser(es));
    FromKeepsInv(s, es);
  }

  lemma CanLeave(s: State) returns (t: State)
    requires Inv(s) && !s.main.Preparing? && !s.main.Done?
    ensures Leads(s, t, true) && Inv(t) && (s.cancelFailed || !t.cancelFailed)
    ensures t.main.Joining? || t.main.Joined? || t.main.InConversation?
  {
    t := s;
    Stays(s, true);
    if t.main.LoopTop? || t.main.Polled? || t.main.FlagLoaded? {
      t := LoopCanEnd(s);
    }
    if t.main.Left? {
      Goes(s, t, CancelOrNot(false), true);
      t := Step(t, CancelOrNot(false));
    }
    LeadsKeepsInv(s, t, true);
  }

  lemma CanReturn(s: State) returns (t: State)
    requires Inv(s)
    ensures Leads(s, t, !s.cancelFailed) && t.main.Done?
  {
    var alone := !s.cancelFailed;
    Stays(s, alone);
    if s.main.Preparing? {
      Goes(s, s, PrepareFails, alone);
      t := Step(s, PrepareFails);
    } else if s.main.Done? {
      t := s;
    } else {
      t := CanLeave(s);
      LeadsFurther(s, s, t, alone, true);
      if t.main.Joining? {
        var joined := JoinCanEnd(t);
        LeadsFurther(s, t, joined, alone, !t.cancelFailed);
        t := joined;
      }
      var end := ReturnCanFollow(t);
      LeadsFurther(s, t, end, alone, true);
      t := end;
    }
  }

  /** From every reachable state the call can return, and unless pthread_cancel failed, without the user's help. */
  lemma NeverStuck(es: seq<Event>) returns (t: State)
    ensures Leads(Run(es), t, !Run(es).cancelFailed) && t.main.Done?
  {
    RunKeepsInv(es);
    t := CanReturn(Run(es));
  }

  // ---- The flow as its caller sees it ---------------------------------------

  /** The path of a threaded flow that has returned. */
  function PathOf(s: State): VerdictCache.Path {
    if s.spawns == 0 then VerdictCache.LocalFailure else PathOfExit(LoopVerdict(s.passes))
  }

  /** In every interleaving the code returned is the one that goes with the path taken. */
  lemma DoneCodeIsPathCode(es: seq<Event>, code: VerdictCache.Code)
    requires Run(es).main == Done(code)
    ensures code == VerdictCache.CodeOf(PathOf(Run(es)))
  {
    RunKeepsInv(es);
  }

  lemma ResponseShape(passes: seq<Pass>, raw: int)
    ensures PathOfExit(LoopVerdict(passes)) == VerdictCache.Responded(raw)
            <==> LoopVerdict(passes) == Exit(IpcResponseReceived, Some(raw), None)
  {
    var k := EndingPass(passes);
  }

  /** The threaded loop responds exactly with the frame of the pass that ends it. */
  lemma ThreadedRespondsIff(passes: seq<Pass>, raw: int)
    ensures PathOfExit(LoopVerdict(passes)) == VerdictCache.Responded(raw)
            <==> exists k: nat :: EndsAt(passes, k) && Answered(passes[k], raw)
  {
    ResponseShape(passes, raw);
    LoopExits(passes);
  }

  lemma SequentialRespondsIff(passes: seq<Pass>, raw: int)
    ensures PathOfExit(SequentialVerdict(passes)) == VerdictCache.Responded(raw)
            <==> exists k: nat :: SequentialEndsAt(passes, k) && passes[k].Ready?
                                  && SocketAnswers(passes[k].ipc, passes[k].read, raw)
  {
    ResponseShape(AllWithoutWorker(passes), raw);
    SequentialExits(passes);
  }

  /** A response is a frame that some pass read. */
  lemma ResponseWasRead(passes: seq<Pass>, raw: int)
    requires PathOfExit(LoopVerdict(passes)) == VerdictCache.Responded(raw)
    ensures exists i: nat | i < |passes| :: passes[i].Ready? && passes[i].read == Frame(raw)
  {
    var i := DecidingPass(passes);
  }

  lemma {:induction false} TerminalResponseWasRead(passes: seq<TtyPass>, pollTty: bool, raw: int)
    requires TerminalPath(passes, pollTty) == Some(VerdictCache.Responded(raw))
    ensures exists i: nat | i < |passes| :: passes[i].TtyReady? && passes[i].read == Frame(raw)
  {
    if !(passes[0].TtyReady? && passes[0].read == Frame(raw)) {
      var next := if passes[0].TtyReady? then pollTty && TtyGoesOn(passes[0].tty, passes[0].key) else pollTty;
      TerminalResponseWasRead(passes[1..], next, raw);
      var i: nat :| i < |passes[1..]| && passes[1..][i].TtyReady? && passes[1..][i].read == Frame(raw);
      assert passes[i + 1].TtyReady? && passes[i + 1].read == Frame(raw);
    }
  }
}
