/**
 One daemon authentication session: the race between the two transports and the
 cancel signal, the gates in front of it, and the outcome reported to PAM.
 */
module AuthSession {
  import opened Prelude
  import Transport
  import VerdictCache

  /** How a transport task ends, as its join handle reports it. */
  datatype TaskResult = Granted | Denied | Failed | Panicked

  /** The cancel receiver resolves when the sender is used, and also when it is dropped. */
  datatype RaceEvent = BleDone(result: TaskResult) | UdpDone(result: TaskResult) | Cancelled

  datatype RaceResult = RaceOk | RaceExplicitDenial | RaceDenied

  datatype Branch = Ble | Udp | Cancel

  /** A join handle completes at most once. */
  ghost predicate EachOnce(es: seq<RaceEvent>) {
    forall i, j | 0 <= i < j < |es| ::
      !(es[i].BleDone? && es[j].BleDone?) && !(es[i].UdpDone? && es[j].UdpDone?)
  }

  predicate Finished(es: seq<RaceEvent>, branch: Branch) {
    exists i | 0 <= i < |es| :: BranchOf(es[i]) == branch
  }

  /** The cancel, and the transports that have not finished. */
  function OpenBranches(es: seq<RaceEvent>): (open: set<Branch>)
    ensures Cancel in open
    ensures Ble in open <==> forall i | 0 <= i < |es| :: !es[i].BleDone?
    ensures Udp in open <==> forall i | 0 <= i < |es| :: !es[i].UdpDone?
  {
    set b | b in {Ble, Udp, Cancel} && (b == Cancel || !Finished(es, b))
  }

  function BranchOf(e: RaceEvent): Branch {
    match e
    case BleDone(_) => Ble
    case UdpDone(_) => Udp
    case Cancelled => Cancel
  }

  /** Success, an explicit denial, or a cancel; other endings leave the race open. */
  predicate Terminal(e: RaceEvent) {
    e.Cancelled? || e.result == Granted || e.result == Denied
  }

  function TerminalResult(e: RaceEvent): RaceResult
    requires Terminal(e)
  {
    if e.Cancelled? then RaceDenied else if e.result == Granted then RaceOk else RaceExplicitDenial
  }

  function FirstTerminal(es: seq<RaceEvent>): (t: nat)
    ensures t <= |es|
    ensures t < |es| ==> Terminal(es[t])
    ensures forall i | 0 <= i < t :: !Terminal(es[i])
  {
    if es == [] then 0 else if Terminal(es[0]) then 0 else 1 + FirstTerminal(es[1..])
  }

  /** The first terminal event decides; without one, two finished transports mean denied. */
  function Winner(es: seq<RaceEvent>): Option<RaceResult> {
    var t := FirstTerminal(es);
    if t < |es| then Some(TerminalResult(es[t]))
    else if Finished(es, Ble) && Finished(es, Udp) then Some(RaceDenied)
    else None
  }

  /** Whatever index the first terminal event has, it is `FirstTerminal`. */
  lemma FirstTerminalIs(es: seq<RaceEvent>, t: nat)
    requires t < |es| && Terminal(es[t]) && forall i | 0 <= i < t :: !Terminal(es[i])
    ensures FirstTerminal(es) == t
  {
  }

  /**
   `await_auth_result` over the order in which things happen, `None` while it is
   still waiting. `polled` lists the select branches enabled in each round: a
   finished handle is never polled again, and the cancel branch never goes away.
   */
  method AwaitAuthResult(es: seq<RaceEvent>) returns (result: Option<RaceResult>, polled: seq<set<Branch>>)
    requires EachOnce(es)
    ensures result == Winner(es)
    ensures |polled| <= |es|
    ensures forall i | 0 <= i < |polled| :: polled[i] == OpenBranches(es[..i])
    ensures result.None? ==> |polled| == |es|
  {
    var bleFailed, udpFailed := false, false;
    polled := [];
    var i := 0;
    while true
      invariant i == |polled| <= |es|
      invariant bleFailed <==> Finished(es[..i], Ble)
      invariant udpFailed <==> Finished(es[..i], Udp)
      invariant forall k | 0 <= k < i :: !Terminal(es[k])
      invariant forall k | 0 <= k < i :: polled[k] == OpenBranches(es[..k])
      decreases |es| - i
    {
      if bleFailed && udpFailed {
        BothFinished(es, i);
        return Some(RaceDenied), polled;
      }
      if i == |es| {
        assert es[..i] == es;
        return None, polled;
      }
      assert es[..i + 1] == es[..i] + [es[i]];
      Enabled(es, i);
      var branches := {Cancel};
      if !bleFailed { branches := branches + {Ble}; }
      if !udpFailed { branches := branches + {Udp}; }
      assert branches == OpenBranches(es[..i]);
      polled := polled + [branches];
      match es[i] {
        case BleDone(Granted) => FirstTerminalIs(es, i); return Some(RaceOk), polled;
        case BleDone(Denied) => FirstTerminalIs(es, i); return Some(RaceExplicitDenial), polled;
        case BleDone(_) => bleFailed := true;
        case UdpDone(Granted) => FirstTerminalIs(es, i); return Some(RaceOk), polled;
        case UdpDone(Denied) => FirstTerminalIs(es, i); return Some(RaceExplicitDenial), polled;
        case UdpDone(_) => udpFailed := true;
        case Cancelled => FirstTerminalIs(es, i); return Some(RaceDenied), polled;
      }
      i := i + 1;
    }
  }

  /** The next event belongs to a branch that has not finished. */
  lemma Enabled(es: seq<RaceEvent>, i: nat)
    requires EachOnce(es) && i < |es|
    ensures es[i].BleDone? ==> !Finished(es[..i], Ble)
    ensures es[i].UdpDone? ==> !Finished(es[..i], Udp)
    ensures forall b :: Finished(es[..i + 1], b) <==> Finished(es[..i], b) || BranchOf(es[i]) == b
  {
    assert es[..i + 1][i] == es[i];
    assert forall k | 0 <= k < i :: es[..i + 1][k] == es[..i][k] == es[k];
  }

  /** After two plain failures only a cancel can follow, and it says the same. */
  lemma BothFinished(es: seq<RaceEvent>, i: nat)
    requires EachOnce(es) && i <= |es|
    requires Finished(es[..i], Ble) && Finished(es[..i], Udp)
    requires forall k | 0 <= k < i :: !Terminal(es[k])
    ensures Winner(es) == Some(RaceDenied)
  {
    var a :| 0 <= a < i && BranchOf(es[a]) == Ble;
    var b :| 0 <= b < i && BranchOf(es[b]) == Udp;
    var t := FirstTerminal(es);
    if t < |es| {
      assert t >= i && es[t].Cancelled?;
    }
  }

  // ---- What decides the race ------------------------------------------------

  /** A transport finished with this. */
  predicate Brings(e: RaceEvent, result: TaskResult) {
    e == BleDone(result) || e == UdpDone(result)
  }

  /** Nobody granted, denied or cancelled before event `t`. */
  ghost predicate OpenUntil(es: seq<RaceEvent>, t: nat) {
    t <= |es| && forall i | 0 <= i < t :: !Brings(es[i], Granted) && !Brings(es[i], Denied) && es[i] != Cancelled
  }

  predicate BothGone(es: seq<RaceEvent>) {
    (exists i | 0 <= i < |es| :: es[i].BleDone?) && (exists i | 0 <= i < |es| :: es[i].UdpDone?)
  }

  /** Exactly when the race is won, denied by a phone, or lost. */
  lemma RaceIff(es: seq<RaceEvent>)
    ensures Winner(es) == Some(RaceOk) <==> exists t | 0 <= t < |es| :: OpenUntil(es, t) && Brings(es[t], Granted)
    ensures Winner(es) == Some(RaceExplicitDenial)
            <==> exists t | 0 <= t < |es| :: OpenUntil(es, t) && Brings(es[t], Denied)
    ensures Winner(es) == Some(RaceDenied)
            <==> || (exists t | 0 <= t < |es| :: OpenUntil(es, t) && es[t] == Cancelled)
                 || (OpenUntil(es, |es|) && BothGone(es))
  {
    var first := FirstTerminal(es);
    assert forall i | 0 <= i < |es| ::
        Terminal(es[i]) <==> Brings(es[i], Granted) || Brings(es[i], Denied) || es[i] == Cancelled;
    assert OpenUntil(es, first);
    assert forall t | 0 <= t < |es| && OpenUntil(es, t) && Terminal(es[t]) :: t == first;
    assert BothGone(es) <==> Finished(es, Ble) && Finished(es, Udp) by {
      assert forall i | 0 <= i < |es| :: BranchOf(es[i]) == Ble <==> es[i].BleDone?;
      assert forall i | 0 <= i < |es| :: BranchOf(es[i]) == Udp <==> es[i].UdpDone?;
    }
  }

  /** And it is still on exactly if nobody granted, denied or cancelled and a transport is not done. */
  lemma RaceIsOpen(es: seq<RaceEvent>)
    ensures Winner(es) == None <==> OpenUntil(es, |es|) && !BothGone(es)
  {
    RaceIff(es);
    if FirstTerminal(es) < |es| {
      assert Terminal(es[FirstTerminal(es)]);
    }
  }

  /** Exchange the two transports. */
  function Swap(es: seq<RaceEvent>): seq<RaceEvent> {
    seq(|es|, i requires 0 <= i < |es| => SwapEvent(es[i]))
  }

  function SwapEvent(e: RaceEvent): RaceEvent {
    match e
    case BleDone(r) => UdpDone(r)
    case UdpDone(r) => BleDone(r)
    case Cancelled => Cancelled
  }

  /** Neither transport is preferred. */
  lemma RaceIsSymmetric(es: seq<RaceEvent>)
    ensures Winner(Swap(es)) == Winner(es)
  {
    var t, sw := FirstTerminal(es), Swap(es);
    assert forall i | 0 <= i < |es| :: Terminal(sw[i]) == Terminal(es[i]);
    if t < |es| {
      FirstTerminalIs(sw, t);
    } else {
      assert FirstTerminal(sw) == |sw| by {
        assert forall i | 0 <= i < |sw| :: !Terminal(sw[i]);
      }
      assert forall i | 0 <= i < |es| :: BranchOf(sw[i]) == Ble <==> BranchOf(es[i]) == Udp;
      assert forall i | 0 <= i < |es| :: BranchOf(sw[i]) == Udp <==> BranchOf(es[i]) == Ble;
      forall i | 0 <= i < |es| ensures BranchOf(es[i]) == Udp ==> Finished(sw, Ble) {
        assert BranchOf(es[i]) == Udp ==> BranchOf(sw[i]) == Ble;
      }
      forall i | 0 <= i < |es| ensures BranchOf(es[i]) == Ble ==> Finished(sw, Udp) {
        assert BranchOf(es[i]) == Ble ==> BranchOf(sw[i]) == Udp;
      }
      assert Finished(sw, Ble) == Finished(es, Udp) && Finished(sw, Udp) == Finished(es, Ble);
    }
  }

  /** Once decided, whatever happens next changes nothing. */
  lemma {:induction false} RaceIsDecidedOnce(es: seq<RaceEvent>, more: seq<RaceEvent>)
    requires EachOnce(es + more) && Winner(es).Some?
    ensures Winner(es + more) == Winner(es)
  {
    var t, all := FirstTerminal(es), es + more;
    assert forall i | 0 <= i < |es| :: all[i] == es[i];
    if t < |es| {
      FirstTerminalIs(all, t);
    } else {
      assert all[..|es|] == es;
      BothFinished(all, |es|);
    }
  }

  /** What a single transport's ending means for the session. */
  function Alone(r: TaskResult): RaceResult {
    match r
    case Granted => RaceOk
    case Denied => RaceExplicitDenial
    case _ => RaceDenied
  }

  function Other(transport: Branch): Branch {
    if transport == Ble then Udp else Ble
  }

  /**
   With one transport switched off (its task fails at once, in whatever position the
   scheduler shows that) and no cancel, the session ends as the other one does.
   */
  lemma DisabledTransportIsInvisible(es: seq<RaceEvent>, off: Branch, b: nat)
    requires EachOnce(es) && b < |es| && (es[b] == BleDone(Failed) || es[b] == UdpDone(Failed))
             && BranchOf(es[b]) == off
    requires forall i | 0 <= i < |es| :: !es[i].Cancelled?
    ensures Winner(es).Some? <==> Finished(es, Other(off))
    ensures forall u | 0 <= u < |es| && BranchOf(es[u]) == Other(off) :: Winner(es) == Some(Alone(es[u].result))
  {
    assert Finished(es, off);
    forall u | 0 <= u < |es| && BranchOf(es[u]) == Other(off) ensures Winner(es) == Some(Alone(es[u].result)) {
      assert Finished(es, Other(off));
      if Terminal(es[u]) {
        FirstTerminalIs(es, u);
      }
    }
  }

  // ---- From the session to the PAM response ---------------------------------

  /** What the session starts from. */
  datatype Daemon = Daemon(network: bool, ble: bool, servers: map<string, Transport.PairedServer>,
                           hasKeypair: bool, hasCsk: bool)

  /** `is_user_allowed`. */
  predicate UserAllowed(server: Transport.PairedServer, user: string) {
    user in server.allowedUsers
  }

  /** The gates of `handle_authenticate`, in the order it checks them. */
  function Gate(d: Daemon, user: string): Option<VerdictCache.Outcome> {
    if !d.network && !d.ble then Some(VerdictCache.OutcomeIgnore)
    else if d.servers == map[] then Some(VerdictCache.OutcomeIgnore)
    else if !d.hasKeypair || !d.hasCsk then Some(VerdictCache.OutcomeError)
    else if !exists id | id in d.servers :: UserAllowed(d.servers[id], user) then Some(VerdictCache.OutcomeIgnore)
    else None
  }

  /**
   `handle_pam_authenticate`: a duplicate is ignored, a challenge or request that
   cannot be made is an error, and a session that does not return in time is a
   timeout. The race may be over by then: its clean-up is awaited as well.
   */
  function Respond(d: Daemon, user: string, duplicate: bool, challenged: bool, prepared: bool, inTime: bool,
                   race: Option<RaceResult>): VerdictCache.Outcome {
    if duplicate then VerdictCache.OutcomeIgnore
    else if !challenged then VerdictCache.OutcomeError
    else if Gate(d, user).Some? then Gate(d, user).value
    else if !prepared then VerdictCache.OutcomeError
    else if !inTime then VerdictCache.OutcomeTimeout
    else
      match race
      case Some(RaceOk) => VerdictCache.OutcomeSuccess
      case Some(RaceExplicitDenial) => VerdictCache.OutcomeDenied
      case Some(RaceDenied) => VerdictCache.OutcomeIgnore
      case None => VerdictCache.OutcomeTimeout
  }

  /** Some paired server is there for the user. */
  predicate Authorized(d: Daemon, user: string) {
    exists id | id in d.servers :: user in d.servers[id].allowedUsers
  }

  /**
   Exactly when each outcome reaches PAM. Denied comes only through a phone's explicit
   denial and Success only through a won race, both only for a user some paired server
   is allowed for, on a daemon that has its keys and a transport, when race and
   clean-up end in time. A session that could not start for want of a transport or of
   a server for the user, a duplicate, and a race nobody won are ignored.
   */
  lemma OutcomeIff(d: Daemon, user: string, duplicate: bool, challenged: bool, prepared: bool, inTime: bool,
                   race: Option<RaceResult>)
    ensures var o := Respond(d, user, duplicate, challenged, prepared, inTime, race);
            var made := !duplicate && challenged;
            var keyed := made && (d.network || d.ble) && d.servers != map[];
            var ready := keyed && d.hasKeypair && d.hasCsk && Authorized(d, user) && prepared;
            && (o == VerdictCache.OutcomeSuccess <==> ready && inTime && race == Some(RaceOk))
            && (o == VerdictCache.OutcomeDenied <==> ready && inTime && race == Some(RaceExplicitDenial))
            && (o == VerdictCache.OutcomeTimeout <==> ready && (!inTime || race == None))
            && (o == VerdictCache.OutcomeError <==>
                  || (!duplicate && !challenged)
                  || (keyed && !(d.hasKeypair && d.hasCsk))
                  || (keyed && d.hasKeypair && d.hasCsk && Authorized(d, user) && !prepared))
            && (o == VerdictCache.OutcomeIgnore <==>
                  || duplicate
                  || (made && !keyed)
                  || (keyed && d.hasKeypair && d.hasCsk && !Authorized(d, user))
                  || (ready && inTime && race == Some(RaceDenied)))
  {
    assert Authorized(d, user) <==> exists id | id in d.servers :: UserAllowed(d.servers[id], user);
  }

  /** The protobuf number of an outcome. */
  function Raw(o: VerdictCache.Outcome): int {
    match o
    case OutcomeSuccess => 0
    case OutcomeDenied => 1
    case OutcomeTimeout => 2
    case OutcomeIgnore => 3
    case OutcomeError => 4
  }

  /** PAM reads back the outcome the daemon wrote. */
  lemma OutcomeRoundTrip(o: VerdictCache.Outcome)
    ensures VerdictCache.OutcomeFromRaw(Raw(o)) == o
  {
  }
}
