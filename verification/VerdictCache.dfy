/**
 The PAM entry point: the mapping from a daemon response to a PAM code, and the
 process-wide record that answers a duplicate transaction for 500 ms. Calls may
 overlap: each one looks the record up once and, when it returns, may replace it.
 Both times it reads the clock first and takes the lock afterwards.
 */
module VerdictCache {
  import opened Prelude

  /** The PAM return codes this module uses. */
  datatype Code = Success | AuthErr | PermDenied | AuthInfoUnavail | UserUnknown

  datatype Outcome = OutcomeSuccess | OutcomeDenied | OutcomeTimeout | OutcomeIgnore | OutcomeError

  /** Milliseconds. */
  const REUSE_WINDOW: nat := 500

  /** `outcome_from_raw`: an unknown wire value is an error, never a grant. */
  function OutcomeFromRaw(raw: int): (o: Outcome)
    ensures o == OutcomeSuccess <==> raw == 0
    ensures o == OutcomeDenied <==> raw == 1
    ensures o == OutcomeTimeout <==> raw == 2
    ensures o == OutcomeIgnore <==> raw == 3
  {
    match raw
    case 0 => OutcomeSuccess
    case 1 => OutcomeDenied
    case 2 => OutcomeTimeout
    case 3 => OutcomeIgnore
    case _ => OutcomeError
  }

  /** `map_pam_outcome`. */
  function MapOutcome(raw: int): (code: Code)
    ensures code == Success <==> raw == 0
    ensures code == PermDenied <==> raw == 1
    ensures code == AuthInfoUnavail <==> raw == 2 || raw == 3
  {
    match OutcomeFromRaw(raw)
    case OutcomeSuccess => Success
    case OutcomeDenied => PermDenied
    case OutcomeTimeout => AuthInfoUnavail
    case OutcomeIgnore => AuthInfoUnavail
    case OutcomeError => AuthErr
  }

  /** How far a call gets; the first group returns before the record is consulted. */
  datatype Path =
    | DisplayManagerBypass
    | NoUser
    | NoConversation
    | PreCollected
    | RandomFailed            // no request id
    | ConnectFailed
    | SendFailed
    | LocalFailure            // self-pipe or thread could not be created after the send
    | Unanswered              // timeout, skip, dialog closed, IPC error
    | Responded(raw: int)

  datatype Call = Call(user: string, service: Option<string>, path: Path)

  datatype Conclusion = Conclusion(at: nat, user: string, service: string, code: Code)

  /** What `authenticate` is told about the code it is about to return. */
  datatype Verdict = Verdict(user: string, service: Option<string>, fromCache: bool)

  predicate BeforeLookup(path: Path) {
    path.DisplayManagerBypass? || path.NoUser? || path.NoConversation? || path.PreCollected?
  }

  /** The request reached the wire, so the daemon may have concluded something. */
  predicate Sent(path: Path) {
    path.LocalFailure? || path.Unanswered? || path.Responded?
  }

  function CodeOf(path: Path): (code: Code)
    ensures code == Success <==> path == Responded(0)
    ensures code == PermDenied <==> path == Responded(1)
    ensures code == UserUnknown <==> path.NoUser?
    ensures code == AuthErr <==>
              || path.NoConversation? || path.RandomFailed? || path.LocalFailure?
              || (path.Responded? && !(0 <= path.raw <= 3))
  {
    match path
    case DisplayManagerBypass => AuthInfoUnavail
    case NoUser => UserUnknown
    case NoConversation => AuthErr
    case PreCollected => AuthInfoUnavail
    case RandomFailed => AuthErr
    case ConnectFailed => AuthInfoUnavail
    case SendFailed => AuthInfoUnavail
    case LocalFailure => AuthErr
    case Unanswered => AuthInfoUnavail
    case Responded(raw) => MapOutcome(raw)
  }

  function SaturatingSub(a: nat, b: nat): nat {
    if a < b then 0 else a - b
  }

  /** `reusable_conclusion`. */
  function Reusable(prev: Conclusion, user: string, service: string, now: nat): Option<Code> {
    if prev.user == user && prev.service == service && SaturatingSub(now, prev.at) < REUSE_WINDOW
    then Some(prev.code) else None
  }

  /** `cached_from`; a poisoned lock is a miss. */
  function CachedFrom(last: Option<Conclusion>, poisoned: bool, user: string, service: string, now: nat): Option<Code> {
    if poisoned || last.None? then None else Reusable(last.value, user, service, now)
  }

  /** `authenticate_inner`: the code, and the verdict when there is one to arm. */
  function Inner(last: Option<Conclusion>, poisoned: bool, call: Call, now: nat): (Code, Option<Verdict>) {
    if BeforeLookup(call.path) then (CodeOf(call.path), None)
    else
      var hit := if call.service.None? then None else CachedFrom(last, poisoned, call.user, call.service.value, now);
      if hit.Some? then (hit.value, Some(Verdict(call.user, call.service, true)))
      else (CodeOf(call.path), if Sent(call.path) then Some(Verdict(call.user, call.service, false)) else None)
  }

  /** A real transaction with a known service, and the lock at hand. */
  predicate Records(verdict: Option<Verdict>, poisoned: bool) {
    verdict.Some? && !verdict.value.fromCache && verdict.value.service.Some? && !poisoned
  }

  /** `record_verdict` and `record_conclusion`. */
  function Record(last: Option<Conclusion>, poisoned: bool, verdict: Option<Verdict>, code: Code,
                  now: nat): Option<Conclusion> {
    if Records(verdict, poisoned)
    then Some(Conclusion(now, verdict.value.user, verdict.value.service.value, code))
    else last
  }

  // ---- Overlapping calls ----------------------------------------------------

  /**
   A call after its lookup: the clock it read for it, the moment it had the lock, and
   how many calls had finished by then.
   */
  datatype Running = Running(call: Call, code: Code, verdict: Option<Verdict>, lockFailed: bool,
                             lookedAt: nat, lockedAt: nat, seen: nat)

  /** Where a call is: before its lookup, after it, or with the clock read for its return. */
  datatype Stage = Asking(call: Call, lookedAt: nat) | Working(of: Running) | Leaving(of: Running, stamp: nat)

  /**
   A finished call: whether it replaced the record, what the lock answered then, the
   clock it had read, and when it returned.
   */
  datatype Finished = Finished(of: Running, recorded: bool, lockFailedAgain: bool, stamp: nat, returnedAt: nat)

  datatype Process = Process(last: Option<Conclusion>, calls: map<nat, Stage>, log: seq<Finished>, clock: nat)

  /**
   The steps of a call. The clock never goes back; `poisoned` is what the lock
   answers at that moment. Other events change nothing.
   */
  datatype Event =
    | ReadClock(id: nat, call: Call, now: nat)
    | LookUp(id: nat, now: nat, poisoned: bool)
    | ReadClockAgain(id: nat, now: nat)
    | Return(id: nat, now: nat, poisoned: bool)

  const INITIAL := Process(None, map[], [], 0)

  function Looked(p: Process, stage: Stage, now: nat, poisoned: bool): Running
    requires stage.Asking?
  {
    var (code, verdict) := Inner(p.last, poisoned, stage.call, stage.lookedAt);
    Running(stage.call, code, verdict, poisoned, stage.lookedAt, now, |p.log|)
  }

  function Step(p: Process, e: Event): Process {
    if e.now < p.clock then p
    else
      match e
      case ReadClock(id, call, now) =>
        if id in p.calls then p else p.(calls := p.calls[id := Asking(call, now)], clock := now)
      case LookUp(id, now, poisoned) =>
        if id !in p.calls || !p.calls[id].Asking? then p
        else p.(calls := p.calls[id := Working(Looked(p, p.calls[id], now, poisoned))], clock := now)
      case ReadClockAgain(id, now) =>
        if id !in p.calls || !p.calls[id].Working? then p
        else p.(calls := p.calls[id := Leaving(p.calls[id].of, now)], clock := now)
      case Return(id, now, poisoned) =>
        if id !in p.calls || !p.calls[id].Leaving? then p
        else
          var Leaving(r, stamp) := p.calls[id];
          Process(Record(p.last, poisoned, r.verdict, r.code, stamp), p.calls - {id},
                  p.log + [Finished(r, Records(r.verdict, poisoned), poisoned, stamp, now)], now)
  }

  function Run(es: seq<Event>): Process {
    if es == [] then INITIAL else Step(Run(Front(es)), Last(es))
  }

  /** Calls that came in under a number no running call has. */
  function Begun(es: seq<Event>): nat {
    if es == [] then 0
    else
      var p, e := Run(Front(es)), Last(es);
      Begun(Front(es)) + if e.ReadClock? && e.now >= p.clock && e.id !in p.calls.Keys then 1 else 0
  }

  /** No call is lost or returns twice: those that came in are running or finished. */
  lemma {:induction false} CallsAreConserved(es: seq<Event>)
    ensures |Run(es).calls.Keys| + |Run(es).log| == Begun(es)
  {
    if es != [] {
      var p, e := Run(Front(es)), Last(es);
      CallsAreConserved(Front(es));
      var q := Step(p, e);
      if q != p {
        match e
        case ReadClock(id, _, _) => assert q.calls.Keys == p.calls.Keys + {id};
        case Return(id, _, _) => assert q.calls.Keys == p.calls.Keys - {id};
        case _ => assert q.calls.Keys == p.calls.Keys;
      }
    }
  }

  /** A call under way goes through its stages in order and keeps what it has, whatever the others do. */
  lemma CallsMoveForward(p: Process, e: Event, id: nat)
    requires id in p.calls
    ensures var q := Step(p, e);
            if id in q.calls
            then || q.calls[id] == p.calls[id]
                 || (p.calls[id].Asking? && q.calls[id].Working? && q.calls[id].of.call == p.calls[id].call
                     && q.calls[id].of.lookedAt == p.calls[id].lookedAt)
                 || (p.calls[id].Working? && q.calls[id].Leaving? && q.calls[id].of == p.calls[id].of)
            else p.calls[id].Leaving? && |q.log| == |p.log| + 1 && Last(q.log).of == p.calls[id].of
                 && Last(q.log).stamp == p.calls[id].stamp
  {
  }

  /** The position after the last call of `log` that replaced the record; 0 when none did. */
  function LastRecorded(log: seq<Finished>): (n: nat)
    ensures n <= |log|
    ensures n > 0 ==> log[n - 1].recorded
    ensures forall k | n <= k < |log| :: !log[k].recorded
  {
    if log == [] then 0 else if Last(log).recorded then |log| else LastRecorded(Front(log))
  }

  /** What the whole history of finished calls says the record should be. */
  function Remembered(log: seq<Finished>): Option<Conclusion> {
    var n := LastRecorded(log);
    if n == 0 || log[n - 1].of.call.service.None? then None
    else
      var r := log[n - 1].of;
      Some(Conclusion(log[n - 1].stamp, r.call.user, r.call.service.value, r.code))
  }

  /** The call decided as the history it saw dictates, and after everything in it. */
  ghost predicate Explained(log: seq<Finished>, r: Running) {
    && r.seen <= |log|
    && (r.code, r.verdict) == Inner(Remembered(log[..r.seen]), r.lockFailed, r.call, r.lookedAt)
    && r.lookedAt <= r.lockedAt
    && (forall j | 0 <= j < r.seen :: log[j].returnedAt <= r.lockedAt)
  }

  /** A call under way is explained as far as it has come. */
  ghost predicate StageFits(p: Process, stage: Stage) {
    match stage
    case Asking(_, lookedAt) => lookedAt <= p.clock
    case Working(r) => Explained(p.log, r) && r.lockedAt <= p.clock
    case Leaving(r, stamp) => Explained(p.log, r) && r.lockedAt <= stamp <= p.clock
  }

  ghost predicate FinishedWell(log: seq<Finished>, i: nat)
    requires i < |log|
  {
    var f := log[i];
    && f.of.seen <= i
    && Explained(log, f.of)
    && f.of.lockedAt <= f.stamp <= f.returnedAt
    && (f.recorded <==> Records(f.of.verdict, f.lockFailedAgain))
  }

  ghost predicate Inv(p: Process) {
    && p.last == Remembered(p.log)
    && (forall id | id in p.calls :: StageFits(p, p.calls[id]))
    && (forall i | 0 <= i < |p.log| :: FinishedWell(p.log, i) && p.log[i].returnedAt <= p.clock)
  }

  lemma ExplainedStays(log: seq<Finished>, f: Finished, r: Running)
    requires Explained(log, r)
    ensures Explained(log + [f], r)
  {
    assert (log + [f])[..r.seen] == log[..r.seen];
  }

  /** Steps that only move one call along and let time pass. */
  lemma WaitKeepsInv(p: Process, id: nat, stage: Stage, now: nat)
    requires Inv(p) && p.clock <= now && StageFits(p.(clock := now), stage)
    ensures Inv(p.(calls := p.calls[id := stage], clock := now))
  {
  }

  lemma LookUpKeepsInv(p: Process, id: nat, now: nat, poisoned: bool)
    requires Inv(p)
    ensures Inv(Step(p, LookUp(id, now, poisoned)))
  {
    if p.clock <= now && id in p.calls && p.calls[id].Asking? {
      assert p.log[..|p.log|] == p.log;
      WaitKeepsInv(p, id, Working(Looked(p, p.calls[id], now, poisoned)), now);
    }
  }

  lemma ClockKeepsInv(p: Process, e: Event)
    requires Inv(p) && (e.ReadClock? || e.ReadClockAgain?)
    ensures Inv(Step(p, e))
  {
    if Step(p, e) != p {
      WaitKeepsInv(p, e.id, Step(p, e).calls[e.id], e.now);
    }
  }

  /** A call that returns leaves the record its own history describes. */
  lemma RecordFollowsLog(log: seq<Finished>, r: Running, poisoned: bool, stamp: nat, now: nat)
    requires Explained(log, r)
    ensures var f := Finished(r, Records(r.verdict, poisoned), poisoned, stamp, now);
            Record(Remembered(log), poisoned, r.verdict, r.code, stamp) == Remembered(log + [f])
  {
    var f := Finished(r, Records(r.verdict, poisoned), poisoned, stamp, now);
    assert Front(log + [f]) == log;
    assert r.verdict.Some? ==> r.verdict.value.user == r.call.user && r.verdict.value.service == r.call.service;
  }

  /** Calls finished before stay explained when one more finishes. */
  lemma FinishedStays(log: seq<Finished>, f: Finished, i: nat)
    requires i < |log| && FinishedWell(log, i)
    ensures FinishedWell(log + [f], i)
  {
    ExplainedStays(log, f, log[i].of);
  }

  /** And so do those under way. */
  lemma StageStays(p: Process, q: Process, f: Finished, stage: Stage)
    requires q.log == p.log + [f] && p.clock <= q.clock && StageFits(p, stage)
    ensures StageFits(q, stage)
  {
    if !stage.Asking? {
      ExplainedStays(p.log, f, stage.of);
    }
  }

  /** One more finished call, explained, with the record that goes with it. */
  lemma FinishKeepsInv(p: Process, q: Process, f: Finished)
    requires Inv(p) && p.clock <= q.clock == f.returnedAt
    requires q.log == p.log + [f] && q.last == Remembered(q.log) && FinishedWell(q.log, |p.log|)
    requires forall id | id in q.calls :: id in p.calls && q.calls[id] == p.calls[id]
    ensures Inv(q)
  {
    forall i | 0 <= i < |q.log| ensures FinishedWell(q.log, i) && q.log[i].returnedAt <= q.clock {
      if i < |p.log| {
        FinishedStays(p.log, f, i);
      }
    }
    forall id | id in q.calls ensures StageFits(q, q.calls[id]) {
      StageStays(p, q, f, p.calls[id]);
    }
  }

  lemma LeavingFinishesWell(p: Process, id: nat, f: Finished)
    requires Inv(p) && id in p.calls && p.calls[id] == Leaving(f.of, f.stamp) && p.clock <= f.returnedAt
    requires f.recorded == Records(f.of.verdict, f.lockFailedAgain)
    ensures Explained(p.log, f.of) && FinishedWell(p.log + [f], |p.log|)
  {
    assert StageFits(p, p.calls[id]);
    ExplainedStays(p.log, f, f.of);
  }

  lemma ReturnKeepsInv(p: Process, id: nat, now: nat, poisoned: bool)
    requires Inv(p)
    ensures Inv(Step(p, Return(id, now, poisoned)))
  {
    if p.clock <= now && id in p.calls && p.calls[id].Leaving? {
      var Leaving(r, stamp) := p.calls[id];
      var f := Finished(r, Records(r.verdict, poisoned), poisoned, stamp, now);
      LeavingFinishesWell(p, id, f);
      RecordFollowsLog(p.log, r, poisoned, stamp, now);
      var q := Process(Remembered(p.log + [f]), p.calls - {id}, p.log + [f], now);
      assert q == Step(p, Return(id, now, poisoned));
      FinishKeepsInv(p, q, f);
    }
  }

  lemma {:induction false} RunKeepsInv(es: seq<Event>)
    ensures Inv(Run(es))
  {
    if es != [] {
      RunKeepsInv(Front(es));
      match Last(es)
      case LookUp(id, now, poisoned) => LookUpKeepsInv(Run(Front(es)), id, now, poisoned);
      case Return(id, now, poisoned) => ReturnKeepsInv(Run(Front(es)), id, now, poisoned);
      case _ => ClockKeepsInv(Run(Front(es)), Last(es));
    }
  }

  /**
   The one-entry record decides every call exactly as the full history of calls
   finished before its lookup would, however the calls overlap.
   */
  lemma RecordRefinesHistory(es: seq<Event>, i: nat)
    requires i < |Run(es).log|
    ensures var log := Run(es).log; var r := log[i].of;
            && r.seen <= i
            && (r.code, r.verdict) == Inner(Remembered(log[..r.seen]), r.lockFailed, r.call, r.lookedAt)
  {
    RunKeepsInv(es);
    var log := Run(es).log;
    assert FinishedWell(log, i);
  }

  // ---- Exactly when a call is a replay, and when it is recorded --------------

  /** The call got past the bypass, the user, the conversation and the token given to it. */
  predicate Reaches(path: Path) {
    match path
    case DisplayManagerBypass => false
    case NoUser => false
    case NoConversation => false
    case PreCollected => false
    case _ => true
  }

  /** Its request went out, whatever came of it. */
  predicate Asked(path: Path) {
    Reaches(path) && !path.RandomFailed? && !path.ConnectFailed? && !path.SendFailed?
  }

  /** The call reached the lookup with a known service, and the lock answered. */
  predicate Looks(r: Running) {
    Reaches(r.call.path) && r.call.service.Some? && !r.lockFailed
  }

  /** `g` concluded for the same user and service, less than 500 ms before `r` read the clock. */
  predicate Covers(g: Finished, r: Running) {
    g.of.call.user == r.call.user && g.of.call.service == r.call.service && r.lookedAt < g.stamp + 500
  }

  /** `n` is the position after the last call that replaced the record among those `r` saw. */
  ghost predicate LastSeen(log: seq<Finished>, r: Running, n: nat) {
    && n <= r.seen <= |log|
    && (n > 0 ==> log[n - 1].recorded)
    && forall k | n <= k < r.seen :: !log[k].recorded
  }

  lemma LastSeenIs(log: seq<Finished>, r: Running, n: nat)
    requires LastSeen(log, r, n)
    ensures LastRecorded(log[..r.seen]) == n
  {
    var seen := log[..r.seen];
    var m := LastRecorded(seen);
    assert n > 0 ==> seen[n - 1].recorded;
    assert m > 0 ==> log[m - 1].recorded;
  }

  lemma InnerReplaysIff(last: Option<Conclusion>, poisoned: bool, call: Call, now: nat)
    ensures var (code, v) := Inner(last, poisoned, call, now);
            var hit := !BeforeLookup(call.path) && !poisoned && last.Some? && call.service == Some(last.value.service)
                       && call.user == last.value.user && now < last.value.at + 500;
            && ((v.Some? && v.value.fromCache) <==> hit)
            && code == (if hit then last.value.code else CodeOf(call.path))
            && (Records(v, false) <==> !hit && Sent(call.path) && call.service.Some?)
  {
  }

  /**
   In every run a call is a replay exactly when the last call recorded before its
   lookup covers it, and then its code is that call's, whatever code that was;
   otherwise its code is the one of its own path.
   */
  lemma ReplayedIff(es: seq<Event>, i: nat, n: nat)
    requires i < |Run(es).log| && LastSeen(Run(es).log, Run(es).log[i].of, n)
    ensures var log := Run(es).log; var r := log[i].of;
            && (Replayed(log[i]) <==> Looks(r) && n > 0 && Covers(log[n - 1], r))
            && r.code == (if Replayed(log[i]) then log[n - 1].of.code else CodeOf(r.call.path))
  {
    RunKeepsInv(es);
    var log := Run(es).log;
    var r := log[i].of;
    assert FinishedWell(log, i);
    LastSeenIs(log, r, n);
    InnerReplaysIff(Remembered(log[..r.seen]), r.lockFailed, r.call, r.lookedAt);
    if n > 0 {
      assert FinishedWell(log, n - 1);
      var last := log[n - 1].of;
      InnerConcludes(Remembered(log[..last.seen]), last.lockFailed, last.call, last.lookedAt);
    }
  }

  /** And it replaces the record exactly when it is no replay, its request was sent, and service and lock are there. */
  lemma RecordedIff(es: seq<Event>, i: nat)
    requires i < |Run(es).log|
    ensures var f := Run(es).log[i];
            f.recorded <==> !Replayed(f) && Asked(f.of.call.path) && f.of.call.service.Some? && !f.lockFailedAgain
  {
    RunKeepsInv(es);
    var r := Run(es).log[i].of;
    assert FinishedWell(Run(es).log, i);
    InnerReplaysIff(Remembered(Run(es).log[..r.seen]), r.lockFailed, r.call, r.lookedAt);
  }

  /** A replayed code is the recorded one, for the same key, inside the window. */
  lemma InnerReplays(last: Option<Conclusion>, poisoned: bool, call: Call, now: nat)
    requires var (_, v) := Inner(last, poisoned, call, now); v.Some? && v.value.fromCache
    ensures last.Some? && last.value.user == call.user && Some(last.value.service) == call.service
    ensures Inner(last, poisoned, call, now).0 == last.value.code
    ensures SaturatingSub(now, last.value.at) < REUSE_WINDOW
  {
  }

  predicate Replayed(f: Finished) {
    f.of.verdict.Some? && f.of.verdict.value.fromCache
  }

  /** `f` may be answered with what `g` concluded. */
  predicate MayReplay(f: Finished, g: Finished) {
    && g.recorded && !Replayed(g) && Sent(g.of.call.path)
    && g.of.call.user == f.of.call.user
    && g.of.call.service.Some? && g.of.call.service == f.of.call.service
    && g.of.code == f.of.code
    && g.stamp <= g.returnedAt <= f.of.lockedAt
    && f.of.lookedAt < g.stamp + REUSE_WINDOW
  }

  /** A fresh conclusion that made it into the record came from a request on the wire. */
  lemma InnerConcludes(last: Option<Conclusion>, poisoned: bool, call: Call, now: nat)
    requires Records(Inner(last, poisoned, call, now).1, false)
    ensures Sent(call.path) && call.service.Some?
    ensures Inner(last, poisoned, call, now).0 == CodeOf(call.path)
  {
  }

  lemma SourceInLog(log: seq<Finished>, i: nat) returns (j: nat)
    requires i < |log| && (forall k | 0 <= k < |log| :: FinishedWell(log, k))
    requires Replayed(log[i])
    ensures j < log[i].of.seen <= i
    ensures MayReplay(log[i], log[j])
    ensures log[j].of.code == CodeOf(log[j].of.call.path)
  {
    assert FinishedWell(log, i);
    var r := log[i].of;
    var seen := log[..r.seen];
    InnerReplays(Remembered(seen), r.lockFailed, r.call, r.lookedAt);
    j := LastRecorded(seen) - 1;
    var g := seen[j];
    assert g == log[j] && FinishedWell(log, j);
    InnerConcludes(Remembered(log[..g.of.seen]), g.of.lockFailed, g.of.call, g.of.lookedAt);
  }

  /**
   Every replayed code was concluded by one real transaction of the same user and
   service, which had returned when the lookup got the lock, and less than the window
   before the lookup read the clock: replays are never themselves replayed, so a
   chain of them cannot stretch the window.
   */
  lemma ReplayHasFreshSource(es: seq<Event>, i: nat) returns (j: nat)
    requires i < |Run(es).log| && Replayed(Run(es).log[i])
    ensures j < Run(es).log[i].of.seen <= i
    ensures MayReplay(Run(es).log[i], Run(es).log[j])
    ensures Run(es).log[j].of.code == CodeOf(Run(es).log[j].of.call.path)
  {
    RunKeepsInv(es);
    j := SourceInLog(Run(es).log, i);
  }

  // ---- The window, seen from the lock ---------------------------------------

  ghost predicate WaitsAtMost(log: seq<Finished>, wait: nat) {
    forall i | 0 <= i < |log| :: log[i].of.lockedAt <= log[i].of.lookedAt + wait
  }

  /** Some source of the replay is less than the window old when the lookup has the lock. */
  ghost predicate YoungAtLock(log: seq<Finished>, i: nat)
    requires i < |log|
  {
    exists j: nat | j < i :: MayReplay(log[i], log[j]) && log[i].of.lockedAt < log[j].stamp + REUSE_WINDOW
  }

  ghost predicate AlwaysYoung(wait: nat) {
    forall es, i: nat | i < |Run(es).log| && WaitsAtMost(Run(es).log, wait) && Replayed(Run(es).log[i]) ::
      YoungAtLock(Run(es).log, i)
  }

  /** With a wait for the lock a replayed code can be older, but by no more than that wait. */
  lemma AgeAtLock(es: seq<Event>, i: nat) returns (j: nat)
    requires i < |Run(es).log| && Replayed(Run(es).log[i])
    ensures j < i && MayReplay(Run(es).log[i], Run(es).log[j])
    ensures var r := Run(es).log[i].of;
            r.lookedAt <= r.lockedAt < Run(es).log[j].stamp + REUSE_WINDOW + (r.lockedAt - r.lookedAt)
  {
    j := ReplayHasFreshSource(es, i);
    RunKeepsInv(es);
    assert FinishedWell(Run(es).log, i);
  }

  lemma Then(es: seq<Event>, e: Event) returns (r: seq<Event>)
    ensures r == es + [e] && Run(r) == Step(Run(es), e)
  {
    r := es + [e];
    assert Front(r) == es;
  }

  const GRANTED := Call("u", Some("s"), Responded(0))
  const FIRST := Running(GRANTED, Success, Some(Verdict("u", Some("s"), false)), false, 0, 0, 0)
  const SECOND := Running(GRANTED, Success, Some(Verdict("u", Some("s"), true)), false, 499, 500, 1)

  lemma GrantAtZero() returns (es: seq<Event>)
    ensures Run(es).last == Some(Conclusion(0, "u", "s", Success)) && Run(es).calls == map[] && Run(es).clock == 0
    ensures Run(es).log == [Finished(FIRST, true, false, 0, 0)]
  {
    es := Then([], ReadClock(0, GRANTED, 0));
    es := Then(es, LookUp(0, 0, false));
    es := Then(es, ReadClockAgain(0, 0));
    es := Then(es, Return(0, 0, false));
  }

  /** The clock is read 499 ms after the grant, the lock comes a millisecond later. */
  lemma ReplayAtWindow() returns (es: seq<Event>)
    ensures Run(es).log == [Finished(FIRST, true, false, 0, 0), Finished(SECOND, false, false, 500, 500)]
  {
    es := GrantAtZero();
    es := Then(es, ReadClock(1, GRANTED, 499));
    es := Then(es, LookUp(1, 500, false));
    es := Then(es, ReadClockAgain(1, 500));
    es := Then(es, Return(1, 500, false));
  }

  /**
   Replayed codes are less than 500 ms old when the lookup has the lock, in all runs
   with waits up to `wait`, if and only if there is no wait.
   */
  lemma AlwaysYoungIffNoWait(wait: nat)
    ensures AlwaysYoung(wait) <==> wait == 0
  {
    if wait == 0 {
      forall es, i: nat | i < |Run(es).log| && WaitsAtMost(Run(es).log, wait) && Replayed(Run(es).log[i])
        ensures YoungAtLock(Run(es).log, i)
      {
        var j := AgeAtLock(es, i);
        assert Run(es).log[i].of.lockedAt <= Run(es).log[i].of.lookedAt + wait;
      }
    } else {
      var es := ReplayAtWindow();
      assert WaitsAtMost(Run(es).log, wait) && Replayed(Run(es).log[1]);
      assert !YoungAtLock(Run(es).log, 1);
    }
  }

  /** PAM_SUCCESS always goes back to a response whose raw outcome was exactly 0. */
  lemma SuccessIsARecentGrant(es: seq<Event>, i: nat)
    requires i < |Run(es).log| && Run(es).log[i].of.code == Success
    ensures var log := Run(es).log;
            || (!Replayed(log[i]) && log[i].of.call.path == Responded(0))
            || exists j: nat | j < i :: MayReplay(log[i], log[j]) && log[j].of.call.path == Responded(0)
  {
    RecordRefinesHistory(es, i);
    if Replayed(Run(es).log[i]) {
      var j := ReplayHasFreshSource(es, i);
    }
  }

  lemma InnerUnsent(last: Option<Conclusion>, poisoned: bool, call: Call, now: nat, lockFails: bool)
    requires !Sent(call.path)
    ensures !Records(Inner(last, poisoned, call, now).1, lockFails)
  {
  }

  lemma UnsentIsUnrecorded(log: seq<Finished>, r: Running, poisoned: bool)
    requires Explained(log, r) && !Sent(r.call.path)
    ensures !Records(r.verdict, poisoned)
  {
    InnerUnsent(Remembered(log[..r.seen]), r.lockFailed, r.call, r.lookedAt, poisoned);
  }

  /** Calls that stop before the request is on the wire neither write nor clear the record. */
  lemma UnsentCallsLeaveTheRecord(es: seq<Event>, id: nat, now: nat, poisoned: bool)
    requires id in Run(es).calls && Run(es).calls[id].Leaving? && !Sent(Run(es).calls[id].of.call.path)
    ensures Step(Run(es), Return(id, now, poisoned)).last == Run(es).last
  {
    var p := Run(es);
    var r := p.calls[id].of;
    assert !Records(r.verdict, poisoned) by {
      assert Explained(p.log, r) by {
        RunKeepsInv(es);
        assert StageFits(p, p.calls[id]);
      }
      UnsentIsUnrecorded(p.log, r, poisoned);
    }
  }

  // ---- The module's global --------------------------------------------------

  /** `LAST_CONCLUSION` and the entry point that reads and writes it. */
  class PamModule {
    var last: Option<Conclusion>

    constructor ()
      ensures last == None
    {
      last := None;
    }

    /** One undisturbed `authenticate` call, looking up at `t0` and returning at `t1`. */
    method Authenticate(call: Call, t0: nat, t1: nat, poisoned: bool) returns (code: Code)
      modifies this
      ensures code == Inner(old(last), poisoned, call, t0).0
      ensures last == Record(old(last), poisoned, Inner(old(last), poisoned, call, t0).1, code, t1)
      ensures var hit := Reaches(call.path) && !poisoned && old(last).Some?
                         && call.service == Some(old(last).value.service) && call.user == old(last).value.user
                         && t0 < old(last).value.at + 500;
              && code == (if hit then old(last).value.code else CodeOf(call.path))
              && last == (if !hit && Asked(call.path) && call.service.Some? && !poisoned
                          then Some(Conclusion(t1, call.user, call.service.value, code)) else old(last))
      ensures code == Success && call.path != Responded(0) ==>
                old(last).Some? && old(last).value.code == Success
                    && SaturatingSub(t0, old(last).value.at) < REUSE_WINDOW
      ensures !Sent(call.path) ==> last == old(last)
    {
      var verdict: Option<Verdict> := None;
      if BeforeLookup(call.path) {
        return CodeOf(call.path);
      }
      if call.service.Some? {
        var hit := CachedFrom(last, poisoned, call.user, call.service.value, t0);
        if hit.Some? {
          return hit.value;
        }
      }
      code := CodeOf(call.path);
      if Sent(call.path) {
        verdict := Some(Verdict(call.user, call.service, false));
      }
      if verdict.Some? && !verdict.value.fromCache && verdict.value.service.Some? && !poisoned {
        last := Some(Conclusion(t1, call.user, call.service.value, code));
      }
    }
  }
}
