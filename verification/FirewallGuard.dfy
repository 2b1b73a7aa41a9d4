/**
 The shared firewall guard: one `PortControl` per port, reached through a weak
 reference, with the actual release of the last strong reference and the drop
 that follows it happening at different times.

 A `Port` is everything one port's protocol can observe: the weak reference, the
 `is_open` flag, the strong counts of the guards still alive, the number of
 guards whose last reference is gone but whose drop has not run yet, and the
 external commands issued so far.
 */
module FirewallGuard {
  import opened Prelude

  /** The external firewall commands, as they were answered. */
  datatype Command = Opened | Closed | CloseFailed

  datatype Port = Port(
    weak: Option<nat>,
    isOpen: bool,
    strong: map<nat, nat>,
    pendingDrops: nat,
    nextId: nat,
    log: seq<Command>)
  {
    /** What `Weak::upgrade` would answer. */
    predicate WeakAlive() {
      weak.Some? && weak.value in strong
    }
  }

  /**
   The steps that can interleave on one port. `New` and `RunDrop` hold the port
   lock from start to end; `Clone` and `Release` only touch the atomic count. The
   flags say what the external command answers, should it be issued.
   */
  datatype Event = New(opens: bool) | Clone(id: nat) | Release(id: nat) | RunDrop(closes: bool)

  const FRESH := Port(None, false, map[], 0, 0, [])

  function Step(p: Port, e: Event): Port {
    match e
    case New(opens) =>
      if p.WeakAlive() then
        p.(strong := p.strong[p.weak.value := p.strong[p.weak.value] + 1])
      else if !p.isOpen && !opens then
        p
      else
        Port(Some(p.nextId), true, p.strong[p.nextId := 1], p.pendingDrops, p.nextId + 1,
             if p.isOpen then p.log else p.log + [Opened])
    case Clone(id) =>
      if id in p.strong then p.(strong := p.strong[id := p.strong[id] + 1]) else p
    case Release(id) =>
      if id !in p.strong then p
      else if p.strong[id] > 1 then p.(strong := p.strong[id := p.strong[id] - 1])
      else p.(strong := p.strong - {id}, pendingDrops := p.pendingDrops + 1)
    case RunDrop(closes) =>
      if p.pendingDrops == 0 then p
      else if p.WeakAlive() || !p.isOpen then p.(pendingDrops := p.pendingDrops - 1)
      else p.(pendingDrops := p.pendingDrops - 1, isOpen := false,
              log := p.log + [if closes then Closed else CloseFailed])
  }

  function Run(es: seq<Event>): Port {
    if es == [] then FRESH else Step(Run(Front(es)), Last(es))
  }

  function Count(log: seq<Command>, c: Command): nat {
    if log == [] then 0 else Count(Front(log), c) + if Last(log) == c then 1 else 0
  }

  /** Opens at even positions, close attempts at odd ones. */
  ghost predicate Alternates(log: seq<Command>) {
    forall i | 0 <= i < |log| :: log[i] == Opened <==> i % 2 == 0
  }

  lemma CountAppend(log: seq<Command>, c: Command, d: Command)
    ensures Count(log + [c], d) == Count(log, d) + if c == d then 1 else 0
  {
    assert Front(log + [c]) == log;
  }

  /** The part of the invariant about references. */
  ghost predicate References(p: Port) {
    && (forall id | id in p.strong :: p.weak == Some(id) && p.strong[id] > 0)
    && (p.weak.Some? ==> p.weak.value < p.nextId)
    && (p.strong != map[] ==> p.isOpen)
    && (p.isOpen && p.strong == map[] ==> p.pendingDrops > 0)
  }

  /** The commands issued so far, for a port that now counts as open or closed. */
  ghost predicate Commands(log: seq<Command>, isOpen: bool) {
    && Alternates(log)
    && (isOpen <==> |log| % 2 == 1)
    && Count(log, Opened) == Count(log, Closed) + Count(log, CloseFailed) + if isOpen then 1 else 0
  }

  lemma StepKeepsReferences(p: Port, e: Event)
    requires References(p)
    ensures References(Step(p, e))
  {
    var q := Step(p, e);
    match e
    case New(_) =>
      assert p.WeakAlive() || p.strong == map[];
    case Clone(id) =>
      assert id in p.strong ==> id in q.strong;
    case Release(id) =>
      assert id in p.strong ==> p.strong.Keys == {id};
    case RunDrop(_) =>
  }

  /** A command whose turn it is. */
  lemma CommandIssued(log: seq<Command>, isOpen: bool, c: Command)
    requires Commands(log, isOpen) && (c == Opened <==> !isOpen)
    ensures Commands(log + [c], !isOpen)
  {
    CountAppend(log, c, Opened);
    CountAppend(log, c, Closed);
    CountAppend(log, c, CloseFailed);
  }

  lemma StepKeepsCommands(p: Port, e: Event)
    requires Commands(p.log, p.isOpen)
    ensures Commands(Step(p, e).log, Step(p, e).isOpen)
  {
    match e
    case New(_) =>
      if !p.isOpen {
        CommandIssued(p.log, p.isOpen, Opened);
      }
    case RunDrop(closes) =>
      if p.isOpen {
        CommandIssued(p.log, p.isOpen, if closes then Closed else CloseFailed);
      }
    case _ =>
  }

  lemma {:induction false} RunKeepsInv(es: seq<Event>)
    ensures References(Run(es)) && Commands(Run(es).log, Run(es).isOpen)
  {
    if es != [] {
      RunKeepsInv(Front(es));
      StepKeepsReferences(Run(Front(es)), Last(es));
      StepKeepsCommands(Run(Front(es)), Last(es));
    }
  }

  /**
   Whatever the interleaving: at most one guard is live, a live guard means the
   port is open, opens and close attempts strictly alternate beginning with an
   open, and once no guard is live and every drop has run the port is closed.
   */
  lemma PortProtocol(es: seq<Event>)
    ensures |Run(es).strong| <= 1
    ensures Run(es).strong != map[] ==> Run(es).isOpen
    ensures Alternates(Run(es).log)
    ensures Run(es).strong == map[] && Run(es).pendingDrops == 0 ==> !Run(es).isOpen
  {
    RunKeepsInv(es);
    var p := Run(es);
    if p.weak.Some? {
      assert p.strong.Keys <= {p.weak.value};
      SubsetCardinality(p.strong.Keys, {p.weak.value});
    } else {
      assert p.strong.Keys == {};
    }
  }

  lemma SubsetCardinality<T>(small: set<T>, big: set<T>)
    requires small <= big
    ensures |small| <= |big|
  {
    assert big == small + (big - small);
  }

  /**
   Rules inserted less rules removed: exactly the one of an open port, plus one
   for every close that failed. So the host rule set can only grow through
   failing closes, never through the weak/strong race.
   */
  lemma RuleBalance(es: seq<Event>)
    ensures var p := Run(es);
            Count(p.log, Opened) - Count(p.log, Closed)
            == (if p.isOpen then 1 else 0) + Count(p.log, CloseFailed)
  {
    RunKeepsInv(es);
  }

  // ---- References, counted from outside -------------------------------------

  /**
   References to guard `id` handed out by `New` and `Clone` and not released yet. `New`
   hands one out unless it would have had to open the port and could not.
   */
  function Held(es: seq<Event>, id: nat): nat {
    if es == [] then 0
    else
      var before := Held(Front(es), id);
      match Last(es)
      case New(opens) =>
        if Run(es).weak == Some(id) && (before > 0 || opens || Run(Front(es)).isOpen) then before + 1 else before
      case Clone(i) => if i == id && before > 0 then before + 1 else before
      case Release(i) => if i == id && before > 0 then before - 1 else before
      case RunDrop(_) => before
  }

  /** Guards whose last reference was released and whose drop has not run. */
  function Due(es: seq<Event>): nat {
    if es == [] then 0
    else
      var before := Due(Front(es));
      match Last(es)
      case Release(i) => if Held(Front(es), i) == 1 then before + 1 else before
      case RunDrop(_) => if before > 0 then before - 1 else 0
      case _ => before
  }

  /**
   A guard lives exactly as long as references to it are held, with as many strong
   counts as there are references, and each guard that dies leaves one drop to run.
   */
  lemma {:induction false} GuardLivesWhileHeld(es: seq<Event>, id: nat)
    ensures id in Run(es).strong <==> Held(es, id) > 0
    ensures id in Run(es).strong ==> Run(es).strong[id] == Held(es, id)
    ensures Run(es).pendingDrops == Due(es)
  {
    if es != [] {
      var front := Front(es);
      RunKeepsInv(front);
      GuardLivesWhileHeld(front, id);
      if Last(es).Release? {
        GuardLivesWhileHeld(front, Last(es).id);
      }
      if Last(es).New? && !Run(front).WeakAlive() {
        GuardLivesWhileHeld(front, Run(front).nextId);
        assert Run(front).nextId !in Run(front).strong;
      }
    }
  }

  /** Closes that were tried and failed: a due drop ran on an open port nobody held. */
  function FailedCloses(es: seq<Event>): nat {
    if es == [] then 0
    else
      var p := Run(Front(es));
      FailedCloses(Front(es))
      + if Last(es) == RunDrop(false) && Due(Front(es)) > 0 && p.isOpen && p.strong == map[] then 1 else 0
  }

  lemma FailsWhenRefused(p: Port, e: Event)
    requires References(p)
    ensures Count(Step(p, e).log, CloseFailed) == Count(p.log, CloseFailed)
            + if e == RunDrop(false) && p.pendingDrops > 0 && p.isOpen && p.strong == map[] then 1 else 0
  {
    match e
    case New(_) => CountAppend(p.log, Opened, CloseFailed);
    case RunDrop(closes) =>
      assert p.WeakAlive() <==> p.strong != map[];
      CountAppend(p.log, if closes then Closed else CloseFailed, CloseFailed);
    case _ =>
  }

  lemma {:induction false} FailuresInLog(es: seq<Event>)
    ensures Count(Run(es).log, CloseFailed) == FailedCloses(es)
  {
    if es != [] {
      FailuresInLog(Front(es));
      RunKeepsInv(Front(es));
      GuardLivesWhileHeld(Front(es), 0);
      FailsWhenRefused(Run(Front(es)), Last(es));
    }
  }

  /** The rules left on the host: the one of an open port, and one for every close the host refused. */
  lemma OnlyRefusedClosesLeak(es: seq<Event>)
    ensures Count(Run(es).log, Opened) - Count(Run(es).log, Closed)
            == (if Run(es).isOpen then 1 else 0) + FailedCloses(es)
  {
    RuleBalance(es);
    FailuresInLog(es);
  }

  // ---- The process-wide map -------------------------------------------------

  type Ports = map<nat, Port>

  function Lookup(ports: Ports, port: nat): Port {
    if port in ports then ports[port] else FRESH
  }

  function StepAt(ports: Ports, port: nat, e: Event): Ports {
    ports[port := Step(Lookup(ports, port), e)]
  }

  function RunAll(es: seq<(nat, Event)>): Ports {
    if es == [] then map[] else StepAt(RunAll(Front(es)), Last(es).0, Last(es).1)
  }

  /** The events of one port, in their order. */
  function At(es: seq<(nat, Event)>, port: nat): seq<Event> {
    if es == [] then []
    else At(Front(es), port) + if Last(es).0 == port then [Last(es).1] else []
  }

  /** Ports never disturb each other: each one behaves as if it were alone. */
  lemma {:induction false} PortsAreIndependent(es: seq<(nat, Event)>, port: nat)
    ensures Lookup(RunAll(es), port) == Run(At(es, port))
  {
    if es != [] {
      PortsAreIndependent(Front(es), port);
      if Last(es).0 == port {
        assert Front(At(es, port)) == At(Front(es), port);
      } else {
        assert At(es, port) == At(Front(es), port);
      }
    }
  }

  /** `GUARDS` and the operations on it. */
  class GuardMap {
    var ports: Ports

    constructor ()
      ensures ports == map[]
    {
      ports := map[];
    }

    /** `FirewallGuard::new`: the id of the guard handed out, or the failed open. */
    method New(port: nat, opens: bool) returns (r: Result<nat, ()>)
      modifies this
      ensures ports == StepAt(old(ports), port, Event.New(opens))
      ensures r.Err? <==> !opens && !Lookup(old(ports), port).WeakAlive() && !Lookup(old(ports), port).isOpen
      ensures r.Ok? ==> Lookup(ports, port).weak == Some(r.value) && Lookup(ports, port).WeakAlive()
    {
      if port !in ports {
        ports := ports[port := FRESH];
      }
      var ctrl := ports[port];
      if ctrl.WeakAlive() {
        var id := ctrl.weak.value;
        ports := ports[port := ctrl.(strong := ctrl.strong[id := ctrl.strong[id] + 1])];
        return Ok(id);
      }
      if !ctrl.isOpen {
        if !opens {
          return Err(());
        }
        ctrl := ctrl.(isOpen := true, log := ctrl.log + [Opened]);
      }
      var id := ctrl.nextId;
      ctrl := ctrl.(strong := ctrl.strong[id := 1], nextId := id + 1);
      ports := ports[port := ctrl.(weak := Some(id))];
      return Ok(id);
    }

    /** Another reference to a guard that is alive. */
    method Clone(port: nat, id: nat)
      requires port in ports && id in ports[port].strong
      modifies this
      ensures ports == StepAt(old(ports), port, Event.Clone(id))
    {
      var ctrl := ports[port];
      ports := ports[port := ctrl.(strong := ctrl.strong[id := ctrl.strong[id] + 1])];
    }

    /** A reference goes away; with the last one the guard is gone and its drop is due. */
    method Release(port: nat, id: nat) returns (last: bool)
      requires port in ports && id in ports[port].strong
      modifies this
      ensures ports == StepAt(old(ports), port, Event.Release(id))
      ensures last <==> id !in ports[port].strong
      ensures last ==> ports[port].pendingDrops > 0
    {
      var ctrl := ports[port];
      last := ctrl.strong[id] <= 1;
      if last {
        ctrl := ctrl.(strong := ctrl.strong - {id}, pendingDrops := ctrl.pendingDrops + 1);
      } else {
        ctrl := ctrl.(strong := ctrl.strong[id := ctrl.strong[id] - 1]);
      }
      ports := ports[port := ctrl];
    }

    /** `do_drop_close`, run for a guard whose last reference is gone. */
    method DropClose(port: nat, closes: bool)
      requires port in ports ==> ports[port].pendingDrops > 0
      modifies this
      ensures ports == if port in old(ports) then StepAt(old(ports), port, RunDrop(closes)) else old(ports)
    {
      if port !in ports {
        return;
      }
      var ctrl := ports[port];
      ctrl := ctrl.(pendingDrops := ctrl.pendingDrops - 1);
      if !ctrl.WeakAlive() && ctrl.isOpen {
        ctrl := ctrl.(log := ctrl.log + [if closes then Closed else CloseFailed]);
        ctrl := ctrl.(isOpen := false);
      }
      ports := ports[port := ctrl];
    }
  }
}
