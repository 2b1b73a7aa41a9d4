/**
 The daemon's single pairing slot: start, wait and complete requests, and the
 two kinds of timeout task, interleaving at every point where a handler lets go
 of the slot's lock.
 */
module PairingSlot {
  import opened Prelude

  /** Which of the two slot states a generation occupies or a timer watches. */
  datatype Kind = Pending | Active

  datatype Entry = Entry(kind: Kind, generation: nat, port: nat)

  /** Where one generation is in its life. */
  datatype Phase = Starting | InSlot(kind: Kind) | Accepting | Finishing | Persisted | Dropped

  datatype Slot = Slot(
    entry: Option<Entry>,
    nextGeneration: nat,
    history: map<nat, seq<Phase>>,   // phases each generation went through
    ports: map<nat, nat>,            // listening port of each generation
    arming: set<(nat, Kind)>,        // stored by a handler that has not spawned the timer yet
    timers: set<(nat, Kind)>,        // sleeping timeout tasks
    persisted: seq<nat>)             // generations written to the store, in order
  {
    /** The current phase of a generation, `Dropped` when it was never issued. */
    function PhaseOf(g: nat): Phase {
      if g in history && history[g] != [] then Last(history[g]) else Dropped
    }

    function Move(g: nat, phase: Phase): Slot {
      this.(history := history[g := (if g in history then history[g] else []) + [phase]])
    }
  }

  /** The atomic steps; a step that is not enabled changes nothing. */
  datatype Event =
    | TakeGeneration(listenPort: nat)       // next_generation in handle_start_pairing
    | StoreStarted(g: nat)                  // the locked section that follows
    | ArmTimer(g: nat, kind: Kind)          // spawn_pairing_timeout / spawn_active_pairing_timeout
    | TimerFires(g: nat, kind: Kind)
    | TakePending(reqPort: nat)             // locked section of handle_wait_for_pairing
    | AcceptFails(g: nat)                   // accept, its timeout, or initiate_pairing failed
    | AcceptSucceeds(g: nat)                // second locked section of handle_wait_for_pairing
    | TakeActive(reqPort: nat)              // locked section of handle_complete_pairing
    | FinishFails(g: nat)                   // CSK, finish_pairing or a save failed
    | FinishSucceeds(g: nat)                // the server was added to the store

  const INITIAL := Slot(None, 0, map[], map[], {}, {}, [])

  predicate PortAccepted(reqPort: nat, port: nat) {
    reqPort == 0 || reqPort == port
  }

  /** Put `g` into the free slot, or give it up because the slot is taken. */
  function Store(s: Slot, g: nat, from: Phase, kind: Kind): Slot {
    if s.PhaseOf(g) != from || g !in s.ports then s
    else if s.entry.Some? then s.Move(g, Dropped)
    else s.(entry := Some(Entry(kind, g, s.ports[g])), arming := s.arming + {(g, kind)}).Move(g, InSlot(kind))
  }

  /** Empty the slot for a request that names its kind and its port. */
  function Take(s: Slot, kind: Kind, reqPort: nat, to: Phase): Slot {
    if s.entry.Some? && s.entry.value.kind == kind && PortAccepted(reqPort, s.entry.value.port)
    then s.(entry := None).Move(s.entry.value.generation, to)
    else s
  }

  /** The sleep is over: clear the slot if it still holds this generation in this kind. */
  function Fire(s: Slot, g: nat, kind: Kind): Slot {
    if (g, kind) !in s.timers then s
    else if s.entry.Some? && s.entry.value.kind == kind && s.entry.value.generation == g
    then s.(timers := s.timers - {(g, kind)}, entry := None).Move(g, Dropped)
    else s.(timers := s.timers - {(g, kind)})
  }

  /** A handler that owns `g` outside the slot is done with it. */
  function End(s: Slot, g: nat, from: Phase, to: Phase): Slot {
    if s.PhaseOf(g) != from then s
    else s.(persisted := if to == Persisted then s.persisted + [g] else s.persisted).Move(g, to)
  }

  function Step(s: Slot, e: Event): Slot {
    match e
    case TakeGeneration(listenPort) =>
      var g := s.nextGeneration;
      s.(nextGeneration := g + 1, ports := s.ports[g := listenPort], history := s.history[g := [Starting]])
    case StoreStarted(g) => Store(s, g, Starting, Pending)
    case ArmTimer(g, kind) =>
      if (g, kind) !in s.arming then s
      else s.(arming := s.arming - {(g, kind)}, timers := s.timers + {(g, kind)})
    case TimerFires(g, kind) => Fire(s, g, kind)
    case TakePending(reqPort) => Take(s, Pending, reqPort, Accepting)
    case AcceptFails(g) => End(s, g, Accepting, Dropped)
    case AcceptSucceeds(g) => Store(s, g, Accepting, Active)
    case TakeActive(reqPort) => Take(s, Active, reqPort, Finishing)
    case FinishFails(g) => End(s, g, Finishing, Dropped)
    case FinishSucceeds(g) => End(s, g, Finishing, Persisted)
  }

  function Run(es: seq<Event>): Slot {
    if es == [] then INITIAL else Step(Run(Front(es)), Last(es))
  }

  /** How a generation may move; nothing leads back, nothing leaves `Persisted`. */
  predicate Edge(from: Phase, to: Phase) {
    match from
    case Starting => to == InSlot(Pending) || to == Dropped
    case InSlot(Pending) => to == Accepting || to == Dropped
    case Accepting => to == InSlot(Active) || to == Dropped
    case InSlot(Active) => to == Finishing || to == Dropped
    case Finishing => to == Persisted || to == Dropped
    case _ => false
  }

  ghost predicate LegalLife(h: seq<Phase>) {
    && h != []
    && h[0] == Starting
    && forall i | 0 <= i < |h| - 1 :: Edge(h[i], h[i + 1])
  }

  /** The generations issued so far and the lives they led. */
  ghost predicate Lives(s: Slot) {
    && (forall g: nat :: g in s.history <==> g < s.nextGeneration)
    && s.ports.Keys == s.history.Keys
    && (forall g | g in s.history :: LegalLife(s.history[g]))
  }

  /** The slot holds exactly the generation whose phase says so, and a timer watches it. */
  ghost predicate Held(s: Slot) {
    && (forall g | g in s.history :: s.PhaseOf(g).InSlot? ==> s.entry.Some? && s.entry.value.generation == g)
    && (s.entry.Some? ==>
          var Entry(kind, g, port) := s.entry.value;
          && g in s.ports && g in s.history
          && s.ports[g] == port
          && s.PhaseOf(g) == InSlot(kind)
          && (g, kind) in s.arming + s.timers)
  }

  /** The store was written once for each generation that ended there. */
  ghost predicate Stored(s: Slot) {
    && (forall g | g in s.persisted :: g in s.history && s.PhaseOf(g) == Persisted)
    && (forall g | g in s.history :: s.PhaseOf(g) == Persisted ==> g in s.persisted)
    && (forall i, j | 0 <= i < j < |s.persisted| :: s.persisted[i] != s.persisted[j])
  }

  ghost predicate Inv(s: Slot) {
    Lives(s) && Held(s) && Stored(s)
  }

  /** One generation, and only that one, takes one edge. */
  ghost predicate Moves(s: Slot, t: Slot, g: nat, next: Phase) {
    && g in s.history
    && s.history[g] != []
    && Edge(Last(s.history[g]), next)
    && t.history == s.history[g := s.history[g] + [next]]
    && t.nextGeneration == s.nextGeneration && t.ports == s.ports
  }

  lemma MoveKeepsLives(s: Slot, t: Slot, g: nat, next: Phase)
    requires Lives(s) && Moves(s, t, g, next)
    ensures Lives(t)
  {
    var h := s.history[g] + [next];
    assert forall i | 0 <= i < |h| - 1 :: Edge(h[i], h[i + 1]);
  }

  lemma MoveKeepsStored(s: Slot, t: Slot, g: nat, next: Phase)
    requires Stored(s) && Moves(s, t, g, next)
    requires t.persisted == if next == Persisted then s.persisted + [g] else s.persisted
    ensures Stored(t)
  {
    assert forall h | h in t.history :: t.PhaseOf(h) == if h == g then next else s.PhaseOf(h);
    assert g !in s.persisted;
  }

  lemma MoveKeepsHeld(s: Slot, t: Slot, g: nat, next: Phase)
    requires Held(s) && Moves(s, t, g, next)
    requires s.arming + s.timers <= t.arming + t.timers || t.entry.None?
    requires if next.InSlot?
             then s.entry.None? && g in s.ports && t.entry == Some(Entry(next.kind, g, s.ports[g]))
                 && (g, next.kind) in t.arming
             else t.entry == if s.PhaseOf(g).InSlot? then None else s.entry
    ensures Held(t)
  {
    assert forall h | h in t.history :: t.PhaseOf(h) == if h == g then next else s.PhaseOf(h);
  }

  lemma StoreKeepsInv(s: Slot, g: nat, from: Phase, kind: Kind)
    requires Inv(s) && Edge(from, InSlot(kind))
    ensures Inv(Store(s, g, from, kind))
  {
    var t := Store(s, g, from, kind);
    if s.PhaseOf(g) == from && g in s.ports {
      var next := if s.entry.Some? then Dropped else InSlot(kind);
      assert Moves(s, t, g, next);
      MoveKeepsLives(s, t, g, next);
      MoveKeepsHeld(s, t, g, next);
      MoveKeepsStored(s, t, g, next);
    }
  }

  lemma TakeKeepsInv(s: Slot, kind: Kind, reqPort: nat, to: Phase)
    requires Inv(s) && Edge(InSlot(kind), to) && !to.Dropped?
    ensures Inv(Take(s, kind, reqPort, to))
  {
    var t := Take(s, kind, reqPort, to);
    if s.entry.Some? && s.entry.value.kind == kind && PortAccepted(reqPort, s.entry.value.port) {
      var g := s.entry.value.generation;
      assert Moves(s, t, g, to);
      MoveKeepsLives(s, t, g, to);
      MoveKeepsHeld(s, t, g, to);
      MoveKeepsStored(s, t, g, to);
    }
  }

  lemma FireKeepsInv(s: Slot, g: nat, kind: Kind)
    requires Inv(s)
    ensures Inv(Fire(s, g, kind))
  {
    var t := Fire(s, g, kind);
    if (g, kind) in s.timers && s.entry.Some? && s.entry.value.kind == kind && s.entry.value.generation == g {
      assert Moves(s, t, g, Dropped);
      MoveKeepsLives(s, t, g, Dropped);
      MoveKeepsHeld(s, t, g, Dropped);
      MoveKeepsStored(s, t, g, Dropped);
    }
  }

  lemma EndKeepsInv(s: Slot, g: nat, from: Phase, to: Phase)
    requires Inv(s) && Edge(from, to) && !from.InSlot? && !to.InSlot?
    ensures Inv(End(s, g, from, to))
  {
    var t := End(s, g, from, to);
    if s.PhaseOf(g) == from {
      assert Moves(s, t, g, to);
      MoveKeepsLives(s, t, g, to);
      MoveKeepsHeld(s, t, g, to);
      MoveKeepsStored(s, t, g, to);
    }
  }

  lemma StepKeepsInv(s: Slot, e: Event)
    requires Inv(s)
    ensures Inv(Step(s, e))
  {
    match e
    case TakeGeneration(_) =>
    case ArmTimer(_, _) =>
    case StoreStarted(g) => StoreKeepsInv(s, g, Starting, Pending);
    case AcceptSucceeds(g) => StoreKeepsInv(s, g, Accepting, Active);
    case TimerFires(g, kind) => FireKeepsInv(s, g, kind);
    case TakePending(reqPort) => TakeKeepsInv(s, Pending, reqPort, Accepting);
    case TakeActive(reqPort) => TakeKeepsInv(s, Active, reqPort, Finishing);
    case AcceptFails(g) => EndKeepsInv(s, g, Accepting, Dropped);
    case FinishFails(g) => EndKeepsInv(s, g, Finishing, Dropped);
    case FinishSucceeds(g) => EndKeepsInv(s, g, Finishing, Persisted);
  }

  lemma {:induction false} RunKeepsInv(es: seq<Event>)
    ensures Inv(Run(es))
  {
    if es != [] {
      RunKeepsInv(Front(es));
      StepKeepsInv(Run(Front(es)), Last(es));
    }
  }

  // ---- What every interleaving guarantees -----------------------------------

  const FULL_LIFE: seq<Phase> :=
    [Starting, InSlot(Pending), Accepting, InSlot(Active), Finishing, Persisted]

  /** Only the whole way through ends in the store. */
  lemma FullLife(h: seq<Phase>)
    requires LegalLife(h) && Last(h) == Persisted
    ensures h == FULL_LIFE
  {
    var n := |h|;
    assert Edge(h[n - 2], h[n - 1]) && h[n - 2] == Finishing;
    assert Edge(h[n - 3], h[n - 2]) && h[n - 3] == InSlot(Active);
    assert Edge(h[n - 4], h[n - 3]) && h[n - 4] == Accepting;
    assert Edge(h[n - 5], h[n - 4]) && h[n - 5] == InSlot(Pending);
    assert Edge(h[n - 6], h[n - 5]) && h[n - 6] == Starting;
    assert n > 6 ==> Edge(h[n - 7], h[n - 6]);
  }

  /**
   In every interleaving a generation only ever moves along `Edge`, and the store
   is written at most once per generation and only by generations that were
   pending, then accepted, then active, then finished.
   */
  lemma PersistedOnceAfterBothPhases(es: seq<Event>)
    ensures var s := Run(es);
            && (forall g | g in s.history :: LegalLife(s.history[g]))
            && (forall g | g in s.persisted :: g in s.history && s.history[g] == FULL_LIFE)
            && (forall i, j | 0 <= i < j < |s.persisted| :: s.persisted[i] != s.persisted[j])
  {
    RunKeepsInv(es);
    var s := Run(es);
    forall g | g in s.persisted
      ensures g in s.history && s.history[g] == FULL_LIFE
    {
      FullLife(s.history[g]);
    }
  }

  /** Two generations are never in the slot at the same time. */
  lemma OneGenerationInSlot(es: seq<Event>, g: nat, h: nat)
    requires Run(es).PhaseOf(g).InSlot? && Run(es).PhaseOf(h).InSlot?
    ensures g == h
  {
    RunKeepsInv(es);
  }

  /**
   A wait takes the pairing out of the slot exactly if it is pending and the request
   names its port or none; a completion likewise if it is active. Nothing else moves.
   */
  lemma TakenIffKindAndPortFit(es: seq<Event>, reqPort: nat)
    ensures var s := Run(es);
            var w, c := Step(s, TakePending(reqPort)), Step(s, TakeActive(reqPort));
            && (w != s <==> s.entry.Some? && s.entry.value.kind == Pending
                            && (reqPort == 0 || reqPort == s.entry.value.port))
            && (c != s <==> s.entry.Some? && s.entry.value.kind == Active
                            && (reqPort == 0 || reqPort == s.entry.value.port))
            && (w != s ==> w.entry == None && w.PhaseOf(s.entry.value.generation) == Accepting)
            && (c != s ==> c.entry == None && c.PhaseOf(s.entry.value.generation) == Finishing)
  {
    RunKeepsInv(es);
  }

  /** The port a slot entry answers to is the one its generation listens on. */
  lemma EntryHasItsOwnPort(es: seq<Event>)
    requires Run(es).entry.Some?
    ensures var Entry(_, g, port) := Run(es).entry.value; g in Run(es).ports && Run(es).ports[g] == port
  {
    RunKeepsInv(es);
  }

  /** A timer can end nothing but its own generation, in its own phase. */
  lemma TimerClearsOnlyItsOwn(es: seq<Event>, g: nat, kind: Kind)
    ensures var s, t := Run(es), Run(es + [TimerFires(g, kind)]);
            && (t.entry != s.entry <==> (g, kind) in s.timers && s.PhaseOf(g) == InSlot(kind))
            && (t.entry != s.entry ==> t.entry == None && t.PhaseOf(g) == Dropped)
            && (forall h: nat | h != g :: t.PhaseOf(h) == s.PhaseOf(h))
            && (s.PhaseOf(g) != InSlot(kind) ==> t.PhaseOf(g) == s.PhaseOf(g))
            && t.persisted == s.persisted
  {
    RunKeepsInv(es);
    assert Front(es + [TimerFires(g, kind)]) == es;
  }

  /**
   An occupied slot always has its timer, already sleeping or about to be spawned
   by the handler that stored it; letting that timer run empties the slot. So no
   pairing can hold the slot forever.
   */
  lemma SlotIsAlwaysWatched(es: seq<Event>)
    requires Run(es).entry.Some?
    ensures var Entry(kind, g, _) := Run(es).entry.value;
            && (g, kind) in Run(es).arming + Run(es).timers
            && Run(es + [ArmTimer(g, kind), TimerFires(g, kind)]).entry.None?
  {
    RunKeepsInv(es);
    var Entry(kind, g, _) := Run(es).entry.value;
    var one := es + [ArmTimer(g, kind)];
    assert Front(one) == es;
    assert Front(es + [ArmTimer(g, kind), TimerFires(g, kind)]) == one;
  }

  // ---- One timer per entry --------------------------------------------------

  /** The slot was free and now holds `g` in this kind. */
  predicate Comes(s: Slot, t: Slot, g: nat, kind: Kind) {
    s.entry == None && t.entry.Some? && t.entry.value.kind == kind && t.entry.value.generation == g
  }

  /** How often that happened. */
  function Entered(es: seq<Event>, g: nat, kind: Kind): nat {
    if es == [] then 0
    else Entered(Front(es), g, kind) + if Comes(Run(Front(es)), Run(es), g, kind) then 1 else 0
  }

  /** How often a timer was spawned for it. */
  function Spawned(es: seq<Event>, g: nat, kind: Kind): nat {
    if es == [] then 0
    else
      Spawned(Front(es), g, kind)
      + if Last(es) == ArmTimer(g, kind) && (g, kind) in Run(Front(es)).arming then 1 else 0
  }

  /** How often one of them went off. */
  function Fired(es: seq<Event>, g: nat, kind: Kind): nat {
    if es == [] then 0
    else
      Fired(Front(es), g, kind)
      + if Last(es) == TimerFires(g, kind) && (g, kind) in Run(Front(es)).timers then 1 else 0
  }

  /** A life passes each place at most once. */
  lemma {:induction false} PlaceInLife(h: seq<Phase>, i: nat)
    requires LegalLife(h) && i < |h|
    ensures h[i] == Starting <==> i == 0
    ensures h[i] == InSlot(Pending) ==> i == 1
    ensures h[i] == Accepting ==> i == 2
    ensures h[i] == InSlot(Active) ==> i == 3
  {
    if i > 0 {
      PlaceInLife(h, i - 1);
      assert Edge(h[i - 1], h[i - 1 + 1]);
    }
  }

  predicate HasBeen(s: Slot, g: nat, kind: Kind) {
    g in s.history && InSlot(kind) in s.history[g]
  }

  lemma NotBeenYet(s: Slot, g: nat, from: Phase, kind: Kind)
    requires Inv(s) && s.PhaseOf(g) == from && Edge(from, InSlot(kind))
    ensures !HasBeen(s, g, kind)
  {
    var h := s.history[g];
    PlaceInLife(h, |h| - 1);
    forall i | 0 <= i < |h| ensures h[i] != InSlot(kind) {
      PlaceInLife(h, i);
    }
  }

  lemma MovedHasBeen(s: Slot, t: Slot, h: nat, next: Phase, g: nat, kind: Kind)
    requires h in s.history && t.history == s.history[h := s.history[h] + [next]]
    ensures HasBeen(t, g, kind) <==> HasBeen(s, g, kind) || (g == h && next == InSlot(kind))
  {
  }

  lemma StoreEnters(s: Slot, h: nat, from: Phase, k: Kind, g: nat, kind: Kind)
    requires Inv(s) && Edge(from, InSlot(k))
    ensures var t := Store(s, h, from, k);
            && (Comes(s, t, g, kind) ==> !HasBeen(s, g, kind))
            && (HasBeen(t, g, kind) <==> HasBeen(s, g, kind) || Comes(s, t, g, kind))
  {
    if s.PhaseOf(h) == from && h in s.ports {
      NotBeenYet(s, h, from, k);
      MovedHasBeen(s, Store(s, h, from, k), h, if s.entry.Some? then Dropped else InSlot(k), g, kind);
    }
  }

  lemma LeaveEntersNothing(s: Slot, t: Slot, h: nat, next: Phase, g: nat, kind: Kind)
    requires Inv(s) && !next.InSlot?
    requires t == s || (h in s.history && t.history == s.history[h := s.history[h] + [next]])
    requires t.entry == s.entry || t.entry == None
    ensures !Comes(s, t, g, kind) && (HasBeen(t, g, kind) <==> HasBeen(s, g, kind))
  {
    if t != s {
      MovedHasBeen(s, t, h, next, g, kind);
    }
  }

  /** An entry is a generation's first in its kind. */
  lemma EntersOnce(s: Slot, e: Event, g: nat, kind: Kind)
    requires Inv(s)
    ensures var t := Step(s, e);
            && (Comes(s, t, g, kind) ==> !HasBeen(s, g, kind))
            && (HasBeen(t, g, kind) <==> HasBeen(s, g, kind) || Comes(s, t, g, kind))
  {
    match e
    case TakeGeneration(_) =>
    case ArmTimer(_, _) =>
    case StoreStarted(h) => StoreEnters(s, h, Starting, Pending, g, kind);
    case AcceptSucceeds(h) => StoreEnters(s, h, Accepting, Active, g, kind);
    case TimerFires(h, _) =>
      if Step(s, e).history != s.history {
        LeaveEntersNothing(s, Step(s, e), h, Dropped, g, kind);
      }
    case TakePending(_) =>
      if s.entry.Some? {
        LeaveEntersNothing(s, Step(s, e), s.entry.value.generation, Accepting, g, kind);
      }
    case TakeActive(_) =>
      if s.entry.Some? {
        LeaveEntersNothing(s, Step(s, e), s.entry.value.generation, Finishing, g, kind);
      }
    case AcceptFails(h) => LeaveEntersNothing(s, Step(s, e), h, Dropped, g, kind);
    case FinishFails(h) => LeaveEntersNothing(s, Step(s, e), h, Dropped, g, kind);
    case FinishSucceeds(h) => LeaveEntersNothing(s, Step(s, e), h, Persisted, g, kind);
  }

  lemma TimersMove(s: Slot, e: Event, g: nat, kind: Kind)
    ensures var t, w := Step(s, e), (g, kind);
            && (w in t.arming <==> (w in s.arming && e != ArmTimer(g, kind)) || Comes(s, t, g, kind))
            && (w in t.timers <==> (w in s.timers && e != TimerFires(g, kind))
                                   || (w in s.arming && e == ArmTimer(g, kind)))
  {
  }

  /**
   In every run a generation enters the slot at most once in each kind, and every entry
   has exactly one timer: about to be spawned, sleeping, or gone off.
   */
  lemma {:induction false} OneTimerPerEntry(es: seq<Event>, g: nat, kind: Kind)
    ensures Entered(es, g, kind) <= 1
    ensures Entered(es, g, kind) == 1 <==> HasBeen(Run(es), g, kind)
    ensures Entered(es, g, kind) == Spawned(es, g, kind) + if (g, kind) in Run(es).arming then 1 else 0
    ensures Spawned(es, g, kind) == Fired(es, g, kind) + if (g, kind) in Run(es).timers then 1 else 0
  {
    if es != [] {
      RunKeepsInv(Front(es));
      OneTimerPerEntry(Front(es), g, kind);
      EntersOnce(Run(Front(es)), Last(es), g, kind);
      TimersMove(Run(Front(es)), Last(es), g, kind);
    }
  }

  lemma Then(es: seq<Event>, e: Event) returns (r: seq<Event>)
    ensures r == es + [e] && Run(r) == Step(Run(es), e)
  {
    r := es + [e];
    assert Front(r) == es;
  }

  /**
   The slot admits one pairing at a time but not one completion at a time: from
   any state with a free slot one more generation can get as far as finishing
   while all others stay where they are, so completions can overlap.
   */
  lemma CompletionsCanOverlap(es: seq<Event>) returns (r: seq<Event>)
    requires Run(es).entry.None?
    ensures Run(r).entry.None?
    ensures Run(r).PhaseOf(Run(es).nextGeneration) == Finishing
    ensures forall g: nat | g != Run(es).nextGeneration :: Run(r).PhaseOf(g) == Run(es).PhaseOf(g)
  {
    var g := Run(es).nextGeneration;
    r := StartsAccepting(es);
    GoesThroughSlot(Run(r), g, Accepting, Active, Finishing);
    r := Then(r, AcceptSucceeds(g));
    r := Then(r, TakeActive(0));
  }

  /** The first half: a new generation is started and waited for. */
  lemma StartsAccepting(es: seq<Event>) returns (r: seq<Event>)
    requires Run(es).entry.None?
    ensures Run(r).entry.None?
    ensures Run(es).nextGeneration in Run(r).ports
    ensures Run(r).PhaseOf(Run(es).nextGeneration) == Accepting
    ensures forall g: nat | g != Run(es).nextGeneration :: Run(r).PhaseOf(g) == Run(es).PhaseOf(g)
  {
    var g := Run(es).nextGeneration;
    r := Then(es, TakeGeneration(1));
    GoesThroughSlot(Run(r), g, Starting, Pending, Accepting);
    r := Then(r, StoreStarted(g));
    r := Then(r, TakePending(0));
  }

  /** Into the free slot and out again, with nobody else moving. */
  lemma GoesThroughSlot(s: Slot, g: nat, from: Phase, kind: Kind, to: Phase)
    requires s.entry.None? && s.PhaseOf(g) == from && g in s.ports
    ensures var t := Take(Store(s, g, from, kind), kind, 0, to);
            && t.entry.None? && t.PhaseOf(g) == to && t.ports == s.ports
            && forall h: nat | h != g :: t.PhaseOf(h) == s.PhaseOf(h)
  {
  }

  // ---- The handlers' locked sections ----------------------------------------

  datatype SlotError = InProgress | StillPending | AlreadyActive | NoSession | PortMismatch | Superseded

  /** Why a request for one kind of session is turned away; a port is only blamed when the kind fits. */
  function Refusal(slot: Option<Entry>, wanted: Kind): (e: SlotError)
    ensures e == NoSession <==> slot == None
    ensures e == PortMismatch <==> slot.Some? && slot.value.kind == wanted
    ensures e == AlreadyActive <==> slot.Some? && slot.value.kind != wanted && wanted.Pending?
    ensures e == StillPending <==> slot.Some? && slot.value.kind != wanted && wanted.Active?
  {
    if slot.None? then NoSession
    else if slot.value.kind == wanted then PortMismatch
    else if wanted == Pending then AlreadyActive
    else StillPending
  }

  /** The shared slot and the generation counter; `view` is the protocol they belong to. */
  class PairingState {
    var slot: Option<Entry>
    var generation: nat
    ghost var view: Slot

    ghost predicate Valid()
      reads this
    {
      slot == view.entry && generation == view.nextGeneration && Inv(view)
    }

    constructor ()
      ensures Valid() && view == INITIAL
    {
      slot, generation, view := None, 0, INITIAL;
    }

    method NextGeneration(listenPort: nat) returns (g: nat)
      requires Valid()
      modifies this
      ensures Valid() && view == Step(old(view), TakeGeneration(listenPort))
      ensures g == old(generation) && view.PhaseOf(g) == Starting
    {
      g := generation;
      generation := generation + 1;
      StepKeepsInv(view, TakeGeneration(listenPort));
      view := Step(view, TakeGeneration(listenPort));
    }

    /** End of `handle_start_pairing`. */
    method StorePending(g: nat, port: nat) returns (r: Result<(), SlotError>)
      requires Valid() && view.PhaseOf(g) == Starting && g in view.ports && view.ports[g] == port
      modifies this
      ensures Valid() && view == Step(old(view), StoreStarted(g))
      ensures r == if old(slot).Some? then Err(InProgress) else Ok(())
    {
      StepKeepsInv(view, StoreStarted(g));
      view := Step(view, StoreStarted(g));
      if slot.Some? {
        return Err(InProgress);
      }
      slot := Some(Entry(Pending, g, port));
      return Ok(());
    }

    /** `spawn_pairing_timeout` or `spawn_active_pairing_timeout`, once the lock is released. */
    method SpawnTimeout(g: nat, kind: Kind)
      requires Valid() && (g, kind) in view.arming
      modifies this`view
      ensures Valid() && view == Step(old(view), ArmTimer(g, kind)) && (g, kind) in view.timers
    {
      StepKeepsInv(view, ArmTimer(g, kind));
      view := Step(view, ArmTimer(g, kind));
    }

    /** The locked section of either timeout task. */
    method Timeout(g: nat, kind: Kind)
      requires Valid() && (g, kind) in view.timers
      modifies this
      ensures Valid() && view == Step(old(view), TimerFires(g, kind))
    {
      StepKeepsInv(view, TimerFires(g, kind));
      view := Step(view, TimerFires(g, kind));
      if slot.Some? && slot.value.kind == kind && slot.value.generation == g {
        slot := None;
      }
    }

    /** Start of `handle_wait_for_pairing`. */
    method BeginWait(reqPort: nat) returns (r: Result<nat, SlotError>)
      requires Valid()
      modifies this
      ensures Valid() && view == Step(old(view), TakePending(reqPort))
      ensures r.Ok? <==> old(slot).Some? && old(slot).value.kind == Pending
                         && (reqPort == 0 || reqPort == old(slot).value.port)
      ensures r.Ok? ==> slot == None && r.value == old(slot).value.generation
      ensures r.Ok? ==> old(view).PhaseOf(r.value) == InSlot(Pending) && view.PhaseOf(r.value) == Accepting
      ensures r.Err? ==> view == old(view) && r.error == Refusal(old(slot), Pending)
    {
      StepKeepsInv(view, TakePending(reqPort));
      if slot.None? {
        return Err(NoSession);
      } else if slot.value.kind == Active {
        return Err(AlreadyActive);
      } else if reqPort != 0 && reqPort != slot.value.port {
        return Err(PortMismatch);
      }
      var g := slot.value.generation;
      view := Step(view, TakePending(reqPort));
      slot := None;
      return Ok(g);
    }

    /** `handle_wait_for_pairing` gives up: no connection, or the key exchange failed. */
    method AcceptFailed(g: nat)
      requires Valid() && view.PhaseOf(g) == Accepting
      modifies this`view
      ensures Valid() && view == Step(old(view), AcceptFails(g)) && view.PhaseOf(g) == Dropped
    {
      StepKeepsInv(view, AcceptFails(g));
      view := Step(view, AcceptFails(g));
    }

    /** End of `handle_wait_for_pairing`, after the key exchange succeeded. */
    method StoreActive(g: nat, port: nat) returns (r: Result<(), SlotError>)
      requires Valid() && view.PhaseOf(g) == Accepting && g in view.ports && view.ports[g] == port
      modifies this
      ensures Valid() && view == Step(old(view), AcceptSucceeds(g))
      ensures r == if old(slot).Some? then Err(Superseded) else Ok(())
    {
      StepKeepsInv(view, AcceptSucceeds(g));
      view := Step(view, AcceptSucceeds(g));
      if slot.Some? {
        return Err(Superseded);
      }
      slot := Some(Entry(Active, g, port));
      return Ok(());
    }

    /** Start of `handle_complete_pairing`. */
    method BeginComplete(reqPort: nat) returns (r: Result<nat, SlotError>)
      requires Valid()
      modifies this
      ensures Valid() && view == Step(old(view), TakeActive(reqPort))
      ensures r.Ok? <==> old(slot).Some? && old(slot).value.kind == Active
                         && (reqPort == 0 || reqPort == old(slot).value.port)
      ensures r.Ok? ==> slot == None && r.value == old(slot).value.generation
      ensures r.Ok? ==> old(view).PhaseOf(r.value) == InSlot(Active) && view.PhaseOf(r.value) == Finishing
      ensures r.Err? ==> view == old(view) && r.error == Refusal(old(slot), Active)
    {
      StepKeepsInv(view, TakeActive(reqPort));
      if slot.None? {
        return Err(NoSession);
      } else if slot.value.kind == Pending {
        return Err(StillPending);
      } else if reqPort != 0 && reqPort != slot.value.port {
        return Err(PortMismatch);
      }
      var g := slot.value.generation;
      view := Step(view, TakeActive(reqPort));
      slot := None;
      return Ok(g);
    }

    /** `handle_complete_pairing` fails before the server is stored. */
    method FinishFailed(g: nat)
      requires Valid() && view.PhaseOf(g) == Finishing
      modifies this`view
      ensures Valid() && view == Step(old(view), FinishFails(g)) && view.PhaseOf(g) == Dropped
    {
      StepKeepsInv(view, FinishFails(g));
      view := Step(view, FinishFails(g));
    }

    /** `handle_complete_pairing` has stored the server. */
    method FinishSucceeded(g: nat)
      requires Valid() && view.PhaseOf(g) == Finishing
      modifies this`view
      ensures Valid() && view == Step(old(view), FinishSucceeds(g)) && view.PhaseOf(g) == Persisted
      ensures view.persisted == old(view).persisted + [g]
    {
      StepKeepsInv(view, FinishSucceeds(g));
      view := Step(view, FinishSucceeds(g));
    }
  }
}
