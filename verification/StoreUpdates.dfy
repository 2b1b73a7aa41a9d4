/**
 When a request that reported success stays done: exactly which overlaps let a
 later save bring back an older key or an older list of servers.
 */
module StoreUpdates {
  import opened Prelude
  import opened PairingStore
  import opened StoreRuns

  // ---- Rotations ------------------------------------------------------------

  /** The key of the last rotation that reported success is the one on disk, unless that file is torn. */
  predicate RotationStands(s: Store) {
    s.rotated.Some? ==> s.disk.key == Key(s.rotated.value) || s.disk.key.TornKey?
  }

  ghost predicate KeepsRotations(p: Policy) {
    forall es | Follows(p, es) :: RotationStands(Run(es))
  }

  ghost predicate KeyInv(s: Store) {
    && RotationStands(s)
    && (forall t: nat :: HoldsKey(s.JobOf(t)) && s.rotated.Some? ==> s.JobOf(t).k == s.rotated.value)
    && (forall t: nat, u: nat :: s.JobOf(t).Cleared? ==> !HoldsKey(s.JobOf(u)))
  }

  lemma CompleteKeepsKeyInv(p: Policy, s: Store, e: Event)
    requires !p.completeDuringRotate && KeyInv(s) && Allowed(p, s, e) && (e.BeginComplete? || e.PairPhone?)
    ensures KeyInv(Step(s, e))
  {
    StepMovesOne(s, e);
    assert Step(s, e).rotated == s.rotated && Step(s, e).disk == s.disk;
  }

  lemma SaveKeyKeepsKeyInv(s: Store, e: Event)
    requires KeyInv(s) && e.SaveKey?
    ensures KeyInv(Step(s, e))
  {
    StepMovesOne(s, e);
  }

  lemma RotateKeepsKeyInv(p: Policy, s: Store, e: Event)
    requires !p.rotateWhileKeyHeld && KeyInv(s) && Allowed(p, s, e)
    requires e.BeginRotate? || e.SaveRotated?
    ensures KeyInv(Step(s, e))
  {
    StepMovesOne(s, e);
  }

  lemma EditKeepsKeyInv(s: Store, e: Event)
    requires KeyInv(s) && (e.LoadForAdd? || e.BeginRemove? || e.SaveServers?)
    ensures KeyInv(Step(s, e))
  {
    StepMovesOne(s, e);
    var r := Step(s, e);
    assert r.disk.key == s.disk.key && r.rotated == s.rotated;
    assert r == s || r.JobOf(e.t).Loaded? || r.JobOf(e.t).Answered?;
  }

  lemma ReloadKeepsKeyInv(s: Store, e: Event)
    requires KeyInv(s) && (e.Arrive? || e.SaveConfig? || e.ReadKey? || e.ReadServers? || e.Install? || e.PhoneForgets?)
    ensures KeyInv(Step(s, e))
  {
    StepMovesOne(s, e);
  }

  lemma {:induction false} RunKeepsKeyInv(p: Policy, es: seq<Event>)
    requires !p.completeDuringRotate && !p.rotateWhileKeyHeld && Follows(p, es)
    ensures KeyInv(Run(es))
  {
    if es != [] {
      var s, e := Run(Front(es)), Last(es);
      RunKeepsKeyInv(p, Front(es));
      if e.BeginComplete? || e.PairPhone? {
        CompleteKeepsKeyInv(p, s, e);
      } else if e.SaveKey? {
        SaveKeyKeepsKeyInv(s, e);
      } else if e.BeginRotate? || e.SaveRotated? {
        RotateKeepsKeyInv(p, s, e);
      } else if e.LoadForAdd? || e.BeginRemove? || e.SaveServers? {
        EditKeepsKeyInv(s, e);
      } else {
        ReloadKeepsKeyInv(s, e);
      }
    }
  }

  /**
   A rotation that reported success can be undone by a completion that saves the
   older key it had loaded. That cannot happen if and only if no completion begins
   between the clear and the save of a rotation and no rotation begins while a
   completion has yet to save its key.
   */
  lemma RotationsStandIff(p: Policy)
    ensures KeepsRotations(p) <==> !p.completeDuringRotate && !p.rotateWhileKeyHeld
  {
    if p.completeDuringRotate || p.rotateWhileKeyHeld {
      var c := CompletionUndoesRotation(p);
      assert K1[0] != K2[0];
      var es :| Plays(p, es, c);
      assert !RotationStands(Run(es));
    } else {
      forall es | Follows(p, es) ensures RotationStands(Run(es)) {
        RunKeepsKeyInv(p, es);
      }
    }
  }

  // ---- Additions and removals -----------------------------------------------

  /** The stored servers are what the edits and clears make one after the other. */
  predicate EditsStand(s: Store) {
    s.disk.servers.TornServers? || LoadServers(s.disk, true) == Some(s.serial)
  }

  ghost predicate KeepsEdits(p: Policy) {
    forall es | Follows(p, es) :: EditsStand(Run(es))
  }

  predicate EditsAlone(p: Policy) {
    !p.editsOverlap && !p.rotateWhileAdding && !p.rotateWhileRemoving
  }

  ghost predicate EditInv(s: Store) {
    && EditsStand(s)
    && (forall t: nat :: s.JobOf(t).Loaded? ==>
          !s.disk.servers.TornServers? && s.JobOf(t).m == Apply(s.serial, s.JobOf(t).edit))
    && (forall t: nat, u: nat :: s.JobOf(t).Loaded? && s.JobOf(u).Loaded? ==> t == u)
  }

  lemma LoadKeepsEditInv(s: Store, t: nat, edit: Edit, readable: bool)
    requires EditInv(s) && t in s.inFlight && !AnyLoaded(s)
    ensures EditInv(Load(s, t, edit, readable))
  {
    assert forall u: nat | u != t :: Load(s, t, edit, readable).JobOf(u) == s.JobOf(u);
  }

  lemma SaveKeepsEditInv(s: Store, e: Event)
    requires EditInv(s) && e.SaveServers?
    ensures EditInv(Step(s, e))
  {
    StepMovesOne(s, e);
  }

  lemma RotateKeepsEditInv(p: Policy, s: Store, e: Event)
    requires EditsAlone(p) && EditInv(s) && Allowed(p, s, e) && e.BeginRotate?
    ensures EditInv(Step(s, e))
  {
    StepMovesOne(s, e);
    if s.JobOf(e.t).Arrived? {
      assert forall u: nat :: !s.JobOf(u).Loaded?;
    }
  }

  lemma KeyStepsKeepEditInv(s: Store, e: Event)
    requires EditInv(s) && (e.BeginComplete? || e.PairPhone? || e.SaveKey? || e.SaveRotated?)
    ensures EditInv(Step(s, e))
  {
    StepMovesOne(s, e);
  }

  lemma ReloadKeepsEditInv(s: Store, e: Event)
    requires EditInv(s) && (e.Arrive? || e.SaveConfig? || e.ReadKey? || e.ReadServers? || e.Install? || e.PhoneForgets?)
    ensures EditInv(Step(s, e))
  {
    StepMovesOne(s, e);
  }

  lemma StepKeepsEditInv(p: Policy, s: Store, e: Event)
    requires EditsAlone(p) && EditInv(s) && Allowed(p, s, e)
    ensures EditInv(Step(s, e))
  {
    match e
    case LoadForAdd(t, readable) =>
      if s.JobOf(t).KeySaved? {
        LoadKeepsEditInv(s, t, Insert(s.JobOf(t).id, s.JobOf(t).user), readable);
      }
    case BeginRemove(t, id, user, readable) =>
      if s.JobOf(t).Arrived? {
        LoadKeepsEditInv(s, t, Drop(id, user), readable);
      }
    case SaveServers(_, _) => SaveKeepsEditInv(s, e);
    case BeginRotate(_, _, _) => RotateKeepsEditInv(p, s, e);
    case _ =>
      if e.BeginComplete? || e.PairPhone? || e.SaveKey? || e.SaveRotated? {
        KeyStepsKeepEditInv(s, e);
      } else {
        ReloadKeepsEditInv(s, e);
      }
  }

  lemma {:induction false} RunKeepsEditInv(p: Policy, es: seq<Event>)
    requires EditsAlone(p) && Follows(p, es)
    ensures EditInv(Run(es))
  {
    if es != [] {
      RunKeepsEditInv(p, Front(es));
      StepKeepsEditInv(p, Run(Front(es)), Last(es));
    }
  }

  /**
   A removal, an addition or a clear that was made can be lost, because a map loaded
   before it is saved after it. That cannot happen if and only if no load for a
   change and no rotation begins while another change is loaded and unsaved.
   */
  lemma EditsStandIff(p: Policy)
    ensures KeepsEdits(p) <==> EditsAlone(p)
  {
    if EditsAlone(p) {
      forall es | Follows(p, es) ensures EditsStand(Run(es)) {
        RunKeepsEditInv(p, es);
      }
    } else {
      var c: Scene;
      if p.editsOverlap {
        c := CompletionUndoesRemoval(p);
        assert "a" in AB && "a" !in B;
      } else if p.rotateWhileAdding {
        c := RotateWhileAdding(p);
        assert "a" in AB && "a" !in B;
      } else {
        c := RotateWhileRemoving(p);
        assert "a" in A;
      }
      var es :| Plays(p, es, c);
      assert !EditsStand(Run(es));
    }
  }
}
