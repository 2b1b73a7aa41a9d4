/**
 When the store agrees with the phones: exactly which overlaps of requests and which
 phones keep every stored phone usable, as an if-and-only-if over policies.
 */
module StoreCoherence {
  import opened Prelude
  import opened PairingStore
  import opened StoreRuns

  /**
   Each stored server's phone holds exactly the key on disk, unless the key file
   was left torn; without a key file nobody is stored.
   */
  ghost predicate Coherent(disk: Disk, phones: map<string, Bytes>) {
    disk.servers.Servers? && !disk.key.TornKey? ==>
      forall id | id in disk.servers.m :: id in phones && disk.key == Key(phones[id])
  }

  /** Every run the policy lets happen is coherent after each of its steps. */
  ghost predicate KeepsCoherent(p: Policy) {
    forall es | Follows(p, es) :: Coherent(Run(es).disk, Run(es).phones)
  }

  /** No overlap of requests that matters, and clears that succeed. */
  predicate Orderly(p: Policy) {
    && !p.firstPairingsOverlap && !p.completeDuringRotate && !p.rotateWhileKeyHeld && !p.rotateWhileKeySaved
    && !p.rotateWhileAdding && !p.rotateWhileRemoving && !p.clearMayFail
  }

  /** Phones keep what they acknowledge for as long as they are counted on. */
  predicate Reliable(p: Policy) {
    !p.knownPhonePairs && !p.unkeptAcknowledged && !p.pairedPhoneForgets
  }

  predicate Careful(p: Policy) {
    Orderly(p) && Reliable(p)
  }

  // ---- Careful policies keep the store coherent -----------------------------

  /** The phone of every entry holds the store's key. */
  predicate Backed(phones: map<string, Bytes>, key: Option<Bytes>, m: map<string, Users>) {
    forall id | id in m :: key.Some? && id in phones && phones[id] == key.value
  }

  predicate Holds(s: Store, id: string, k: Bytes) {
    id in s.phones && s.phones[id] == k
  }

  predicate JobFits(s: Store, j: Job) {
    match j
    case HasKey(_, _, k, generated) => s.key == if generated then None else Some(k)
    case PhonePaired(id, _, k, generated) => s.key == (if generated then None else Some(k)) && Holds(s, id, k)
    case KeySaved(id, _) => s.key.Some? && Holds(s, id, s.key.value)
    case Loaded(_, m) => Backed(s.phones, s.key, m)
    case _ => true
  }

  /** On the way to the files with a key or a map. */
  predicate Storing(j: Job) {
    HoldsKey(j) || j.KeySaved? || j.Loaded?
  }

  ghost predicate Inv(s: Store) {
    && (s.disk.key.Key? ==> s.key == Some(s.disk.key.k))
    && (s.disk.key.NoKey? <==> s.key == None)
    && (s.disk.servers.Servers? ==> Backed(s.phones, s.key, s.disk.servers.m))
    && (forall t: nat :: JobFits(s, s.JobOf(t)))
    && (forall t: nat, u: nat :: Fresh(s.JobOf(t)) && Fresh(s.JobOf(u)) ==> t == u)
    && (forall t: nat, u: nat :: s.JobOf(t).Cleared? ==> !Storing(s.JobOf(u)))
    && (forall t: nat :: s.JobOf(t).Cleared? ==> s.disk.servers.NoServers?)
  }

  /** A request takes up new work without touching a file or a phone. */
  lemma MoveKeepsInv(s: Store, r: Store, t: nat)
    requires Inv(s)
    requires r.disk == s.disk && r.phones == s.phones && r.key == s.key
    requires forall u: nat | u != t :: r.JobOf(u) == s.JobOf(u)
    requires JobFits(s, r.JobOf(t)) && !r.JobOf(t).Cleared?
    requires Fresh(r.JobOf(t)) ==> Fresh(s.JobOf(t)) || !AnyFresh(s)
    requires Storing(r.JobOf(t)) ==> Storing(s.JobOf(t)) || !AnyRotating(s)
    ensures Inv(r)
  {
    assert forall u: nat :: JobFits(r, r.JobOf(u)) by {
      assert forall u: nat | u != t :: JobFits(s, s.JobOf(u));
    }
  }

  lemma BeginCompleteKeepsInv(p: Policy, s: Store, e: Event)
    requires Careful(p) && Inv(s) && Allowed(p, s, e) && e.BeginComplete?
    ensures Inv(Step(s, e))
  {
    StepMovesOne(s, e);
    if s.JobOf(e.t).Arrived? {
      MoveKeepsInv(s, Step(s, e), e.t);
    }
  }

  /** A phone that did not know this desktop takes a key. */
  lemma NewPhoneKeepsInv(s: Store, id: string, k: Bytes)
    requires Inv(s) && id !in s.phones
    ensures Inv(s.(phones := s.phones[id := k]))
  {
    var r := s.(phones := s.phones[id := k]);
    assert forall u: nat :: r.JobOf(u) == s.JobOf(u);
    forall u: nat ensures JobFits(r, r.JobOf(u)) {
      assert JobFits(s, s.JobOf(u));
    }
  }

  lemma PairPhoneKeepsInv(p: Policy, s: Store, e: Event)
    requires Careful(p) && Inv(s) && Allowed(p, s, e) && e.PairPhone?
    ensures Inv(Step(s, e))
  {
    if s.JobOf(e.t).HasKey? {
      var HasKey(id, _, k, _) := s.JobOf(e.t);
      var r := KeepKey(s, id, k, e.kept);
      if id !in s.phones {
        NewPhoneKeepsInv(s, id, k);
      }
      assert Inv(r) && forall u: nat :: r.JobOf(u) == s.JobOf(u);
      assert JobFits(s, s.JobOf(e.t));
      MoveKeepsInv(r, Step(s, e), e.t);
    }
  }

  lemma ForgetKeepsInv(p: Policy, s: Store, e: Event)
    requires Careful(p) && Inv(s) && Allowed(p, s, e) && e.PhoneForgets?
    ensures Inv(Step(s, e))
  {
    var r := Step(s, e);
    StepMovesOne(s, e);
    forall u: nat ensures JobFits(r, r.JobOf(u)) {
      assert JobFits(s, s.JobOf(u)) && !Counts(s.JobOf(u), e.id);
    }
  }

  lemma SaveKeyKeepsInv(s: Store, e: Event)
    requires Inv(s) && e.SaveKey?
    ensures Inv(Step(s, e))
  {
    StepMovesOne(s, e);
  }

  lemma LoadKeepsInv(s: Store, t: nat, edit: Edit, readable: bool)
    requires Inv(s) && (s.JobOf(t).Arrived? || s.JobOf(t).KeySaved?)
    requires edit.Insert? ==> s.JobOf(t) == KeySaved(edit.id, edit.user)
    ensures Inv(Load(s, t, edit, readable))
  {
    var m := LoadServers(s.disk, readable);
    if m.Some? {
      assert Backed(s.phones, s.key, m.value);
      assert Backed(s.phones, s.key, Apply(m.value, edit)) by {
        assert JobFits(s, s.JobOf(t));
      }
    }
    MoveKeepsInv(s, Load(s, t, edit, readable), t);
  }

  lemma SaveServersKeepsInv(s: Store, e: Event)
    requires Inv(s) && e.SaveServers?
    ensures Inv(Step(s, e))
  {
    StepMovesOne(s, e);
  }

  lemma RotateKeepsInv(p: Policy, s: Store, e: Event)
    requires Careful(p) && Inv(s) && Allowed(p, s, e) && (e.BeginRotate? || e.SaveRotated?)
    ensures Inv(Step(s, e))
  {
    StepMovesOne(s, e);
  }

  lemma ReloadKeepsInv(s: Store, e: Event)
    requires Inv(s) && (e.Arrive? || e.SaveConfig? || e.ReadKey? || e.ReadServers? || e.Install?)
    ensures Inv(Step(s, e))
  {
    StepMovesOne(s, e);
    if Step(s, e) != s {
      MoveKeepsInv(s, Step(s, e), e.t);
    }
  }

  lemma StepKeepsInv(p: Policy, s: Store, e: Event)
    requires Careful(p) && Inv(s) && Allowed(p, s, e)
    ensures Inv(Step(s, e))
  {
    match e
    case BeginComplete(_, _, _, _, _) => BeginCompleteKeepsInv(p, s, e);
    case PairPhone(_, _, _) => PairPhoneKeepsInv(p, s, e);
    case PhoneForgets(_) => ForgetKeepsInv(p, s, e);
    case SaveKey(_, _) => SaveKeyKeepsInv(s, e);
    case LoadForAdd(t, readable) =>
      if s.JobOf(t).KeySaved? {
        LoadKeepsInv(s, t, Insert(s.JobOf(t).id, s.JobOf(t).user), readable);
      }
    case BeginRemove(t, id, user, readable) =>
      if s.JobOf(t).Arrived? {
        LoadKeepsInv(s, t, Drop(id, user), readable);
      }
    case SaveServers(_, _) => SaveServersKeepsInv(s, e);
    case BeginRotate(_, _, _) => RotateKeepsInv(p, s, e);
    case SaveRotated(_, _) => RotateKeepsInv(p, s, e);
    case _ => ReloadKeepsInv(s, e);
  }

  lemma {:induction false} RunKeepsInv(p: Policy, es: seq<Event>)
    requires Careful(p) && Follows(p, es)
    ensures Inv(Run(es))
  {
    if es != [] {
      RunKeepsInv(p, Front(es));
      StepKeepsInv(p, Run(Front(es)), Last(es));
    }
  }

  lemma RunIsCoherent(p: Policy, es: seq<Event>)
    requires Careful(p) && Follows(p, es)
    ensures Coherent(Run(es).disk, Run(es).phones)
  {
    RunKeepsInv(p, es);
  }

  // ---- Every other policy breaks it -----------------------------------------

  /** Some stored phone does not hold the key on disk. */
  ghost predicate Bad(c: Scene) {
    c.disk.servers.Servers? && !c.disk.key.TornKey? && !Coherent(c.disk, c.phones)
  }

  lemma StoredWithOtherKey(c: Scene, id: string)
    requires c.disk.key == Key(K2) && c.disk.servers.Servers? && id in c.disk.servers.m
    requires id in c.phones && c.phones[id] == K1
    ensures Bad(c)
  {
    assert K1[0] != K2[0];
  }

  lemma StoredWithoutKey(c: Scene)
    requires c.disk == Disk(Key(K1), Servers(A)) && c.phones == map[]
    ensures Bad(c)
  {
    assert "a" in A;
  }

  lemma DisorderlyBreaks(p: Policy) returns (c: Scene)
    requires !Orderly(p)
    ensures Reachable(p, c) && Bad(c)
  {
    if p.firstPairingsOverlap {
      c := TwoFirstPairings(p);
      StoredWithOtherKey(c, "a");
    } else if p.completeDuringRotate || p.rotateWhileKeyHeld {
      c := CompleteWhileRotating(p);
      StoredWithOtherKey(c, "b");
    } else if p.rotateWhileKeySaved {
      c := RotateWhileKeySaved(p);
      StoredWithOtherKey(c, "b");
    } else if p.rotateWhileAdding {
      c := RotateWhileAdding(p);
      StoredWithOtherKey(c, "a");
    } else if p.rotateWhileRemoving {
      c := RotateWhileRemoving(p);
      StoredWithOtherKey(c, "a");
    } else {
      c := RotateWithoutClearing(p);
      StoredWithOtherKey(c, "a");
    }
  }

  /** Phones alone can break it, with requests served one at a time. */
  lemma UnreliableBreaks(p: Policy) returns (c: Scene)
    requires !Reliable(p)
    ensures Reachable(p, c) && Bad(c) && c.lone
  {
    if p.knownPhonePairs {
      c := PairedAgainAfterRotation(p);
      StoredWithOtherKey(c, "a");
    } else if p.unkeptAcknowledged {
      c := PairedWithoutKeeping(p);
      StoredWithoutKey(c);
    } else {
      c := PairedAndForgotten(p);
      StoredWithoutKey(c);
    }
  }

  /**
   The store stays coherent in every run if and only if first pairings do not
   overlap, no completion begins during a rotation, no rotation begins while a
   completion or a removal is storing, clears succeed, no phone acknowledges a key
   while it keeps another one or fails to keep it, and none forgets this desktop
   while it is stored. Anything else may overlap, and writes may fail before, after
   or in the middle.
   */
  lemma CoherentIffCareful(p: Policy)
    ensures KeepsCoherent(p) <==> Careful(p)
  {
    if Careful(p) {
      forall es | Follows(p, es) ensures Coherent(Run(es).disk, Run(es).phones) {
        RunIsCoherent(p, es);
      }
    } else {
      var c: Scene;
      if Orderly(p) {
        c := UnreliableBreaks(p);
      } else {
        c := DisorderlyBreaks(p);
      }
      var es :| Plays(p, es, c);
      assert !Coherent(Run(es).disk, Run(es).phones);
    }
  }

  /** Every run of requests one at a time is coherent, with phones as free as in `p`. */
  ghost predicate AloneKeepsCoherent(p: Policy) {
    forall es | OneAtATime(es) && PhonesFollow(p, es) :: Coherent(Run(es).disk, Run(es).phones)
  }

  lemma {:induction false} FollowersPhonesFollow(p: Policy, es: seq<Event>)
    requires Follows(p, es)
    ensures PhonesFollow(p, es)
  {
    if es != [] {
      FollowersPhonesFollow(p, Front(es));
    }
  }

  /**
   Requests served one at a time, with clears that succeed, keep the store coherent
   if and only if the phones keep what they acknowledge. A phone that is paired again
   after a rotation does not.
   */
  lemma AloneCoherentIffReliable(p: Policy)
    ensures AloneKeepsCoherent(p) <==> Reliable(p)
  {
    if Reliable(p) {
      forall es | OneAtATime(es) && PhonesFollow(p, es) ensures Coherent(Run(es).disk, Run(es).phones) {
        OneAtATimeIsSerial(p, es);
        RunIsCoherent(Serial(p), es);
      }
    } else {
      var c := UnreliableBreaks(p);
      var es :| Plays(p, es, c);
      FollowersPhonesFollow(p, es);
      assert !Coherent(Run(es).disk, Run(es).phones);
    }
  }

  /**
   A rotation whose clear fails goes on regardless. From any state a careful run
   leads to, it keeps the store coherent exactly when the clear succeeded, nobody
   was stored, or the new key never became readable on disk.
   */
  lemma RotationWithFailedClear(s: Store, t: nat, removed: bool, newKey: Bytes, w: Write)
    requires Inv(s) && s.JobOf(t).Arrived? && s.key != Some(newKey)
    ensures var r := Step(Step(s, BeginRotate(t, removed, newKey)), SaveRotated(t, w));
            var somebody := s.disk.servers.Servers? && s.disk.servers.m != map[];
            Coherent(r.disk, r.phones) <==> removed || !somebody || w.CutShort? || w.Refused?
  {
    if s.disk.servers.Servers? && s.disk.servers.m != map[] {
      var id :| id in s.disk.servers.m;
      assert s.phones[id] == s.key.value;
    }
  }
}
