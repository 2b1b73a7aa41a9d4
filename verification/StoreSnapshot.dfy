/**
 When the snapshot authentication uses agrees with the files: every mutating
 request ends by reading both files and installing what it read, but other requests
 may write in between.
 */
module StoreSnapshot {
  import opened Prelude
  import opened PairingStore
  import opened StoreRuns
  import StoreCoherence

  /** What a reload that can read its file takes for the key; a torn file says nothing. */
  predicate KeyAgrees(disk: Disk, csk: Option<Bytes>) {
    match disk.key
    case NoKey => csk == None
    case Key(k) => csk == Some(k)
    case TornKey => true
  }

  predicate Agrees(disk: Disk, snapshot: Snapshot) {
    KeyAgrees(disk, snapshot.csk) && (disk.servers.TornServers? || LoadServers(disk, true) == Some(snapshot.servers))
  }

  /** In every run whose reloads can read the files, each install leaves the snapshot equal to them. */
  ghost predicate InstallsAgree(p: Policy) {
    forall es, t: nat | Follows(p, es) && ReadsSucceed(es) && Run(es).JobOf(t).Reloaded? ::
      AgreesAfterInstall(Run(es), t)
  }

  predicate AgreesAfterInstall(s: Store, t: nat) {
    var r := Step(s, Install(t)); Agrees(r.disk, r.snapshot)
  }

  predicate ReloadsAlone(p: Policy) {
    !p.keyWritesDuringReload && !p.serverWritesDuringReload
  }

  ghost predicate Inv(s: Store) {
    && (s.disk.key.NoKey? ==> s.snapshot.csk == None)
    && (s.disk.key.NoKey? ==> forall t | t in s.inFlight :: s.inFlight[t].fallback.csk == None)
    && (forall t: nat :: s.JobOf(t).KeyRead? ==> KeyAgrees(s.disk, s.JobOf(t).csk))
    && (forall t: nat :: s.JobOf(t).Reloaded? ==> Agrees(s.disk, s.JobOf(t).next))
    && (AtRest(s) ==> Agrees(s.disk, s.snapshot))
  }

  /** A key is written while nobody has read it; its own request has its reload still to come. */
  lemma KeyWriteKeepsInv(p: Policy, s: Store, e: Event)
    requires ReloadsAlone(p) && Inv(s) && Allowed(p, s, e) && (e.SaveKey? || e.SaveRotated?)
    ensures Inv(Step(s, e))
  {
    StepMovesOne(s, e);
    if WritesKey(s, e) {
      assert forall u: nat :: !Reloading(s.JobOf(u));
      assert !Step(s, e).JobOf(e.t).Absent?;
    }
  }

  /** The servers are written while nobody has read them; a key that was read stays read. */
  lemma ServerWriteKeepsInv(p: Policy, s: Store, e: Event)
    requires ReloadsAlone(p) && Inv(s) && Allowed(p, s, e) && (e.SaveServers? || e.BeginRotate?)
    ensures Inv(Step(s, e))
  {
    StepMovesOne(s, e);
    if WritesServers(s, e) {
      assert forall u: nat :: !s.JobOf(u).Reloaded?;
    }
    assert Step(s, e) == s || !Step(s, e).JobOf(e.t).Absent?;
  }

  lemma ReadKeepsInv(s: Store, e: Event)
    requires Inv(s) && ReadsFine(e) && (e.ReadKey? || e.ReadServers? || e.Install?)
    ensures Inv(Step(s, e))
  {
    StepMovesOne(s, e);
    assert Step(s, e) == s || e.Install? || !Step(s, e).JobOf(e.t).Absent?;
    assert Step(s, e).disk == s.disk;
  }

  /** An arriving request takes the snapshot it finds as its fallback. */
  lemma ArriveKeepsInv(s: Store, e: Event)
    requires Inv(s) && (e.Arrive? || e.SaveConfig?)
    ensures Inv(Step(s, e))
  {
    StepMovesOne(s, e);
    assert Step(s, e) == s || !Step(s, e).JobOf(e.t).Absent?;
  }

  lemma ForgetKeepsInv(s: Store, e: Event)
    requires Inv(s) && e.PhoneForgets?
    ensures Inv(Step(s, e))
  {
    assert forall u: nat :: Step(s, e).JobOf(u) == s.JobOf(u);
  }

  /** A request goes on without touching a file or reloading. */
  lemma MoveKeepsInv(s: Store, r: Store, t: nat)
    requires Inv(s) && r.disk == s.disk && r.snapshot == s.snapshot
    requires r.inFlight.Keys == s.inFlight.Keys
    requires forall u | u in s.inFlight :: r.inFlight[u].fallback == s.inFlight[u].fallback
    requires forall u: nat | u != t :: r.JobOf(u) == s.JobOf(u)
    requires !Reloading(r.JobOf(t)) && !r.JobOf(t).Absent?
    ensures Inv(r)
  {
  }

  lemma CompleteKeepsInv(s: Store, e: Event)
    requires Inv(s) && (e.BeginComplete? || e.PairPhone?)
    ensures Inv(Step(s, e))
  {
    StepMovesOne(s, e);
    if Step(s, e) != s {
      MoveKeepsInv(s, Step(s, e), e.t);
    }
  }

  lemma LoadKeepsInv(s: Store, e: Event)
    requires Inv(s) && (e.LoadForAdd? || e.BeginRemove?)
    ensures Inv(Step(s, e))
  {
    StepMovesOne(s, e);
    if Step(s, e) != s {
      MoveKeepsInv(s, Step(s, e), e.t);
    }
  }

  lemma {:induction false} RunKeepsInv(p: Policy, es: seq<Event>)
    requires ReloadsAlone(p) && Follows(p, es) && ReadsSucceed(es)
    ensures Inv(Run(es))
  {
    if es != [] {
      var s, e := Run(Front(es)), Last(es);
      RunKeepsInv(p, Front(es));
      if e.SaveKey? || e.SaveRotated? {
        KeyWriteKeepsInv(p, s, e);
      } else if e.SaveServers? || e.BeginRotate? {
        ServerWriteKeepsInv(p, s, e);
      } else if e.ReadKey? || e.ReadServers? || e.Install? {
        ReadKeepsInv(s, e);
      } else if e.PhoneForgets? {
        ForgetKeepsInv(s, e);
      } else if e.Arrive? || e.SaveConfig? {
        ArriveKeepsInv(s, e);
      } else if e.BeginComplete? || e.PairPhone? {
        CompleteKeepsInv(s, e);
      } else {
        LoadKeepsInv(s, e);
      }
    }
  }

  lemma SceneInstalls(c: Scene, s: Store)
    requires c.Shows(s) && c.j0.Reloaded?
    ensures s.JobOf(0).Reloaded? && (AgreesAfterInstall(s, 0) <==> Agrees(c.disk, c.j0.next))
  {
    assert s.JobOf(0) == c.j0;
  }

  lemma StaleReloadDisagrees(p: Policy)
    requires !ReloadsAlone(p)
    ensures !InstallsAgree(p)
  {
    var c: Scene;
    if p.serverWritesDuringReload {
      c := StaleServers(p);
      assert "a" in A;
    } else {
      c := StaleKey(p);
      assert K1[0] != K2[0];
    }
    assert !Agrees(c.disk, c.j0.next);
    var es :| Plays(p, es, c);
    SceneInstalls(c, Run(es));
  }

  /**
   After every mutating request the snapshot equals the files, in every run whose
   reloads can read them, if and only if the key is not written while a reload has
   read it and the servers are not written while a reload has read them.
   */
  lemma InstallsAgreeIff(p: Policy)
    ensures InstallsAgree(p) <==> ReloadsAlone(p)
  {
    if ReloadsAlone(p) {
      forall es, t: nat | Follows(p, es) && ReadsSucceed(es) && Run(es).JobOf(t).Reloaded?
        ensures AgreesAfterInstall(Run(es), t)
      {
        RunKeepsInv(p, es);
      }
    } else {
      StaleReloadDisagrees(p);
    }
  }

  /** A removed phone is back in the snapshot with no request left that would correct it. */
  lemma StaleInstall(p: Policy) returns (es: seq<Event>)
    requires p.serverWritesDuringReload
    ensures Follows(p, es) && ReadsSucceed(es) && AtRest(Run(es))
    ensures Run(es).disk.servers == Servers(map[]) && Run(es).snapshot == Snapshot(Some(K1), A)
  {
    var c := StaleServers(p);
    var before :| Plays(p, before, c);
    assert Run(before).JobOf(0) == c.j0;
    es := Next(p, before, Install(0));
  }

  /**
   Whenever no request is in flight, the snapshot equals the files; and if the policy
   is careful as well, every phone in it holds the key the daemon will decrypt with.
   */
  lemma AtRestSnapshotIsDisk(p: Policy, es: seq<Event>)
    requires ReloadsAlone(p) && Follows(p, es) && ReadsSucceed(es) && AtRest(Run(es))
    ensures Agrees(Run(es).disk, Run(es).snapshot)
    ensures StoreCoherence.Careful(p) && Run(es).disk.key.Key? && !Run(es).disk.servers.TornServers? ==>
              forall id | id in Run(es).snapshot.servers ::
                id in Run(es).phones && Run(es).snapshot.csk == Some(Run(es).phones[id])
  {
    RunKeepsInv(p, es);
    if StoreCoherence.Careful(p) {
      StoreCoherence.RunIsCoherent(p, es);
    }
  }
}
