/**
 Runs of at most two overlapping requests, told scene by scene. Each one uses a
 single permission of the policy and shows what that permission costs.
 */
module StoreRuns {
  import opened Prelude
  import opened PairingStore

  /**
   Where a run has led when only requests 0 and 1 are at work; `lone` says that they
   were served one at a time and every clear succeeded.
   */
  datatype Scene = Scene(disk: Disk, phones: map<string, Bytes>, snapshot: Snapshot, rotated: Option<Bytes>,
                         serial: map<string, Users>, j0: Job, j1: Job, lone: bool)
  {
    function Job(t: nat): Job {
      if t == 0 then j0 else if t == 1 then j1 else Absent
    }

    function Go(t: nat, job: Job): Scene
      requires t <= 1
    {
      if t == 0 then this.(j0 := job) else this.(j1 := job)
    }

    ghost predicate Shows(s: Store) {
      && s.disk == disk && s.phones == phones && s.snapshot == snapshot && s.rotated == rotated && s.serial == serial
      && forall u: nat :: s.JobOf(u) == Job(u)
    }
  }

  /** The run leads to the scene, and its reloads can read what is there. */
  ghost predicate Plays(p: Policy, es: seq<Event>, c: Scene) {
    Follows(p, es) && ReadsSucceed(es) && (c.lone ==> OneAtATime(es)) && c.Shows(Run(es))
  }

  ghost predicate Reachable(p: Policy, c: Scene) {
    exists es :: Plays(p, es, c)
  }

  /** One event leads from one scene to the next. */
  ghost predicate Leads(p: Policy, c: Scene, e: Event, d: Scene) {
    && ReadsFine(e) && (d.lone ==> c.lone)
    && forall s | c.Shows(s) :: Allowed(p, s, e) && d.Shows(Step(s, e)) && (d.lone ==> InTurn(s, e))
  }

  lemma Happens(p: Policy, es: seq<Event>, e: Event, d: Scene)
    requires Follows(p, es) && ReadsSucceed(es) && Allowed(p, Run(es), e) && ReadsFine(e)
    requires d.lone ==> OneAtATime(es) && InTurn(Run(es), e)
    requires d.Shows(Step(Run(es), e))
    ensures Reachable(p, d)
  {
    var r := Next(p, es, e);
    assert Front(r) == es;
    assert Plays(p, r, d);
  }

  lemma Take(p: Policy, c: Scene, e: Event, d: Scene)
    requires Reachable(p, c) && Leads(p, c, e, d)
    ensures Reachable(p, d)
  {
    var es :| Plays(p, es, c);
    Happens(p, es, e, d);
  }

  lemma Take3(p: Policy, c0: Scene, e0: Event, c1: Scene, e1: Event, c2: Scene, e2: Event, c3: Scene)
    requires Reachable(p, c0) && Leads(p, c0, e0, c1) && Leads(p, c1, e1, c2) && Leads(p, c2, e2, c3)
    ensures Reachable(p, c3)
  {
    Take(p, c0, e0, c1);
    Take(p, c1, e1, c2);
    Take(p, c2, e2, c3);
  }

  /** The completion after its phone has acknowledged. */
  function Met(j: Job): Job
    requires j.HasKey?
  {
    PhonePaired(j.id, j.user, j.k, j.generated)
  }

  // ---- Single steps ---------------------------------------------------------

  lemma Arrives(p: Policy, c: Scene, t: nat) returns (d: Scene)
    requires t <= 1 && c.Job(t).Absent?
    ensures d == c.Go(t, Arrived).(lone := c.lone && c.Job(1 - t).Absent?)
    ensures Leads(p, c, Arrive(t), d)
  {
    d := c.Go(t, Arrived).(lone := c.lone && c.Job(1 - t).Absent?);
    var e := Arrive(t);
    forall s | c.Shows(s) ensures Allowed(p, s, e) && d.Shows(Step(s, e)) && (d.lone ==> InTurn(s, e)) {
      StepMovesOne(s, e);
    }
  }

  /** A completion without a key on disk makes one. */
  lemma BeginsFirst(p: Policy, c: Scene, t: nat, id: string, k: Bytes) returns (d: Scene)
    requires t <= 1 && c.Job(t).Arrived? && c.disk.key.NoKey?
    requires (Fresh(c.Job(1 - t)) ==> p.firstPairingsOverlap) && !c.Job(1 - t).Cleared?
    ensures d == c.Go(t, HasKey(id, "u", k, true))
    ensures Leads(p, c, BeginComplete(t, id, "u", true, k), d)
  {
    d := c.Go(t, HasKey(id, "u", k, true));
    var e := BeginComplete(t, id, "u", true, k);
    forall s | c.Shows(s) ensures Allowed(p, s, e) && d.Shows(Step(s, e)) && (d.lone ==> InTurn(s, e)) {
      StepMovesOne(s, e);
    }
  }

  lemma Begins(p: Policy, c: Scene, t: nat, id: string) returns (d: Scene)
    requires t <= 1 && c.Job(t).Arrived? && c.disk.key.Key?
    requires c.Job(1 - t).Cleared? ==> p.completeDuringRotate
    ensures d == c.Go(t, HasKey(id, "u", c.disk.key.k, false))
    ensures Leads(p, c, BeginComplete(t, id, "u", true, []), d)
  {
    d := c.Go(t, HasKey(id, "u", c.disk.key.k, false));
    var e := BeginComplete(t, id, "u", true, []);
    forall s | c.Shows(s) ensures Allowed(p, s, e) && d.Shows(Step(s, e)) && (d.lone ==> InTurn(s, e)) {
      StepMovesOne(s, e);
    }
  }

  /** A phone that does not know this desktop takes the key and says so. */
  lemma Meets(p: Policy, c: Scene, t: nat) returns (d: Scene)
    requires t <= 1 && c.Job(t).HasKey? && c.Job(t).id !in c.phones
    ensures d == c.Go(t, Met(c.Job(t))).(phones := c.phones[c.Job(t).id := c.Job(t).k])
    ensures Leads(p, c, PairPhone(t, true, true), d)
  {
    d := c.Go(t, Met(c.Job(t))).(phones := c.phones[c.Job(t).id := c.Job(t).k]);
    var e := PairPhone(t, true, true);
    forall s | c.Shows(s) ensures Allowed(p, s, e) && d.Shows(Step(s, e)) && (d.lone ==> InTurn(s, e)) {
      StepMovesOne(s, e);
    }
  }

  /** One that knows it says so and keeps its old key. */
  lemma MeetsKnown(p: Policy, c: Scene, t: nat) returns (d: Scene)
    requires t <= 1 && c.Job(t).HasKey? && c.Job(t).id in c.phones && p.knownPhonePairs
    ensures d == c.Go(t, Met(c.Job(t)))
    ensures Leads(p, c, PairPhone(t, true, true), d)
  {
    d := c.Go(t, Met(c.Job(t)));
    var e := PairPhone(t, true, true);
    forall s | c.Shows(s) ensures Allowed(p, s, e) && d.Shows(Step(s, e)) && (d.lone ==> InTurn(s, e)) {
      StepMovesOne(s, e);
    }
  }

  /** One that fails after the acknowledgement keeps nothing. */
  lemma MeetsUnkept(p: Policy, c: Scene, t: nat) returns (d: Scene)
    requires t <= 1 && c.Job(t).HasKey? && c.Job(t).id !in c.phones && p.unkeptAcknowledged
    ensures d == c.Go(t, Met(c.Job(t)))
    ensures Leads(p, c, PairPhone(t, false, true), d)
  {
    d := c.Go(t, Met(c.Job(t)));
    var e := PairPhone(t, false, true);
    forall s | c.Shows(s) ensures Allowed(p, s, e) && d.Shows(Step(s, e)) && (d.lone ==> InTurn(s, e)) {
      StepMovesOne(s, e);
    }
  }

  lemma SavesKey(p: Policy, c: Scene, t: nat) returns (d: Scene)
    requires t <= 1 && c.Job(t).PhonePaired? && !Reloading(c.Job(1 - t))
    ensures d == c.Go(t, KeySaved(c.Job(t).id, c.Job(t).user)).(disk := Disk(Key(c.Job(t).k), c.disk.servers))
    ensures Leads(p, c, SaveKey(t, Written), d)
  {
    d := c.Go(t, KeySaved(c.Job(t).id, c.Job(t).user)).(disk := Disk(Key(c.Job(t).k), c.disk.servers));
    var e := SaveKey(t, Written);
    forall s | c.Shows(s) ensures Allowed(p, s, e) && d.Shows(Step(s, e)) && (d.lone ==> InTurn(s, e)) {
      StepMovesOne(s, e);
    }
  }

  lemma Loads(p: Policy, c: Scene, t: nat) returns (d: Scene)
    requires t <= 1 && c.Job(t).KeySaved? && !c.disk.servers.TornServers? && !c.Job(1 - t).Loaded?
    ensures d == c.Go(t, Loaded(Insert(c.Job(t).id, c.Job(t).user),
                          LoadServers(c.disk, true).value[c.Job(t).id := [c.Job(t).user]]))
    ensures Leads(p, c, LoadForAdd(t, true), d)
  {
    d := c.Go(t, Loaded(Insert(c.Job(t).id, c.Job(t).user),
                  LoadServers(c.disk, true).value[c.Job(t).id := [c.Job(t).user]]));
    var e := LoadForAdd(t, true);
    forall s | c.Shows(s) ensures Allowed(p, s, e) && d.Shows(Step(s, e)) && (d.lone ==> InTurn(s, e)) {
      StepMovesOne(s, e);
    }
  }

  lemma BeginsRemoval(p: Policy, c: Scene, t: nat, id: string, user: string) returns (d: Scene)
    requires t <= 1 && c.Job(t).Arrived? && c.disk.servers.Servers? && id in c.disk.servers.m
    requires c.Job(1 - t).Loaded? ==> p.editsOverlap
    ensures d == c.Go(t, Loaded(Drop(id, user), RemoveUser(c.disk.servers.m, id, user)))
    ensures Leads(p, c, BeginRemove(t, id, user, true), d)
  {
    d := c.Go(t, Loaded(Drop(id, user), RemoveUser(c.disk.servers.m, id, user)));
    var e := BeginRemove(t, id, user, true);
    forall s | c.Shows(s) ensures Allowed(p, s, e) && d.Shows(Step(s, e)) && (d.lone ==> InTurn(s, e)) {
      StepMovesOne(s, e);
    }
  }

  lemma SavesServers(p: Policy, c: Scene, t: nat) returns (d: Scene)
    requires t <= 1 && c.Job(t).Loaded? && (c.Job(1 - t).Reloaded? ==> p.serverWritesDuringReload)
    ensures d == c.Go(t, Answered(true)).(disk := Disk(c.disk.key, Servers(c.Job(t).m)),
                                   serial := Apply(c.serial, c.Job(t).edit))
    ensures Leads(p, c, SaveServers(t, Written), d)
  {
    d := c.Go(t, Answered(true)).(disk := Disk(c.disk.key, Servers(c.Job(t).m)),
                           serial := Apply(c.serial, c.Job(t).edit));
    var e := SaveServers(t, Written);
    forall s | c.Shows(s) ensures Allowed(p, s, e) && d.Shows(Step(s, e)) && (d.lone ==> InTurn(s, e)) {
      StepMovesOne(s, e);
    }
  }

  lemma BeginsRotation(p: Policy, c: Scene, t: nat, removed: bool, k: Bytes) returns (d: Scene)
    requires t <= 1 && c.Job(t).Arrived? && !c.Job(1 - t).Reloaded?
    requires (HoldsKey(c.Job(1 - t)) ==> p.rotateWhileKeyHeld) && (c.Job(1 - t).KeySaved? ==> p.rotateWhileKeySaved)
    requires (Adding(c.Job(1 - t)) ==> p.rotateWhileAdding) && (Removing(c.Job(1 - t)) ==> p.rotateWhileRemoving)
    requires !removed ==> p.clearMayFail
    ensures d == c.Go(t, Cleared(k)).(disk := ClearServers(c.disk, removed),
                                        serial := if removed then map[] else c.serial,
                                        lone := c.lone && removed)
    ensures Leads(p, c, BeginRotate(t, removed, k), d)
  {
    d := c.Go(t, Cleared(k)).(disk := ClearServers(c.disk, removed),
                                serial := if removed then map[] else c.serial,
                                lone := c.lone && removed);
    var e := BeginRotate(t, removed, k);
    forall s | c.Shows(s) ensures Allowed(p, s, e) && d.Shows(Step(s, e)) && (d.lone ==> InTurn(s, e)) {
      StepMovesOne(s, e);
    }
  }

  lemma SavesRotated(p: Policy, c: Scene, t: nat) returns (d: Scene)
    requires t <= 1 && c.Job(t).Cleared? && (Reloading(c.Job(1 - t)) ==> p.keyWritesDuringReload)
    ensures d == c.Go(t, Answered(true)).(disk := Disk(Key(c.Job(t).k), c.disk.servers), rotated := Some(c.Job(t).k))
    ensures Leads(p, c, SaveRotated(t, Written), d)
  {
    d := c.Go(t, Answered(true)).(disk := Disk(Key(c.Job(t).k), c.disk.servers), rotated := Some(c.Job(t).k));
    var e := SaveRotated(t, Written);
    forall s | c.Shows(s) ensures Allowed(p, s, e) && d.Shows(Step(s, e)) && (d.lone ==> InTurn(s, e)) {
      StepMovesOne(s, e);
    }
  }

  lemma SavesConfig(p: Policy, c: Scene, t: nat) returns (d: Scene)
    requires t <= 1 && c.Job(t).Arrived?
    ensures d == c.Go(t, Answered(true))
    ensures Leads(p, c, SaveConfig(t, true), d)
  {
    d := c.Go(t, Answered(true));
    var e := SaveConfig(t, true);
    forall s | c.Shows(s) ensures Allowed(p, s, e) && d.Shows(Step(s, e)) && (d.lone ==> InTurn(s, e)) {
      StepMovesOne(s, e);
    }
  }

  lemma ReadsKey(p: Policy, c: Scene, t: nat) returns (d: Scene)
    requires t <= 1 && c.Job(t).Answered? && c.disk.key.Key?
    ensures d == c.Go(t, KeyRead(Some(c.disk.key.k)))
    ensures Leads(p, c, ReadKey(t, true), d)
  {
    d := c.Go(t, KeyRead(Some(c.disk.key.k)));
    var e := ReadKey(t, true);
    forall s | c.Shows(s) ensures Allowed(p, s, e) && d.Shows(Step(s, e)) && (d.lone ==> InTurn(s, e)) {
      StepMovesOne(s, e);
    }
  }

  lemma ReadsServers(p: Policy, c: Scene, t: nat) returns (d: Scene)
    requires t <= 1 && c.Job(t).KeyRead? && !c.disk.servers.TornServers?
    ensures d == c.Go(t, Reloaded(Snapshot(c.Job(t).csk, LoadServers(c.disk, true).value)))
    ensures Leads(p, c, ReadServers(t, true), d)
  {
    d := c.Go(t, Reloaded(Snapshot(c.Job(t).csk, LoadServers(c.disk, true).value)));
    var e := ReadServers(t, true);
    forall s | c.Shows(s) ensures Allowed(p, s, e) && d.Shows(Step(s, e)) && (d.lone ==> InTurn(s, e)) {
      StepMovesOne(s, e);
    }
  }

  lemma Installs(p: Policy, c: Scene, t: nat) returns (d: Scene)
    requires t <= 1 && c.Job(t).Reloaded?
    ensures d == c.Go(t, Absent).(snapshot := c.Job(t).next)
    ensures Leads(p, c, Install(t), d)
  {
    d := c.Go(t, Absent).(snapshot := c.Job(t).next);
    var e := Install(t);
    forall s | c.Shows(s) ensures Allowed(p, s, e) && d.Shows(Step(s, e)) && (d.lone ==> InTurn(s, e)) {
      StepMovesOne(s, e);
    }
  }

  lemma Forgets(p: Policy, c: Scene, id: string) returns (d: Scene)
    requires p.pairedPhoneForgets
    ensures d == c.(phones := c.phones - {id})
    ensures Leads(p, c, PhoneForgets(id), d)
  {
    d := c.(phones := c.phones - {id});
    var e := PhoneForgets(id);
    forall s | c.Shows(s) ensures Allowed(p, s, e) && d.Shows(Step(s, e)) && (d.lone ==> InTurn(s, e)) {
      StepMovesOne(s, e);
    }
  }

  // ---- The runs -------------------------------------------------------------

  const K1: Bytes := seq(32, _ => 1)
  const K2: Bytes := seq(32, _ => 2)

  const A: map<string, Users> := map["a" := ["u"]]
  const B: map<string, Users> := map["b" := ["u"]]
  const AB: map<string, Users> := map["a" := ["u"], "b" := ["u"]]

  const START := Scene(Disk(NoKey, NoServers), map[], Snapshot(None, map[]), None, map[], Absent, Absent, true)

  lemma StartIsReachable(p: Policy)
    ensures Reachable(p, START)
  {
    assert Plays(p, [], START);
  }

  /** "a" was paired for "u" with the first key and the daemon is at rest. */
  const ONE_PHONE :=
    Scene(Disk(Key(K1), Servers(A)), map["a" := K1], Snapshot(Some(K1), A), None, A, Absent, Absent, true)

  lemma FirstPhonePaired(p: Policy)
    ensures Reachable(p, ONE_PHONE)
  {
    var c0 := Arrives(p, START, 0);
    var c1 := BeginsFirst(p, c0, 0, "a", K1);
    var c2 := Meets(p, c1, 0);
    var c3 := SavesKey(p, c2, 0);
    var c4 := Loads(p, c3, 0);
    var c5 := SavesServers(p, c4, 0);
    var c6 := ReadsKey(p, c5, 0);
    var c7 := ReadsServers(p, c6, 0);
    var c8 := Installs(p, c7, 0);
    assert c8 == ONE_PHONE;
    StartIsReachable(p);
    Take3(p, START, Arrive(0), c0, BeginComplete(0, "a", "u", true, K1), c1, PairPhone(0, true, true), c2);
    Take3(p, c2, SaveKey(0, Written), c3, LoadForAdd(0, true), c4, SaveServers(0, Written), c5);
    Take3(p, c5, ReadKey(0, true), c6, ReadServers(0, true), c7, Install(0), c8);
  }

  // ---- Phones that do not hold what they acknowledged -----------------------

  /** Then the key was rotated, and the daemon is at rest again. */
  const ROTATED :=
    Scene(Disk(Key(K2), NoServers), map["a" := K1], Snapshot(Some(K2), map[]), Some(K2), map[], Absent, Absent, true)

  lemma KeyRotated(p: Policy)
    ensures Reachable(p, ROTATED)
  {
    var c0 := Arrives(p, ONE_PHONE, 0);
    var c1 := BeginsRotation(p, c0, 0, true, K2);
    var c2 := SavesRotated(p, c1, 0);
    var c3 := ReadsKey(p, c2, 0);
    var c4 := ReadsServers(p, c3, 0);
    var c5 := Installs(p, c4, 0);
    assert c5 == ROTATED;
    FirstPhonePaired(p);
    Take3(p, ONE_PHONE, Arrive(0), c0, BeginRotate(0, true, K2), c1, SaveRotated(0, Written), c2);
    Take3(p, c2, ReadKey(0, true), c3, ReadServers(0, true), c4, Install(0), c5);
  }

  /** Pair, rotate, pair the same phone again: it is stored, and keeps the key from before the rotation. */
  lemma PairedAgainAfterRotation(p: Policy) returns (c: Scene)
    requires p.knownPhonePairs
    ensures Reachable(p, c) && c.lone && c.disk == Disk(Key(K2), Servers(A)) && c.phones == map["a" := K1]
  {
    var c0 := Arrives(p, ROTATED, 0);
    var c1 := Begins(p, c0, 0, "a");
    var c2 := MeetsKnown(p, c1, 0);
    var c3 := SavesKey(p, c2, 0);
    var c4 := Loads(p, c3, 0);
    c := SavesServers(p, c4, 0);
    KeyRotated(p);
    Take3(p, ROTATED, Arrive(0), c0, BeginComplete(0, "a", "u", true, []), c1, PairPhone(0, true, true), c2);
    Take3(p, c2, SaveKey(0, Written), c3, LoadForAdd(0, true), c4, SaveServers(0, Written), c);
  }

  /** The phone acknowledges and fails: it is stored without a key. */
  lemma PairedWithoutKeeping(p: Policy) returns (c: Scene)
    requires p.unkeptAcknowledged
    ensures Reachable(p, c) && c.lone && c.disk == Disk(Key(K1), Servers(A)) && c.phones == map[]
  {
    var c0 := Arrives(p, START, 0);
    var c1 := BeginsFirst(p, c0, 0, "a", K1);
    var c2 := MeetsUnkept(p, c1, 0);
    var c3 := SavesKey(p, c2, 0);
    var c4 := Loads(p, c3, 0);
    c := SavesServers(p, c4, 0);
    StartIsReachable(p);
    Take3(p, START, Arrive(0), c0, BeginComplete(0, "a", "u", true, K1), c1, PairPhone(0, false, true), c2);
    Take3(p, c2, SaveKey(0, Written), c3, LoadForAdd(0, true), c4, SaveServers(0, Written), c);
  }

  lemma PairedAndForgotten(p: Policy) returns (c: Scene)
    requires p.pairedPhoneForgets
    ensures Reachable(p, c) && c.lone && c.disk == Disk(Key(K1), Servers(A)) && c.phones == map[]
  {
    c := Forgets(p, ONE_PHONE, "a");
    FirstPhonePaired(p);
    Take(p, ONE_PHONE, PhoneForgets("a"), c);
  }

  // ---- Two first pairings ---------------------------------------------------

  /** The second of two first pairings overwrites the key of the first. */
  lemma TwoFirstPairings(p: Policy) returns (c: Scene)
    requires p.firstPairingsOverlap
    ensures Reachable(p, c) && c.disk == Disk(Key(K2), Servers(A)) && c.phones == map["a" := K1, "b" := K2]
  {
    var c0 := Arrives(p, START, 0);
    var c1 := Arrives(p, c0, 1);
    var c2 := BeginsFirst(p, c1, 0, "a", K1);
    var c3 := BeginsFirst(p, c2, 1, "b", K2);
    var c4 := Meets(p, c3, 0);
    var c5 := Meets(p, c4, 1);
    var c6 := SavesKey(p, c5, 0);
    var c7 := Loads(p, c6, 0);
    var c8 := SavesServers(p, c7, 0);
    c := SavesKey(p, c8, 1);
    StartIsReachable(p);
    Take3(p, START, Arrive(0), c0, Arrive(1), c1, BeginComplete(0, "a", "u", true, K1), c2);
    Take3(p, c2, BeginComplete(1, "b", "u", true, K2), c3, PairPhone(0, true, true), c4, PairPhone(1, true, true), c5);
    Take3(p, c5, SaveKey(0, Written), c6, LoadForAdd(0, true), c7, SaveServers(0, Written), c8);
    Take(p, c8, SaveKey(1, Written), c);
  }

  // ---- A completion beside a rotation or a removal --------------------------

  const BOTH_ARRIVED := ONE_PHONE.(j0 := Arrived, j1 := Arrived, lone := false)

  /** A completion for a second phone has loaded the key; another request waits beside it. */
  const COMPLETING := BOTH_ARRIVED.(j0 := HasKey("b", "u", K1, false))

  /** The same completion has met its phone and saved the key. */
  const SAVED := BOTH_ARRIVED.(phones := map["a" := K1, "b" := K1], j0 := KeySaved("b", "u"))

  /** It has also loaded the servers. */
  const EDITING := BOTH_ARRIVED.(phones := map["a" := K1, "b" := K1], j0 := Loaded(Insert("b", "u"), AB))

  /** A completion has met its phone while a rotation has cleared the servers. */
  const MET_WHILE_ROTATING :=
    BOTH_ARRIVED.(disk := Disk(Key(K1), NoServers), phones := map["a" := K1, "b" := K1], serial := map[],
                  j0 := PhonePaired("b", "u", K1, false), j1 := Cleared(K2))

  lemma TwoArrive(p: Policy)
    ensures Reachable(p, BOTH_ARRIVED)
  {
    var c0 := Arrives(p, ONE_PHONE, 0);
    var c := Arrives(p, c0, 1);
    assert c == BOTH_ARRIVED;
    FirstPhonePaired(p);
    Take(p, ONE_PHONE, Arrive(0), c0);
    Take(p, c0, Arrive(1), c);
  }

  lemma CompletionBegins(p: Policy)
    ensures Reachable(p, COMPLETING)
  {
    var c := Begins(p, BOTH_ARRIVED, 0, "b");
    assert c == COMPLETING;
    TwoArrive(p);
    Take(p, BOTH_ARRIVED, BeginComplete(0, "b", "u", true, []), c);
  }

  lemma CompletionSaves(p: Policy)
    ensures Reachable(p, SAVED)
  {
    var c0 := Meets(p, COMPLETING, 0);
    var c := SavesKey(p, c0, 0);
    assert c == SAVED;
    CompletionBegins(p);
    Take(p, COMPLETING, PairPhone(0, true, true), c0);
    Take(p, c0, SaveKey(0, Written), c);
  }

  lemma CompletionLoads(p: Policy)
    ensures Reachable(p, EDITING)
  {
    var c := Loads(p, SAVED, 0);
    assert c == EDITING;
    CompletionSaves(p);
    Take(p, SAVED, LoadForAdd(0, true), c);
  }

  /** What a completion loaded before a rotation it saves after it. */
  lemma RotateWhileAdding(p: Policy) returns (c: Scene)
    requires p.rotateWhileAdding
    ensures Reachable(p, c) && c.disk == Disk(Key(K2), Servers(AB)) && c.phones == map["a" := K1, "b" := K1]
    ensures c.serial == B
  {
    var c1 := BeginsRotation(p, EDITING, 1, true, K2);
    var c2 := SavesRotated(p, c1, 1);
    c := SavesServers(p, c2, 0);
    CompletionLoads(p);
    Take3(p, EDITING, BeginRotate(1, true, K2), c1, SaveRotated(1, Written), c2, SaveServers(0, Written), c);
  }

  /** A completion whose key was saved before a rotation adds its phone after it. */
  lemma RotateWhileKeySaved(p: Policy) returns (c: Scene)
    requires p.rotateWhileKeySaved
    ensures Reachable(p, c) && c.disk == Disk(Key(K2), Servers(B)) && c.phones == map["a" := K1, "b" := K1]
  {
    var c1 := BeginsRotation(p, SAVED, 1, true, K2);
    var c2 := SavesRotated(p, c1, 1);
    var c3 := Loads(p, c2, 0);
    c := SavesServers(p, c3, 0);
    CompletionSaves(p);
    Take3(p, SAVED, BeginRotate(1, true, K2), c1, SaveRotated(1, Written), c2, LoadForAdd(0, true), c3);
    Take(p, c3, SaveServers(0, Written), c);
  }

  /** Whichever of the two began first. */
  lemma MeetsWhileRotating(p: Policy)
    requires p.completeDuringRotate || p.rotateWhileKeyHeld
    ensures Reachable(p, MET_WHILE_ROTATING)
  {
    if p.completeDuringRotate {
      var c1 := BeginsRotation(p, BOTH_ARRIVED, 1, true, K2);
      var c2 := Begins(p, c1, 0, "b");
      var c := Meets(p, c2, 0);
      assert c == MET_WHILE_ROTATING;
      TwoArrive(p);
      Take3(p, BOTH_ARRIVED, BeginRotate(1, true, K2), c1, BeginComplete(0, "b", "u", true, []), c2,
            PairPhone(0, true, true), c);
    } else {
      var c1 := BeginsRotation(p, COMPLETING, 1, true, K2);
      var c := Meets(p, c1, 0);
      assert c == MET_WHILE_ROTATING;
      CompletionBegins(p);
      Take(p, COMPLETING, BeginRotate(1, true, K2), c1);
      Take(p, c1, PairPhone(0, true, true), c);
    }
  }

  /** The completion is through before the rotation saves its key. */
  lemma CompleteWhileRotating(p: Policy) returns (c: Scene)
    requires p.completeDuringRotate || p.rotateWhileKeyHeld
    ensures Reachable(p, c) && c.disk == Disk(Key(K2), Servers(B)) && c.phones == map["a" := K1, "b" := K1]
  {
    var c1 := SavesKey(p, MET_WHILE_ROTATING, 0);
    var c2 := Loads(p, c1, 0);
    var c3 := SavesServers(p, c2, 0);
    c := SavesRotated(p, c3, 1);
    MeetsWhileRotating(p);
    Take3(p, MET_WHILE_ROTATING, SaveKey(0, Written), c1, LoadForAdd(0, true), c2, SaveServers(0, Written), c3);
    Take(p, c3, SaveRotated(1, Written), c);
  }

  /** Or it saves the key it had loaded after the rotation has reported success. */
  lemma CompletionUndoesRotation(p: Policy) returns (c: Scene)
    requires p.completeDuringRotate || p.rotateWhileKeyHeld
    ensures Reachable(p, c) && c.rotated == Some(K2) && c.disk.key == Key(K1)
  {
    var c1 := SavesRotated(p, MET_WHILE_ROTATING, 1);
    c := SavesKey(p, c1, 0);
    MeetsWhileRotating(p);
    Take(p, MET_WHILE_ROTATING, SaveRotated(1, Written), c1);
    Take(p, c1, SaveKey(0, Written), c);
  }

  /** A removal saved between the load and the save of a completion is lost. */
  lemma CompletionUndoesRemoval(p: Policy) returns (c: Scene)
    requires p.editsOverlap
    ensures Reachable(p, c) && c.disk.servers == Servers(AB) && c.serial == B
  {
    var c1 := BeginsRemoval(p, EDITING, 1, "a", "u");
    var c2 := SavesServers(p, c1, 1);
    c := SavesServers(p, c2, 0);
    assert Without(["u"], "u") == [];
    CompletionLoads(p);
    Take3(p, EDITING, BeginRemove(1, "a", "u", true), c1, SaveServers(1, Written), c2, SaveServers(0, Written), c);
  }

  // ---- A rotation beside a removal, and one by itself -----------------------

  /** What a removal loaded before a rotation it saves after it. */
  lemma RotateWhileRemoving(p: Policy) returns (c: Scene)
    requires p.rotateWhileRemoving
    ensures Reachable(p, c) && c.disk == Disk(Key(K2), Servers(A)) && c.phones == map["a" := K1]
    ensures c.serial == map[]
  {
    var c1 := BeginsRemoval(p, BOTH_ARRIVED, 0, "a", "v");
    assert RemoveUser(A, "a", "v") == A by {
      assert Without(["u"], "v") == ["u"];
    }
    var c2 := BeginsRotation(p, c1, 1, true, K2);
    var c3 := SavesRotated(p, c2, 1);
    c := SavesServers(p, c3, 0);
    assert c.disk == Disk(Key(K2), Servers(A)) && c.serial == map[];
    TwoArrive(p);
    Take3(p, BOTH_ARRIVED, BeginRemove(0, "a", "v", true), c1, BeginRotate(1, true, K2), c2,
          SaveRotated(1, Written), c3);
    Take(p, c3, SaveServers(0, Written), c);
  }

  lemma RotateWithoutClearing(p: Policy) returns (c: Scene)
    requires p.clearMayFail
    ensures Reachable(p, c) && c.disk == Disk(Key(K2), Servers(A)) && c.phones == map["a" := K1]
  {
    var c1 := BeginsRotation(p, BOTH_ARRIVED, 1, false, K2);
    c := SavesRotated(p, c1, 1);
    TwoArrive(p);
    Take(p, BOTH_ARRIVED, BeginRotate(1, false, K2), c1);
    Take(p, c1, SaveRotated(1, Written), c);
  }

  // ---- Stale reloads --------------------------------------------------------

  /**
   One request has read both files for its reload; a removal then saves, reloads and
   installs. What the first one is about to install brings the removed phone back.
   */
  lemma StaleServers(p: Policy) returns (c: Scene)
    requires p.serverWritesDuringReload
    ensures Reachable(p, c) && c.j1 == Absent && c.disk == Disk(Key(K1), Servers(map[]))
    ensures c.snapshot == Snapshot(Some(K1), map[]) && c.j0 == Reloaded(Snapshot(Some(K1), A))
  {
    var c1 := SavesConfig(p, BOTH_ARRIVED, 0);
    var c2 := ReadsKey(p, c1, 0);
    var c3 := ReadsServers(p, c2, 0);
    var c4 := BeginsRemoval(p, c3, 1, "a", "u");
    assert RemoveUser(A, "a", "u") == map[] by {
      assert Without(["u"], "u") == [];
    }
    var c5 := SavesServers(p, c4, 1);
    var c6 := ReadsKey(p, c5, 1);
    var c7 := ReadsServers(p, c6, 1);
    c := Installs(p, c7, 1);
    TwoArrive(p);
    Take3(p, BOTH_ARRIVED, SaveConfig(0, true), c1, ReadKey(0, true), c2, ReadServers(0, true), c3);
    Take(p, c3, BeginRemove(1, "a", "u", true), c4);
    Take(p, c4, SaveServers(1, Written), c5);
    Take3(p, c5, ReadKey(1, true), c6, ReadServers(1, true), c7, Install(1), c);
  }

  /** One request has read the key; a rotation replaces it before the servers are read. */
  lemma StaleKey(p: Policy) returns (c: Scene)
    requires p.keyWritesDuringReload
    ensures Reachable(p, c) && c.disk == Disk(Key(K2), NoServers) && c.j0 == Reloaded(Snapshot(Some(K1), map[]))
  {
    var c1 := SavesConfig(p, BOTH_ARRIVED, 0);
    var c2 := ReadsKey(p, c1, 0);
    var c3 := BeginsRotation(p, c2, 1, true, K2);
    var c4 := SavesRotated(p, c3, 1);
    c := ReadsServers(p, c4, 0);
    TwoArrive(p);
    Take3(p, BOTH_ARRIVED, SaveConfig(0, true), c1, ReadKey(0, true), c2, BeginRotate(1, true, K2), c3);
    Take(p, c3, SaveRotated(1, Written), c4);
    Take(p, c4, ReadServers(0, true), c);
  }
}
