/**
 The daemon's files (the CSK and the paired servers), the keys the phones hold and
 the snapshot authentication uses, through every single step of the complete,
 remove and rotate requests and of the reload each of them ends with. Requests run
 as separate tasks, so their steps interleave in any way.
 */
module PairingStore {
  import opened Prelude

  type Users = seq<string>

  /** A key file can be missing, hold a key, or be left truncated by a failed write. */
  datatype KeyFile = NoKey | Key(k: Bytes) | TornKey

  datatype ServersFile = NoServers | Servers(m: map<string, Users>) | TornServers

  datatype Disk = Disk(key: KeyFile, servers: ServersFile)

  /**
   How `write_secure_file` can end: written; refused before anything is touched;
   written, but the permission or owner change after it failed; or cut short.
   */
  datatype Write = Written | Refused | WrittenButFailed | CutShort

  function WriteKey(d: Disk, k: Bytes, w: Write): Disk {
    match w
    case Refused => d
    case CutShort => d.(key := TornKey)
    case _ => d.(key := Key(k))
  }

  function WriteServers(d: Disk, m: map<string, Users>, w: Write): Disk {
    match w
    case Refused => d
    case CutShort => d.(servers := TornServers)
    case _ => d.(servers := Servers(m))
  }

  /** `load_paired_servers`; a missing file is an empty map. */
  function LoadServers(d: Disk, readable: bool): Option<map<string, Users>> {
    match d.servers
    case NoServers => Some(map[])
    case Servers(m) => if readable then Some(m) else None
    case TornServers => None
  }

  /** `clear_paired_servers`. */
  function ClearServers(d: Disk, removed: bool): Disk {
    if d.servers.NoServers? || !removed then d else d.(servers := NoServers)
  }

  /** Another user of the pairing is left. */
  predicate OthersLeft(users: Users, user: string) {
    exists u | u in users :: u != user
  }

  /** `retain` with everybody but one user. */
  function Without(users: Users, user: string): Users {
    if users == [] then []
    else Without(Front(users), user) + if Last(users) == user then [] else [Last(users)]
  }

  /** The user is gone, everybody else is there, nobody is new, and somebody is left exactly if there was another. */
  lemma {:induction false} WithoutKeepsTheOthers(users: Users, user: string)
    ensures forall u :: u in Without(users, user) <==> u in users && u != user
    ensures Without(users, user) != [] <==> OthersLeft(users, user)
  {
    if users != [] {
      WithoutKeepsTheOthers(Front(users), user);
      assert users == Front(users) + [Last(users)];
    }
    var r := Without(users, user);
    if r != [] {
      assert r[0] in r;
    }
  }

  /** It takes lists apart and decides user by user, so it keeps everybody else in order. */
  lemma {:induction false} WithoutDistributes(xs: Users, ys: Users, user: string)
    ensures Without(xs + ys, user) == Without(xs, user) + Without(ys, user)
  {
    if ys == [] {
      assert xs + ys == xs;
    } else {
      assert Front(xs + ys) == xs + Front(ys);
      WithoutDistributes(xs, Front(ys), user);
    }
  }

  lemma WithoutOne(x: string, user: string)
    ensures Without([x], user) == if x == user then [] else [x]
  {
    assert Front([x]) == [];
  }

  /** The map `remove_user_from_pairing` writes back: no entry is left without users. */
  function RemoveUser(m: map<string, Users>, id: string, user: string): map<string, Users> {
    if id !in m then m
    else if Without(m[id], user) == [] then m - {id}
    else m[id := Without(m[id], user)]
  }

  // ---- Requests in flight ---------------------------------------------------

  /** What authentication requests use between reloads. */
  datatype Snapshot = Snapshot(csk: Option<Bytes>, servers: map<string, Users>)

  /** The change a request makes to the stored servers. */
  datatype Edit = Insert(id: string, user: string) | Drop(id: string, user: string)

  function Apply(m: map<string, Users>, edit: Edit): map<string, Users> {
    match edit
    case Insert(id, user) => m[id := [user]]
    case Drop(id, user) => RemoveUser(m, id, user)
  }

  /**
   An edit touches its own entry only. An addition leaves the new user alone in it. A
   removal leaves exactly the other users, in their order, and no entry if there are
   none.
   */
  lemma EditsTouchOneEntry(m: map<string, Users>, edit: Edit)
    ensures var r := Apply(m, edit);
            && (forall id | id != edit.id :: (id in r <==> id in m) && (id in m ==> r[id] == m[id]))
            && (edit.Insert? ==> edit.id in r && r[edit.id] == [edit.user])
            && (edit.Drop? ==> (edit.id in r <==> edit.id in m && OthersLeft(m[edit.id], edit.user)))
            && (edit.Drop? && edit.id in r ==> r[edit.id] == Without(m[edit.id], edit.user))
  {
    if edit.id in m {
      WithoutKeepsTheOthers(m[edit.id], edit.user);
    }
  }

  /** How far a request is, and what it holds there. */
  datatype Job =
    | Absent
    | Arrived
    | HasKey(id: string, user: string, k: Bytes, generated: bool)       // complete: CSK loaded or generated
    | PhonePaired(id: string, user: string, k: Bytes, generated: bool)  // complete: finish_pairing returned Ok
    | KeySaved(id: string, user: string)                                // complete: save_csk returned Ok
    | Loaded(edit: Edit, m: map<string, Users>)                         // complete or remove: map to write back
    | Cleared(k: Bytes)                                                 // rotate: about to save the new key
    | Answered(ok: bool)                                                // the handler returned, the reload comes
    | KeyRead(csk: Option<Bytes>)                                       // reload: one file read
    | Reloaded(next: Snapshot)                                          // reload: both read, about to install

  /** A request keeps the snapshot it found when it arrived as its fallback. */
  datatype Request = Request(fallback: Snapshot, job: Job)

  /**
   `phones` is what each phone keeps as this desktop's CSK. The last three fields are
   what the statements compare with: the key last put on
   disk, the key of the last rotation that reported success, and the servers as the
   edits would have left them one after the other.
   */
  datatype Store = Store(
    disk: Disk,
    phones: map<string, Bytes>,
    inFlight: map<nat, Request>,
    snapshot: Snapshot,
    key: Option<Bytes>,
    rotated: Option<Bytes>,
    serial: map<string, Users>)
  {
    function JobOf(t: nat): Job {
      if t in inFlight then inFlight[t].job else Absent
    }

    function Go(t: nat, job: Job): Store
      requires t in inFlight
    {
      this.(inFlight := inFlight[t := inFlight[t].(job := job)])
    }
  }

  datatype Event =
    | Arrive(t: nat)
    | BeginComplete(t: nat, id: string, user: string, readable: bool, newKey: Bytes)
    | PairPhone(t: nat, kept: bool, acknowledged: bool)
    | SaveKey(t: nat, w: Write)
    | LoadForAdd(t: nat, readable: bool)
    | BeginRemove(t: nat, id: string, user: string, readable: bool)
    | SaveServers(t: nat, w: Write)
    | BeginRotate(t: nat, removed: bool, newKey: Bytes)
    | SaveRotated(t: nat, w: Write)
    | SaveConfig(t: nat, saved: bool)       // a mutating request that touches neither file
    | ReadKey(t: nat, readable: bool)
    | ReadServers(t: nat, readable: bool)
    | Install(t: nat)
    | PhoneForgets(id: string)              // the phone's user removes this desktop

  /**
   The app's side of a completion. It acknowledges the key it decrypted before it
   keeps anything, and may fail in between; a phone that already lists this desktop
   updates its entry and keeps the key it had.
   */
  function KeepKey(s: Store, id: string, k: Bytes, kept: bool): Store {
    if kept && id !in s.phones then s.(phones := s.phones[id := k]) else s
  }

  /** Putting a key on disk, or tearing the file, makes it the store's key. */
  function PutKey(s: Store, k: Bytes, w: Write): Store {
    s.(disk := WriteKey(s.disk, k, w), key := if w.Refused? then s.key else Some(k))
  }

  /** The map goes to disk; the edit counts as made when it got there. */
  function PutServers(s: Store, edit: Edit, m: map<string, Users>, w: Write): Store {
    s.(disk := WriteServers(s.disk, m, w),
       serial := if w.Refused? || w.CutShort? then s.serial else Apply(s.serial, edit))
  }

  function Clear(s: Store, removed: bool): Store {
    s.(disk := ClearServers(s.disk, removed), serial := if removed then map[] else s.serial)
  }

  function PutRotated(s: Store, k: Bytes, w: Write): Store {
    PutKey(s, k, w).(rotated := match w case Written => Some(k) case Refused => s.rotated case _ => None)
  }

  /** The code's steps; a step that is not enabled changes nothing. */
  function Step(s: Store, e: Event): Store {
    match e
    case Arrive(t) =>
      if !s.JobOf(t).Absent? then s else s.(inFlight := s.inFlight[t := Request(s.snapshot, Arrived)])
    case BeginComplete(t, id, user, readable, newKey) =>
      if !s.JobOf(t).Arrived? then s
      else
        (match s.disk.key
         case NoKey => s.Go(t, HasKey(id, user, newKey, true))
         case Key(k) => s.Go(t, if readable then HasKey(id, user, k, false) else Answered(false))
         case TornKey => s.Go(t, Answered(false)))
    case PairPhone(t, kept, acknowledged) =>
      if !s.JobOf(t).HasKey? then s
      else
        var HasKey(id, user, k, generated) := s.JobOf(t);
        KeepKey(s, id, k, kept).Go(t, if acknowledged then PhonePaired(id, user, k, generated) else Answered(false))
    case SaveKey(t, w) =>
      if !s.JobOf(t).PhonePaired? then s
      else
        var PhonePaired(id, user, k, _) := s.JobOf(t);
        PutKey(s, k, w).Go(t, if w.Written? then KeySaved(id, user) else Answered(false))
    case LoadForAdd(t, readable) =>
      if !s.JobOf(t).KeySaved? then s else Load(s, t, Insert(s.JobOf(t).id, s.JobOf(t).user), readable)
    case BeginRemove(t, id, user, readable) =>
      if !s.JobOf(t).Arrived? then s else Load(s, t, Drop(id, user), readable)
    case SaveServers(t, w) =>
      if !s.JobOf(t).Loaded? then s else PutServers(s, s.JobOf(t).edit, s.JobOf(t).m, w).Go(t, Answered(w.Written?))
    case BeginRotate(t, removed, newKey) =>
      if !s.JobOf(t).Arrived? then s else Clear(s, removed).Go(t, Cleared(newKey))
    case SaveRotated(t, w) =>
      if !s.JobOf(t).Cleared? then s else PutRotated(s, s.JobOf(t).k, w).Go(t, Answered(w.Written?))
    case SaveConfig(t, saved) =>
      if !s.JobOf(t).Arrived? then s else s.Go(t, Answered(saved))
    case ReadKey(t, readable) =>
      if !s.JobOf(t).Answered? then s
      else s.Go(t, KeyRead(if s.disk.key.Key? && readable then Some(s.disk.key.k) else s.inFlight[t].fallback.csk))
    case ReadServers(t, readable) =>
      if !s.JobOf(t).KeyRead? then s
      else
        var m := LoadServers(s.disk, readable);
        s.Go(t, Reloaded(Snapshot(s.JobOf(t).csk, if m.Some? then m.value else s.inFlight[t].fallback.servers)))
    case Install(t) =>
      if !s.JobOf(t).Reloaded? then s else s.(snapshot := s.JobOf(t).next, inFlight := s.inFlight - {t})
    case PhoneForgets(id) => s.(phones := s.phones - {id})
  }

  /** The load of a load-change-save; nothing to drop, or nothing readable, ends the handler. */
  function Load(s: Store, t: nat, edit: Edit, readable: bool): Store
    requires t in s.inFlight
  {
    var m := LoadServers(s.disk, readable);
    if m.None? then s.Go(t, Answered(false))
    else if edit.Drop? && edit.id !in m.value then s.Go(t, Answered(true))
    else s.Go(t, Loaded(edit, Apply(m.value, edit)))
  }

  const EMPTY := Store(Disk(NoKey, NoServers), map[], map[], Snapshot(None, map[]), None, None, map[])

  function Run(es: seq<Event>): Store {
    if es == [] then EMPTY else Step(Run(Front(es)), Last(es))
  }

  // ---- Policies -------------------------------------------------------------

  predicate HoldsKey(j: Job) {
    j.HasKey? || j.PhonePaired?
  }

  predicate Fresh(j: Job) {
    HoldsKey(j) && j.generated
  }

  predicate Adding(j: Job) {
    j.Loaded? && j.edit.Insert?
  }

  predicate Removing(j: Job) {
    j.Loaded? && j.edit.Drop?
  }

  predicate Reloading(j: Job) {
    j.KeyRead? || j.Reloaded?
  }

  /** The request will store, or has loaded to store, an entry for this phone. */
  predicate Counts(j: Job, id: string) {
    match j
    case PhonePaired(i, _, _, _) => i == id
    case KeySaved(i, _) => i == id
    case Loaded(_, m) => id in m
    case _ => false
  }

  ghost predicate AnyFresh(s: Store) {
    exists t: nat :: Fresh(s.JobOf(t))
  }

  ghost predicate AnyHoldsKey(s: Store) {
    exists t: nat :: HoldsKey(s.JobOf(t))
  }

  ghost predicate AnyKeySaved(s: Store) {
    exists t: nat :: s.JobOf(t).KeySaved?
  }

  ghost predicate AnyAdding(s: Store) {
    exists t: nat :: Adding(s.JobOf(t))
  }

  ghost predicate AnyRemoving(s: Store) {
    exists t: nat :: Removing(s.JobOf(t))
  }

  ghost predicate AnyRotating(s: Store) {
    exists t: nat :: s.JobOf(t).Cleared?
  }

  ghost predicate AnyLoaded(s: Store) {
    exists t: nat :: s.JobOf(t).Loaded?
  }

  ghost predicate AnyReloading(s: Store) {
    exists t: nat :: Reloading(s.JobOf(t))
  }

  ghost predicate AnyReloaded(s: Store) {
    exists t: nat :: s.JobOf(t).Reloaded?
  }

  /** The phone is stored, or about to be. */
  ghost predicate CountedOn(s: Store, id: string) {
    (s.disk.servers.Servers? && id in s.disk.servers.m) || exists t: nat :: Counts(s.JobOf(t), id)
  }

  /**
   What may happen beside what. Everything a flag does not name may always happen,
   and any write may fail. The code itself rules nothing out.
   */
  datatype Policy = Policy(
    firstPairingsOverlap: bool,     // a pairing may begin without a key on disk while another one did
    completeDuringRotate: bool,     // a completion may begin between the clear and the save of a rotation
    rotateWhileKeyHeld: bool,       // a rotation may begin while a completion has yet to save its key
    rotateWhileKeySaved: bool,      // ... or has saved it and has yet to load the servers
    rotateWhileAdding: bool,        // ... or has loaded them and has yet to save them
    rotateWhileRemoving: bool,      // a rotation may begin between the load and the save of a removal
    clearMayFail: bool,             // a rotation may fail to clear the servers
    knownPhonePairs: bool,          // a phone may acknowledge a key while it keeps another one for this desktop
    unkeptAcknowledged: bool,       // a phone may acknowledge a key and fail to keep it
    pairedPhoneForgets: bool,       // a phone may forget this desktop while it is counted on
    editsOverlap: bool,             // the servers may be loaded for a change while another change is unsaved
    keyWritesDuringReload: bool,    // the key may be written while a reload has read it
    serverWritesDuringReload: bool) // the servers may be written while a reload has read them

  predicate WritesKey(s: Store, e: Event) {
    match e
    case SaveKey(t, _) => s.JobOf(t).PhonePaired?
    case SaveRotated(t, _) => s.JobOf(t).Cleared?
    case _ => false
  }

  predicate WritesServers(s: Store, e: Event) {
    match e
    case SaveServers(t, _) => s.JobOf(t).Loaded?
    case BeginRotate(t, removed, _) => s.JobOf(t).Arrived? && removed && !s.disk.servers.NoServers?
    case _ => false
  }

  /** What the policy lets the phones do. */
  ghost predicate PhonesAllowed(p: Policy, s: Store, e: Event) {
    match e
    case PairPhone(t, kept, acknowledged) =>
      s.JobOf(t).HasKey? && acknowledged ==>
        var HasKey(id, _, k, _) := s.JobOf(t);
        if id in s.phones then s.phones[id] != k ==> p.knownPhonePairs else !kept ==> p.unkeptAcknowledged
    case PhoneForgets(id) => CountedOn(s, id) ==> p.pairedPhoneForgets
    case _ => true
  }

  /** What it lets the requests do. */
  ghost predicate RequestsAllowed(p: Policy, s: Store, e: Event) {
    && (WritesKey(s, e) && AnyReloading(s) ==> p.keyWritesDuringReload)
    && (WritesServers(s, e) && AnyReloaded(s) ==> p.serverWritesDuringReload)
    && match e
       case BeginComplete(t, _, _, _, _) =>
         s.JobOf(t).Arrived? ==>
           && (s.disk.key.NoKey? && AnyFresh(s) ==> p.firstPairingsOverlap)
           && (AnyRotating(s) ==> p.completeDuringRotate)
       case BeginRotate(t, removed, _) =>
         s.JobOf(t).Arrived? ==>
           && (AnyHoldsKey(s) ==> p.rotateWhileKeyHeld)
           && (AnyKeySaved(s) ==> p.rotateWhileKeySaved)
           && (AnyAdding(s) ==> p.rotateWhileAdding)
           && (AnyRemoving(s) ==> p.rotateWhileRemoving)
           && (!removed && !s.disk.servers.NoServers? ==> p.clearMayFail)
       case LoadForAdd(t, _) => s.JobOf(t).KeySaved? && AnyLoaded(s) ==> p.editsOverlap
       case BeginRemove(t, _, _, _) => s.JobOf(t).Arrived? && AnyLoaded(s) ==> p.editsOverlap
       case _ => true
  }

  /** The policy lets the event happen now; one that is not enabled is always fine. */
  ghost predicate Allowed(p: Policy, s: Store, e: Event) {
    RequestsAllowed(p, s, e) && PhonesAllowed(p, s, e)
  }

  ghost predicate Follows(p: Policy, es: seq<Event>) {
    es == [] || (Follows(p, Front(es)) && Allowed(p, Run(Front(es)), Last(es)))
  }

  /** A step moves its own request only. */
  lemma StepMovesOne(s: Store, e: Event)
    ensures forall u: nat | e.PhoneForgets? || u != e.t :: Step(s, e).JobOf(u) == s.JobOf(u)
  {
  }

  /** One more event. */
  lemma Next(p: Policy, es: seq<Event>, e: Event) returns (r: seq<Event>)
    requires Follows(p, es) && Allowed(p, Run(es), e)
    ensures r == es + [e] && Follows(p, r) && Run(r) == Step(Run(es), e)
    ensures forall u: nat | e.PhoneForgets? || u != e.t :: Run(r).JobOf(u) == Run(es).JobOf(u)
  {
    StepMovesOne(Run(es), e);
    r := es + [e];
    assert Front(r) == es;
  }

  /** A read of a reload finds its file readable. */
  predicate ReadsFine(e: Event) {
    e.ReadKey? || e.ReadServers? ==> e.readable
  }

  ghost predicate ReadsSucceed(es: seq<Event>) {
    forall i | 0 <= i < |es| :: ReadsFine(es[i])
  }

  // ---- Requests one at a time -----------------------------------------------

  /** No request is in flight. */
  ghost predicate AtRest(s: Store) {
    forall t: nat :: s.JobOf(t).Absent?
  }

  /** The event begins no second request, and its clear does not fail. */
  ghost predicate InTurn(s: Store, e: Event) {
    (e.Arrive? ==> AtRest(s)) && (e.BeginRotate? ==> e.removed)
  }

  /** Requests one after the other, reload included, with every clear succeeding. */
  ghost predicate OneAtATime(es: seq<Event>) {
    es == [] || (OneAtATime(Front(es)) && InTurn(Run(Front(es)), Last(es)))
  }

  ghost predicate PhonesFollow(p: Policy, es: seq<Event>) {
    es == [] || (PhonesFollow(p, Front(es)) && PhonesAllowed(p, Run(Front(es)), Last(es)))
  }

  const STRICT := Policy(false, false, false, false, false, false, false, false, false, false, false, false, false)

  /** Nothing overlaps; the phones are as free as in `p`. */
  function Serial(p: Policy): Policy {
    STRICT.(knownPhonePairs := p.knownPhonePairs, unkeptAcknowledged := p.unkeptAcknowledged,
            pairedPhoneForgets := p.pairedPhoneForgets)
  }

  ghost predicate AtMostOne(s: Store) {
    forall t: nat, u: nat :: !s.JobOf(t).Absent? && !s.JobOf(u).Absent? ==> t == u
  }

  /** A request by itself has nothing beside it. */
  lemma NothingBeside(s: Store, t: nat)
    requires AtMostOne(s) && !s.JobOf(t).Absent?
    ensures !HoldsKey(s.JobOf(t)) ==> !AnyFresh(s) && !AnyHoldsKey(s)
    ensures !s.JobOf(t).KeySaved? ==> !AnyKeySaved(s)
    ensures !s.JobOf(t).Loaded? ==> !AnyAdding(s) && !AnyRemoving(s) && !AnyLoaded(s)
    ensures !s.JobOf(t).Cleared? ==> !AnyRotating(s)
    ensures !Reloading(s.JobOf(t)) ==> !AnyReloading(s) && !AnyReloaded(s)
  {
    assert forall u: nat | u != t :: s.JobOf(u).Absent?;
  }

  lemma AloneIsAllowed(p: Policy, s: Store, e: Event)
    requires AtMostOne(s) && InTurn(s, e) && PhonesAllowed(p, s, e)
    ensures RequestsAllowed(Serial(p), s, e) && PhonesAllowed(Serial(p), s, e)
  {
    if !e.PhoneForgets? && !s.JobOf(e.t).Absent? {
      NothingBeside(s, e.t);
    }
  }

  lemma TurnKeepsOne(s: Store, e: Event)
    requires AtMostOne(s) && InTurn(s, e)
    ensures AtMostOne(Step(s, e))
  {
    StepMovesOne(s, e);
    if !e.PhoneForgets? && s.JobOf(e.t).Absent? && !e.Arrive? {
      assert Step(s, e) == s;
    }
  }

  /** One at a time there is nothing to overlap with, so only the phones need permissions. */
  lemma {:induction false} OneAtATimeIsSerial(p: Policy, es: seq<Event>)
    requires OneAtATime(es) && PhonesFollow(p, es)
    ensures Follows(Serial(p), es) && AtMostOne(Run(es))
  {
    if es != [] {
      OneAtATimeIsSerial(p, Front(es));
      AloneIsAllowed(p, Run(Front(es)), Last(es));
      TurnKeepsOne(Run(Front(es)), Last(es));
    }
  }

  /** Nobody is stored without users. */
  ghost predicate Peopled(m: map<string, Users>) {
    forall id | id in m :: m[id] != []
  }

  ghost predicate AllPeopled(s: Store) {
    && (s.disk.servers.Servers? ==> Peopled(s.disk.servers.m))
    && (forall t: nat :: s.JobOf(t).Loaded? ==> Peopled(s.JobOf(t).m))
  }

  lemma LoadKeepsPeopled(s: Store, t: nat, edit: Edit, readable: bool)
    requires AllPeopled(s) && t in s.inFlight
    ensures AllPeopled(Load(s, t, edit, readable))
  {
    var m := LoadServers(s.disk, readable);
    if m.Some? {
      assert Peopled(m.value);
      assert Peopled(Apply(m.value, edit));
    }
    assert forall u: nat | u != t :: Load(s, t, edit, readable).JobOf(u) == s.JobOf(u);
  }

  lemma StepKeepsPeopled(s: Store, e: Event)
    requires AllPeopled(s)
    ensures AllPeopled(Step(s, e))
  {
    match e
    case LoadForAdd(t, readable) =>
      if s.JobOf(t).KeySaved? {
        LoadKeepsPeopled(s, t, Insert(s.JobOf(t).id, s.JobOf(t).user), readable);
      }
    case BeginRemove(t, id, user, readable) =>
      if s.JobOf(t).Arrived? {
        LoadKeepsPeopled(s, t, Drop(id, user), readable);
      }
    case _ => StepMovesOne(s, e);
  }

  /** Whatever the interleaving, no server is ever stored without users. */
  lemma {:induction false} NobodyWithoutUsers(es: seq<Event>)
    ensures AllPeopled(Run(es))
  {
    if es != [] {
      NobodyWithoutUsers(Front(es));
      StepKeepsPeopled(Run(Front(es)), Last(es));
    }
  }

  // ---- What an answer means -------------------------------------------------

  /** The map shows the edit. */
  predicate Made(edit: Edit, m: map<string, Users>) {
    match edit
    case Insert(id, user) => id in m && m[id] == [user]
    case Drop(id, user) => id in m ==> user !in m[id]
  }

  ghost predicate AllMade(s: Store) {
    forall t: nat :: s.JobOf(t).Loaded? ==> Made(s.JobOf(t).edit, s.JobOf(t).m)
  }

  lemma ApplyMakes(m: map<string, Users>, edit: Edit)
    ensures Made(edit, Apply(m, edit))
  {
    if edit.id in m {
      WithoutKeepsTheOthers(m[edit.id], edit.user);
    }
  }

  lemma LoadKeepsMade(s: Store, t: nat, edit: Edit, readable: bool)
    requires AllMade(s) && t in s.inFlight
    ensures AllMade(Load(s, t, edit, readable))
  {
    var m := LoadServers(s.disk, readable);
    if m.Some? {
      ApplyMakes(m.value, edit);
    }
    assert forall u: nat | u != t :: Load(s, t, edit, readable).JobOf(u) == s.JobOf(u);
  }

  lemma StepKeepsMade(s: Store, e: Event)
    requires AllMade(s)
    ensures AllMade(Step(s, e))
  {
    match e
    case LoadForAdd(t, readable) =>
      if s.JobOf(t).KeySaved? {
        LoadKeepsMade(s, t, Insert(s.JobOf(t).id, s.JobOf(t).user), readable);
      }
    case BeginRemove(t, id, user, readable) =>
      if s.JobOf(t).Arrived? {
        LoadKeepsMade(s, t, Drop(id, user), readable);
      }
    case _ => StepMovesOne(s, e);
  }

  lemma {:induction false} EveryMapShowsItsEdit(es: seq<Event>)
    ensures AllMade(Run(es))
  {
    if es != [] {
      EveryMapShowsItsEdit(Front(es));
      StepKeepsMade(Run(Front(es)), Last(es));
    }
  }

  /**
   In every run a request that answers success has done what it says: the servers on
   disk show its addition or removal, or there was nothing to remove, or the key on
   disk is the rotation's new one.
   */
  lemma SuccessMeansDone(es: seq<Event>, e: Event)
    requires !e.PhoneForgets? && !Run(es).JobOf(e.t).Answered? && Step(Run(es), e).JobOf(e.t) == Answered(true)
    ensures var s, r := Run(es), Step(Run(es), e);
            match s.JobOf(e.t)
            case Loaded(edit, _) => r.disk.servers.Servers? && Made(edit, r.disk.servers.m)
            case Cleared(k) => r.disk.key == Key(k) && r.rotated == Some(k)
            case Arrived => e.SaveConfig? || (e.BeginRemove? && r.disk == s.disk && Missing(s.disk, e.id))
            case _ => false
  {
    EveryMapShowsItsEdit(es);
  }

  predicate Missing(disk: Disk, id: string) {
    disk.servers.NoServers? || (disk.servers.Servers? && id !in disk.servers.m)
  }

  /** Something went wrong: a file that cannot be read or written, or a phone that does not acknowledge. */
  predicate GoesWrong(s: Store, e: Event) {
    match e
    case BeginComplete(_, _, _, readable, _) => s.disk.key.TornKey? || (s.disk.key.Key? && !readable)
    case PairPhone(_, _, acknowledged) => !acknowledged
    case SaveKey(_, w) => w != Written
    case LoadForAdd(_, readable) => s.disk.servers.TornServers? || (s.disk.servers.Servers? && !readable)
    case BeginRemove(_, _, _, readable) => s.disk.servers.TornServers? || (s.disk.servers.Servers? && !readable)
    case SaveServers(_, w) => w != Written
    case SaveRotated(_, w) => w != Written
    case SaveConfig(_, saved) => !saved
    case _ => false
  }

  /** A request answers an error exactly when one of its steps goes wrong; a failed clear does not count. */
  lemma ErrorIffSomethingWrong(s: Store, e: Event)
    requires !e.PhoneForgets? && Step(s, e) != s && !s.JobOf(e.t).Answered?
    ensures Step(s, e).JobOf(e.t) == Answered(false) <==> GoesWrong(s, e)
  {
  }

  lemma StepLeavesNobodyAbsent(s: Store, e: Event, t: nat)
    requires t in s.inFlight ==> !s.inFlight[t].job.Absent?
    ensures t in Step(s, e).inFlight ==> !Step(s, e).inFlight[t].job.Absent?
  {
  }

  lemma {:induction false} NobodyInFlightIsAbsent(es: seq<Event>, t: nat)
    ensures t in Run(es).inFlight ==> !Run(es).inFlight[t].job.Absent?
  {
    if es != [] {
      NobodyInFlightIsAbsent(Front(es), t);
      StepLeavesNobodyAbsent(Run(Front(es)), Last(es), t);
    }
  }

  /** In every run a request that arrives, under whatever number, leaves those in flight and all else alone. */
  lemma ArrivalsDisturbNobody(es: seq<Event>, t: nat)
    ensures var s, r := Run(es), Step(Run(es), Arrive(t));
            && (forall u | u in s.inFlight :: u in r.inFlight && r.inFlight[u] == s.inFlight[u])
            && r.inFlight.Keys == s.inFlight.Keys + {t}
            && (t !in s.inFlight ==> r.inFlight[t] == Request(s.snapshot, Arrived))
            && r.disk == s.disk && r.snapshot == s.snapshot && r.phones == s.phones
  {
    NobodyInFlightIsAbsent(es, t);
  }

  /** What a write leaves behind, seen by the next load. */
  lemma WriteThenLoad(d: Disk, m: map<string, Users>, k: Bytes, w: Write)
    ensures WriteServers(d, m, w).key == d.key && WriteKey(d, k, w).servers == d.servers
    ensures LoadServers(WriteServers(d, m, w), true)
            == if w.Refused? then LoadServers(d, true) else if w.CutShort? then None else Some(m)
    ensures WriteKey(d, k, w).key == if w.Refused? then d.key else if w.CutShort? then TornKey else Key(k)
  {
  }

  /** A reload that can read neither file puts back what its request found on arrival. */
  lemma UnreadableReloadChangesNothing(s: Store, t: nat)
    requires s.JobOf(t).Answered? && !s.disk.servers.NoServers?
    ensures Step(Step(Step(s, ReadKey(t, false)), ReadServers(t, false)), Install(t)).snapshot == s.inFlight[t].fallback
  {
  }

  // ---- The configuration manager --------------------------------------------

  datatype ConfigError = ConfigError

  /** `ClientConfigManager`'s operations on its files. */
  class ConfigManager {
    var disk: Disk

    constructor ()
      ensures disk == Disk(NoKey, NoServers)
    {
      disk := Disk(NoKey, NoServers);
    }

    /** `rotate_csk`: the outcome of the clear is not looked at. */
    method RotateCsk(removed: bool, newKey: Bytes, w: Write) returns (r: Result<Bytes, ConfigError>)
      modifies this
      ensures disk.servers == if removed then NoServers else old(disk).servers
      ensures disk.key == match w case Refused => old(disk).key case CutShort => TornKey case _ => Key(newKey)
      ensures r == if w == Written then Ok(newKey) else Err(ConfigError)
    {
      if !disk.servers.NoServers? && removed {
        disk := disk.(servers := NoServers);
      }
      disk := WriteKey(disk, newKey, w);
      return if w.Written? then Ok(newKey) else Err(ConfigError);
    }

    /** `add_paired_server` as complete calls it: the entry is replaced, not extended. */
    method AddPairedServer(id: string, user: string, readable: bool, w: Write) returns (r: Result<(), ConfigError>)
      modifies this
      ensures var m := LoadServers(old(disk), readable);
              disk == if m.None? then old(disk) else WriteServers(old(disk), m.value[id := [user]], w)
      ensures r.Ok? ==> disk.servers.Servers? && id in disk.servers.m && disk.servers.m[id] == [user]
      ensures r.Ok? <==> LoadServers(old(disk), readable).Some? && w.Written?
    {
      var servers := LoadServers(disk, readable);
      if servers.None? {
        return Err(ConfigError);
      }
      disk := WriteServers(disk, servers.value[id := [user]], w);
      return if w.Written? then Ok(()) else Err(ConfigError);
    }

    /** `remove_user_from_pairing`: true when nothing of the pairing is left. */
    method RemoveUserFromPairing(id: string, user: string, readable: bool, w: Write)
      returns (r: Result<bool, ConfigError>)
      modifies this
      ensures var m := LoadServers(old(disk), readable);
              && (r.Ok? <==> m.Some? && (id !in m.value || w == Written))
              && (m.None? || id !in m.value ==> disk == old(disk))
              && (m.Some? && id in m.value && w == Refused ==> disk == old(disk))
              && (m.Some? && id in m.value && w == CutShort ==> disk == Disk(old(disk).key, TornServers))
              && (m.Some? && id in m.value && (w == Written || w == WrittenButFailed) ==>
                    && disk.key == old(disk).key && disk.servers.Servers?
                    && (forall other | other != id ::
                          (other in disk.servers.m <==> other in m.value)
                          && (other in m.value ==> disk.servers.m[other] == m.value[other]))
                    && (id in disk.servers.m <==> OthersLeft(m.value[id], user))
                    && (id in disk.servers.m ==> disk.servers.m[id] == Without(m.value[id], user)))
              && (r.Ok? ==> (r.value <==> !(m.Some? && id in m.value && OthersLeft(m.value[id], user))))
    {
      var servers := LoadServers(disk, readable);
      if servers.None? {
        return Err(ConfigError);
      }
      if id !in servers.value {
        return Ok(true);
      }
      var users := Without(servers.value[id], user);
      WithoutKeepsTheOthers(servers.value[id], user);
      if users == [] {
        disk := WriteServers(disk, servers.value - {id}, w);
        return if w.Written? then Ok(true) else Err(ConfigError);
      }
      disk := WriteServers(disk, servers.value[id := users], w);
      return if w.Written? then Ok(false) else Err(ConfigError);
    }
  }
}
