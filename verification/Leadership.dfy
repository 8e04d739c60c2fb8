/**
 N control-plane replicas over one store, as steps. Each step is one backend
 method or one registry step around it; the tick thread and the mutation
 threads of a replica interleave freely between steps.

 A step that is not enabled leaves the world as it is, so a run is any list of
 steps at all, and a theorem about runs is a theorem about every list.
 */
module Leadership {
  import opened Wrappers
  import opened RegistryStore

  /** One document in memory: as loaded from version `base`, plus the replica's own mutations since. */
  datatype Image = Image(base: nat, loaded: Doc, own: Doc)
  {
    function Contents(): Doc { loaded + own }
  }

  /** One document's flush lock: free, held over a captured snapshot, or held until a failed persist is undone. */
  datatype Flush = Idle | Captured(image: Image) | Unrestored

  /** Where the tick thread stands between two backend calls. */
  datatype Race = Standing | LockWon | Reloaded | MustResign | PolledAt(sum: nat)

  datatype Replica = Replica(backend: Backend, mem: Four<Image>, flush: Four<Flush>, rollbackFailed: bool,
                             race: Race, lastVersion: Option<nat>)

  datatype Action =
    | Mutate(key: Key, m: Mutation)
    | Capture(key: Key)
    | PersistCaptured(key: Key, reply: Reply, unlock: Reply)
    | Restore(reply: Reply, decodes: bool)
    | Undo(at: nat)
    | RaceForLock(probe: Reply, connects: bool, reply: Reply)
    | Reload(reply: Reply, decodes: bool)
    | Confirm
    | GiveUp(unlock: Reply)
    | CheckLeadership(probe: Reply)
    | Poll(reply: Reply)

  /** Some job was started and neither ended nor failed since. */
  predicate Unfinished(doc: Doc) {
    exists i :: 0 <= i < |doc| && Running(doc, i)
  }

  predicate Running(doc: Doc, i: nat)
    requires i < |doc|
  {
    doc[i].StartJob? && forall j :: i < j < |doc| ==> doc[j] != EndJob(doc[i].id) && !doc[j].FailUnfinished?
  }

  /** What a load changes in memory by itself: unfinished jobs are marked failed. */
  function OnLoad(k: Key, doc: Doc): Doc {
    if k == Jobs && Unfinished(doc) then [FailUnfinished] else []
  }

  function ImageOf(k: Key, row: Row): Image { Image(row.version, row.doc, OnLoad(k, row.doc)) }

  function Images(rows: Four<Row>): Four<Image> {
    Four(ImageOf(Registry, rows.registry), ImageOf(Activity, rows.activity),
         ImageOf(Sessions, rows.sessions), ImageOf(Jobs, rows.jobs))
  }

  lemma MarkedJobsAreFinished(doc: Doc)
    ensures !Unfinished(doc + [FailUnfinished])
  {
    var all := doc + [FailUnfinished];
    forall i | 0 <= i < |all| ensures !Running(all, i) {
      if i < |doc| { assert all[|doc|].FailUnfinished?; }
    }
  }

  datatype JobStatus = NoSuchJob | InProgress | Done | JobFailed

  /** How the jobs document reads for one job: its changes in order, the last one that concerns it deciding. */
  function StatusOf(doc: Doc, id: nat): JobStatus {
    if doc == [] then NoSuchJob
    else
      var before := StatusOf(doc[..|doc| - 1], id);
      match doc[|doc| - 1]
      case StartJob(j) => if j == id then InProgress else before
      case EndJob(j) => if j == id then Done else before
      case FailUnfinished => if before.InProgress? then JobFailed else before
      case Edit(_) => before
  }

  lemma {:induction false} InProgressIff(doc: Doc, id: nat)
    ensures StatusOf(doc, id).InProgress? <==> exists i :: 0 <= i < |doc| && doc[i] == StartJob(id) && Running(doc, i)
    decreases |doc|
  {
    if doc != [] {
      var k := |doc| - 1;
      var before, last := doc[..k], doc[k];
      InProgressIff(before, id);
      forall i | 0 <= i < k && doc[i] == StartJob(id)
        ensures Running(doc, i) <==> Running(before, i) && last != EndJob(id) && !last.FailUnfinished?
      {
        if Running(doc, i) { assert forall j :: i < j < k ==> before[j] == doc[j]; }
        if Running(before, i) { assert forall j :: i < j < k ==> doc[j] == before[j]; }
      }
      if i :| 0 <= i < k && before[i] == StartJob(id) && Running(before, i) { assert doc[i] == StartJob(id); }
      if last == StartJob(id) { assert Running(doc, k); }
      if i :| 0 <= i < |doc| && doc[i] == StartJob(id) && Running(doc, i) {
        if i < k { assert before[i] == StartJob(id); }
      }
    }
  }

  /** A load fails exactly the jobs in progress: a job that ended, or failed before, reads as it did. */
  lemma LoadFailsJobsInProgress(doc: Doc, id: nat)
    ensures StatusOf(doc + OnLoad(Jobs, doc), id) == if StatusOf(doc, id).InProgress? then JobFailed else StatusOf(doc, id)
    ensures OnLoad(Jobs, doc) != [] <==> exists j :: StatusOf(doc, j).InProgress?
  {
    if Unfinished(doc) {
      var i :| 0 <= i < |doc| && Running(doc, i);
      InProgressIff(doc, doc[i].id);
      assert (doc + [FailUnfinished])[..|doc|] == doc;
    } else {
      forall j ensures !StatusOf(doc, j).InProgress? { InProgressIff(doc, j); }
      assert doc + [] == doc;
    }
  }

  function Without(doc: Doc, at: nat): Doc {
    if at < |doc| then doc[..at] + doc[at + 1..] else doc
  }

  /** Memory after its captured image became version `v`; memory a reload has replaced meanwhile is not touched. */
  function Advanced(now: Image, captured: Image, v: nat): Image {
    if now.loaded == captured.loaded && captured.own <= now.own
    then Image(v, captured.Contents(), now.own[|captured.own|..])
    else now
  }

  datatype Acted = Acted(store: Store, replica: Replica)

  function Act(st: Store, rep: Replica, a: Action): Acted {
    match a
    case Mutate(k, m) =>
      var image := rep.mem.At(k);
      Acted(st, rep.(mem := rep.mem.With(k, image.(own := image.own + [m]))))
    case Capture(k) =>
      if !rep.flush.At(k).Idle? then Acted(st, rep)
      else if k == Registry && rep.rollbackFailed then Acted(st, rep.(flush := rep.flush.With(Registry, Unrestored)))
      else Acted(st, rep.(flush := rep.flush.With(k, Captured(rep.mem.At(k)))))
    case PersistCaptured(k, reply, unlock) => ActPersist(st, rep, k, reply, unlock)
    case Restore(reply, decodes) => ActRestore(st, rep, reply, decodes)
    case Undo(at) =>
      if !rep.flush.sessions.Unrestored? then Acted(st, rep)
      else
        var image := rep.mem.sessions;
        Acted(st, rep.(mem := rep.mem.With(Sessions, image.(own := Without(image.own, at))),
                       flush := rep.flush.With(Sessions, Idle)))
    case RaceForLock(probe, connects, reply) =>
      if !rep.race.Standing? || rep.backend.isWriter then Acted(st, rep)
      else
        var out := TryLock(rep.backend, st, probe, connects, reply);
        Acted(out.store, rep.(backend := out.backend, race := if out.result.Won? then LockWon else Standing))
    case Reload(reply, decodes) => ActReload(st, rep, reply, decodes)
    case Confirm =>
      if !rep.race.Reloaded? then Acted(st, rep)
      else Acted(st, rep.(backend := rep.backend.(isWriter := true), race := Standing))
    case GiveUp(unlock) =>
      if !rep.race.MustResign? then Acted(st, rep)
      else
        var out := Resign(rep.backend, st, unlock);
        Acted(out.store, rep.(backend := out.backend, race := Standing))
    case CheckLeadership(probe) =>
      if !rep.race.Standing? then Acted(st, rep)
      else
        var out := Verify(rep.backend, st, probe);
        if out.result then Acted(st, rep.(backend := out.backend))
        else Acted(st, rep.(backend := out.backend, race := MustResign, lastVersion := None))
    case Poll(reply) =>
      if !rep.race.Standing? || rep.backend.isWriter then Acted(st, rep)
      else
        var out := StoreVersion(rep.backend, st, reply);
        Acted(st, rep.(backend := out.backend,
                       race := if out.result.Total? && Some(out.result.sum) != rep.lastVersion
                               then PolledAt(out.result.sum) else Standing))
  }

  /** A failed registry persist is rolled back from the store, a failed revocation by removing its bump; the others are best effort. */
  function ActPersist(st: Store, rep: Replica, k: Key, reply: Reply, unlock: Reply): Acted {
    if !rep.flush.At(k).Captured? then Acted(st, rep)
    else
      var image := rep.flush.At(k).image;
      var out := Persist(rep.backend, st, k, image.Contents(), reply, unlock);
      if out.result.Persisted? then
        Acted(out.store, rep.(backend := out.backend, flush := rep.flush.With(k, Idle),
                              mem := rep.mem.With(k, Advanced(rep.mem.At(k), image, out.backend.versions.At(k)))))
      else
        Acted(out.store, rep.(backend := out.backend,
                              flush := rep.flush.With(k, if k == Registry || k == Sessions then Unrestored else Idle)))
  }

  /** The rollback reads every row and so moves every baseline, but puts only the registry document back. */
  function ActRestore(st: Store, rep: Replica, reply: Reply, decodes: bool): Acted {
    if !rep.flush.registry.Unrestored? then Acted(st, rep)
    else
      var out := Load(rep.backend, st, reply, decodes);
      if out.result.NotLoaded? then
        Acted(st, rep.(backend := out.backend, rollbackFailed := true, flush := rep.flush.With(Registry, Idle)))
      else
        Acted(st, rep.(backend := out.backend, rollbackFailed := false, flush := rep.flush.With(Registry, Idle),
                       mem := rep.mem.With(Registry, ImageOf(Registry, out.result.rows.registry))))
  }

  function ActReload(st: Store, rep: Replica, reply: Reply, decodes: bool): Acted {
    if !rep.race.LockWon? && !rep.race.PolledAt? then Acted(st, rep)
    else
      var out := Load(rep.backend, st, reply, decodes);
      if out.result.NotLoaded? then
        Acted(st, rep.(backend := out.backend, race := if rep.race.LockWon? then MustResign else Standing))
      else
        Acted(st, rep.(backend := out.backend, mem := Images(out.result.rows), rollbackFailed := false,
                       race := if rep.race.LockWon? then Reloaded else Standing,
                       lastVersion := if rep.race.LockWon? then rep.lastVersion else Some(rep.race.sum)))
  }

  // ---------------------------------------------------------------- the world

  type ReplicaId = nat

  datatype World = World(store: Store, replicas: map<ReplicaId, Replica>)

  datatype Step = Open(id: ReplicaId) | On(id: ReplicaId, action: Action) | Dies(session: Session)

  const EMPTY := World(Store(Four([], [], [], []), Free, {}, 0), map[])

  /** A replica opens as a standby: a session of its own, memory and baseline loaded, no lock. */
  function Opened(st: Store): Acted {
    var st1 := st.(live := st.live + {st.issued}, issued := st.issued + 1);
    Acted(st1, Replica(Backend(false, Versions(st), st.issued),
                       Images(Four(Current(st, Registry), Current(st, Activity), Current(st, Sessions), Current(st, Jobs))),
                       Four(Idle, Idle, Idle, Idle), false, Standing, None))
  }

  function Put(w: World, id: ReplicaId, x: Acted): World {
    World(x.store, w.replicas[id := x.replica])
  }

  function Next(w: World, step: Step): World {
    match step
    case Open(id) => if id in w.replicas then w else Put(w, id, Opened(w.store))
    case On(id, a) => if id !in w.replicas then w else Put(w, id, Act(w.store, w.replicas[id], a))
    case Dies(s) => w.(store := SessionDies(w.store, s))
  }

  function After(w: World, steps: seq<Step>): World
    decreases |steps|
  {
    if steps == [] then w else After(Next(w, steps[0]), steps[1..])
  }

  // ------------------------------------------------- what every step preserves

  /** The image was loaded from the version it names. */
  ghost predicate ImageOk(st: Store, k: Key, image: Image) {
    image.base <= |st.log.At(k)| && image.loaded == DocAt(st, k, image.base)
  }

  function Bases(mem: Four<Image>): Four<nat> {
    Four(mem.registry.base, mem.activity.base, mem.sessions.base, mem.jobs.base)
  }

  ghost predicate ReplicaOk(st: Store, rep: Replica) {
    && (forall k: Key :: ImageOk(st, k, rep.mem.At(k)))
    && (forall k: Key :: rep.backend.versions.At(k) <= |st.log.At(k)|)
    && (forall k: Key :: rep.flush.At(k).Captured? ==> ImageOk(st, k, rep.flush.At(k).image))
    && (rep.lastVersion.Some? ==> rep.lastVersion.value <= Sum(Bases(rep.mem)))
    && (rep.race.PolledAt? ==> rep.race.sum <= Sum(Versions(st)))
  }

  ghost predicate WorldOk(w: World) {
    Numbered(w.store) && forall id :: id in w.replicas ==> ReplicaOk(w.store, w.replicas[id])
  }

  lemma VersionsGrow(st: Store, st': Store)
    requires Numbered(st) && Numbered(st') && Grows(st, st')
    ensures Sum(Versions(st)) <= Sum(Versions(st'))
    ensures forall k: Key :: Versions(st).At(k) <= Versions(st').At(k)
  {
    forall k: Key ensures Versions(st).At(k) <= Versions(st').At(k) {
      CurrentIsNumbered(st, k);
      CurrentIsNumbered(st', k);
      assert st.log.At(k) <= st'.log.At(k);
    }
    var a, b := Versions(st), Versions(st');
    assert a.At(Registry) <= b.At(Registry) && a.At(Activity) <= b.At(Activity);
    assert a.At(Sessions) <= b.At(Sessions) && a.At(Jobs) <= b.At(Jobs);
  }

  /** Versions other replicas add do not disturb what this one holds. */
  lemma ReplicaOkIsStable(st: Store, st': Store, rep: Replica)
    requires Numbered(st) && Numbered(st') && Grows(st, st') && ReplicaOk(st, rep)
    ensures ReplicaOk(st', rep)
  {
    VersionsGrow(st, st');
    forall k: Key ensures ImageOk(st', k, rep.mem.At(k)) && rep.backend.versions.At(k) <= |st'.log.At(k)| {
      DocAtIsStable(st, st', k, rep.mem.At(k).base);
      assert st.log.At(k) <= st'.log.At(k);
    }
    forall k: Key | rep.flush.At(k).Captured? ensures ImageOk(st', k, rep.flush.At(k).image) {
      DocAtIsStable(st, st', k, rep.flush.At(k).image.base);
    }
  }

  lemma LoadedImagesAreOk(st: Store)
    requires Numbered(st)
    ensures forall k: Key :: ImageOk(st, k, ImageOf(k, Current(st, k)))
    ensures forall k: Key :: Versions(st).At(k) == |st.log.At(k)|
  {
    forall k: Key ensures ImageOk(st, k, ImageOf(k, Current(st, k))) && Versions(st).At(k) == |st.log.At(k)| {
      CurrentIsNumbered(st, k);
    }
  }

  /** An accepted write puts the captured contents on top of the row its baseline names. */
  lemma PersistEffect(st: Store, rep: Replica, k: Key, reply: Reply, unlock: Reply)
    requires Numbered(st) && ReplicaOk(st, rep) && rep.flush.At(k).Captured?
    ensures var st' := ActPersist(st, rep, k, reply, unlock).store;
            && Numbered(st') && Grows(st, st')
            && (forall o: Key :: o != k ==> st'.log.At(o) == st.log.At(o))
            && (st'.log.At(k) == st.log.At(k)
                || (&& rep.backend.isWriter && Ran(st, rep.backend, reply)
                    && rep.backend.versions.At(k) == |st.log.At(k)|
                    && st'.log.At(k) == st.log.At(k) + [Row(|st.log.At(k)| + 1, rep.flush.At(k).image.Contents())]))
  {
    hide Upsert, Numbered, Grows, ImageOk, DocAt;
    var doc, expected := rep.flush.At(k).image.Contents(), rep.backend.versions.At(k);
    UpsertGrows(st, k, expected, doc);
    NothingGrows(st);
    var st1 := if rep.backend.isWriter && Ran(st, rep.backend, reply) then Upsert(st, k, expected, doc) else st;
    RowsDecide(st, st1, ActPersist(st, rep, k, reply, unlock).store);
  }

  lemma RowsDecide(st: Store, st1: Store, st2: Store)
    requires st2.log == st1.log && Numbered(st1) && Grows(st, st1)
    ensures Numbered(st2) && Grows(st, st2)
  {
  }

  /** After an accepted write the captured document's image names the new version. */
  lemma PersistedImageIsOk(st: Store, st': Store, k: Key, now: Image, captured: Image)
    requires ImageOk(st', k, now) && captured.base <= |st.log.At(k)| && now.base <= |st.log.At(k)|
    requires st'.log.At(k) == st.log.At(k) + [Row(|st.log.At(k)| + 1, captured.Contents())]
    ensures ImageOk(st', k, Advanced(now, captured, |st.log.At(k)| + 1))
    ensures Advanced(now, captured, |st.log.At(k)| + 1).base >= now.base
  {
    assert DocAt(st', k, |st.log.At(k)| + 1) == captured.Contents();
  }

  lemma BaseRises(mem: Four<Image>, k: Key, image: Image)
    requires image.base >= mem.At(k).base
    ensures Sum(Bases(mem.With(k, image))) >= Sum(Bases(mem))
  {
  }

  lemma PersistKeepsReplica(st: Store, rep: Replica, k: Key, reply: Reply, unlock: Reply)
    requires Numbered(st) && ReplicaOk(st, rep) && rep.flush.At(k).Captured?
    ensures ReplicaOk(ActPersist(st, rep, k, reply, unlock).store, ActPersist(st, rep, k, reply, unlock).replica)
  {
    hide Upsert, Numbered, ImageOk, Advanced, Bases, Sum, Versions, Grows;
    var image := rep.flush.At(k).image;
    var x := ActPersist(st, rep, k, reply, unlock);
    var st', rep' := x.store, x.replica;
    assert ImageOk(st, k, image) && ImageOk(st, k, rep.mem.At(k));
    PersistEffect(st, rep, k, reply, unlock);
    ReplicaOkIsStable(st, st', rep);
    forall o: Key | rep'.flush.At(o).Captured? ensures ImageOk(st', o, rep'.flush.At(o).image) {
      assert rep'.flush.At(o) == rep.flush.At(o);
    }
    if Persist(rep.backend, st, k, image.Contents(), reply, unlock).result.Persisted? {
      UpsertGrows(st, k, rep.backend.versions.At(k), image.Contents());
      ImageBases(st, k, image);
      ImageBases(st, k, rep.mem.At(k));
      PersistedImageIsOk(st, st', k, rep.mem.At(k), image);
      BaseRises(rep.mem, k, rep'.mem.At(k));
      forall o: Key ensures ImageOk(st', o, rep'.mem.At(o)) && rep'.backend.versions.At(o) <= |st'.log.At(o)| {
        assert ImageOk(st', o, rep.mem.At(o));
      }
    }
  }

  lemma ImageBases(st: Store, k: Key, image: Image)
    requires ImageOk(st, k, image)
    ensures image.base <= |st.log.At(k)|
  {
  }

  lemma BasesAreReached(st: Store, rep: Replica)
    requires Numbered(st) && ReplicaOk(st, rep)
    ensures forall k: Key :: rep.mem.At(k).base <= Versions(st).At(k)
    ensures Sum(Bases(rep.mem)) <= Sum(Versions(st))
  {
    forall k: Key ensures rep.mem.At(k).base <= Versions(st).At(k) {
      CurrentIsNumbered(st, k);
      assert ImageOk(st, k, rep.mem.At(k));
    }
    var a, b := rep.mem, Versions(st);
    assert a.At(Registry).base <= b.At(Registry) && a.At(Activity).base <= b.At(Activity);
    assert a.At(Sessions).base <= b.At(Sessions) && a.At(Jobs).base <= b.At(Jobs);
  }

  /** Memory and baseline straight from the rows are in order, whatever else the replica holds. */
  lemma FreshlyLoadedIsOk(st: Store, rep: Replica, rep': Replica)
    requires Numbered(st) && ReplicaOk(st, rep)
    requires rep'.mem == Images(Four(Current(st, Registry), Current(st, Activity), Current(st, Sessions), Current(st, Jobs)))
    requires rep'.backend.versions == Versions(st) && rep'.flush == rep.flush && !rep'.race.PolledAt?
    requires rep'.lastVersion == rep.lastVersion || rep'.lastVersion == None
             || (rep.race.PolledAt? && rep'.lastVersion == Some(rep.race.sum))
    ensures ReplicaOk(st, rep')
  {
    LoadedImagesAreOk(st);
    BasesAreReached(st, rep);
    forall k: Key ensures ImageOk(st, k, rep'.mem.At(k)) {
      assert ImageOk(st, k, ImageOf(k, Current(st, k)));
    }
    assert Bases(rep'.mem) == Versions(st);
  }

  lemma ReloadKeepsReplica(st: Store, rep: Replica, reply: Reply, decodes: bool)
    requires Numbered(st) && ReplicaOk(st, rep)
    ensures ReplicaOk(st, ActReload(st, rep, reply, decodes).replica)
  {
    var rep' := ActReload(st, rep, reply, decodes).replica;
    if rep.race.LockWon? || rep.race.PolledAt? {
      if Load(rep.backend, st, reply, decodes).result.Rows? {
        FreshlyLoadedIsOk(st, rep, rep');
      } else {
        LoadedImagesAreOk(st);
        assert rep'.mem == rep.mem;
      }
    }
  }

  lemma RestoreKeepsReplica(st: Store, rep: Replica, reply: Reply, decodes: bool)
    requires Numbered(st) && ReplicaOk(st, rep)
    ensures ReplicaOk(st, ActRestore(st, rep, reply, decodes).replica)
  {
    hide ImageOk, Numbered;
    LoadedImagesAreOk(st);
    var rep' := ActRestore(st, rep, reply, decodes).replica;
    assert ImageOk(st, Registry, ImageOf(Registry, Current(st, Registry)));
    assert ImageOk(st, Registry, rep.mem.At(Registry));
    assert Versions(st).At(Registry) == |st.log.At(Registry)|;
    ImageBases(st, Registry, rep.mem.registry);
    forall k: Key ensures ImageOk(st, k, rep'.mem.At(k)) && rep'.backend.versions.At(k) <= |st.log.At(k)| {
      assert ImageOk(st, k, rep.mem.At(k));
    }
    forall k: Key | rep'.flush.At(k).Captured? ensures ImageOk(st, k, rep'.flush.At(k).image) {
      assert rep'.flush.At(k) == rep.flush.At(k);
    }
  }

  predicate Quiet(a: Action) {
    !a.PersistCaptured? && !a.Reload? && !a.Restore? && !a.Mutate? && !a.Undo?
  }

  /** The other actions change neither the rows nor the replica's memory and baseline. */
  lemma QuietActTouches(st: Store, rep: Replica, a: Action)
    requires Quiet(a)
    ensures var x := Act(st, rep, a);
            && x.store.log == st.log && x.replica.mem == rep.mem && x.replica.backend.versions == rep.backend.versions
            && (forall k: Key :: x.replica.flush.At(k).Captured? ==>
                  x.replica.flush.At(k) == rep.flush.At(k) || x.replica.flush.At(k).image == rep.mem.At(k))
            && (x.replica.lastVersion.Some? ==> x.replica.lastVersion == rep.lastVersion)
            && (x.replica.race.PolledAt? ==> x.replica.race == rep.race || x.replica.race.sum == Sum(Versions(st)))
  {
  }

  lemma QuietActKeepsReplica(st: Store, rep: Replica, a: Action)
    requires Quiet(a) && Numbered(st) && ReplicaOk(st, rep)
    ensures var x := Act(st, rep, a);
            Numbered(x.store) && Grows(st, x.store) && ReplicaOk(x.store, x.replica)
  {
    hide Act;
    QuietActTouches(st, rep, a);
    var x := Act(st, rep, a);
    assert Versions(x.store) == Versions(st);
    forall k: Key ensures ImageOk(x.store, k, x.replica.mem.At(k)) && x.replica.backend.versions.At(k) <= |x.store.log.At(k)| {
      assert ImageOk(st, k, rep.mem.At(k));
    }
    forall k: Key | x.replica.flush.At(k).Captured? ensures ImageOk(x.store, k, x.replica.flush.At(k).image) {
      assert ImageOk(st, k, rep.mem.At(k));
    }
  }

  /** Adding or removing a mutation of one's own moves no document to another version. */
  lemma OwnActKeepsReplica(st: Store, rep: Replica, a: Action)
    requires (a.Mutate? || a.Undo?) && Numbered(st) && ReplicaOk(st, rep)
    ensures var x := Act(st, rep, a);
            Numbered(x.store) && Grows(st, x.store) && ReplicaOk(x.store, x.replica)
  {
    hide Numbered;
    NothingGrows(st);
    var x := Act(st, rep, a);
    forall k: Key ensures ImageOk(st, k, x.replica.mem.At(k)) {
      assert ImageOk(st, k, rep.mem.At(k));
    }
    forall k: Key | x.replica.flush.At(k).Captured? ensures ImageOk(st, k, x.replica.flush.At(k).image) {
      assert x.replica.flush.At(k) == rep.flush.At(k);
    }
  }

  lemma ActKeepsReplica(st: Store, rep: Replica, a: Action)
    requires Numbered(st) && ReplicaOk(st, rep)
    ensures var x := Act(st, rep, a);
            Numbered(x.store) && Grows(st, x.store) && ReplicaOk(x.store, x.replica)
  {
    var x := Act(st, rep, a);
    match a
    case PersistCaptured(k, reply, unlock) =>
      NothingGrows(st);
      if rep.flush.At(k).Captured? {
        PersistEffect(st, rep, k, reply, unlock);
        PersistKeepsReplica(st, rep, k, reply, unlock);
      }
    case Reload(reply, decodes) =>
      NothingGrows(st);
      ReloadKeepsReplica(st, rep, reply, decodes);
    case Restore(reply, decodes) =>
      NothingGrows(st);
      RestoreKeepsReplica(st, rep, reply, decodes);
    case Mutate(_, _) => OwnActKeepsReplica(st, rep, a);
    case Undo(_) => OwnActKeepsReplica(st, rep, a);
    case _ => QuietActKeepsReplica(st, rep, a);
  }

  /** A replica that has just opened holds the store's rows, at their versions, and is nobody's writer. */
  lemma OpenedHoldsRows(st: Store, k: Key)
    ensures var rep := Opened(st).replica;
            && rep.mem.At(k).loaded == Current(st, k).doc && rep.mem.At(k).base == Current(st, k).version
            && rep.backend.versions.At(k) == Current(st, k).version && !rep.backend.isWriter
            && rep.flush.At(k).Idle? && rep.backend.session in Opened(st).store.live
  {
  }

  /**
   No flush lock is held for ever: after a persist of document `k`, whatever
   became of it, and its rollback or undo where it has one, the next flush of `k`
   can capture.
   */
  lemma FlushIsFreed(st: Store, rep: Replica, k: Key, reply: Reply, unlock: Reply, restore: Reply, decodes: bool, at: nat)
    requires rep.flush.At(k).Captured?
    ensures var x := Act(st, rep, PersistCaptured(k, reply, unlock));
            && (k.Activity? || k.Jobs? ==> x.replica.flush.At(k).Idle?)
            && (k.Registry? ==> Act(x.store, x.replica, Restore(restore, decodes)).replica.flush.At(k).Idle?)
            && (k.Sessions? ==> Act(x.store, x.replica, Undo(at)).replica.flush.At(k).Idle?)
            && forall o: Key :: o != k ==> x.replica.flush.At(o) == rep.flush.At(o)
  {
    hide Persist, Load;
  }

  lemma OpenedIsOk(st: Store)
    requires Numbered(st)
    ensures Numbered(Opened(st).store) && Grows(st, Opened(st).store) && ReplicaOk(Opened(st).store, Opened(st).replica)
  {
    LoadedImagesAreOk(st);
    var x := Opened(st);
    forall k: Key ensures ImageOk(x.store, k, x.replica.mem.At(k)) {
      assert ImageOk(st, k, ImageOf(k, Current(st, k)));
    }
  }

  lemma DeadSessionKeepsRows(st: Store, s: Session)
    requires Numbered(st)
    ensures Numbered(SessionDies(st, s)) && Grows(st, SessionDies(st, s))
  {
  }

  lemma NextKeepsWorld(w: World, step: Step)
    requires WorldOk(w)
    ensures WorldOk(Next(w, step)) && Grows(w.store, Next(w, step).store)
  {
    hide Act, Opened, SessionDies, Numbered, Grows, ReplicaOk;
    var w' := Next(w, step);
    NothingGrows(w.store);
    match step {
      case On(id, a) => if id in w.replicas { ActKeepsReplica(w.store, w.replicas[id], a); }
      case Open(id) => OpenedIsOk(w.store);
      case Dies(s) => DeadSessionKeepsRows(w.store, s);
    }
    forall id | id in w'.replicas ensures ReplicaOk(w'.store, w'.replicas[id]) {
      if id in w.replicas && w'.replicas[id] == w.replicas[id] {
        ReplicaOkIsStable(w.store, w'.store, w.replicas[id]);
      }
    }
  }

  /** Every reachable world keeps the bookkeeping the theorems rest on, and no row ever loses a version. */
  lemma {:induction false} RunKeepsWorld(w: World, steps: seq<Step>)
    requires WorldOk(w)
    ensures WorldOk(After(w, steps)) && Grows(w.store, After(w, steps).store)
    decreases |steps|
  {
    if steps != [] {
      var w1 := Next(w, steps[0]);
      NextKeepsWorld(w, steps[0]);
      RunKeepsWorld(w1, steps[1..]);
      forall k: Key ensures w.store.log.At(k) <= After(w, steps).store.log.At(k) {
        assert w.store.log.At(k) <= w1.store.log.At(k) <= After(w1, steps[1..]).store.log.At(k);
      }
    }
  }

  /** The standby's polled sum only ever rises, by one for each row written. */
  lemma PolledSumRises(w: World, steps: seq<Step>)
    requires WorldOk(w)
    ensures Sum(Versions(w.store)) <= Sum(Versions(After(w, steps).store))
  {
    RunKeepsWorld(w, steps);
    VersionsGrow(w.store, After(w, steps).store);
  }
}
