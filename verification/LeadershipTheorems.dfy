/**
 What holds in every run of the control-plane replicas: no lost update, a
 standby cache that is current whenever its version says so, and one writer.
 */
module LeadershipTheorems {
  import opened Wrappers
  import opened RegistryStore
  import opened Leadership

  // ------------------------------------------------------- no update is lost

  /** The step writes a new version of row `k`. */
  ghost predicate Writes(w: World, step: Step, k: Key) {
    Next(w, step).store.log.At(k) != w.store.log.At(k)
  }

  /** What `id` is about to write to row `k` was captured from the version its baseline names. */
  predicate CapturedFromBaseline(w: World, id: ReplicaId, k: Key) {
    id in w.replicas && w.replicas[id].flush.At(k).Captured?
    && w.replicas[id].flush.At(k).image.base == w.replicas[id].backend.versions.At(k)
  }

  ghost predicate EveryWriteFromBaseline(w: World, steps: seq<Step>, k: Key)
    decreases |steps|
  {
    steps != [] ==>
      && (Writes(w, steps[0], k) ==> steps[0].On? && CapturedFromBaseline(w, steps[0].id, k))
      && EveryWriteFromBaseline(Next(w, steps[0]), steps[1..], k)
  }

  /** Only a persist writes, only by a writer whose baseline is the current version, and it writes what was captured. */
  lemma WriteIsGuarded(w: World, step: Step, k: Key)
    requires WorldOk(w) && Writes(w, step, k)
    ensures step.On? && step.id in w.replicas && step.action.PersistCaptured? && step.action.key == k
    ensures var rep := w.replicas[step.id];
            && rep.flush.At(k).Captured? && rep.backend.isWriter
            && rep.backend.versions.At(k) == |w.store.log.At(k)|
            && rep.backend.session in w.store.live
            && Next(w, step).store.log.At(k)
               == w.store.log.At(k) + [Row(|w.store.log.At(k)| + 1, rep.flush.At(k).image.Contents())]
  {
    if step.On? && step.id in w.replicas && step.action.PersistCaptured? {
      var rep, o := w.replicas[step.id], step.action.key;
      if rep.flush.At(o).Captured? {
        PersistEffect(w.store, rep, o, step.action.reply, step.action.unlock);
      }
    }
  }

  /** The guard alone, with no help from the lock: a write captured from its baseline extends the row it replaces. */
  lemma GuardedWriteExtends(w: World, step: Step, k: Key)
    requires WorldOk(w) && Chain(w.store, k)
    requires Writes(w, step, k) ==> step.On? && CapturedFromBaseline(w, step.id, k)
    ensures Chain(Next(w, step).store, k)
  {
    var w' := Next(w, step);
    if Writes(w, step, k) {
      WriteIsGuarded(w, step, k);
      var image := w.replicas[step.id].flush.At(k).image;
      assert ImageOk(w.store, k, image);
      assert image.loaded == DocAt(w.store, k, |w.store.log.At(k)|);
      ChainExtends(w.store, w'.store, k, Row(|w.store.log.At(k)| + 1, image.Contents()));
    } else {
      forall v: nat | v <= |w.store.log.At(k)| ensures DocAt(w'.store, k, v) == DocAt(w.store, k, v) {}
    }
  }

  lemma {:induction false} GuardedRunKeepsChain(w: World, steps: seq<Step>, k: Key)
    requires WorldOk(w) && Chain(w.store, k) && EveryWriteFromBaseline(w, steps, k)
    ensures Chain(After(w, steps).store, k)
    decreases |steps|
  {
    if steps != [] {
      NextKeepsWorld(w, steps[0]);
      GuardedWriteExtends(w, steps[0], k);
      GuardedRunKeepsChain(Next(w, steps[0]), steps[1..], k);
    }
  }

  /** No reload of a replica lands between its capture of document `k` and the persist of that capture. */
  ghost predicate NoReloadUnderCapture(w: World, steps: seq<Step>, k: Key)
    decreases |steps|
  {
    steps != [] ==>
      && (steps[0].On? && steps[0].action.Reload? && steps[0].id in w.replicas
          ==> !w.replicas[steps[0].id].flush.At(k).Captured?)
      && NoReloadUnderCapture(Next(w, steps[0]), steps[1..], k)
  }

  /** The captured image is the one memory still stands on. */
  ghost predicate CaptureOk(rep: Replica, k: Key) {
    rep.flush.At(k).Captured? ==>
      var now, was := rep.mem.At(k), rep.flush.At(k).image;
      was.base == now.base && was.loaded == now.loaded && was.own <= now.own
  }

  lemma ActKeepsCapture(st: Store, rep: Replica, a: Action, k: Key)
    requires CaptureOk(rep, k) && (a.Reload? ==> !rep.flush.At(k).Captured?)
    ensures CaptureOk(Act(st, rep, a).replica, k)
  {
    hide Persist, Load, TryLock, StoreVersion, Resign, Verify;
  }

  // ------------------------------------------ the registry row, by the guard alone

  /** The registry image and its baseline name the same version whenever a persist could use them. */
  ghost predicate RegistryOk(rep: Replica) {
    && (rep.flush.registry.Captured? ==> !rep.rollbackFailed)
    && (!rep.race.Standing? ==> !rep.backend.isWriter)
    && ((rep.backend.isWriter || rep.race.Reloaded?) && !rep.rollbackFailed && !rep.flush.registry.Unrestored?
        ==> rep.mem.registry.base == rep.backend.versions.registry)
  }

  lemma PersistKeepsRegistryOk(st: Store, rep: Replica, k: Key, reply: Reply, unlock: Reply)
    requires RegistryOk(rep) && CaptureOk(rep, Registry)
    ensures RegistryOk(ActPersist(st, rep, k, reply, unlock).replica)
  {
  }

  lemma ActKeepsRegistryOk(st: Store, rep: Replica, a: Action)
    requires RegistryOk(rep) && CaptureOk(rep, Registry) && (a.Reload? ==> !rep.flush.registry.Captured?)
    ensures RegistryOk(Act(st, rep, a).replica)
  {
    hide ActPersist;
    if a.PersistCaptured? { PersistKeepsRegistryOk(st, rep, a.key, a.reply, a.unlock); }
  }

  lemma {:induction false} RegistryWritesFromBaseline(w: World, steps: seq<Step>)
    requires WorldOk(w) && NoReloadUnderCapture(w, steps, Registry)
    requires forall id :: id in w.replicas ==> CaptureOk(w.replicas[id], Registry) && RegistryOk(w.replicas[id])
    ensures EveryWriteFromBaseline(w, steps, Registry)
    decreases |steps|
  {
    hide Act, RegistryOk;
    if steps != [] {
      var step, w' := steps[0], Next(w, steps[0]);
      NextKeepsWorld(w, step);
      forall id | id in w'.replicas ensures CaptureOk(w'.replicas[id], Registry) && RegistryOk(w'.replicas[id]) {
        if step.On? && step.id == id {
          ActKeepsCapture(w.store, w.replicas[id], step.action, Registry);
          ActKeepsRegistryOk(w.store, w.replicas[id], step.action);
        } else if step.Open? && id == step.id && id !in w.replicas {
          OpenedIsInStep(w.store);
        }
      }
      if Writes(w, step, Registry) {
        WriteIsGuarded(w, step, Registry);
        RegistryWriteFromBaseline(w.replicas[step.id]);
      }
      RegistryWritesFromBaseline(w', steps[1..]);
    }
  }

  lemma OpenedIsInStep(st: Store)
    ensures RegistryOk(Opened(st).replica) && forall k: Key :: CaptureOk(Opened(st).replica, k)
  {
  }

  lemma RegistryWriteFromBaseline(rep: Replica)
    requires RegistryOk(rep) && CaptureOk(rep, Registry) && rep.flush.registry.Captured? && rep.backend.isWriter
    ensures rep.flush.registry.image.base == rep.backend.versions.registry
  {
  }

  /**
   The registry row by the version guard alone. In every run in which no reload
   falls between a registry capture and its persist, every version of the row
   contains every earlier one. The advisory lock plays no part in the proof.
   */
  lemma GuardAloneKeepsRegistry(steps: seq<Step>)
    requires NoReloadUnderCapture(EMPTY, steps, Registry)
    ensures Chain(After(EMPTY, steps).store, Registry)
  {
    RegistryWritesFromBaseline(EMPTY, steps);
    GuardedRunKeepsChain(EMPTY, steps, Registry);
  }

  /**
   Exactly when an accepted persist keeps the updates of others: what has landed
   in the row since the version the snapshot was captured from is what the
   snapshot's own mutations begin with. When they begin with something else, that
   means nothing has landed at all; otherwise the write drops it.
   */
  lemma WriteKeepsOthersIff(w: World, step: Step, k: Key)
    requires WorldOk(w) && Chain(w.store, k) && Writes(w, step, k)
    requires step.On? && step.id in w.replicas && w.replicas[step.id].flush.At(k).Captured?
    ensures var image, row := w.replicas[step.id].flush.At(k).image, Current(w.store, k).doc;
            && image.loaded <= row
            && (Chain(Next(w, step).store, k) <==> row[|image.loaded|..] <= image.own)
            && ((|image.loaded| < |row| && image.own != [] ==> image.own[0] != row[|image.loaded|])
                ==> (Chain(Next(w, step).store, k) <==> image.loaded == row))
  {
    WriteIsGuarded(w, step, k);
    CurrentIsNumbered(w.store, k);
    var image, row := w.replicas[step.id].flush.At(k).image, Current(w.store, k).doc;
    assert ImageOk(w.store, k, image);
    var n := |w.store.log.At(k)|;
    assert row == DocAt(w.store, k, n);
    ChainExtends(w.store, Next(w, step).store, k, Row(n + 1, image.Contents()));
    assert image.loaded <= row by {
      assert DocAt(w.store, k, image.base) <= DocAt(w.store, k, n);
    }
    Overlap(image.loaded, image.own, row);
  }

  lemma Overlap(loaded: Doc, own: Doc, row: Doc)
    requires loaded <= row
    ensures row <= loaded + own <==> row[|loaded|..] <= own
    ensures (|loaded| < |row| && own != [] ==> own[0] != row[|loaded|]) ==> (row[|loaded|..] <= own <==> loaded == row)
  {
    var landed := row[|loaded|..];
    assert row == loaded + landed;
    if row <= loaded + own { assert (loaded + own)[|loaded|..|row|] == landed == own[..|landed|]; }
    if landed <= own { assert loaded + own == row + own[|landed|..]; }
    if landed != [] { assert landed[0] == row[|loaded|]; }
  }

  // ------------------------------------------------------- the standby's cache

  /**
   Whenever the polled version sum equals the version a replica remembers, each
   of its in-memory documents was loaded from exactly the row the store holds
   now; the two are equal if and only if the replica has applied no mutation of
   its own that it has not persisted.
   */
  lemma RememberedVersionMeansCurrent(steps: seq<Step>, id: ReplicaId, k: Key)
    requires id in After(EMPTY, steps).replicas
    requires After(EMPTY, steps).replicas[id].lastVersion == Some(Sum(Versions(After(EMPTY, steps).store)))
    ensures var w := After(EMPTY, steps);
            var image, row := w.replicas[id].mem.At(k), Current(w.store, k);
            && image.base == row.version && image.loaded == row.doc
            && (image.Contents() == row.doc <==> image.own == [])
  {
    hide Next, After;
    RunKeepsWorld(EMPTY, steps);
    var w := After(EMPTY, steps);
    var rep := w.replicas[id];
    BasesAreReached(w.store, rep);
    var a, b := rep.mem, Versions(w.store);
    assert a.At(Registry).base <= b.At(Registry) && a.At(Activity).base <= b.At(Activity);
    assert a.At(Sessions).base <= b.At(Sessions) && a.At(Jobs).base <= b.At(Jobs);
    assert a.At(k).base == b.At(k);
    CurrentIsNumbered(w.store, k);
    assert ImageOk(w.store, k, rep.mem.At(k));
    assert |rep.mem.At(k).Contents()| == |rep.mem.At(k).loaded| + |rep.mem.At(k).own|;
  }

  // ------------------------------------------------------------- one writer

  ghost predicate SessionsOk(w: World) {
    && (forall s :: s in w.store.live ==> s < w.store.issued)
    && (w.store.lock.Held? ==> w.store.lock.owner in w.store.live)
    && (forall id :: id in w.replicas ==> w.replicas[id].backend.session < w.store.issued)
    && (forall i, j :: i in w.replicas && j in w.replicas && i != j
          ==> w.replicas[i].backend.session != w.replicas[j].backend.session)
  }

  /** A replica that is the writer, or is being promoted, and whose session is alive. */
  predicate Leading(st: Store, rep: Replica) {
    (rep.backend.isWriter || rep.race.LockWon? || rep.race.Reloaded?) && rep.backend.session in st.live
  }

  /** Its session holds the lock, and once reloaded its baseline is the store's current versions. */
  ghost predicate LeaderOk(st: Store, rep: Replica) {
    && (!rep.race.Standing? ==> !rep.backend.isWriter)
    && (Leading(st, rep) ==> st.lock.Held? && st.lock.owner == rep.backend.session && st.lock.depth >= 1)
    && (Leading(st, rep) && !rep.race.LockWon? ==> rep.backend.versions == Versions(st))
  }

  ghost predicate LeadersOk(w: World) {
    forall id :: id in w.replicas ==> LeaderOk(w.store, w.replicas[id])
  }

  lemma VersionsAfterWrite(st: Store, st': Store, k: Key)
    requires Numbered(st) && Numbered(st') && |st'.log.At(k)| == |st.log.At(k)| + 1
    requires forall o: Key :: o != k ==> st'.log.At(o) == st.log.At(o)
    ensures Versions(st') == Versions(st).With(k, |st.log.At(k)| + 1)
  {
    var a, b := Versions(st'), Versions(st).With(k, |st.log.At(k)| + 1);
    forall o: Key ensures a.At(o) == b.At(o) {
      CurrentIsNumbered(st', o);
      CurrentIsNumbered(st, o);
    }
    assert a.At(Registry) == b.At(Registry) && a.At(Activity) == b.At(Activity);
    assert a.At(Sessions) == b.At(Sessions) && a.At(Jobs) == b.At(Jobs);
  }

  lemma PersistKeepsLeader(st: Store, rep: Replica, k: Key, reply: Reply, unlock: Reply)
    requires Numbered(st) && ReplicaOk(st, rep) && LeaderOk(st, rep) && rep.flush.At(k).Captured?
    ensures LeaderOk(ActPersist(st, rep, k, reply, unlock).store, ActPersist(st, rep, k, reply, unlock).replica)
    ensures ActPersist(st, rep, k, reply, unlock).store.log != st.log ==> Leading(st, rep)
  {
    var doc := rep.flush.At(k).image.Contents();
    UpsertGrows(st, k, rep.backend.versions.At(k), doc);
    var out := Persist(rep.backend, st, k, doc, reply, unlock);
    if out.result.Persisted? {
      VersionsAfterWrite(st, out.store, k);
    } else {
      assert !out.backend.isWriter && rep.backend.isWriter ==> rep.race.Standing?;
    }
  }

  /** An action never takes the lock from another session, and opens at most one new session. */
  lemma ActKeepsSessions(st: Store, rep: Replica, a: Action)
    requires st.lock.Held? ==> st.lock.owner in st.live && st.lock.owner < st.issued
    requires rep.backend.session < st.issued
    ensures var x := Act(st, rep, a);
            && (x.replica.backend.session == rep.backend.session || x.replica.backend.session == st.issued)
            && st.issued <= x.store.issued && x.replica.backend.session < x.store.issued
            && st.live <= x.store.live <= st.live + {x.replica.backend.session}
            && (st.lock.Held? && st.lock.owner != rep.backend.session ==> x.store.lock == st.lock)
            && (x.store.lock.Held? ==> x.store.lock.owner in x.store.live)
  {
  }

  lemma ActKeepsLeader(st: Store, rep: Replica, a: Action)
    requires Numbered(st) && ReplicaOk(st, rep) && LeaderOk(st, rep)
    requires st.lock.Held? ==> st.lock.owner in st.live && st.lock.owner < st.issued
    ensures LeaderOk(Act(st, rep, a).store, Act(st, rep, a).replica)
    ensures Act(st, rep, a).store.log != st.log ==> Leading(st, rep)
  {
    hide Numbered, ReplicaOk;
    match a
    case PersistCaptured(k, reply, unlock) =>
      if rep.flush.At(k).Captured? { PersistKeepsLeader(st, rep, k, reply, unlock); }
    case _ =>
      assert Act(st, rep, a).store.log == st.log;
  }

  lemma OtherKeepsLeader(st: Store, rep: Replica, a: Action, other: Replica)
    requires Numbered(st) && ReplicaOk(st, rep) && LeaderOk(st, rep) && LeaderOk(st, other)
    requires st.lock.Held? ==> st.lock.owner in st.live && st.lock.owner < st.issued
    requires rep.backend.session < st.issued && other.backend.session < st.issued
    requires other.backend.session != rep.backend.session
    ensures LeaderOk(Act(st, rep, a).store, other)
  {
    ActKeepsSessions(st, rep, a);
    ActKeepsLeader(st, rep, a);
    var st' := Act(st, rep, a).store;
    assert Leading(st', other) ==> Leading(st, other);
    assert Leading(st, other) ==> !Leading(st, rep) && st'.lock == st.lock;
  }

  lemma ActKeepsLeaders(w: World, id: ReplicaId, a: Action)
    requires WorldOk(w) && SessionsOk(w) && LeadersOk(w) && id in w.replicas
    ensures SessionsOk(Next(w, On(id, a))) && LeadersOk(Next(w, On(id, a)))
  {
    hide Act, Numbered, ReplicaOk, LeaderOk;
    var w' := Next(w, On(id, a));
    ActKeepsSessions(w.store, w.replicas[id], a);
    ActKeepsLeader(w.store, w.replicas[id], a);
    forall other | other in w.replicas && other != id ensures LeaderOk(w'.store, w.replicas[other]) {
      OtherKeepsLeader(w.store, w.replicas[id], a, w.replicas[other]);
    }
  }

  lemma NextKeepsLeaders(w: World, step: Step)
    requires WorldOk(w) && SessionsOk(w) && LeadersOk(w)
    ensures SessionsOk(Next(w, step)) && LeadersOk(Next(w, step))
  {
    hide Act, Numbered, ReplicaOk;
    if step.On? && step.id in w.replicas {
      ActKeepsLeaders(w, step.id, step.action);
    }
  }

  lemma {:induction false} RunKeepsLeaders(w: World, steps: seq<Step>)
    requires WorldOk(w) && SessionsOk(w) && LeadersOk(w)
    ensures SessionsOk(After(w, steps)) && LeadersOk(After(w, steps))
    decreases |steps|
  {
    if steps != [] {
      NextKeepsWorld(w, steps[0]);
      NextKeepsLeaders(w, steps[0]);
      RunKeepsLeaders(Next(w, steps[0]), steps[1..]);
    }
  }

  /** In every reachable world at most one confirmed writer has a live session, and that session holds the lock. */
  lemma OneLiveWriter(steps: seq<Step>, i: ReplicaId, j: ReplicaId)
    requires var w := After(EMPTY, steps);
             && i in w.replicas && w.replicas[i].backend.isWriter && w.replicas[i].backend.session in w.store.live
             && j in w.replicas && w.replicas[j].backend.isWriter && w.replicas[j].backend.session in w.store.live
    ensures i == j
    ensures var w := After(EMPTY, steps);
            w.store.lock.Held? && w.store.lock.owner == w.replicas[i].backend.session
  {
    RunKeepsLeaders(EMPTY, steps);
  }

  /** A live writer's baseline is the store's current versions: the guard refuses it only after its session died. */
  lemma LiveWriterIsNeverRefused(steps: seq<Step>, id: ReplicaId, k: Key, doc: Doc, unlock: Reply)
    requires var w := After(EMPTY, steps);
             id in w.replicas && w.replicas[id].backend.isWriter && w.replicas[id].backend.session in w.store.live
    ensures var w := After(EMPTY, steps);
            Persist(w.replicas[id].backend, w.store, k, doc, Answered, unlock).result == Persisted
  {
    RunKeepsWorld(EMPTY, steps);
    RunKeepsLeaders(EMPTY, steps);
    CurrentIsNumbered(After(EMPTY, steps).store, k);
  }

  // ----------------------------------------------------- no update is lost, any row

  /** A replica that leads over a live session stands on the version its baseline names. */
  ghost predicate SyncedOk(st: Store, rep: Replica, k: Key) {
    Leading(st, rep) && !rep.race.LockWon? ==> rep.mem.At(k).base == rep.backend.versions.At(k)
  }

  lemma PersistKeepsSynced(st: Store, rep: Replica, o: Key, reply: Reply, unlock: Reply, k: Key)
    requires LeaderOk(st, rep) && CaptureOk(rep, k) && SyncedOk(st, rep, k)
    ensures SyncedOk(ActPersist(st, rep, o, reply, unlock).store, ActPersist(st, rep, o, reply, unlock).replica, k)
  {
    hide Versions;
  }

  /** A rollback by a leader finds the baseline where it stands, and the registry document at it. */
  lemma RestoreKeepsSynced(st: Store, rep: Replica, reply: Reply, decodes: bool, k: Key)
    requires LeaderOk(st, rep) && SyncedOk(st, rep, k)
    ensures ActRestore(st, rep, reply, decodes).store == st && SyncedOk(st, ActRestore(st, rep, reply, decodes).replica, k)
  {
  }

  lemma ReloadKeepsSynced(st: Store, rep: Replica, reply: Reply, decodes: bool, k: Key)
    requires LeaderOk(st, rep) && SyncedOk(st, rep, k)
    ensures ActReload(st, rep, reply, decodes).store == st && SyncedOk(st, ActReload(st, rep, reply, decodes).replica, k)
  {
  }

  lemma ActKeepsSynced(st: Store, rep: Replica, a: Action, k: Key)
    requires LeaderOk(st, rep) && CaptureOk(rep, k) && SyncedOk(st, rep, k)
    ensures SyncedOk(Act(st, rep, a).store, Act(st, rep, a).replica, k)
  {
    hide ActPersist, ActRestore, ActReload, Versions;
    match a
    case PersistCaptured(o, reply, unlock) => PersistKeepsSynced(st, rep, o, reply, unlock, k);
    case Restore(reply, decodes) => RestoreKeepsSynced(st, rep, reply, decodes, k);
    case Reload(reply, decodes) => ReloadKeepsSynced(st, rep, reply, decodes, k);
    case _ =>
  }

  ghost predicate InStep(w: World, k: Key) {
    forall id :: id in w.replicas ==> CaptureOk(w.replicas[id], k) && SyncedOk(w.store, w.replicas[id], k)
  }

  lemma NextKeepsInStep(w: World, step: Step, k: Key)
    requires WorldOk(w) && SessionsOk(w) && LeadersOk(w) && InStep(w, k)
    requires step.On? && step.action.Reload? && step.id in w.replicas ==> !w.replicas[step.id].flush.At(k).Captured?
    ensures InStep(Next(w, step), k)
  {
    hide Act, LeaderOk, WorldOk;
    var w' := Next(w, step);
    forall id | id in w'.replicas ensures CaptureOk(w'.replicas[id], k) && SyncedOk(w'.store, w'.replicas[id], k) {
      if step.On? && step.id in w.replicas {
        var rep := w.replicas[step.id];
        if id == step.id {
          ActKeepsCapture(w.store, rep, step.action, k);
          ActKeepsSynced(w.store, rep, step.action, k);
        } else {
          ActKeepsSessions(w.store, rep, step.action);
          assert Leading(w'.store, w.replicas[id]) ==> Leading(w.store, w.replicas[id]);
        }
      } else if step.Open? && id == step.id && id !in w.replicas {
        OpenedIsInStep(w.store);
      }
    }
  }

  lemma {:induction false} WritesFromBaseline(w: World, steps: seq<Step>, k: Key)
    requires WorldOk(w) && SessionsOk(w) && LeadersOk(w) && InStep(w, k) && NoReloadUnderCapture(w, steps, k)
    ensures EveryWriteFromBaseline(w, steps, k)
    decreases |steps|
  {
    hide Next, WorldOk, SessionsOk;
    if steps != [] {
      NextKeepsWorld(w, steps[0]);
      NextKeepsLeaders(w, steps[0]);
      NextKeepsInStep(w, steps[0], k);
      if Writes(w, steps[0], k) { WriteIsGuarded(w, steps[0], k); }
      WritesFromBaseline(Next(w, steps[0]), steps[1..], k);
    }
  }

  /**
   No lost update, in any of the four rows. In every run in which no reload
   falls between a capture of document `k` and its persist, every version of
   row `k` was built on every earlier one, so a mutation the store once held is
   part of every later version. The four documents are flushed independently.
   */
  lemma NoUpdateIsLost(steps: seq<Step>, k: Key)
    requires NoReloadUnderCapture(EMPTY, steps, k)
    ensures Chain(After(EMPTY, steps).store, k)
    ensures var st := After(EMPTY, steps).store;
            forall v: nat, m: Mutation ::
              v <= |st.log.At(k)| && m in DocAt(st, k, v) ==> m in Current(st, k).doc
  {
    hide After, Next;
    EmptyIsInStep(k);
    WritesFromBaseline(EMPTY, steps, k);
    GuardedRunKeepsChain(EMPTY, steps, k);
    RunKeepsWorld(EMPTY, steps);
    ChainKeepsMutations(After(EMPTY, steps).store, k);
  }

  lemma EmptyIsInStep(k: Key)
    ensures WorldOk(EMPTY) && SessionsOk(EMPTY) && LeadersOk(EMPTY) && InStep(EMPTY, k) && Chain(EMPTY.store, k)
  {
  }

  lemma ChainKeepsMutations(st: Store, k: Key)
    requires Numbered(st) && Chain(st, k)
    ensures forall v: nat, m: Mutation :: v <= |st.log.At(k)| && m in DocAt(st, k, v) ==> m in Current(st, k).doc
  {
    CurrentIsNumbered(st, k);
    forall v: nat, m: Mutation | v <= |st.log.At(k)| && m in DocAt(st, k, v) ensures m in Current(st, k).doc {
      assert DocAt(st, k, v) <= DocAt(st, k, |st.log.At(k)|);
    }
  }

  // --------------------------------------------------------- a replica that only follows

  ghost predicate NeverMutated(steps: seq<Step>, id: ReplicaId) {
    forall i :: 0 <= i < |steps| ==> !(steps[i].On? && steps[i].id == id && steps[i].action.Mutate?)
  }

  /** Every document is as a load leaves it. */
  ghost predicate Untouched(rep: Replica) {
    && (forall k: Key :: rep.mem.At(k).own == OnLoad(k, rep.mem.At(k).loaded))
    && (forall k: Key :: rep.flush.At(k).Captured? ==> rep.flush.At(k).image.own == OnLoad(k, rep.flush.At(k).image.loaded))
  }

  lemma PersistKeepsUntouched(st: Store, rep: Replica, k: Key, reply: Reply, unlock: Reply)
    requires Untouched(rep)
    ensures Untouched(ActPersist(st, rep, k, reply, unlock).replica)
  {
    hide Persist, Unfinished;
    if rep.flush.At(k).Captured? {
      var image, now := rep.flush.At(k).image, rep.mem.At(k);
      MarkedJobsAreFinished(image.loaded);
      assert image.loaded + [] == image.loaded;
      var rep' := ActPersist(st, rep, k, reply, unlock).replica;
      forall o: Key ensures rep'.mem.At(o).own == OnLoad(o, rep'.mem.At(o).loaded) {
        if o != k { assert rep'.mem.At(o) == rep.mem.At(o); }
      }
      forall o: Key | rep'.flush.At(o).Captured? ensures rep'.flush.At(o) == rep.flush.At(o) {}
    }
  }

  lemma ActKeepsUntouched(st: Store, rep: Replica, a: Action)
    requires Untouched(rep) && !a.Mutate?
    ensures Untouched(Act(st, rep, a).replica)
  {
    hide ActPersist, Unfinished, TryLock, StoreVersion, Verify, Resign;
    var rep' := Act(st, rep, a).replica;
    if a.PersistCaptured? {
      PersistKeepsUntouched(st, rep, a.key, a.reply, a.unlock);
    } else {
      forall k: Key ensures rep'.mem.At(k).own == OnLoad(k, rep'.mem.At(k).loaded) {
        if rep'.mem.At(k) == rep.mem.At(k) { assert rep.mem.At(k).own == OnLoad(k, rep.mem.At(k).loaded); }
      }
      forall k: Key | rep'.flush.At(k).Captured?
        ensures rep'.flush.At(k).image.own == OnLoad(k, rep'.flush.At(k).image.loaded)
      {
        assert rep'.flush.At(k) == rep.flush.At(k) || rep'.flush.At(k).image == rep.mem.At(k);
      }
    }
  }

  lemma {:induction false} FollowerIsUntouched(w: World, steps: seq<Step>, id: ReplicaId)
    requires (id in w.replicas ==> Untouched(w.replicas[id])) && NeverMutated(steps, id)
    ensures id in After(w, steps).replicas ==> Untouched(After(w, steps).replicas[id])
    decreases |steps|
  {
    hide Act, Untouched;
    if steps != [] {
      var step := steps[0];
      if step.On? && step.id == id && id in w.replicas {
        ActKeepsUntouched(w.store, w.replicas[id], step.action);
      } else if step.Open? && step.id == id {
        OpenedIsUntouched(w.store);
      }
      assert forall i :: 0 <= i < |steps[1..]| ==> steps[1..][i] == steps[i + 1];
      FollowerIsUntouched(Next(w, step), steps[1..], id);
    }
  }

  lemma OpenedIsUntouched(st: Store)
    ensures Untouched(Opened(st).replica)
  {
  }

  /**
   A replica that has applied nothing of its own, at a polled sum equal to the
   version it remembers, holds exactly the store's row of every document but
   one: its jobs equal the row if and only if the row holds no unfinished job,
   because a load marks those failed in memory alone.
   */
  lemma FollowerEqualsStoreIff(steps: seq<Step>, id: ReplicaId, k: Key)
    requires NeverMutated(steps, id) && id in After(EMPTY, steps).replicas
    requires After(EMPTY, steps).replicas[id].lastVersion == Some(Sum(Versions(After(EMPTY, steps).store)))
    ensures var w := After(EMPTY, steps);
            w.replicas[id].mem.At(k).Contents() == Current(w.store, k).doc
            <==> !(k == Jobs && Unfinished(Current(w.store, Jobs).doc))
  {
    RememberedVersionMeansCurrent(steps, id, k);
    FollowerIsUntouched(EMPTY, steps, id);
  }

  /**
   How such a replica reads a job: as the store's row has it, except that a job in
   progress there reads as failed.
   */
  lemma FollowerReadsJob(steps: seq<Step>, id: ReplicaId, job: nat)
    requires NeverMutated(steps, id) && id in After(EMPTY, steps).replicas
    requires After(EMPTY, steps).replicas[id].lastVersion == Some(Sum(Versions(After(EMPTY, steps).store)))
    ensures var w := After(EMPTY, steps);
            var there, here := StatusOf(Current(w.store, Jobs).doc, job), StatusOf(w.replicas[id].mem.jobs.Contents(), job);
            here == if there.InProgress? then JobFailed else there
  {
    hide After, StatusOf, OnLoad;
    RememberedVersionMeansCurrent(steps, id, Jobs);
    FollowerIsUntouched(EMPTY, steps, id);
    LoadFailsJobsInProgress(Current(After(EMPTY, steps).store, Jobs).doc, job);
  }
}
