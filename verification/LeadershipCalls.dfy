/**
 One call from its mutation to its acknowledgement. The mutation is applied in
 memory before the flush lock is taken, so a load of the document may come in
 between; the row that is then acknowledged may lack what the call did.
 */
module LeadershipCalls {
  import opened Wrappers
  import opened RegistryStore
  import opened Leadership
  import opened LeadershipTheorems

  function Held(w: World, id: ReplicaId, k: Key): Doc
    requires id in w.replicas
  {
    w.replicas[id].mem.At(k).Contents()
  }

  /** The step loads document `k` of the replica anew from the store. */
  predicate Loads(w: World, step: Step, id: ReplicaId, k: Key)
    requires id in w.replicas
  {
    var rep := w.replicas[id];
    step.On? && step.id == id &&
    match step.action
    case Reload(reply, decodes) =>
      (rep.race.LockWon? || rep.race.PolledAt?) && Load(rep.backend, w.store, reply, decodes).result.Rows?
    case Restore(reply, decodes) =>
      k == Registry && rep.flush.registry.Unrestored? && Load(rep.backend, w.store, reply, decodes).result.Rows?
    case _ => false
  }

  /** The step takes a refused revocation `m` out of memory again. */
  predicate Undoes(w: World, step: Step, id: ReplicaId, k: Key, m: Mutation)
    requires id in w.replicas
  {
    var rep := w.replicas[id];
    && step.On? && step.id == id && step.action.Undo? && k == Sessions && rep.flush.sessions.Unrestored?
    && step.action.at < |rep.mem.sessions.own| && rep.mem.sessions.own[step.action.at] == m
  }

  ghost predicate NothingRemoves(w: World, steps: seq<Step>, id: ReplicaId, k: Key, m: Mutation)
    requires id in w.replicas
    decreases |steps|
  {
    steps == [] || (&& !Loads(w, steps[0], id, k) && !Undoes(w, steps[0], id, k, m)
                    && NothingRemoves(Next(w, steps[0]), steps[1..], id, k, m))
  }

  /** While the steps run no row holds `m`, and the replica does not apply it again. */
  ghost predicate OwnAlone(w: World, steps: seq<Step>, id: ReplicaId, k: Key, m: Mutation)
    decreases |steps|
  {
    m !in Current(w.store, k).doc
    && (steps == [] || (steps[0] != On(id, Mutate(k, m)) && OwnAlone(Next(w, steps[0]), steps[1..], id, k, m)))
  }

  // ------------------------------------------------------------ one step in between

  lemma LoadReplaces(w: World, step: Step, id: ReplicaId, k: Key)
    requires id in w.replicas && Loads(w, step, id, k)
    ensures Next(w, step).replicas[id].mem.At(k) == ImageOf(k, Current(w.store, k))
  {
  }

  /** A step that neither loads nor undoes leaves the mutation where it was, in or out. */
  lemma OthersKeep(st: Store, rep: Replica, a: Action, k: Key)
    requires !a.Reload? && !a.Restore? && !a.Undo? && !a.PersistCaptured?
    ensures var now := Act(st, rep, a).replica.mem.At(k).Contents();
            now == rep.mem.At(k).Contents() || (a.Mutate? && a.key == k && now == rep.mem.At(k).Contents() + [a.m])
  {
    hide TryLock, StoreVersion, Resign, Verify;
    if a.Mutate? {
      var image := rep.mem.At(k);
      assert image.loaded + (image.own + [a.m]) == image.Contents() + [a.m];
    }
  }

  lemma PersistKeepsContents(st: Store, rep: Replica, o: Key, reply: Reply, unlock: Reply, k: Key)
    ensures ActPersist(st, rep, o, reply, unlock).replica.mem.At(k).Contents() == rep.mem.At(k).Contents()
  {
    hide Persist;
    if rep.flush.At(o).Captured? {
      var now, captured := rep.mem.At(o), rep.flush.At(o).image;
      if now.loaded == captured.loaded && captured.own <= now.own {
        assert now.own == captured.own + now.own[|captured.own|..];
        assert captured.Contents() + now.own[|captured.own|..] == now.Contents();
      }
    }
  }

  lemma UndoKeeps(st: Store, rep: Replica, at: nat, k: Key, m: Mutation)
    requires m !in rep.mem.At(k).loaded
    requires !(k == Sessions && rep.flush.sessions.Unrestored? && at < |rep.mem.sessions.own| && rep.mem.sessions.own[at] == m)
    ensures m in Act(st, rep, Undo(at)).replica.mem.At(k).Contents() <==> m in rep.mem.At(k).Contents()
  {
    var own := rep.mem.sessions.own;
    if at < |own| { assert own == own[..at] + [own[at]] + own[at + 1..]; }
  }

  lemma LoadsNot(st: Store, rep: Replica, a: Action, k: Key)
    requires a.Reload? ==> !((rep.race.LockWon? || rep.race.PolledAt?) && Load(rep.backend, st, a.reply, a.decodes).result.Rows?)
    requires a.Restore? ==> !(k == Registry && rep.flush.registry.Unrestored? && Load(rep.backend, st, a.reply, a.decodes).result.Rows?)
    requires a.Reload? || a.Restore?
    ensures Act(st, rep, a).replica.mem.At(k) == rep.mem.At(k)
  {
  }

  /** The replica holds `m` at most in its own part of the document. */
  ghost predicate NotLoaded(w: World, id: ReplicaId, k: Key, m: Mutation) {
    id in w.replicas && m !in w.replicas[id].mem.At(k).loaded
  }

  lemma StepKeeps(w: World, step: Step, id: ReplicaId, k: Key, m: Mutation)
    requires NotLoaded(w, id, k, m) && !Loads(w, step, id, k) && !Undoes(w, step, id, k, m) && step != On(id, Mutate(k, m))
    ensures id in Next(w, step).replicas && (m in Held(Next(w, step), id, k) <==> m in Held(w, id, k))
  {
    hide Act, ActPersist;
    if step.On? && step.id == id {
      var rep, a := w.replicas[id], step.action;
      match a
      case PersistCaptured(o, reply, unlock) => PersistIs(w.store, rep, a); PersistKeepsContents(w.store, rep, o, reply, unlock, k);
      case Undo(at) => UndoKeeps(w.store, rep, at, k, m);
      case Reload(_, _) => LoadsNot(w.store, rep, a, k);
      case Restore(_, _) => LoadsNot(w.store, rep, a, k);
      case _ => OthersKeep(w.store, rep, a, k);
    }
  }

  lemma PersistIs(st: Store, rep: Replica, a: Action)
    requires a.PersistCaptured?
    ensures Act(st, rep, a) == ActPersist(st, rep, a.key, a.reply, a.unlock)
  {
  }

  /** A load brings in nothing but what the row holds. */
  lemma LoadedAfter(st: Store, rep: Replica, a: Action, k: Key)
    requires !a.PersistCaptured?
    ensures var now := Act(st, rep, a).replica.mem.At(k).loaded;
            now == rep.mem.At(k).loaded || now == Current(st, k).doc
  {
    hide TryLock, StoreVersion, Resign, Verify, OnLoad, Current;
  }

  /** A persist moves own mutations into the loaded part only by writing them. */
  lemma StaysOwn(w: World, step: Step, id: ReplicaId, k: Key, m: Mutation)
    requires WorldOk(w) && NotLoaded(w, id, k, m) && m !in Current(w.store, k).doc && m !in Current(Next(w, step).store, k).doc
    ensures NotLoaded(Next(w, step), id, k, m)
  {
    hide Act, Opened, Current, WorldOk;
    if step.On? && step.id == id {
      if step.action.PersistCaptured? {
        PersistIs(w.store, w.replicas[id], step.action);
        PersistedStaysOwn(w.store, w.replicas[id], step.action, k, m);
      } else {
        LoadedAfter(w.store, w.replicas[id], step.action, k);
      }
    }
  }

  lemma PersistedStaysOwn(st: Store, rep: Replica, a: Action, k: Key, m: Mutation)
    requires a.PersistCaptured? && m !in rep.mem.At(k).loaded
    requires m !in Current(ActPersist(st, rep, a.key, a.reply, a.unlock).store, k).doc
    ensures m !in ActPersist(st, rep, a.key, a.reply, a.unlock).replica.mem.At(k).loaded
  {
    hide Advanced;
    if a.key == k && rep.flush.At(k).Captured? {
      var image := rep.flush.At(k).image;
      var out := Persist(rep.backend, st, k, image.Contents(), a.reply, a.unlock);
      if out.result.Persisted? {
        WrittenIsCurrent(st, k, rep.backend.versions.At(k), image.Contents());
        AdvancedLoads(rep.mem.At(k), image, out.backend.versions.At(k), m);
      }
    }
  }

  lemma WrittenIsCurrent(st: Store, k: Key, expected: nat, doc: Doc)
    requires Accepts(st, k, expected)
    ensures Current(Upsert(st, k, expected, doc), k).doc == doc
  {
  }

  lemma AdvancedLoads(now: Image, captured: Image, v: nat, m: Mutation)
    requires m !in now.loaded && m !in captured.Contents()
    ensures m !in Advanced(now, captured, v).loaded
  {
  }

  // -------------------------------------------------------------- up to the capture

  /** What is out stays out: rows that lack the mutation cannot bring it back. */
  lemma {:induction false} OutStaysOut(w: World, steps: seq<Step>, id: ReplicaId, k: Key, m: Mutation)
    requires WorldOk(w) && NotLoaded(w, id, k, m) && m !in Held(w, id, k) && m != FailUnfinished && OwnAlone(w, steps, id, k, m)
    ensures id in After(w, steps).replicas && m !in Held(After(w, steps), id, k)
    decreases |steps|
  {
    hide Next, WorldOk, Loads, Undoes;
    if steps != [] {
      var step, w' := steps[0], Next(w, steps[0]);
      NextKeepsWorld(w, step);
      assert OwnAlone(w', steps[1..], id, k, m) && m !in Current(w'.store, k).doc;
      StaysOwn(w, step, id, k, m);
      RemovedOrOut(w, step, id, k, m);
      OutStaysOut(w', steps[1..], id, k, m);
    }
  }

  lemma RemovedOrOut(w: World, step: Step, id: ReplicaId, k: Key, m: Mutation)
    requires WorldOk(w) && NotLoaded(w, id, k, m) && m !in Held(w, id, k) && m != FailUnfinished
    requires m !in Current(w.store, k).doc && step != On(id, Mutate(k, m))
    ensures id in Next(w, step).replicas && m !in Held(Next(w, step), id, k)
  {
    hide Next, WorldOk;
    if Loads(w, step, id, k) {
      LoadReplaces(w, step, id, k);
      KnownReplica(w, step, id);
    } else {
      UndoneIsHeld(w, step, id, k, m);
      StepKeeps(w, step, id, k, m);
    }
  }

  lemma UndoneIsHeld(w: World, step: Step, id: ReplicaId, k: Key, m: Mutation)
    requires id in w.replicas
    ensures Undoes(w, step, id, k, m) ==> m in Held(w, id, k)
  {
    if Undoes(w, step, id, k, m) {
      var image := w.replicas[id].mem.sessions;
      assert image.Contents()[|image.loaded| + step.action.at] == m;
    }
  }

  lemma KnownReplica(w: World, step: Step, id: ReplicaId)
    requires id in w.replicas
    ensures id in Next(w, step).replicas
  {
  }

  ghost predicate OnceIn(own: Doc, m: Mutation) {
    forall i, j :: 0 <= i < j < |own| && own[i] == m ==> own[j] != m
  }

  /** The replica applied the mutation once. */
  ghost predicate AppliedOnce(w: World, id: ReplicaId, k: Key, m: Mutation) {
    id in w.replicas && OnceIn(w.replicas[id].mem.At(k).own, m)
  }

  /** What a load or an undo takes out is out. */
  lemma RemovedIsOut(w: World, step: Step, id: ReplicaId, k: Key, m: Mutation)
    requires NotLoaded(w, id, k, m) && m != FailUnfinished && m !in Current(w.store, k).doc
    requires Loads(w, step, id, k) || Undoes(w, step, id, k, m)
    requires AppliedOnce(w, id, k, m)
    ensures id in Next(w, step).replicas && m !in Held(Next(w, step), id, k)
  {
    hide Load, Unfinished;
    if Loads(w, step, id, k) {
      LoadReplaces(w, step, id, k);
    } else {
      var image, at := w.replicas[id].mem.sessions, step.action.at;
      forall i | 0 <= i < |Without(image.own, at)| ensures Without(image.own, at)[i] != m {
        assert Without(image.own, at)[i] == if i < at then image.own[i] else image.own[i + 1];
      }
    }
  }

  lemma StaysOnce(w: World, step: Step, id: ReplicaId, k: Key, m: Mutation)
    requires AppliedOnce(w, id, k, m) && step != On(id, Mutate(k, m))
    ensures AppliedOnce(Next(w, step), id, k, m)
  {
    hide Act, Opened;
    if step.On? && step.id == id { ActStaysOnce(w.store, w.replicas[id], step.action, k, m); }
  }

  lemma ActStaysOnce(st: Store, rep: Replica, a: Action, k: Key, m: Mutation)
    requires OnceIn(rep.mem.At(k).own, m) && a != Mutate(k, m)
    ensures OnceIn(Act(st, rep, a).replica.mem.At(k).own, m)
  {
    hide TryLock, StoreVersion, Resign, Verify, Persist, Load, Unfinished;
    if a.Undo? && k == Sessions { WithoutStaysOnce(rep.mem.sessions.own, a.at, m); }
  }

  lemma WithoutStaysOnce(own: Doc, at: nat, m: Mutation)
    requires OnceIn(own, m)
    ensures OnceIn(Without(own, at), m)
  {
    var left := Without(own, at);
    if at < |own| {
      forall i | 0 <= i < |left| ensures left[i] == own[if i < at then i else i + 1] {}
    }
  }

  /** From the mutation to the capture: it is in memory at the end exactly when nothing on the way removed it. */
  lemma {:induction false} InMemoryIff(w: World, steps: seq<Step>, id: ReplicaId, k: Key, m: Mutation)
    requires WorldOk(w) && NotLoaded(w, id, k, m) && AppliedOnce(w, id, k, m) && m in Held(w, id, k)
    requires m != FailUnfinished && OwnAlone(w, steps, id, k, m)
    ensures id in After(w, steps).replicas
    ensures m in Held(After(w, steps), id, k) <==> NothingRemoves(w, steps, id, k, m)
    decreases |steps|
  {
    hide Next, WorldOk, Loads, Undoes, Current;
    if steps != [] {
      var step, w' := steps[0], Next(w, steps[0]);
      NextKeepsWorld(w, step);
      assert OwnAlone(w', steps[1..], id, k, m) && m !in Current(w'.store, k).doc;
      StaysOwn(w, step, id, k, m);
      StaysOnce(w, step, id, k, m);
      if Loads(w, step, id, k) || Undoes(w, step, id, k, m) {
        RemovedIsOut(w, step, id, k, m);
        OutStaysOut(w', steps[1..], id, k, m);
      } else {
        StepKeeps(w, step, id, k, m);
        InMemoryIff(w', steps[1..], id, k, m);
      }
    }
  }

  // ------------------------------------------------------- from capture to row

  /** A captured snapshot stays as it is until it is persisted. */
  lemma {:induction false} CaptureStays(w: World, steps: seq<Step>, id: ReplicaId, k: Key)
    requires id in w.replicas && w.replicas[id].flush.At(k).Captured?
    requires forall i :: 0 <= i < |steps| ==> !(steps[i].On? && steps[i].id == id && steps[i].action.PersistCaptured? && steps[i].action.key == k)
    ensures id in After(w, steps).replicas && After(w, steps).replicas[id].flush.At(k) == w.replicas[id].flush.At(k)
    decreases |steps|
  {
    hide Next;
    if steps != [] {
      assert !(steps[0].On? && steps[0].id == id && steps[0].action.PersistCaptured? && steps[0].action.key == k);
      StepKeepsCapture(w, steps[0], id, k);
      assert forall i :: 0 <= i < |steps[1..]| ==> steps[1..][i] == steps[i + 1];
      CaptureStays(Next(w, steps[0]), steps[1..], id, k);
    }
  }

  lemma StepKeepsCapture(w: World, step: Step, id: ReplicaId, k: Key)
    requires id in w.replicas && w.replicas[id].flush.At(k).Captured?
    requires !(step.On? && step.id == id && step.action.PersistCaptured? && step.action.key == k)
    ensures id in Next(w, step).replicas && Next(w, step).replicas[id].flush.At(k) == w.replicas[id].flush.At(k)
  {
    hide TryLock, StoreVersion, Resign, Verify, Persist, Load, Images, ImageOf;
  }

  /** The worlds a call passes through: applied, about to capture, captured, about to persist. */
  datatype Call = Call(id: ReplicaId, key: Key, m: Mutation, between: seq<Step>, waiting: seq<Step>, reply: Reply, unlock: Reply)
  {
    function Applied(w: World): World { Next(w, On(id, Mutate(key, m))) }
    function Ready(w: World): World { After(Applied(w), between) }
    function Taken(w: World): World { Next(Ready(w), On(id, Capture(key))) }
    function Due(w: World): World { After(Taken(w), waiting) }
    function Done(w: World): World { Next(Due(w), On(id, PersistCaptured(key, reply, unlock))) }
  }

  /** A call of its own: a fresh mutation, a free flush lock when it captures, and its own persist that writes the row. */
  ghost predicate Acknowledged(w: World, c: Call) {
    && WorldOk(w) && c.id in w.replicas
    && c.m != FailUnfinished && c.m !in Held(w, c.id, c.key) && OwnAlone(c.Applied(w), c.between, c.id, c.key, c.m)
    && c.id in c.Ready(w).replicas && c.Ready(w).replicas[c.id].flush.At(c.key).Idle?
    && !(c.key == Registry && c.Ready(w).replicas[c.id].rollbackFailed)
    && (forall i :: 0 <= i < |c.waiting| ==>
          !(c.waiting[i].On? && c.waiting[i].id == c.id && c.waiting[i].action.PersistCaptured? && c.waiting[i].action.key == c.key))
    && Writes(c.Due(w), On(c.id, PersistCaptured(c.key, c.reply, c.unlock)), c.key)
  }

  /**
   The row that an acknowledged call writes holds the call's own mutation if and
   only if between its mutation and its capture the replica neither loaded the
   document anew nor took that mutation out again.
   */
  lemma AcknowledgedIsInRowIff(w: World, c: Call)
    requires Acknowledged(w, c)
    ensures c.id in c.Applied(w).replicas
    ensures c.m in Current(c.Done(w).store, c.key).doc <==> NothingRemoves(c.Applied(w), c.between, c.id, c.key, c.m)
  {
    hide Next, After, OwnAlone, Writes, NothingRemoves, WorldOk;
    var id, k, m := c.id, c.key, c.m;
    NextKeepsWorld(w, On(id, Mutate(k, m)));
    RunKeepsWorld(c.Applied(w), c.between);
    NextKeepsWorld(c.Ready(w), On(id, Capture(k)));
    RunKeepsWorld(c.Taken(w), c.waiting);
    AppliedOwn(w, id, k, m);
    InMemoryIff(c.Applied(w), c.between, id, k, m);
    CaptureTakes(c.Ready(w), id, k);
    CaptureStays(c.Taken(w), c.waiting, id, k);
    WriteIsGuarded(c.Due(w), On(id, PersistCaptured(k, c.reply, c.unlock)), k);
  }

  lemma AppliedOwn(w: World, id: ReplicaId, k: Key, m: Mutation)
    requires id in w.replicas && m !in Held(w, id, k)
    ensures var w' := Next(w, On(id, Mutate(k, m)));
            NotLoaded(w', id, k, m) && AppliedOnce(w', id, k, m) && m in Held(w', id, k)
  {
    var image := w.replicas[id].mem.At(k);
    assert forall x :: x in image.Contents() <==> x in image.loaded || x in image.own;
    var now := image.(own := image.own + [m]);
    assert now.Contents()[|image.loaded| + |image.own|] == m;
  }

  lemma CaptureTakes(w: World, id: ReplicaId, k: Key)
    requires id in w.replicas && w.replicas[id].flush.At(k).Idle? && !(k == Registry && w.replicas[id].rollbackFailed)
    ensures var w' := Next(w, On(id, Capture(k)));
            id in w'.replicas && w'.replicas[id].flush.At(k) == Captured(w.replicas[id].mem.At(k))
  {
  }
}
