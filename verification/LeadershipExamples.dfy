/**
 Runs that show why the conditions in `LeadershipTheorems` and `LeadershipCalls`
 are there: a reload between capture and persist loses an acknowledged update, a
 reload between mutation and capture loses the call's own, and a failed rollback
 leaves a phantom entry in a cache whose version reads as current.
 */
module LeadershipExamples {
  import opened Wrappers
  import opened RegistryStore
  import opened Leadership

  const SILENT := Failed(false, false)

  lemma {:induction false} AfterAppend(w: World, steps: seq<Step>, s: Step)
    ensures After(w, steps + [s]) == Next(After(w, steps), s)
    decreases |steps|
  {
    if steps == [] {
      assert steps + [s] == [s] && [s][1..] == [];
    } else {
      assert (steps + [s])[1..] == steps[1..] + [s];
      AfterAppend(Next(w, steps[0]), steps[1..], s);
    }
  }

  lemma NothingDone()
    ensures After(EMPTY, []) == EMPTY
  {
  }

  /** The step that follows `steps`, as a longer run. */
  lemma Then(steps: seq<Step>, s: Step) returns (steps': seq<Step>, w: World)
    ensures steps' == steps + [s] && w == After(EMPTY, steps') == Next(After(EMPTY, steps), s)
  {
    AfterAppend(EMPTY, steps, s);
    steps' := steps + [s];
    w := After(EMPTY, steps');
  }

  /** Lock, reload, confirm: the tick of a standby that is promoted. */
  lemma Promoted(steps: seq<Step>, id: ReplicaId, probe: Reply) returns (steps': seq<Step>, w: World)
    requires var w0 := After(EMPTY, steps);
             && id in w0.replicas && w0.replicas[id].race.Standing? && !w0.replicas[id].backend.isWriter
             && w0.store.lock.Free? && w0.store.issued !in w0.store.live
             && (probe.Answered? ==> w0.replicas[id].backend.session in w0.store.live)
    ensures steps <= steps' && w == After(EMPTY, steps')
    ensures var w0 := After(EMPTY, steps);
            var b, st := w0.replicas[id].backend, w0.store;
            var s := if probe.Answered? then b.session else st.issued;
            w == World(Store(st.log, Held(s, 1), st.live + {s}, if probe.Answered? then st.issued else st.issued + 1),
                       w0.replicas[id := w0.replicas[id].(
                         backend := Backend(true, Versions(st), s), rollbackFailed := false,
                         mem := Images(Four(Current(st, Registry), Current(st, Activity), Current(st, Sessions), Current(st, Jobs))))])
  {
    hide Act, After;
    var w0 := After(EMPTY, steps);
    var rep, st := w0.replicas[id], w0.store;
    RaceIsWon(st, rep, probe);
    var s1, w1 := Then(steps, On(id, RaceForLock(probe, true, Answered)));
    ReloadAndConfirm(w1.store, w1.replicas[id]);
    var s2, w2 := Then(s1, On(id, Reload(Answered, true)));
    steps', w := Then(s2, On(id, Confirm));
  }

  /** A standby that finds the lock free takes it, over its own session or, if that does not answer, a new one. */
  lemma RaceIsWon(st: Store, rep: Replica, probe: Reply)
    requires rep.race.Standing? && !rep.backend.isWriter && st.lock.Free? && st.issued !in st.live
    requires probe.Answered? ==> rep.backend.session in st.live
    ensures var s := if probe.Answered? then rep.backend.session else st.issued;
            Act(st, rep, RaceForLock(probe, true, Answered))
            == Acted(Store(st.log, Held(s, 1), st.live + {s}, if probe.Answered? then st.issued else st.issued + 1),
                     rep.(backend := rep.backend.(session := s), race := LockWon))
  {
    if probe.Answered? { assert st.live + {rep.backend.session} == st.live; }
  }

  lemma ReloadAndConfirm(st: Store, rep: Replica)
    requires rep.race.LockWon? && rep.backend.session in st.live
    ensures var x := Act(st, rep, Reload(Answered, true));
            && x.store == st
            && Act(st, x.replica, Confirm) == Acted(st, rep.(
                 backend := Backend(true, Versions(st), rep.backend.session), rollbackFailed := false, race := Standing,
                 mem := Images(Four(Current(st, Registry), Current(st, Activity), Current(st, Sessions), Current(st, Jobs)))))
  {
    hide Versions, Images;
  }

  /** Apply one mutation to a document, capture it and persist it. */
  lemma Wrote(steps: seq<Step>, id: ReplicaId, k: Key, m: Mutation) returns (steps': seq<Step>, w: World)
    requires var w0 := After(EMPTY, steps);
             && id in w0.replicas && w0.replicas[id].backend.isWriter && w0.replicas[id].flush.At(k).Idle?
             && !w0.replicas[id].rollbackFailed && w0.replicas[id].backend.session in w0.store.live
             && Accepts(w0.store, k, w0.replicas[id].backend.versions.At(k))
    ensures steps <= steps' && w == After(EMPTY, steps')
    ensures var w0 := After(EMPTY, steps);
            var rep, st := w0.replicas[id], w0.store;
            var v, doc := rep.backend.versions.At(k), rep.mem.At(k).Contents() + [m];
            w == World(Upsert(st, k, v, doc),
                       w0.replicas[id := rep.(backend := rep.backend.(versions := rep.backend.versions.With(k, v + 1)),
                                              mem := rep.mem.With(k, Image(v + 1, doc, [])))])
  {
    hide Act, After, Upsert;
    var rep, st := After(EMPTY, steps).replicas[id], After(EMPTY, steps).store;
    WriteSteps(st, rep, k, m);
    var s1, w1 := Then(steps, On(id, Mutate(k, m)));
    var s2, w2 := Then(s1, On(id, Capture(k)));
    steps', w := Then(s2, On(id, PersistCaptured(k, Answered, Answered)));
  }

  lemma WriteSteps(st: Store, rep: Replica, k: Key, m: Mutation)
    requires rep.backend.isWriter && rep.flush.At(k).Idle? && !rep.rollbackFailed && rep.backend.session in st.live
    requires Accepts(st, k, rep.backend.versions.At(k))
    ensures var x := Act(st, rep, Mutate(k, m));
            var y := Act(st, x.replica, Capture(k));
            var v, doc := rep.backend.versions.At(k), rep.mem.At(k).Contents() + [m];
            && x.store == st && y.store == st
            && Act(st, y.replica, PersistCaptured(k, Answered, Answered))
               == Acted(Upsert(st, k, v, doc),
                        rep.(backend := rep.backend.(versions := rep.backend.versions.With(k, v + 1)),
                             mem := rep.mem.With(k, Image(v + 1, doc, []))))
  {
    hide Upsert;
    var image := rep.mem.At(k);
    var own := image.own + [m];
    assert image.loaded + own == image.Contents() + [m] && own[|own|..] == [];
    var y := Act(st, Act(st, rep, Mutate(k, m)).replica, Capture(k)).replica;
    assert y == rep.(mem := rep.mem.With(k, image.(own := own)), flush := rep.flush.With(k, Captured(image.(own := own))));
    assert y.flush.With(k, Idle) == rep.flush;
  }

  /** Replica 0 is promoted and writes one mutation to the registry; replica 1 stands by. */
  lemma OneWrote() returns (s: seq<Step>, w: World)
    ensures w == After(EMPTY, s)
    ensures w.store == Store(Four([Row(1, [Edit(1)])], [], [], []), Held(0, 1), {0, 1}, 2) && 0 in w.replicas && 1 in w.replicas
    ensures var zero, one := w.replicas[0], w.replicas[1];
            && zero.flush == Four(Idle, Idle, Idle, Idle) && zero.backend.isWriter && zero.race.Standing?
            && zero.backend.session == 0 && !zero.rollbackFailed && zero.mem.registry == Image(1, [Edit(1)], [])
            && one.flush == Four(Idle, Idle, Idle, Idle) && !one.backend.isWriter && one.race.Standing?
            && one.backend.session == 1 && !one.rollbackFailed
  {
    hide After;
    NothingDone();
    var s1, w1 := Then([], Open(0));
    var s2, w2 := Then(s1, Open(1));
    var s3, w3 := Promoted(s2, 0, Answered);
    s, w := Wrote(s3, 0, Registry, Edit(1));
    assert w3.replicas[0].mem.registry.Contents() + [Edit(1)] == [Edit(1)];
    assert w3.store.live == {0, 1};
  }

  /** Replica 0 then captures mutation 2 and loses its session before persisting it. */
  lemma CapturedThenDead() returns (s: seq<Step>, w: World)
    ensures w == After(EMPTY, s)
    ensures w.store == Store(Four([Row(1, [Edit(1)])], [], [], []), Free, {1}, 2) && 0 in w.replicas && 1 in w.replicas
    ensures var zero, one := w.replicas[0], w.replicas[1];
            && zero.flush.registry == Captured(Image(1, [Edit(1)], [Edit(2)])) && !zero.backend.isWriter && zero.race.Standing?
            && zero.backend.session == 0 && !zero.rollbackFailed
            && one.flush.registry == Idle && !one.backend.isWriter && one.race.Standing?
            && one.backend.session == 1 && !one.rollbackFailed
  {
    hide After;
    var s4, w4 := OneWrote();
    var s5, w5 := Then(s4, On(0, Mutate(Registry, Edit(2))));
    var s6, w6 := Then(s5, On(0, Capture(Registry)));
    var s7, w7 := Then(s6, Dies(0));
    var s8, w8 := Then(s7, On(0, CheckLeadership(SILENT)));
    s, w := Then(s8, On(0, GiveUp(SILENT)));
    assert w.store.live == {1};
  }

  /**
   Replica 0 captures a snapshot, loses its session, and is promoted again after
   replica 1 wrote; its persist then carries the refreshed baseline with the old
   snapshot. The guard accepts it and mutation 3, which replica 1 was told is
   durable, is gone.
   */
  lemma ReloadUnderCaptureLosesUpdate()
    ensures exists steps :: !Chain(After(EMPTY, steps).store, Registry)
                            && Edit(3) in DocAt(After(EMPTY, steps).store, Registry, 2)
                            && Edit(3) !in Current(After(EMPTY, steps).store, Registry).doc
  {
    hide After;
    var s9, w9 := CapturedThenDead();
    var s10, w10 := Promoted(s9, 1, Answered);
    var s11, w11 := Wrote(s10, 1, Registry, Edit(3));
    assert w10.replicas[1].mem.registry.Contents() + [Edit(3)] == [Edit(1), Edit(3)];
    assert w11.store.log.registry == [Row(1, [Edit(1)]), Row(2, [Edit(1), Edit(3)])];
    var s12, w12 := Then(s11, Dies(1));
    var s13, w13 := Promoted(s12, 0, SILENT);
    assert w13.replicas[0].flush.registry == Captured(Image(1, [Edit(1)], [Edit(2)]));
    var s14, w14 := Then(s13, On(0, PersistCaptured(Registry, Answered, Answered)));
    assert w14.store.log.registry == [Row(1, [Edit(1)]), Row(2, [Edit(1), Edit(3)]), Row(3, [Edit(1)] + [Edit(2)])];
    OverwrittenIsLost(w14.store);
    assert w14 == After(EMPTY, s14);
  }

  lemma OverwrittenIsLost(st: Store)
    requires st.log.registry == [Row(1, [Edit(1)]), Row(2, [Edit(1), Edit(3)]), Row(3, [Edit(1)] + [Edit(2)])]
    ensures !Chain(st, Registry) && Edit(3) in DocAt(st, Registry, 2) && Edit(3) !in Current(st, Registry).doc
  {
    assert DocAt(st, Registry, 2) == [Edit(1), Edit(3)] && DocAt(st, Registry, 3) == [Edit(1)] + [Edit(2)];
    assert DocAt(st, Registry, 2)[1] != DocAt(st, Registry, 3)[1];
  }

  /**
   A writer whose persist failed, and whose rollback failed too, keeps the
   refused mutation in memory. The store never moved, so the version it
   remembers equals the polled one and no reload is triggered.
   */
  lemma FailedRollbackLeavesPhantom()
    ensures exists steps ::
              var w := After(EMPTY, steps);
              && 0 in w.replicas
              && w.replicas[0].lastVersion == Some(Sum(Versions(w.store)))
              && w.replicas[0].mem.registry.Contents() != Current(w.store, Registry).doc
  {
    hide After;
    NothingDone();
    var s1, w1 := Then([], Open(0));
    var s2, w2 := Then(s1, On(0, Poll(Answered)));
    var s3, w3 := Then(s2, On(0, Reload(Answered, true)));
    var s4, w4 := Promoted(s3, 0, Answered);
    var s5, w5 := Then(s4, On(0, Mutate(Registry, Edit(7))));
    var s6, w6 := Then(s5, On(0, Capture(Registry)));
    var s7, w7 := Then(s6, On(0, PersistCaptured(Registry, SILENT, SILENT)));
    var s8, w8 := Then(s7, On(0, Restore(SILENT, true)));
    assert w8.replicas[0].mem.registry == Image(0, [], [Edit(7)]);
    assert w8.replicas[0].mem.registry.Contents()[0] == Edit(7);
    assert w8 == After(EMPTY, s8);
  }

  /**
   Replica 0 leads and has a reindex running; replica 1 follows it, applies
   nothing of its own, and remembers the version it polled. Its jobs document
   reads the job failed while the store's row has it running.
   */
  lemma FollowerFailsRunningJob()
    ensures exists steps ::
              var w := After(EMPTY, steps);
              && 1 in w.replicas && w.replicas[1].lastVersion == Some(Sum(Versions(w.store)))
              && Current(w.store, Jobs).doc == [StartJob(5)]
              && w.replicas[1].mem.jobs.Contents() == [StartJob(5), FailUnfinished]
  {
    hide After;
    NothingDone();
    var s1, w1 := Then([], Open(0));
    var s2, w2 := Then(s1, Open(1));
    var s3, w3 := Promoted(s2, 0, Answered);
    var s4, w4 := Wrote(s3, 0, Jobs, StartJob(5));
    assert !Unfinished([]);
    assert w3.replicas[0].mem.jobs.Contents() + [StartJob(5)] == [StartJob(5)];
    assert w4.store.log.jobs == [Row(1, [StartJob(5)])];
    var s5, w5 := Then(s4, On(1, Poll(Answered)));
    var s6, w6 := Then(s5, On(1, Reload(Answered, true)));
    assert Running([StartJob(5)], 0);
    assert w6.replicas[1].mem.jobs == Image(1, [StartJob(5)], [FailUnfinished]);
    assert w6 == After(EMPTY, s6);
  }

  /**
   A standby applies a mutation and is promoted before it captures: the reload
   takes the mutation out of memory, the persist is accepted, the call reports
   success, and the row it wrote does not hold the mutation.
   */
  lemma PromotionDropsOwnUpdate()
    ensures exists before, between ::
              var w := After(EMPTY, before);
              var ready := After(Next(w, On(0, Mutate(Registry, Edit(9)))), between);
              var captured := Next(ready, On(0, Capture(Registry)));
              var done := Next(captured, On(0, PersistCaptured(Registry, Answered, Answered)));
              && 0 in ready.replicas && ready.replicas[0].backend.isWriter
              && |done.store.log.registry| == |captured.store.log.registry| + 1
              && Edit(9) !in Current(done.store, Registry).doc
  {
    hide After;
    NothingDone();
    var s1, w1 := Then([], Open(0));
    var s2, w2 := Then(s1, On(0, Mutate(Registry, Edit(9))));
    var s3, w3 := Then(s2, On(0, RaceForLock(Answered, true, Answered)));
    var s4, w4 := Then(s3, On(0, Reload(Answered, true)));
    var s5, w5 := Then(s4, On(0, Confirm));
    var between := [On(0, RaceForLock(Answered, true, Answered)), On(0, Reload(Answered, true)), On(0, Confirm)];
    assert After(w2, between) == w5 by { AfterThree(w2, between[0], between[1], between[2]); }
    assert w5.replicas[0].mem.registry == Image(0, [], []);
    var captured := Next(w5, On(0, Capture(Registry)));
    var done := Next(captured, On(0, PersistCaptured(Registry, Answered, Answered)));
    assert captured.store.log.registry == [] && done.store.log.registry == [Row(1, [] + [])];
    assert w1 == After(EMPTY, s1) && w2 == Next(After(EMPTY, s1), On(0, Mutate(Registry, Edit(9))));
  }

  lemma AfterThree(w: World, a: Step, b: Step, c: Step)
    ensures After(w, [a, b, c]) == Next(Next(Next(w, a), b), c)
  {
    hide Next;
    assert [a, b, c][1..] == [b, c] && [b, c][1..] == [c] && [c][1..] == [];
    assert After(Next(w, a), [b, c]) == After(Next(Next(w, a), b), [c]);
    assert After(Next(Next(w, a), b), [c]) == After(Next(Next(Next(w, a), b), c), []);
  }
}
