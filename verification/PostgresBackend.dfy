/**
 The backend and the leadership tick as the objects they are: a database that
 statements change in place, a backend with a writer flag, a session and a map
 of expected versions, and a control plane whose tick calls it. Each method is
 tied to the value-level function of the same step.
 */
module PostgresBackendModel {
  import opened Wrappers
  import opened RegistryStore
  import opened Leadership

  /** The rows a `SELECT` over the table returns; a row that was never written is not there. */
  function Present(st: Store, k: Key): seq<(Key, Row)> {
    if st.log.At(k) == [] then [] else [(k, Current(st, k))]
  }

  function Table(st: Store): seq<(Key, Row)> {
    Present(st, Registry) + Present(st, Activity) + Present(st, Sessions) + Present(st, Jobs)
  }

  lemma TableIsTheStore(st: Store, k: Key)
    ensures forall i :: 0 <= i < |Table(st)| && Table(st)[i].0 == k ==> Table(st)[i].1 == Current(st, k)
    ensures (exists i :: 0 <= i < |Table(st)| && Table(st)[i].0 == k) <==> st.log.At(k) != []
  {
    var a, b, c, d := Present(st, Registry), Present(st, Activity), Present(st, Sessions), Present(st, Jobs);
    assert Table(st) == a + b + c + d;
    assert st.log.At(Registry) != [] ==> Table(st)[0].0 == Registry;
    assert st.log.At(Activity) != [] ==> Table(st)[|a|].0 == Activity;
    assert st.log.At(Sessions) != [] ==> Table(st)[|a + b|].0 == Sessions;
    assert st.log.At(Jobs) != [] ==> Table(st)[|a + b + c|].0 == Jobs;
  }

  class Database {
    var state: Store

    constructor (state: Store)
      ensures this.state == state
    {
      this.state := state;
    }
  }

  function Lookup(m: map<Key, nat>, k: Key): nat {
    if k in m then m[k] else 0
  }

  function Baseline(m: map<Key, nat>): Four<nat> {
    Four(Lookup(m, Registry), Lookup(m, Activity), Lookup(m, Sessions), Lookup(m, Jobs))
  }

  class PostgresBackend {
    const db: Database
    var isWriter: bool
    var versions: map<Key, nat>
    var session: Session

    function View(): Backend
      reads this
    {
      Backend(isWriter, Baseline(versions), session)
    }

    /** Connect as a standby: a session, no lock, no baseline. */
    constructor OpenStandby(db: Database)
      modifies db
      ensures this.db == db && View() == Backend(false, Four(0, 0, 0, 0), old(db.state.issued))
      ensures db.state == old(db.state).(live := old(db.state.live) + {old(db.state.issued)},
                                         issued := old(db.state.issued) + 1)
    {
      this.db := db;
      isWriter, versions, session := false, map[], db.state.issued;
      new;
      db.state := db.state.(live := db.state.live + {db.state.issued}, issued := db.state.issued + 1);
    }

    /** The session is open and the statement's answer came back. */
    predicate Hears(reply: Reply)
      reads this, db
    {
      session in db.state.live && reply.Answered?
    }

    /** The session is open and the statement ran, whether or not that was heard of. */
    predicate Reaches(reply: Reply)
      reads this, db
    {
      session in db.state.live && (reply.Answered? || reply.executed)
    }

    /** Step down: the flag goes at once, and one acquisition of the lock with it if the statement runs. */
    method ResignLeadership(unlock: Reply)
      modifies this`isWriter, db
      ensures Out(View(), db.state, ()) == Resign(old(View()), old(db.state), unlock)
      ensures !isWriter && db.state == old(db.state).(lock := db.state.lock)
      ensures db.state.lock == if !old(Reaches(unlock)) || old(db.state.lock).Free? || old(db.state.lock).owner != session then old(db.state.lock)
                               else if old(db.state.lock).depth > 1 then Held(session, old(db.state.lock).depth - 1) else Free
    {
      isWriter := false;
      if session in db.state.live && (unlock.Answered? || unlock.executed) {
        db.state := db.state.(lock := Unlock(db.state.lock, session));
      }
    }

    method PersistDoc(k: Key, doc: Doc, reply: Reply, unlock: Reply) returns (verdict: Verdict)
      modifies this`isWriter, this`versions, db
      ensures Out(View(), db.state, verdict) == Persist(old(View()), old(db.state), k, doc, reply, unlock)
      ensures verdict == Persisted <==> && old(isWriter) && old(Hears(reply))
                                        && (old(db.state.log.At(k)) == [] || Current(old(db.state), k).version == old(Lookup(versions, k)))
      ensures verdict == Persisted ==> && isWriter && versions == old(versions)[k := old(Lookup(versions, k)) + 1]
                                       && db.state == old(db.state).(log := db.state.log)
                                       && db.state.log == old(db.state.log).With(k, old(db.state.log.At(k)) + [Row(old(Lookup(versions, k)) + 1, doc)])
      ensures verdict != Persisted ==> !isWriter && versions == old(versions)
      ensures !old(isWriter) ==> db.state == old(db.state)
      ensures db.state.log != old(db.state.log) ==> old(isWriter) && old(Reaches(reply))
    {
      if !isWriter {
        return NotLeader;
      }
      var expected := Lookup(versions, k);
      var reached := session in db.state.live && (reply.Answered? || reply.executed);
      var updated := Accepts(db.state, k, expected);
      if reached {
        db.state := Upsert(db.state, k, expected, doc);
      }
      if !(reached && reply.Answered?) {
        ResignLeadership(unlock);
        return StoreFailed;
      }
      if updated {
        versions := versions[k := expected + 1];
        assert [] + [Row(expected + 1, doc)] == [Row(expected + 1, doc)];
        return Persisted;
      }
      ResignLeadership(unlock);
      return NotLeader;
    }

    method LoadRows(reply: Reply, decodes: bool) returns (loaded: Loaded)
      modifies this`isWriter, this`versions
      ensures Out(View(), db.state, loaded) == Load(old(View()), db.state, reply, decodes)
      ensures loaded.Rows? <==> Hears(reply) && decodes
      ensures loaded.Rows? ==> forall k: Key :: loaded.rows.At(k) == Current(db.state, k)
      ensures if Hears(reply) then isWriter == old(isWriter) && forall k: Key :: Lookup(versions, k) == Current(db.state, k).version
              else versions == old(versions) && isWriter == (old(isWriter) && !(reply.Failed? && reply.workerGone))
    {
      if !(session in db.state.live && reply.Answered?) {
        if reply.Failed? && reply.workerGone { isWriter := false; }
        return NotLoaded;
      }
      var rows := Table(db.state);
      var seen: map<Key, nat> := map[];
      for i := 0 to |rows|
        modifies {}
        invariant forall k: Key :: k in seen <==> exists j :: 0 <= j < i && rows[j].0 == k
        invariant forall k: Key :: k in seen ==> seen[k] == Current(db.state, k).version
      {
        TableIsTheStore(db.state, rows[i].0);
        seen := seen[rows[i].0 := rows[i].1.version];
      }
      versions := seen;
      forall k: Key ensures Lookup(seen, k) == Current(db.state, k).version {
        TableIsTheStore(db.state, k);
      }
      assert Baseline(seen) == Versions(db.state);
      loaded := NotLoaded;
      if decodes {
        loaded := Rows(Four(Current(db.state, Registry), Current(db.state, Activity),
                            Current(db.state, Sessions), Current(db.state, Jobs)));
      }
    }

    method PollVersion(reply: Reply) returns (polled: Polled)
      modifies this`isWriter
      ensures Out(View(), db.state, polled) == StoreVersion(old(View()), db.state, reply)
      ensures polled.Total? <==> Hears(reply)
      ensures polled.Total? ==> isWriter == old(isWriter)
                                && polled.sum == Current(db.state, Registry).version + Current(db.state, Activity).version
                                                 + Current(db.state, Sessions).version + Current(db.state, Jobs).version
      ensures polled.PollFailed? ==> isWriter == (old(isWriter) && !(reply.Failed? && reply.workerGone))
    {
      if session in db.state.live && reply.Answered? {
        return Total(Sum(Versions(db.state)));
      }
      if reply.Failed? && reply.workerGone { isWriter := false; }
      polled := PollFailed;
    }

    /**
     Race for the lock, over a new session when the old one does not answer. The
     lock is won exactly when it was free or already this session's, and then it is
     held one deeper; the writer flag is not touched.
     */
    method TryBecomeLeader(probe: Reply, connects: bool, reply: Reply) returns (verdict: LockVerdict)
      modifies this`isWriter, this`session, db
      ensures Out(View(), db.state, verdict) == TryLock(old(View()), old(db.state), probe, connects, reply)
      ensures isWriter == old(isWriter) && db.state.log == old(db.state.log)
      ensures old(isWriter) ==> verdict == Won && session == old(session) && db.state == old(db.state)
      ensures !old(isWriter) && !old(Hears(probe)) && !connects ==> verdict == LockError && session == old(session) && db.state == old(db.state)
      ensures !old(isWriter) && (old(Hears(probe)) || connects) ==>
                && session == (if old(Hears(probe)) then old(session) else old(db.state.issued))
                && session in db.state.live && db.state.live == old(db.state.live) + {session}
                && (verdict == LockError <==> reply.Failed?)
                && (verdict == Won <==> reply.Answered? && (old(db.state.lock).Free? || old(db.state.lock).owner == session))
                && (verdict == Won ==> db.state.lock == Held(session, if old(db.state.lock).Free? then 1 else old(db.state.lock).depth + 1))
                && (verdict == Refused ==> db.state.lock == old(db.state.lock))
    {
      if isWriter {
        return Won;
      }
      if !(session in db.state.live && probe.Answered?) {
        if !connects {
          return LockError;
        }
        session := db.state.issued;
        db.state := db.state.(live := db.state.live + {session}, issued := session + 1);
      }
      var free := CanLock(db.state.lock, session);
      if session in db.state.live && (reply.Answered? || reply.executed) {
        db.state := db.state.(lock := TakeLock(db.state.lock, session));
      }
      if !(session in db.state.live && reply.Answered?) {
        return LockError;
      }
      verdict := if free then Won else Refused;
    }

    method ConfirmLeadership()
      modifies this`isWriter
      ensures View() == old(View()).(isWriter := true)
    {
      isWriter := true;
    }

    method VerifyLeadership(probe: Reply) returns (held: bool)
      modifies this`isWriter
      ensures Out(View(), db.state, held) == Verify(old(View()), db.state, probe)
      ensures isWriter == held == (old(isWriter) && Hears(probe))
    {
      if !isWriter {
        return false;
      }
      if session in db.state.live && probe.Answered? {
        return true;
      }
      isWriter := false;
      held := false;
    }
  }

  // ---------------------------------------------------------------- the tick

  /** How each store round trip of one tick ends. */
  datatype Answers = Answers(probe: Reply, connects: bool, lock: Reply, poll: Reply,
                             load: Reply, decodes: bool, unlock: Reply)

  function ActAll(st: Store, rep: Replica, actions: seq<Action>): Acted
    decreases |actions|
  {
    if actions == [] then Acted(st, rep)
    else
      var x := Act(st, rep, actions[0]);
      ActAll(x.store, x.replica, actions[1..])
  }

  /** The steps one tick takes; those its outcome rules out are no-ops. */
  function TickActions(st: Store, rep: Replica, t: Answers): seq<Action> {
    if rep.backend.isWriter then [CheckLeadership(t.probe), GiveUp(t.unlock)]
    else if TryLock(rep.backend, st, t.probe, t.connects, t.lock).result.LockError?
    then [RaceForLock(t.probe, t.connects, t.lock)]
    else [RaceForLock(t.probe, t.connects, t.lock), Poll(t.poll), Reload(t.load, t.decodes), Confirm, GiveUp(t.unlock)]
  }

  lemma ActFive(st: Store, rep: Replica, a: Action, b: Action, c: Action, d: Action, e: Action)
    ensures var x1 := Act(st, rep, a);
            var x2 := Act(x1.store, x1.replica, b);
            var x3 := Act(x2.store, x2.replica, c);
            var x4 := Act(x3.store, x3.replica, d);
            ActAll(st, rep, [a, b, c, d, e]) == Act(x4.store, x4.replica, e)
  {
    var x1 := Act(st, rep, a);
    var x2 := Act(x1.store, x1.replica, b);
    var x3 := Act(x2.store, x2.replica, c);
    var x4 := Act(x3.store, x3.replica, d);
    var x5 := Act(x4.store, x4.replica, e);
    assert [a, b, c, d, e][1..] == [b, c, d, e] && [b, c, d, e][1..] == [c, d, e];
    assert [c, d, e][1..] == [d, e] && [d, e][1..] == [e] && [e][1..] == [];
    assert ActAll(x4.store, x4.replica, [e]) == ActAll(x5.store, x5.replica, []) == x5;
    assert ActAll(x3.store, x3.replica, [d, e]) == x5;
    assert ActAll(x2.store, x2.replica, [c, d, e]) == x5;
    assert ActAll(x1.store, x1.replica, [b, c, d, e]) == x5;
  }

  lemma ActThree(st: Store, rep: Replica, a: Action, b: Action, c: Action)
    ensures var x1 := Act(st, rep, a);
            var x2 := Act(x1.store, x1.replica, b);
            ActAll(st, rep, [a, b, c]) == Act(x2.store, x2.replica, c)
  {
    var x1 := Act(st, rep, a);
    var x2 := Act(x1.store, x1.replica, b);
    var x3 := Act(x2.store, x2.replica, c);
    assert [a, b, c][1..] == [b, c] && [b, c][1..] == [c] && [c][1..] == [];
    assert ActAll(x2.store, x2.replica, [c]) == ActAll(x3.store, x3.replica, []) == x3;
    assert ActAll(x1.store, x1.replica, [b, c]) == x3;
  }

  lemma ActFour(st: Store, rep: Replica, a: Action, b: Action, c: Action, d: Action)
    ensures var x1 := Act(st, rep, a);
            var x2 := Act(x1.store, x1.replica, b);
            var x3 := Act(x2.store, x2.replica, c);
            ActAll(st, rep, [a, b, c, d]) == Act(x3.store, x3.replica, d)
  {
    hide Act;
    var x1 := Act(st, rep, a);
    ActThree(x1.store, x1.replica, b, c, d);
    assert [a, b, c, d][1..] == [b, c, d];
  }

  /** A standby that wins the lock: reload, then confirm or resign. */
  function Promotion(rep: Replica, won: Out<LockVerdict>, t: Answers): Acted {
    var out := Load(won.backend, won.store, t.load, t.decodes);
    if out.result.NotLoaded? then
      var resigned := Resign(out.backend, won.store, t.unlock);
      Acted(resigned.store, rep.(backend := resigned.backend))
    else
      Acted(won.store, rep.(backend := out.backend.(isWriter := true), mem := Images(out.result.rows), rollbackFailed := false))
  }

  /** A standby that stays one: poll, and reload when the sum moved. */
  function Following(rep: Replica, refused: Out<LockVerdict>, t: Answers): Acted {
    var polled := StoreVersion(refused.backend, refused.store, t.poll);
    if polled.result.PollFailed? || Some(polled.result.sum) == rep.lastVersion then
      Acted(refused.store, rep.(backend := polled.backend))
    else
      var out := Load(polled.backend, refused.store, t.load, t.decodes);
      if out.result.NotLoaded? then Acted(refused.store, rep.(backend := out.backend))
      else Acted(refused.store, rep.(backend := out.backend, mem := Images(out.result.rows), rollbackFailed := false,
                                     lastVersion := Some(polled.result.sum)))
  }

  lemma StandbyTickActions(st: Store, rep: Replica, t: Answers)
    requires !rep.backend.isWriter && rep.race.Standing?
    ensures var lock := TryLock(rep.backend, st, t.probe, t.connects, t.lock);
            ActAll(st, rep, TickActions(st, rep, t))
            == match lock.result
               case Won => Promotion(rep, lock, t)
               case Refused => Following(rep, lock, t)
               case LockError => Acted(lock.store, rep.(backend := lock.backend))
  {
    hide Load, StoreVersion, Resign;
    var race := RaceForLock(t.probe, t.connects, t.lock);
    var x := Act(st, rep, race);
    if TryLock(rep.backend, st, t.probe, t.connects, t.lock).result.LockError? {
      assert [race][1..] == [];
      assert ActAll(x.store, x.replica, []) == x;
    } else {
      ActFive(st, rep, race, Poll(t.poll), Reload(t.load, t.decodes), Confirm, GiveUp(t.unlock));
    }
  }

  class ControlPlane {
    const backend: PostgresBackend
    var mem: Four<Image>
    var flush: Four<Flush>
    var rollbackFailed: bool
    var lastVersion: Option<nat>
    var ready: bool

    constructor (backend: PostgresBackend, mem: Four<Image>)
      ensures this.backend == backend && this.mem == mem && flush == Four(Idle, Idle, Idle, Idle)
      ensures !rollbackFailed && lastVersion == None && !ready
    {
      this.backend, this.mem, flush := backend, mem, Four(Idle, Idle, Idle, Idle);
      rollbackFailed, lastVersion, ready := false, None, false;
    }

    function View(): Replica
      reads this, backend
    {
      Replica(backend.View(), mem, flush, rollbackFailed, Standing, lastVersion)
    }

    /** Memory and baseline are the store's current rows. */
    ghost predicate InSync()
      reads this, backend, backend.db
    {
      forall k: Key :: && mem.At(k).loaded == Current(backend.db.state, k).doc
                       && mem.At(k).base == Lookup(backend.versions, k) == Current(backend.db.state, k).version
    }

    /** Replace the whole in-memory catalog by the store's, or leave it alone. */
    method ReloadCatalog(reply: Reply, decodes: bool) returns (ok: bool)
      modifies this`mem, this`rollbackFailed, backend`isWriter, backend`versions
      ensures var out := Load(old(backend.View()), backend.db.state, reply, decodes);
              && backend.View() == out.backend && ok == out.result.Rows?
              && (if ok then mem == Images(out.result.rows) && !rollbackFailed
                  else mem == old(mem) && rollbackFailed == old(rollbackFailed))
      ensures ok <==> backend.Hears(reply) && decodes
      ensures ok ==> InSync() && backend.isWriter == old(backend.isWriter)
    {
      var loaded := backend.LoadRows(reply, decodes);
      ok := loaded.Rows?;
      if ok {
        mem, rollbackFailed := Images(loaded.rows), false;
      }
    }

    /** Put the registry document back to what the store holds, or latch `rollbackFailed`. */
    method RestoreCore(reply: Reply, decodes: bool)
      modifies this`mem, this`rollbackFailed, backend`isWriter, backend`versions
      ensures var out := Load(old(backend.View()), backend.db.state, reply, decodes);
              && backend.View() == out.backend && rollbackFailed == out.result.NotLoaded?
              && mem == if rollbackFailed then old(mem) else old(mem).With(Registry, ImageOf(Registry, out.result.rows.registry))
      ensures rollbackFailed <==> !(backend.Hears(reply) && decodes)
      ensures !rollbackFailed ==> mem.registry == Image(Current(backend.db.state, Registry).version, Current(backend.db.state, Registry).doc, [])
    {
      var loaded := backend.LoadRows(reply, decodes);
      rollbackFailed := loaded.NotLoaded?;
      if loaded.Rows? {
        mem := mem.With(Registry, ImageOf(Registry, loaded.rows.registry));
      }
    }

    /**
     Persist the registry document with rollback: what a call that reports
     success persisted is what memory holds, and a call that fails leaves memory
     at the store's row unless the rollback failed as well.
     */
    method PersistSnapshot(reply: Reply, unlock: Reply, restore: Reply, decodes: bool) returns (ok: bool)
      requires flush.registry.Idle?
      modifies this, backend, backend.db
      ensures Acted(backend.db.state, View())
              == ActAll(old(backend.db.state), old(View()),
                        [Capture(Registry), PersistCaptured(Registry, reply, unlock), Restore(restore, decodes)])
      ensures ok ==> Current(backend.db.state, Registry).doc == old(mem.registry.Contents()) == mem.registry.Contents()
      ensures !ok ==> rollbackFailed || mem.registry == ImageOf(Registry, Current(backend.db.state, Registry))
      ensures ok <==> && !old(rollbackFailed) && old(backend.isWriter) && old(backend.Hears(reply))
                      && (old(backend.db.state.log.registry) == []
                          || Current(old(backend.db.state), Registry).version == old(Lookup(backend.versions, Registry)))
    {
      ActThree(backend.db.state, View(), Capture(Registry), PersistCaptured(Registry, reply, unlock), Restore(restore, decodes));
      if rollbackFailed {
        RestoreCore(restore, decodes);
        return false;
      }
      var image := mem.registry;
      var verdict := backend.PersistDoc(Registry, image.Contents(), reply, unlock);
      if verdict == Persisted {
        mem := mem.With(Registry, Image(Lookup(backend.versions, Registry), image.Contents(), []));
        assert image.own[|image.own|..] == [];
        return true;
      }
      RestoreCore(restore, decodes);
      ok := false;
    }

    /**
     Revoke sessions durably or not at all: a reported revocation is in the
     store's row, and a refused one is out of memory again.
     */
    method RevokeSessions(bump: Mutation, reply: Reply, unlock: Reply) returns (ok: bool)
      requires flush.sessions.Idle?
      modifies this`mem, backend, backend.db
      ensures Acted(backend.db.state, View())
              == ActAll(old(backend.db.state), old(View()),
                        [Mutate(Sessions, bump), Capture(Sessions), PersistCaptured(Sessions, reply, unlock),
                         Undo(|old(mem.sessions.own)|)])
      ensures ok ==> bump in Current(backend.db.state, Sessions).doc && mem.sessions.Contents() == old(mem.sessions.Contents()) + [bump]
      ensures !ok ==> mem == old(mem)
      ensures ok <==> && old(backend.isWriter) && old(backend.Hears(reply))
                      && (old(backend.db.state.log.sessions) == []
                          || Current(old(backend.db.state), Sessions).version == old(Lookup(backend.versions, Sessions)))
    {
      var image := mem.sessions;
      ActFour(backend.db.state, View(), Mutate(Sessions, bump), Capture(Sessions),
              PersistCaptured(Sessions, reply, unlock), Undo(|image.own|));
      var bumped := image.(own := image.own + [bump]);
      mem := mem.With(Sessions, bumped);
      var verdict := backend.PersistDoc(Sessions, bumped.Contents(), reply, unlock);
      ok := verdict == Persisted;
      assert bumped.Contents() == image.Contents() + [bump];
      if ok {
        mem := mem.With(Sessions, Image(Lookup(backend.versions, Sessions), bumped.Contents(), []));
        assert bumped.own[|bumped.own|..] == [];
      } else {
        mem := mem.With(Sessions, image.(own := bumped.own[..|image.own|]));
        assert bumped.own[..|image.own|] == image.own && Without(bumped.own, |image.own|) == image.own;
      }
    }

    /**
     One tick of the leadership loop. It is exactly the steps `TickActions` lists.
     A writer whose session answers stays the writer and nothing else changes; one
     whose session does not answer steps down. A standby that finds the lock free
     and can load the rows becomes the writer on them, and gives the lock back if it
     cannot; one that finds it taken follows the rows.
     */
    method Tick(t: Answers)
      modifies this, backend, backend.db
      ensures Acted(backend.db.state, View())
              == ActAll(old(backend.db.state), old(View()), TickActions(old(backend.db.state), old(View()), t))
      ensures ready <==> backend.isWriter
      ensures ready ==> backend.session in backend.db.state.live
      ensures ready ==> if old(backend.isWriter) then t.probe.Answered? else t.lock.Answered? && t.load.Answered? && t.decodes
      ensures old(backend.isWriter) && old(backend.Hears(t.probe)) ==>
                ready && backend.db.state == old(backend.db.state) && View() == old(View())
      ensures old(backend.isWriter) && !old(backend.Hears(t.probe)) ==>
                && !ready && lastVersion == None && mem == old(mem) && backend.db.state.log == old(backend.db.state.log)
                && (old(backend.Reaches(t.unlock)) && old(backend.db.state.lock) == Held(old(backend.session), 1)
                    ==> backend.db.state.lock == Free)
      ensures !old(backend.isWriter) && old(backend.Hears(t.probe) || t.connects) && t.lock.Answered? && old(backend.db.state.lock).Free? ==>
                && backend.session == (if old(backend.Hears(t.probe)) then old(backend.session) else old(backend.db.state.issued))
                && (ready <==> t.load.Answered? && t.decodes)
                && (ready ==> backend.db.state.lock == Held(backend.session, 1) && InSync())
                && (!ready && (t.unlock.Answered? || t.unlock.executed) ==> backend.db.state.lock == Free)
      ensures !old(backend.isWriter) && old(backend.Hears(t.probe)) && t.lock.Answered?
              && old(backend.db.state.lock).Held? && old(backend.db.state.lock).owner != old(backend.session) ==>
                && !ready && backend.db.state == old(backend.db.state)
                && (t.poll.Answered? && t.load.Answered? && t.decodes
                    ==> && lastVersion == Some(Sum(Versions(backend.db.state)))
                        && (lastVersion != old(lastVersion) ==> InSync()) && (lastVersion == old(lastVersion) ==> mem == old(mem)))
    {
      if backend.isWriter {
        TickAsWriter(t);
        return;
      }
      StandbyTickActions(backend.db.state, View(), t);
      var verdict := backend.TryBecomeLeader(t.probe, t.connects, t.lock);
      ready := false;
      match verdict
      case LockError =>
      case Won => Promote(t);
      case Refused => Follow(t);
    }

    method Promote(t: Answers)
      requires !backend.isWriter && !ready
      modifies this, backend, backend.db
      ensures Acted(backend.db.state, View())
              == Promotion(old(View()), Out(old(backend.View()), old(backend.db.state), Won), t)
      ensures ready <==> backend.isWriter
      ensures ready ==> backend.session in backend.db.state.live && t.load.Answered? && t.decodes
      ensures ready <==> old(backend.Hears(t.load)) && t.decodes
      ensures ready ==> InSync() && backend.db.state == old(backend.db.state)
      ensures !ready && old(backend.Reaches(t.unlock)) && old(backend.db.state.lock) == Held(old(backend.session), 1)
              ==> backend.db.state.lock == Free
    {
      var ok := ReloadCatalog(t.load, t.decodes);
      if ok {
        backend.ConfirmLeadership();
        ready := true;
      } else {
        backend.ResignLeadership(t.unlock);
      }
    }

    method Follow(t: Answers)
      requires !backend.isWriter
      modifies this`mem, this`rollbackFailed, this`lastVersion, backend`isWriter, backend`versions
      ensures Acted(backend.db.state, View())
              == Following(old(View()), Out(old(backend.View()), backend.db.state, Refused), t)
      ensures !backend.isWriter
      ensures backend.Hears(t.poll) && backend.Hears(t.load) && t.decodes ==>
                && lastVersion == Some(Sum(Versions(backend.db.state)))
                && (lastVersion != old(lastVersion) ==> InSync()) && (lastVersion == old(lastVersion) ==> mem == old(mem))
    {
      var polled := backend.PollVersion(t.poll);
      if polled.Total? && Some(polled.sum) != lastVersion {
        var ok := ReloadCatalog(t.load, t.decodes);
        if ok {
          lastVersion := Some(polled.sum);
        }
      }
    }

    method TickAsWriter(t: Answers)
      requires backend.isWriter
      modifies this`ready, this`lastVersion, backend`isWriter, backend.db
      ensures Acted(backend.db.state, View())
              == ActAll(old(backend.db.state), old(View()), [CheckLeadership(t.probe), GiveUp(t.unlock)])
      ensures ready <==> backend.isWriter
      ensures ready ==> backend.session in backend.db.state.live && t.probe.Answered?
      ensures ready <==> old(backend.Hears(t.probe))
      ensures ready ==> backend.db.state == old(backend.db.state) && View() == old(View())
      ensures !ready ==> lastVersion == None && backend.db.state.log == old(backend.db.state.log)
      ensures !ready && old(backend.Reaches(t.unlock)) && old(backend.db.state.lock) == Held(old(backend.session), 1)
              ==> backend.db.state.lock == Free
    {
      ghost var a, b := CheckLeadership(t.probe), GiveUp(t.unlock);
      ghost var x1 := Act(backend.db.state, View(), a);
      ghost var x2 := Act(x1.store, x1.replica, b);
      assert [a, b][1..] == [b] && [b][1..] == [];
      assert ActAll(x1.store, x1.replica, [b]) == ActAll(x2.store, x2.replica, []) == x2;
      var held := backend.VerifyLeadership(t.probe);
      if held {
        ready := true;
      } else {
        ready := false;
        backend.ResignLeadership(t.unlock);
        lastVersion := None;
      }
    }
  }
}
