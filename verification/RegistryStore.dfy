/**
 The shared Postgres table behind the control plane, and what each method of
 `PostgresBackend` does to it.

 The table is modelled by everything it has ever held: for each of the four
 logical documents, the list of rows it went through. The last one is the row
 a query sees. A document is the list of mutations folded into it, so "this
 version was built from that one" is the prefix order on lists.
 */
module RegistryStore {

  /** The four rows of `cp_state`. */
  datatype Key = Registry | Activity | Sessions | Jobs

  /** One value per row of `cp_state`. */
  datatype Four<T> = Four(registry: T, activity: T, sessions: T, jobs: T)
  {
    function At(k: Key): T {
      match k
      case Registry => registry
      case Activity => activity
      case Sessions => sessions
      case Jobs => jobs
    }

    function With(k: Key, v: T): Four<T> {
      match k
      case Registry => this.(registry := v)
      case Activity => this.(activity := v)
      case Sessions => this.(sessions := v)
      case Jobs => this.(jobs := v)
    }
  }

  function Sum(f: Four<nat>): nat {
    f.registry + f.activity + f.sessions + f.jobs
  }

  /** A change folded into a document; the job marks are what the jobs document records of a reindex. */
  datatype Mutation = Edit(n: nat) | StartJob(id: nat) | EndJob(id: nat) | FailUnfinished

  type Doc = seq<Mutation>
  type Session = nat

  datatype Row = Row(version: nat, doc: Doc)

  /** The session-level advisory lock; Postgres counts re-entrant acquisitions. */
  datatype Lock = Free | Held(owner: Session, depth: nat)

  /** `log.At(k)` lists the rows held for `k`, oldest first; session ids below `issued` were handed out. */
  datatype Store = Store(log: Four<seq<Row>>, lock: Lock, live: set<Session>, issued: nat)

  /** The row a query sees; an absent row reads as version 0, as in the version sum and the guard's default. */
  function Current(st: Store, k: Key): Row {
    if st.log.At(k) == [] then Row(0, []) else st.log.At(k)[|st.log.At(k)| - 1]
  }

  function Versions(st: Store): Four<nat> {
    Four(Current(st, Registry).version, Current(st, Activity).version,
         Current(st, Sessions).version, Current(st, Jobs).version)
  }

  /** The document row `k` held at version `v`; nothing at version 0. */
  function DocAt(st: Store, k: Key, v: nat): Doc
    requires v <= |st.log.At(k)|
  {
    if v == 0 then [] else st.log.At(k)[v - 1].doc
  }

  /** Whether the guarded `INSERT .. ON CONFLICT .. WHERE version = expected` changes a row. */
  predicate Accepts(st: Store, k: Key, expected: nat) {
    st.log.At(k) == [] || Current(st, k).version == expected
  }

  function Upsert(st: Store, k: Key, expected: nat, doc: Doc): Store {
    if st.log.At(k) == [] then
      st.(log := st.log.With(k, [Row(expected + 1, doc)]))
    else if Current(st, k).version == expected then
      st.(log := st.log.With(k, st.log.At(k) + [Row(Current(st, k).version + 1, doc)]))
    else
      st
  }

  /** The `i`-th row of every log carries version `i + 1`. */
  ghost predicate Numbered(st: Store) {
    forall k: Key, i: nat {:trigger st.log.At(k)[i]} ::
      i < |st.log.At(k)| ==> st.log.At(k)[i].version == i + 1
  }

  /** Rows are only ever added. */
  ghost predicate Grows(st: Store, st': Store) {
    forall k: Key :: st.log.At(k) <= st'.log.At(k)
  }

  /** Every version of row `k` was built on all the versions before it. */
  ghost predicate Chain(st: Store, k: Key) {
    forall i: nat, j: nat {:trigger DocAt(st, k, i), DocAt(st, k, j)} ::
      i <= j <= |st.log.At(k)| ==> DocAt(st, k, i) <= DocAt(st, k, j)
  }

  // ---------------------------------------------------------------- sessions

  /** How a statement sent to the worker ended; a failed one may still have been executed. */
  datatype Reply = Answered | Failed(executed: bool, workerGone: bool)

  datatype Backend = Backend(isWriter: bool, versions: Four<nat>, session: Session)

  /** The statement ran. */
  predicate Ran(st: Store, b: Backend, reply: Reply) {
    b.session in st.live && (reply.Answered? || reply.executed)
  }

  /** The statement ran and its result came back. */
  predicate Heard(st: Store, b: Backend, reply: Reply) {
    b.session in st.live && reply.Answered?
  }

  /** A dead worker thread clears the writer flag at once; a failed query alone does not. */
  function OnWorker(b: Backend, reply: Reply): Backend {
    if reply.Failed? && reply.workerGone then b.(isWriter := false) else b
  }

  function Unlock(lock: Lock, s: Session): Lock {
    if lock.Held? && lock.owner == s then
      if lock.depth <= 1 then Free else Held(s, lock.depth - 1)
    else
      lock
  }

  predicate CanLock(lock: Lock, s: Session) {
    lock.Free? || lock.owner == s
  }

  function TakeLock(lock: Lock, s: Session): Lock {
    if lock.Free? then Held(s, 1)
    else if lock.owner == s then Held(s, lock.depth + 1)
    else lock
  }

  function SessionDies(st: Store, s: Session): Store {
    st.(live := st.live - {s}, lock := if st.lock.Held? && st.lock.owner == s then Free else st.lock)
  }

  // --------------------------------------------------------- backend methods

  datatype Verdict = Persisted | NotLeader | StoreFailed

  datatype Out<T> = Out(backend: Backend, store: Store, result: T)

  function Resign(b: Backend, st: Store, unlock: Reply): Out<()> {
    Out(b.(isWriter := false), if Ran(st, b, unlock) then st.(lock := Unlock(st.lock, b.session)) else st, ())
  }

  function Persist(b: Backend, st: Store, k: Key, doc: Doc, reply: Reply, unlock: Reply): Out<Verdict> {
    if !b.isWriter then
      Out(b, st, NotLeader)
    else
      var expected := b.versions.At(k);
      var st1 := if Ran(st, b, reply) then Upsert(st, k, expected, doc) else st;
      if !Heard(st, b, reply) then
        var out := Resign(b, st1, unlock);
        Out(out.backend, out.store, StoreFailed)
      else if Accepts(st, k, expected) then
        Out(b.(versions := b.versions.With(k, expected + 1)), st1, Persisted)
      else
        var out := Resign(b, st1, unlock);
        Out(out.backend, out.store, NotLeader)
  }

  /** What a load hands back: nothing when the query failed or a document did not decode. */
  datatype Loaded = NotLoaded | Rows(rows: Four<Row>)

  /** The version baseline moves as soon as the rows arrive, before any of them is decoded. */
  function Load(b: Backend, st: Store, reply: Reply, decodes: bool): Out<Loaded> {
    if !Heard(st, b, reply) then
      Out(OnWorker(b, reply), st, NotLoaded)
    else
      Out(b.(versions := Versions(st)), st,
          if decodes then Rows(Four(Current(st, Registry), Current(st, Activity), Current(st, Sessions), Current(st, Jobs)))
          else NotLoaded)
  }

  datatype LockVerdict = LockError | Won | Refused

  /** Replace the session by a newly connected one; the old one lingers at the server until it dies. */
  function Revive(b: Backend, st: Store): Out<()> {
    Out(b.(session := st.issued), st.(live := st.live + {st.issued}, issued := st.issued + 1), ())
  }

  function TryLock(b: Backend, st: Store, probe: Reply, connects: bool, reply: Reply): Out<LockVerdict> {
    if b.isWriter then
      Out(b, st, Won)
    else if !Heard(st, b, probe) && !connects then
      Out(OnWorker(b, probe), st, LockError)
    else
      var conn := if Heard(st, b, probe) then Out(b, st, ()) else Revive(b, st);
      var st1 := if Ran(conn.store, conn.backend, reply)
                 then conn.store.(lock := TakeLock(conn.store.lock, conn.backend.session))
                 else conn.store;
      Out(OnWorker(conn.backend, reply), st1,
          if !Heard(conn.store, conn.backend, reply) then LockError
          else if CanLock(conn.store.lock, conn.backend.session) then Won else Refused)
  }

  /** The session answers or the writer flag is cleared. */
  function Verify(b: Backend, st: Store, probe: Reply): Out<bool> {
    if !b.isWriter then Out(b, st, false)
    else if Heard(st, b, probe) then Out(b, st, true)
    else Out(b.(isWriter := false), st, false)
  }

  datatype Polled = PollFailed | Total(sum: nat)

  function StoreVersion(b: Backend, st: Store, reply: Reply): Out<Polled> {
    if Heard(st, b, reply) then Out(b, st, Total(Sum(Versions(st))))
    else Out(OnWorker(b, reply), st, PollFailed)
  }

  // ------------------------------------------------------------------ lemmas

  lemma CurrentIsNumbered(st: Store, k: Key)
    requires Numbered(st)
    ensures Current(st, k).version == |st.log.At(k)|
    ensures Current(st, k).doc == DocAt(st, k, |st.log.At(k)|)
    ensures Versions(st).At(k) == |st.log.At(k)|
  {
  }

  /** Adding one row numbered next to one log keeps every log numbered. */
  lemma RowAdded(st: Store, k: Key, row: Row)
    requires Numbered(st) && row.version == |st.log.At(k)| + 1
    ensures var st' := st.(log := st.log.With(k, st.log.At(k) + [row]));
            && Numbered(st') && Grows(st, st') && st'.log.At(k) == st.log.At(k) + [row]
            && (forall o: Key :: o != k ==> st'.log.At(o) == st.log.At(o))
  {
    var st' := st.(log := st.log.With(k, st.log.At(k) + [row]));
    forall o: Key, i: nat | i < |st'.log.At(o)| ensures st'.log.At(o)[i].version == i + 1 {
      if o != k { assert st'.log.At(o) == st.log.At(o); }
      if i < |st.log.At(o)| { assert st.log.At(o)[i].version == i + 1; }
    }
  }

  /** A guarded write at a baseline the table has reached adds one numbered version to one row, or changes nothing. */
  lemma UpsertGrows(st: Store, k: Key, expected: nat, doc: Doc)
    requires Numbered(st) && expected <= |st.log.At(k)|
    ensures var st' := Upsert(st, k, expected, doc);
            && Numbered(st') && Grows(st, st')
            && (forall o: Key :: o != k ==> st'.log.At(o) == st.log.At(o))
            && (if Accepts(st, k, expected)
                then expected == |st.log.At(k)| && st'.log.At(k) == st.log.At(k) + [Row(expected + 1, doc)]
                else st' == st)
  {
    hide Numbered, Grows;
    CurrentIsNumbered(st, k);
    if Accepts(st, k, expected) {
      assert [] + [Row(expected + 1, doc)] == [Row(expected + 1, doc)];
      RowAdded(st, k, Row(expected + 1, doc));
    } else {
      NothingGrows(st);
    }
  }

  lemma NothingGrows(st: Store)
    ensures Grows(st, st)
  {
  }

  lemma DocAtIsStable(st: Store, st': Store, k: Key, v: nat)
    requires Grows(st, st') && v <= |st.log.At(k)|
    ensures v <= |st'.log.At(k)| && DocAt(st', k, v) == DocAt(st, k, v)
  {
    assert st.log.At(k) <= st'.log.At(k);
  }

  /** Writing a document that extends the current row keeps the chain; writing any other breaks it. */
  lemma ChainExtends(st: Store, st': Store, k: Key, row: Row)
    requires Chain(st, k) && st'.log.At(k) == st.log.At(k) + [row]
    ensures Chain(st', k) <==> DocAt(st, k, |st.log.At(k)|) <= row.doc
  {
    var n := |st.log.At(k)|;
    forall i: nat | i <= n ensures DocAt(st', k, i) == DocAt(st, k, i) {}
    assert DocAt(st', k, n + 1) == row.doc;
    if DocAt(st, k, n) <= row.doc {
      forall i: nat, j: nat | i <= j <= n + 1 ensures DocAt(st', k, i) <= DocAt(st', k, j) {
        if j == n + 1 && i <= n {
          assert DocAt(st, k, i) <= DocAt(st, k, n);
        }
      }
    } else {
      assert !(DocAt(st', k, n) <= DocAt(st', k, n + 1));
    }
  }
}
