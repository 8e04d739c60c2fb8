/**
 Durable atomic file writes over a file system that keeps its promises and no
 more: bytes survive a power loss once their file was synced, a directory entry
 once the directory was synced; what was not synced survives or not, entry by
 entry, in any combination.
 */
module DurableFiles {
  import opened Script
  import opened Wrappers
  import opened ObjectPrefix

  /** The two names of interest; temporary names are unique and never reused. */
  datatype Name = Path | Prev

  type Inode = nat

  datatype File = File(bytes: Bytes, synced: bool)

  /** `now`: what a lookup finds. `maybe`: what a lookup may find after a power loss. */
  datatype Entry = Entry(now: Option<Inode>, maybe: set<Option<Inode>>)

  datatype Fs = Fs(files: map<Inode, File>, path: Entry, prev: Entry, temp: Option<Inode>, unused: Inode)

  datatype Op = CreateTemp | WriteTemp(bytes: Bytes) | SyncTemp | DropTemp | Rename(name: Name) | RemovePrev | LinkPrev | SyncDir

  function Bind(e: Entry, to: Option<Inode>): Entry {
    Entry(to, e.maybe + {to})
  }

  function Do(fs: Fs, op: Op): Fs {
    match op
    case CreateTemp => fs.(files := fs.files[fs.unused := File([], false)], temp := Some(fs.unused), unused := fs.unused + 1)
    case WriteTemp(bytes) =>
      if fs.temp.Some? then fs.(files := fs.files[fs.temp.value := File(bytes, false)]) else fs
    case SyncTemp =>
      if fs.temp.Some? && fs.temp.value in fs.files
      then fs.(files := fs.files[fs.temp.value := fs.files[fs.temp.value].(synced := true)]) else fs
    case DropTemp => fs.(temp := None)
    case Rename(name) =>
      if fs.temp.None? then fs
      else if name.Path? then fs.(path := Bind(fs.path, fs.temp), temp := None)
      else fs.(prev := Bind(fs.prev, fs.temp), temp := None)
    case RemovePrev => fs.(prev := Bind(fs.prev, None))
    case LinkPrev => fs.(prev := Bind(fs.prev, fs.path.now))
    case SyncDir => fs.(path := Entry(fs.path.now, {fs.path.now}), prev := Entry(fs.prev.now, {fs.prev.now}))
  }

  function DoAll(fs: Fs, ops: seq<Op>): Fs {
    Perform(Do, fs, ops)
  }

  /** What a power loss can leave: each name keeps one of its possible entries, and unsynced bytes are anything. */
  ghost predicate Survives(fs: Fs, after: Fs) {
    && after.path.now in fs.path.maybe && after.path.maybe == {after.path.now}
    && after.prev.now in fs.prev.maybe && after.prev.maybe == {after.prev.now}
    && after.temp.None? && fs.unused <= after.unused
    && (forall i :: i in fs.files ==> i in after.files && (fs.files[i].synced ==> after.files[i] == fs.files[i]))
    && (forall i :: i in after.files ==> i < after.unused)
  }

  // ------------------------------------------------------------ the two writers

  /** Which step of a `write` fails, if any. */
  datatype Luck = Fine | TempFails | RenameFails | SyncDirFails

  function WriteOps(name: Name, bytes: Bytes, luck: Luck): seq<Op> {
    match luck
    case TempFails => [CreateTemp, DropTemp]
    case RenameFails => [CreateTemp, WriteTemp(bytes), SyncTemp, DropTemp]
    case SyncDirFails => [CreateTemp, WriteTemp(bytes), SyncTemp, Rename(name)]
    case Fine => [CreateTemp, WriteTemp(bytes), SyncTemp, Rename(name), SyncDir]
  }

  /** How the steps of one `write_keeping_prev` go. */
  datatype Lucks = Lucks(removes: bool, links: bool, readable: bool, prev: Luck, path: Luck)

  function Visible(fs: Fs, e: Entry): Option<Bytes> {
    if e.now.Some? && e.now.value in fs.files then Some(fs.files[e.now.value].bytes) else None
  }

  /** The hard link works: the name is free and the file system links. */
  predicate Links(fs: Fs, l: Lucks) {
    l.links && (l.removes || fs.prev.now.None?)
  }

  /** Rolling `.prev`: a hard link when the name is free and linking works, else a durable copy. */
  function RollOps(fs: Fs, l: Lucks): seq<Op> {
    if fs.path.now.None? then []
    else
      var remove: seq<Op> := if l.removes then [RemovePrev] else [];
      if Links(fs, l) then remove + [LinkPrev]
      else if l.readable && Visible(fs, fs.path).Some? then remove + WriteOps(Prev, Visible(fs, fs.path).value, l.prev)
      else remove
  }

  /** A failed fallback copy aborts the call before the new contents are written. */
  predicate RollFails(fs: Fs, l: Lucks) {
    && fs.path.now.Some? && !Links(fs, l)
    && l.readable && Visible(fs, fs.path).Some? && !l.prev.Fine?
  }

  function KeepPrevOps(fs: Fs, bytes: Bytes, l: Lucks): seq<Op> {
    RollOps(fs, l) + if RollFails(fs, l) then [] else WriteOps(Path, bytes, l.path)
  }

  predicate Acks(fs: Fs, l: Lucks) {
    !RollFails(fs, l) && l.path.Fine?
  }

  // -------------------------------------------------------------- the invariant

  /** The documents the path may hold: the last acknowledged one and those tried since; absent only before any was acknowledged. */
  datatype Tried = Tried(acked: Option<Bytes>, since: set<Bytes>, ever: set<Bytes>)

  ghost predicate Whole(fs: Fs, i: Option<Inode>, docs: set<Bytes>) {
    i.Some? ==> i.value in fs.files && fs.files[i.value].synced && fs.files[i.value].bytes in docs
  }

  function Allowed(t: Tried): set<Bytes> {
    t.since + if t.acked.Some? then {t.acked.value} else {}
  }

  ghost predicate Ok(fs: Fs, t: Tried) {
    && fs.path.now in fs.path.maybe && fs.prev.now in fs.prev.maybe
    && (forall i :: i in fs.path.maybe ==> Whole(fs, i, Allowed(t)) && (t.acked.Some? ==> i.Some?))
    && (forall i :: i in fs.prev.maybe ==> Whole(fs, i, t.ever))
    && Allowed(t) <= t.ever
    && (forall i :: i in fs.files ==> i < fs.unused)
    && (fs.temp.Some? ==> fs.temp.value in fs.files && fs.temp !in fs.path.maybe && fs.temp !in fs.prev.maybe)
  }

  /** What is about to be renamed into place is a whole, synced document of `docs`. */
  ghost predicate TempReady(fs: Fs, docs: set<Bytes>) {
    fs.temp.Some? && Whole(fs, fs.temp, docs)
  }

  /** Any single step keeps the invariant, a rename provided the temp file is ready. */
  lemma StepKeepsOk(fs: Fs, t: Tried, op: Op)
    requires Ok(fs, t)
    requires op.Rename? ==> TempReady(fs, if op.name.Path? then Allowed(t) else t.ever)
    ensures Ok(Do(fs, op), t)
  {
    var fs' := Do(fs, op);
    forall i | i in fs'.path.maybe ensures Whole(fs', i, Allowed(t)) && (t.acked.Some? ==> i.Some?) {
      if i in fs.path.maybe { assert Whole(fs, i, Allowed(t)); }
    }
    forall i | i in fs'.prev.maybe ensures Whole(fs', i, t.ever) {
      if i in fs.prev.maybe {
        assert Whole(fs, i, t.ever);
      } else if i in fs.path.maybe {
        assert Whole(fs, i, Allowed(t));
      }
    }
  }

  lemma WriteThree(fs: Fs, bytes: Bytes)
    ensures DoAll(fs, [CreateTemp, WriteTemp(bytes), SyncTemp])
            == fs.(files := fs.files[fs.unused := File(bytes, true)], temp := Some(fs.unused), unused := fs.unused + 1)
  {
    hide Perform;
    var a, b, c := CreateTemp, WriteTemp(bytes), SyncTemp;
    assert [a, b, c] == ([] + [a]) + [b] + [c];
    PerformNone(Do, fs);
    PerformOne(Do, fs, [], a);
    PerformOne(Do, fs, [] + [a], b);
    PerformOne(Do, fs, [] + [a] + [b], c);
    var i: Inode, files: map<Inode, File> := fs.unused, fs.files;
    assert files[i := File([], false)][i := File(bytes, false)][i := File(bytes, true)] == files[i := File(bytes, true)];
  }

  /** After the temp file was created, written and synced it is ready. */
  lemma TempIsReady(fs: Fs, t: Tried, bytes: Bytes, docs: set<Bytes>)
    requires Ok(fs, t) && bytes in docs
    ensures TempReady(DoAll(fs, [CreateTemp, WriteTemp(bytes), SyncTemp]), docs)
  {
    WriteThree(fs, bytes);
  }

  /** Every prefix of a write keeps the invariant. */
  lemma {:induction false} WriteKeepsOk(fs: Fs, t: Tried, name: Name, bytes: Bytes, luck: Luck, n: nat)
    requires Ok(fs, t) && bytes in (if name.Path? then Allowed(t) else t.ever) && n <= |WriteOps(name, bytes, luck)|
    ensures Ok(DoAll(fs, WriteOps(name, bytes, luck)[..n]), t)
    decreases n
  {
    var ops := WriteOps(name, bytes, luck);
    if n == 0 {
      assert ops[..0] == [];
    } else {
      WriteKeepsOk(fs, t, name, bytes, luck, n - 1);
      assert ops[..n] == ops[..n - 1] + [ops[n - 1]];
      PerformOne(Do, fs, ops[..n - 1], ops[n - 1]);
      if ops[n - 1].Rename? {
        assert ops[..n - 1] == [CreateTemp, WriteTemp(bytes), SyncTemp];
        TempIsReady(fs, t, bytes, if name.Path? then Allowed(t) else t.ever);
      }
      StepKeepsOk(DoAll(fs, ops[..n - 1]), t, ops[n - 1]);
    }
  }

  lemma {:induction false} EasyStepsKeepOk(fs: Fs, t: Tried, ops: seq<Op>, n: nat)
    requires Ok(fs, t) && n <= |ops| && forall i :: 0 <= i < |ops| ==> !ops[i].Rename?
    ensures Ok(DoAll(fs, ops[..n]), t)
    decreases n
  {
    if n == 0 {
      assert ops[..0] == [];
    } else {
      EasyStepsKeepOk(fs, t, ops, n - 1);
      assert ops[..n] == ops[..n - 1] + [ops[n - 1]];
      PerformOne(Do, fs, ops[..n - 1], ops[n - 1]);
      StepKeepsOk(DoAll(fs, ops[..n - 1]), t, ops[n - 1]);
    }
  }

  /** Every prefix of rolling `.prev` keeps the invariant. */
  lemma RollKeepsOk(fs: Fs, t: Tried, l: Lucks, n: nat)
    requires Ok(fs, t) && n <= |RollOps(fs, l)|
    ensures Ok(DoAll(fs, RollOps(fs, l)[..n]), t)
  {
    if fs.path.now.Some? {
      var remove: seq<Op> := if l.removes then [RemovePrev] else [];
      if Links(fs, l) {
        EasyStepsKeepOk(fs, t, remove + [LinkPrev], n);
      } else if l.readable && Visible(fs, fs.path).Some? {
        assert Whole(fs, fs.path.now, Allowed(t));
        var copy := WriteOps(Prev, Visible(fs, fs.path).value, l.prev);
        PerformPrefix(Do, fs, remove, copy, n);
        if n <= |remove| {
          EasyStepsKeepOk(fs, t, remove, n);
        } else {
          EasyStepsKeepOk(fs, t, remove, |remove|);
          assert remove[..|remove|] == remove;
          WriteKeepsOk(DoAll(fs, remove), t, Prev, Visible(fs, fs.path).value, l.prev, n - |remove|);
        }
      } else {
        EasyStepsKeepOk(fs, t, remove, n);
      }
    } else {
      assert RollOps(fs, l)[..n] == [];
    }
  }

  function Trying(t: Tried, bytes: Bytes): Tried {
    t.(since := t.since + {bytes}, ever := t.ever + {bytes})
  }

  lemma TryingIsOk(fs: Fs, t: Tried, bytes: Bytes)
    requires Ok(fs, t)
    ensures Ok(fs, Trying(t, bytes))
  {
    forall i | i in fs.path.maybe ensures Whole(fs, i, Allowed(Trying(t, bytes))) {
      assert Whole(fs, i, Allowed(t));
    }
    forall i | i in fs.prev.maybe ensures Whole(fs, i, Trying(t, bytes).ever) {
      assert Whole(fs, i, t.ever);
    }
  }

  /** At every crash point of a call, the path can only hold the last acknowledged document or one tried since. */
  lemma CallKeepsOk(fs: Fs, t: Tried, bytes: Bytes, l: Lucks, n: nat)
    requires Ok(fs, t) && n <= |KeepPrevOps(fs, bytes, l)|
    ensures Ok(DoAll(fs, KeepPrevOps(fs, bytes, l)[..n]), Trying(t, bytes))
  {
    TryingIsOk(fs, t, bytes);
    var t', roll := Trying(t, bytes), RollOps(fs, l);
    var write := if RollFails(fs, l) then [] else WriteOps(Path, bytes, l.path);
    PerformPrefix(Do, fs, roll, write, n);
    if n <= |roll| {
      RollKeepsOk(fs, t', l, n);
    } else {
      RollKeepsOk(fs, t', l, |roll|);
      assert roll[..|roll|] == roll;
      WriteKeepsOk(DoAll(fs, roll), t', Path, bytes, l.path, n - |roll|);
    }
  }

  function Acked(t: Tried, bytes: Bytes): Tried {
    Tried(Some(bytes), {}, t.ever + {bytes})
  }

  /** A write that works binds the name to a new, synced file and settles the directory. */
  lemma WriteFive(fs: Fs, name: Name, bytes: Bytes)
    ensures var w, bound := DoAll(fs, WriteOps(name, bytes, Fine)), Entry(Some(fs.unused), {Some(fs.unused)});
            && w.path == (if name.Path? then bound else Entry(fs.path.now, {fs.path.now}))
            && w.prev == (if name.Prev? then bound else Entry(fs.prev.now, {fs.prev.now}))
            && w.files == fs.files[fs.unused := File(bytes, true)] && w.temp.None? && w.unused == fs.unused + 1
  {
    hide Perform;
    var abc, d, e := [CreateTemp, WriteTemp(bytes), SyncTemp], Rename(name), SyncDir;
    WriteThree(fs, bytes);
    assert WriteOps(name, bytes, Fine) == (abc + [d]) + [e];
    PerformOne(Do, fs, abc + [d], e);
    PerformOne(Do, fs, abc, d);
  }

  /** A call that reports success has made its document the only one the path can hold, whatever happens next. */
  lemma AckedCallIsDurable(fs: Fs, t: Tried, bytes: Bytes, l: Lucks)
    requires Ok(fs, t) && Acks(fs, l)
    ensures Ok(DoAll(fs, KeepPrevOps(fs, bytes, l)), Acked(t, bytes))
  {
    var ops := KeepPrevOps(fs, bytes, l);
    assert ops[..|ops|] == ops;
    CallKeepsOk(fs, t, bytes, l, |ops|);
    var mid := DoAll(fs, RollOps(fs, l));
    PerformConcat(Do, fs, RollOps(fs, l), WriteOps(Path, bytes, Fine));
    WriteFive(mid, Path, bytes);
    var end := DoAll(fs, ops);
    forall i | i in end.prev.maybe ensures Whole(end, i, Acked(t, bytes).ever) {
      assert Whole(end, i, Trying(t, bytes).ever);
    }
  }

  /** What `.prev` shows after rolling it in a call that succeeds. */
  function RolledPrev(fs: Fs, l: Lucks): Option<Bytes> {
    if Links(fs, l) || l.readable then Visible(fs, fs.path)
    else if l.removes then None
    else Visible(fs, fs.prev)
  }

  lemma RemoveEffect(fs: Fs, removes: bool)
    ensures DoAll(fs, if removes then [RemovePrev] else []) == if removes then fs.(prev := Bind(fs.prev, None)) else fs
  {
    var a := RemovePrev;
    assert [a] == [] + [a];
    PerformOne(Do, fs, [], a);
  }

  lemma RollEffect(fs: Fs, t: Tried, l: Lucks)
    requires Ok(fs, t) && !RollFails(fs, l) && fs.path.now.Some?
    ensures var mid := DoAll(fs, RollOps(fs, l));
            && Visible(mid, mid.prev) == RolledPrev(fs, l) && mid.path.now == fs.path.now
            && Visible(mid, mid.path) == Visible(fs, fs.path) && mid.unused !in mid.files && fs.unused <= mid.unused
            && (mid.prev.now.Some? ==> mid.prev.now.value in mid.files)
  {
    hide Perform;
    assert Whole(fs, fs.path.now, Allowed(t)) && Whole(fs, fs.prev.now, t.ever);
    var remove: seq<Op> := if l.removes then [RemovePrev] else [];
    RemoveEffect(fs, l.removes);
    var gone := DoAll(fs, remove);
    if Links(fs, l) {
      PerformOne(Do, fs, remove, LinkPrev);
    } else if l.readable {
      var doc := Visible(fs, fs.path).value;
      PerformConcat(Do, fs, remove, WriteOps(Prev, doc, Fine));
      WriteFive(gone, Prev, doc);
    }
  }

  /**
   After a call that reports success over a file at the path, the path shows the
   new document and `.prev` the one it replaced, exactly where the link was made
   or the file could be read for a copy; where neither worked, `.prev` is gone
   or, if it could not be removed, what it was.
   */
  lemma PrevIsThePreviousDocument(fs: Fs, t: Tried, bytes: Bytes, l: Lucks)
    requires Ok(fs, t) && Acks(fs, l) && fs.path.now.Some?
    ensures var end := DoAll(fs, KeepPrevOps(fs, bytes, l));
            Visible(end, end.path) == Some(bytes) && Visible(end, end.prev) == RolledPrev(fs, l)
  {
    hide Perform;
    RollEffect(fs, t, l);
    PerformConcat(Do, fs, RollOps(fs, l), WriteOps(Path, bytes, Fine));
    WriteFive(DoAll(fs, RollOps(fs, l)), Path, bytes);
  }

  // ----------------------------------------------------------------- whole runs

  /** A call, cut short after `done` steps by a power loss that leaves `after`, or run to its end; or a power loss while idle. */
  datatype Event =
    | Call(bytes: Bytes, lucks: Lucks)
    | CutShort(bytes: Bytes, lucks: Lucks, done: nat, after: Fs)
    | PowerLoss(after: Fs)

  datatype State = State(fs: Fs, tried: Tried)

  function Live(s: State, e: Event): State {
    match e
    case Call(bytes, l) =>
      State(DoAll(s.fs, KeepPrevOps(s.fs, bytes, l)), if Acks(s.fs, l) then Acked(s.tried, bytes) else Trying(s.tried, bytes))
    case CutShort(bytes, _, _, after) => State(after, Trying(s.tried, bytes))
    case PowerLoss(after) => State(after, s.tried)
  }

  ghost predicate Possible(s: State, e: Event) {
    match e
    case Call(_, _) => true
    case CutShort(bytes, l, done, after) =>
      done <= |KeepPrevOps(s.fs, bytes, l)| && Survives(DoAll(s.fs, KeepPrevOps(s.fs, bytes, l)[..done]), after)
    case PowerLoss(after) => Survives(s.fs, after)
  }

  function Lives(s: State, es: seq<Event>): State
    decreases |es|
  {
    if es == [] then s else Lives(Live(s, es[0]), es[1..])
  }

  ghost predicate AllPossible(s: State, es: seq<Event>)
    decreases |es|
  {
    es != [] ==> Possible(s, es[0]) && AllPossible(Live(s, es[0]), es[1..])
  }

  lemma SurvivorIsOk(fs: Fs, after: Fs, t: Tried)
    requires Ok(fs, t) && Survives(fs, after)
    ensures Ok(after, t)
  {
    assert Whole(fs, after.path.now, Allowed(t)) && Whole(fs, after.prev.now, t.ever);
  }

  lemma LiveKeepsOk(s: State, e: Event)
    requires Ok(s.fs, s.tried) && Possible(s, e)
    ensures Ok(Live(s, e).fs, Live(s, e).tried)
  {
    match e
    case Call(bytes, l) =>
      var ops := KeepPrevOps(s.fs, bytes, l);
      assert ops[..|ops|] == ops;
      CallKeepsOk(s.fs, s.tried, bytes, l, |ops|);
      if Acks(s.fs, l) { AckedCallIsDurable(s.fs, s.tried, bytes, l); }
    case CutShort(bytes, l, done, after) =>
      CallKeepsOk(s.fs, s.tried, bytes, l, done);
      SurvivorIsOk(DoAll(s.fs, KeepPrevOps(s.fs, bytes, l)[..done]), after, Trying(s.tried, bytes));
    case PowerLoss(after) =>
      SurvivorIsOk(s.fs, after, s.tried);
  }

  lemma {:induction false} EveryLifeIsOk(s: State, es: seq<Event>)
    requires Ok(s.fs, s.tried) && AllPossible(s, es)
    ensures Ok(Lives(s, es).fs, Lives(s, es).tried)
    decreases |es|
  {
    if es != [] {
      LiveKeepsOk(s, es[0]);
      EveryLifeIsOk(Live(s, es[0]), es[1..]);
    }
  }

  /** Nothing written yet. */
  const EMPTY := State(Fs(map[], Entry(None, {None}), Entry(None, {None}), None, 0), Tried(None, {}, {}))

  // ------------------------------------------------------------------ the loader

  datatype Loaded = Empty | Document(bytes: Bytes) | Failed

  /** Load the registry: the file if it parses, else `.prev`; `good` are the byte strings that parse. */
  function LoadCore(fs: Fs, good: set<Bytes>): Loaded {
    if fs.path.now.None? then Empty
    else if Visible(fs, fs.path).Some? && Visible(fs, fs.path).value in good then Document(Visible(fs, fs.path).value)
    else if Visible(fs, fs.prev).Some? && Visible(fs, fs.prev).value in good then Document(Visible(fs, fs.prev).value)
    else Failed
  }

  /**
   Over any sequence of calls, failures and power losses: loading returns the
   last acknowledged document or one tried since, whole, and an empty registry
   only if none was ever acknowledged; and `.prev`, when present, is a whole
   document too.
   */
  lemma LoadedDocumentIsWhole(es: seq<Event>, good: set<Bytes>)
    requires AllPossible(EMPTY, es) && Lives(EMPTY, es).tried.ever <= good
    ensures var s := Lives(EMPTY, es);
            && (LoadCore(s.fs, good).Empty? ==> s.tried.acked.None?)
            && !LoadCore(s.fs, good).Failed?
            && (LoadCore(s.fs, good).Document? ==> LoadCore(s.fs, good).bytes in Allowed(s.tried))
            && (s.fs.prev.now.Some? ==> Visible(s.fs, s.fs.prev).Some? && Visible(s.fs, s.fs.prev).value in s.tried.ever)
  {
    EveryLifeIsOk(EMPTY, es);
    var s := Lives(EMPTY, es);
    assert Whole(s.fs, s.fs.path.now, Allowed(s.tried));
    assert Whole(s.fs, s.fs.prev.now, s.tried.ever);
  }

  /** The disk with the bytes of the file at the path damaged. */
  function Damage(fs: Fs, damaged: Bytes): Fs {
    if fs.path.now.Some? then fs.(files := fs.files[fs.path.now.value := File(damaged, true)]) else fs
  }

  /**
   If the bytes at the path are later damaged, loading falls back to the whole
   document in `.prev`; it fails exactly when there is no `.prev` or `.prev` is
   still a second name of the damaged file.
   */
  lemma DamagedFileFallsBackIff(es: seq<Event>, good: set<Bytes>, damaged: Bytes)
    requires AllPossible(EMPTY, es) && Lives(EMPTY, es).tried.ever <= good && damaged !in good
    requires Lives(EMPTY, es).fs.path.now.Some?
    ensures var s := Lives(EMPTY, es);
            var loaded := LoadCore(Damage(s.fs, damaged), good);
            && (loaded.Failed? <==> s.fs.prev.now.None? || s.fs.prev.now == s.fs.path.now)
            && (!loaded.Failed? ==> loaded.Document? && Some(loaded.bytes) == Visible(s.fs, s.fs.prev))
  {
    EveryLifeIsOk(EMPTY, es);
    var s := Lives(EMPTY, es);
    assert Whole(s.fs, s.fs.prev.now, s.tried.ever);
  }

  const SMOOTH := Lucks(true, true, true, Fine, Fine)

  /** The link is made before the new contents are written, so a call that then fails leaves both names on one file. */
  lemma FailedCallLeavesOneFile(bytes: Bytes, next: Bytes)
    ensures var s := Lives(EMPTY, [Call(bytes, SMOOTH), Call(next, SMOOTH.(path := RenameFails))]);
            s.fs.path.now.Some? && s.fs.prev.now == s.fs.path.now
  {
    var e, f := Call(bytes, SMOOTH), Call(next, SMOOTH.(path := RenameFails));
    assert [e, f][1..] == [f] && [f][1..] == [];
    var s := Live(EMPTY, e);
    assert KeepPrevOps(EMPTY.fs, bytes, SMOOTH) == WriteOps(Path, bytes, Fine);
    WriteFive(EMPTY.fs, Path, bytes);
    var a, b := RemovePrev, LinkPrev;
    var failing := WriteOps(Path, next, RenameFails);
    assert KeepPrevOps(s.fs, next, f.lucks) == [a, b] + failing;
    PerformConcat(Do, s.fs, [a, b], failing);
    assert [a, b] == [a] + [b] && [a] == [] + [a];
    PerformOne(Do, s.fs, [a], b);
    PerformOne(Do, s.fs, [], a);
    FailedRenameChangesNoName(DoAll(s.fs, [a, b]), next);
    assert Lives(EMPTY, [e, f]) == Lives(Live(EMPTY, e), [f]) == Live(s, f);
  }

  lemma FailedRenameChangesNoName(fs: Fs, bytes: Bytes)
    ensures var w := DoAll(fs, WriteOps(Path, bytes, RenameFails)); w.path == fs.path && w.prev == fs.prev
  {
    hide Perform;
    var abc := [CreateTemp, WriteTemp(bytes), SyncTemp];
    WriteThree(fs, bytes);
    assert WriteOps(Path, bytes, RenameFails) == abc + [DropTemp];
    PerformOne(Do, fs, abc, DropTemp);
  }
}
