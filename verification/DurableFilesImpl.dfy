/**
 The two writers as programs on a disk that may lose power after any step, each
 proved to perform the steps `DurableFiles` lists for it, in that order, up to
 the moment the power goes.
 */
module DurableFilesImpl {
  import opened Script
  import opened Wrappers
  import opened ObjectPrefix
  import opened DurableFiles

  class Disk {
    var fs: Fs
    var budget: nat
    ghost const start: Fs
    ghost var trace: seq<DurableFiles.Op>

    ghost predicate Valid()
      reads this
    {
      fs == DoAll(start, trace)
    }

    constructor (fs: Fs, budget: nat)
      ensures Valid() && this.fs == start == fs && this.budget == budget && trace == []
    {
      this.fs, this.budget, start, trace := fs, budget, fs, [];
    }

    /** One file-system call; `alive` is false once the power is gone. */
    method Perform(op: DurableFiles.Op) returns (alive: bool)
      requires Valid()
      modifies this
      ensures Valid() && trace == old(trace) + (if alive then [op] else [])
      ensures fs == if alive then Do(old(fs), op) else old(fs)
    {
      alive := budget > 0;
      if alive {
        PerformOne(Do, start, trace, op);
        fs, budget, trace := Do(fs, op), budget - 1, trace + [op];
      } else {
        assert trace + [] == trace;
      }
    }
  }

  datatype Outcome = Acknowledged | Error | PowerLost

  /** The trace grew by a prefix of `ops`, by all of it unless the power was lost. */
  ghost predicate Performed(before: seq<DurableFiles.Op>, after: seq<DurableFiles.Op>, ops: seq<DurableFiles.Op>, out: Outcome) {
    exists n: nat :: n <= |ops| && after == before + ops[..n] && (out.PowerLost? <==> n < |ops|)
  }

  lemma PerformedBoth(a: seq<DurableFiles.Op>, b: seq<DurableFiles.Op>, c: seq<DurableFiles.Op>,
                      ops: seq<DurableFiles.Op>, more: seq<DurableFiles.Op>, out: Outcome)
    requires b == a + ops && Performed(b, c, more, out)
    ensures Performed(a, c, ops + more, out)
  {
    var n: nat :| n <= |more| && c == b + more[..n] && (out.PowerLost? <==> n < |more|);
    assert (ops + more)[..|ops| + n] == ops + more[..n];
    assert c == a + (ops + more)[..|ops| + n];
  }

  lemma PerformedFirst(a: seq<DurableFiles.Op>, b: seq<DurableFiles.Op>, ops: seq<DurableFiles.Op>, more: seq<DurableFiles.Op>)
    requires Performed(a, b, ops, PowerLost)
    ensures Performed(a, b, ops + more, PowerLost)
  {
    var n: nat :| n < |ops| && b == a + ops[..n];
    assert (ops + more)[..n] == ops[..n];
  }

  /** Perform steps in order until the power goes. */
  method PerformAll(disk: Disk, ops: seq<DurableFiles.Op>, good: Outcome) returns (out: Outcome)
    requires disk.Valid() && !good.PowerLost?
    modifies disk
    ensures disk.Valid() && Performed(old(disk.trace), disk.trace, ops, out)
    ensures out == good || out.PowerLost?
  {
    ghost var before := disk.trace;
    for i := 0 to |ops|
      invariant disk.Valid() && disk.trace == before + ops[..i]
    {
      var alive := disk.Perform(ops[i]);
      if !alive {
        assert disk.trace == before + ops[..i];
        return PowerLost;
      }
      assert ops[..i + 1] == ops[..i] + [ops[i]];
    }
    assert ops[..|ops|] == ops;
    out := good;
  }

  /** Write a temp file, sync it, rename it over `name`, sync the directory; a failed step drops the temp and reports. */
  method Write(disk: Disk, name: Name, bytes: Bytes, luck: Luck) returns (out: Outcome)
    requires disk.Valid()
    modifies disk
    ensures disk.Valid() && Performed(old(disk.trace), disk.trace, WriteOps(name, bytes, luck), out)
    ensures !out.PowerLost? ==> (out.Acknowledged? <==> luck.Fine?)
  {
    hide Do, Perform;
    ghost var t0, ops := disk.trace, WriteOps(name, bytes, luck);
    out := PerformAll(disk, [CreateTemp], Acknowledged);
    ghost var one: seq<DurableFiles.Op> := [CreateTemp];
    assert one[..1] == one;
    if out.PowerLost? {
      assert ops == one + ops[1..];
      PerformedFirst(t0, disk.trace, one, ops[1..]);
      return;
    }
    ghost var t1 := disk.trace;
    if luck.TempFails? {
      out := PerformAll(disk, [DropTemp], Error);
      assert ops == one + [DropTemp];
      PerformedBoth(t0, t1, disk.trace, one, [DropTemp], out);
      return;
    }
    out := PerformAll(disk, [WriteTemp(bytes), SyncTemp], Acknowledged);
    ghost var two: seq<DurableFiles.Op> := [WriteTemp(bytes), SyncTemp];
    assert two[..2] == two;
    PerformedBoth(t0, t1, disk.trace, one, two, out);
    ghost var three := one + two;
    assert three == [CreateTemp, WriteTemp(bytes), SyncTemp] && three[..3] == three;
    if out.PowerLost? {
      assert ops == three + ops[3..];
      PerformedFirst(t0, disk.trace, three, ops[3..]);
      return;
    }
    ghost var t3 := disk.trace;
    assert t3 == t0 + three;
    out := Place(disk, name, luck);
    assert ops == three + PlaceOps(name, luck);
    PerformedBoth(t0, t3, disk.trace, three, PlaceOps(name, luck), out);
  }

  ghost function PlaceOps(name: Name, luck: Luck): seq<DurableFiles.Op> {
    if luck.RenameFails? then [DropTemp] else if luck.SyncDirFails? then [Rename(name)] else [Rename(name), SyncDir]
  }

  /** The rename of a synced temp file and the directory sync; an error after the rename leaves the new contents visible. */
  method Place(disk: Disk, name: Name, luck: Luck) returns (out: Outcome)
    requires disk.Valid() && !luck.TempFails?
    modifies disk
    ensures disk.Valid() && Performed(old(disk.trace), disk.trace, PlaceOps(name, luck), out)
    ensures !out.PowerLost? ==> (out.Acknowledged? <==> luck.Fine?)
  {
    if luck.RenameFails? {
      out := PerformAll(disk, [DropTemp], Error);
    } else if luck.SyncDirFails? {
      out := PerformAll(disk, [Rename(name)], Error);
    } else {
      out := PerformAll(disk, [Rename(name), SyncDir], Acknowledged);
    }
  }

  /** Roll `.prev`, by link or by copy; `out` is an error exactly when a fallback copy failed. */
  method RollPrev(disk: Disk, l: Lucks) returns (out: Outcome)
    requires disk.Valid()
    modifies disk
    ensures disk.Valid() && Performed(old(disk.trace), disk.trace, RollOps(old(disk.fs), l), out)
    ensures !out.PowerLost? ==> (out.Error? <==> RollFails(old(disk.fs), l))
  {
    hide Do, Perform;
    ghost var t0, fs0 := disk.trace, disk.fs;
    out := Acknowledged;
    assert t0 == t0 + [][..0];
    if disk.fs.path.now.None? {
      return;
    }
    var free := disk.fs.prev.now.None?;
    var current := Visible(disk.fs, disk.fs.path);
    ghost var remove: seq<DurableFiles.Op> := if l.removes then [RemovePrev] else [];
    ghost var rest := RollRest(fs0, l);
    assert RollOps(fs0, l) == remove + rest;
    if l.removes {
      out := PerformAll(disk, [RemovePrev], Acknowledged);
      if out.PowerLost? {
        PerformedFirst(t0, disk.trace, remove, rest);
        return;
      }
      assert remove[..1] == remove;
    }
    ghost var t1 := disk.trace;
    assert t1 == t0 + remove;
    if l.links && (l.removes || free) {
      out := PerformAll(disk, [LinkPrev], Acknowledged);
    } else if l.readable && current.Some? {
      out := Write(disk, Prev, current.value, l.prev);
    } else {
      assert disk.trace == t1 + rest[..0];
    }
    PerformedBoth(t0, t1, disk.trace, remove, rest, out);
  }

  ghost function RollRest(fs: Fs, l: Lucks): seq<DurableFiles.Op> {
    if Links(fs, l) then [LinkPrev]
    else if l.readable && Visible(fs, fs.path).Some? then WriteOps(Prev, Visible(fs, fs.path).value, l.prev)
    else []
  }

  /**
   Replace the document at the path, keeping the current one as `.prev`. The
   steps performed are a prefix of the call's steps, all of them unless the
   power goes, and success is reported exactly when every one of them worked.
   */
  method WriteKeepingPrev(disk: Disk, bytes: Bytes, l: Lucks) returns (out: Outcome)
    requires disk.Valid()
    modifies disk
    ensures disk.Valid() && Performed(old(disk.trace), disk.trace, KeepPrevOps(old(disk.fs), bytes, l), out)
    ensures !out.PowerLost? ==> (out.Acknowledged? <==> Acks(old(disk.fs), l))
    ensures out.Acknowledged? ==> Visible(disk.fs, disk.fs.path) == Some(bytes)
    ensures !out.PowerLost? && l.path.Fine? && (old(disk.fs).path.now.None? || l.prev.Fine? || (l.links && l.removes)) ==> out.Acknowledged?
    ensures !l.path.Fine? ==> !out.Acknowledged?
  {
    hide Do, Perform, WriteOps, RollOps, PlaceOps;
    ghost var t0, fs0 := disk.trace, disk.fs;
    ghost var roll := RollOps(fs0, l);
    ghost var write := if RollFails(fs0, l) then [] else WriteOps(Path, bytes, l.path);
    assert KeepPrevOps(fs0, bytes, l) == roll + write;
    out := RollPrev(disk, l);
    if out.PowerLost? {
      PerformedFirst(t0, disk.trace, roll, write);
      return;
    }
    ghost var t1, fs1 := disk.trace, disk.fs;
    assert roll[..|roll|] == roll;
    if out.Error? {
      assert roll + write == roll;
      return;
    }
    out := Write(disk, Path, bytes, l.path);
    PerformedBoth(t0, t1, disk.trace, roll, write, out);
    if out.Acknowledged? {
      assert write[..|write|] == write && disk.trace == t1 + write;
      PerformConcat(Do, disk.start, t1, write);
      WriteFive(fs1, Path, bytes);
    }
  }
}
