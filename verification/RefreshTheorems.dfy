/**
 What a refresh that reports success has produced, whatever backups ran beside
 it: exactly the files its manifest committed.
 */
module RefreshTheorems {
  import opened Script
  import opened Wrappers
  import opened ObjectPrefix
  import opened Refresh

  /** The object operations of a whole run of attempts on one prefix. */
  function RunOps(p: Prefix, run: seq<Attempt>): seq<Op>
    decreases |run|
  {
    if run == [] then [] else DoneOps(p, run[0]) + RunOps(ApplyAll(p, DoneOps(p, run[0])), run[1..])
  }

  lemma PrefixIsCareful(p: Prefix, ops: seq<Op>, n: nat, seg: map<Rel, Bytes>)
    requires n <= |ops| && AllCareful(p, ops, seg)
    ensures AllCareful(p, ops[..n], seg)
  {
    forall k | 0 <= k < n ensures Careful(ApplyAll(p, ops[..n][..k]), ops[..n][k], seg) {
      assert ops[..n][..k] == ops[..k];
    }
  }

  lemma {:induction false} RunIsCareful(p: Prefix, run: seq<Attempt>, seg: map<Rel, Bytes>)
    requires Restorable(p, seg) && forall i :: 0 <= i < |run| ==> AttemptOk(run[i], seg)
    ensures AllCareful(p, RunOps(p, run), seg)
    decreases |run|
  {
    if run != [] {
      var ops, done := AttemptOps(p, run[0]), DoneOps(p, run[0]);
      var n := if run[0].done < |ops| then run[0].done else |ops|;
      assert done == ops[..n];
      AttemptIsCareful(p, run[0], seg);
      PrefixIsCareful(p, ops, n, seg);
      CarefulRun(p, ops, seg, n);
      RunIsCareful(ApplyAll(p, done), run[1..], seg);
      CarefulConcat(p, done, RunOps(ApplyAll(p, done), run[1..]), seg);
    }
  }

  /** Every state of such a run keeps the listed files and the sealed segments. */
  lemma RunStatesAreRestorable(p: Prefix, run: seq<Attempt>, seg: map<Rel, Bytes>)
    requires Restorable(p, seg) && forall i :: 0 <= i < |run| ==> AttemptOk(run[i], seg)
    ensures forall t: nat :: t <= |RunOps(p, run)| ==> Restorable(At(p, RunOps(p, run), t), seg)
    ensures AlwaysSealed(p, RunOps(p, run), seg)
  {
    RunIsCareful(p, run, seg);
    forall t: nat | t <= |RunOps(p, run)| ensures Restorable(At(p, RunOps(p, run), t), seg) {
      CarefulRun(p, RunOps(p, run), seg, t);
    }
  }

  ghost predicate BackupsOnly(ops: seq<Op>) {
    forall i :: 0 <= i < |ops| ==> ops[i].PutData? || ops[i].DeleteData? || ops[i].PutManifest?
  }

  lemma BackupIsOfBackups(p: Prefix, a: Attempt)
    requires a.BackupAttempt?
    ensures BackupsOnly(DoneOps(p, a))
  {
    hide Prunes;
    var previous := Previous(p, a.readable);
    if previous.Some? { PrunesDeleteData(a.listing, ManifestOf(a.snap), previous.value); }
  }

  lemma {:induction false} RunOfBackups(p: Prefix, run: seq<Attempt>)
    requires forall i :: 0 <= i < |run| ==> run[i].BackupAttempt?
    ensures BackupsOnly(RunOps(p, run))
    decreases |run|
  {
    hide DoneOps, Perform;
    if run != [] {
      BackupIsOfBackups(p, run[0]);
      RunOfBackups(ApplyAll(p, DoneOps(p, run[0])), run[1..]);
    }
  }

  /** Every manifest that replaces another carries a later snapshot. */
  ghost predicate Advancing(p: Prefix, ops: seq<Op>) {
    forall i :: 0 <= i < |ops| && ops[i].PutManifest? && At(p, ops, i).manifest.Some? ==>
      ops[i].manifest.snapshot > At(p, ops, i).manifest.value.snapshot
  }

  lemma AdvancingConcat(p: Prefix, a: seq<Op>, b: seq<Op>)
    requires Advancing(p, a) && Advancing(ApplyAll(p, a), b)
    ensures Advancing(p, a + b)
  {
    var ops := a + b;
    forall i | 0 <= i < |ops| && ops[i].PutManifest? && At(p, ops, i).manifest.Some?
      ensures ops[i].manifest.snapshot > At(p, ops, i).manifest.value.snapshot
    {
      if i < |a| {
        assert ops[..i] == a[..i];
      } else {
        assert ops[..i] == a + b[..i - |a|];
        PerformConcat(ApplyOp, p, a, b[..i - |a|]);
      }
    }
  }

  /** Each backup is of a later snapshot of the shard than the one before, and than the prefix holds. */
  ghost predicate Rising(p: Prefix, run: seq<Attempt>) {
    && (forall i, j :: 0 <= i < j < |run| ==> run[i].snap.number < run[j].snap.number)
    && (run != [] && p.manifest.Some? ==> p.manifest.value.snapshot < run[0].snap.number)
  }

  /** A backup commits one manifest, after its uploads. */
  lemma BackupCommitsOnce(p: Prefix, a: Attempt, i: nat)
    requires a.BackupAttempt? && i < |DoneOps(p, a)| && DoneOps(p, a)[i].PutManifest?
    ensures DoneOps(p, a)[i].manifest.snapshot == a.snap.number && At(p, DoneOps(p, a), i).manifest == p.manifest
  {
    hide Perform, Records;
    var ups, previous, done := Uploads(a.snap.files), Previous(p, a.readable), DoneOps(p, a);
    if previous.Some? { PrunesDeleteData(a.listing, ManifestOf(a.snap), previous.value); }
    assert i == |ups| && done[..i] == ups;
    ManifestStays(p, ups);
  }

  lemma BackupAdvances(p: Prefix, a: Attempt)
    requires a.BackupAttempt? && (p.manifest.Some? ==> p.manifest.value.snapshot < a.snap.number)
    ensures Advancing(p, DoneOps(p, a))
    ensures var q := ApplyAll(p, DoneOps(p, a)); q.manifest.Some? ==> q.manifest.value.snapshot <= a.snap.number
  {
    hide DoneOps, Perform;
    var done := DoneOps(p, a);
    forall i | 0 <= i < |done| && done[i].PutManifest? && At(p, done, i).manifest.Some?
      ensures done[i].manifest.snapshot > At(p, done, i).manifest.value.snapshot
    {
      BackupCommitsOnce(p, a, i);
    }
    AttemptLeaves(p, a);
  }

  /** An attempt, finished or not, leaves the manifest it found or one of its own snapshot. */
  lemma AttemptLeaves(p: Prefix, a: Attempt)
    ensures var q := ApplyAll(p, DoneOps(p, a));
            q.manifest == p.manifest || (q.manifest.Some? && Records(q.manifest.value, a.snap))
  {
    hide Records, AttemptOps;
    var ops := AttemptOps(p, a);
    var n := if a.done < |ops| then a.done else |ops|;
    assert ops[..n] == DoneOps(p, a);
    AttemptCommitsOwn(p, a);
    CommitsOnlyOwn(p, ops, a.snap, n);
  }

  /** Backups of later and later snapshots of the shard commit manifests that advance. */
  lemma {:induction false} RisingAdvances(p: Prefix, run: seq<Attempt>)
    requires Rising(p, run) && forall i :: 0 <= i < |run| ==> run[i].BackupAttempt?
    ensures Advancing(p, RunOps(p, run))
    decreases |run|
  {
    hide DoneOps, Perform, Advancing;
    if run == [] {
      NothingAdvances(p);
    } else {
      var q := ApplyAll(p, DoneOps(p, run[0]));
      BackupAdvances(p, run[0]);
      RisingAdvances(q, run[1..]);
      AdvancingConcat(p, DoneOps(p, run[0]), RunOps(q, run[1..]));
    }
  }

  lemma NothingAdvances(p: Prefix)
    ensures Advancing(p, [])
  {
  }

  ghost predicate DeletesNothing(ops: seq<Op>) {
    forall i :: 0 <= i < |ops| ==> !ops[i].DeleteData?
  }

  /** Where the prefix already holds a manifest of snapshot `n`, backups of snapshot `n` delete nothing, finished or not. */
  lemma {:induction false} SameNumberDeletesNothing(p: Prefix, run: seq<Attempt>, n: nat)
    requires p.manifest.Some? && p.manifest.value.snapshot == n
    requires forall i :: 0 <= i < |run| ==> run[i].BackupAttempt? && run[i].snap.number == n
    ensures DeletesNothing(RunOps(p, run))
    decreases |run|
  {
    hide Perform, Records;
    if run != [] {
      var q := ApplyAll(p, DoneOps(p, run[0]));
      AttemptLeaves(p, run[0]);
      SameSnapshot(p, run[0]);
      SnapshotOf(q.manifest, p.manifest, run[0].snap);
      SameNumberDeletesNothing(q, run[1..], n);
    }
  }

  lemma SnapshotOf(m: Option<Manifest>, before: Option<Manifest>, snap: Snapshot)
    requires before.Some? && before.value.snapshot == snap.number && (m == before || (m.Some? && Records(m.value, snap)))
    ensures m.Some? && m.value.snapshot == snap.number
  {
  }

  lemma SameSnapshot(p: Prefix, a: Attempt)
    requires a.BackupAttempt? && p.manifest.Some? && p.manifest.value.snapshot == a.snap.number
    ensures DeletesNothing(DoneOps(p, a))
  {
  }

  /**
   Repeated backups of one snapshot of the shard, whatever the layout of its files
   each time: once the first has completed, none of the others deletes an object.
   */
  lemma RepeatsDeleteNothing(p: Prefix, run: seq<Attempt>, n: nat)
    requires run != [] && run[0].done >= |AttemptOps(p, run[0])|
    requires forall i :: 0 <= i < |run| ==> run[i].BackupAttempt? && run[i].snap.number == n
    ensures DeletesNothing(RunOps(ApplyAll(p, DoneOps(p, run[0])), run[1..]))
  {
    hide Perform;
    CompletedAttemptRecords(p, run[0]);
    SameNumberDeletesNothing(ApplyAll(p, DoneOps(p, run[0])), run[1..], n);
  }

  lemma Step(p: Prefix, ops: seq<Op>, t: nat)
    requires t < |ops|
    ensures At(p, ops, t + 1) == ApplyOp(At(p, ops, t), ops[t])
  {
    assert ops[..t + 1] == ops[..t] + [ops[t]];
    PerformOne(ApplyOp, p, ops[..t], ops[t]);
  }

  /** Snapshots only rise, and stand still only if no manifest was committed in between. */
  lemma {:induction false} SnapshotsRise(p: Prefix, ops: seq<Op>, t0: nat, t1: nat)
    requires BackupsOnly(ops) && Advancing(p, ops) && t0 <= t1 <= |ops| && At(p, ops, t0).manifest.Some?
    ensures At(p, ops, t1).manifest.Some?
    ensures At(p, ops, t0).manifest.value.snapshot <= At(p, ops, t1).manifest.value.snapshot
    ensures At(p, ops, t0).manifest.value.snapshot == At(p, ops, t1).manifest.value.snapshot ==>
              && At(p, ops, t0).manifest == At(p, ops, t1).manifest
              && forall i :: t0 <= i < t1 ==> !ops[i].PutManifest?
    decreases t1 - t0
  {
    if t0 < t1 {
      SnapshotsRise(p, ops, t0, t1 - 1);
      Step(p, ops, t1 - 1);
    }
  }

  /** When the manifest shown at `t` was committed. */
  function CommitTime(ops: seq<Op>, t: nat): (c: nat)
    requires t <= |ops|
    ensures c <= t && (c == 0 || ops[c - 1].PutManifest?)
    ensures forall i :: c <= i < t ==> !ops[i].PutManifest?
  {
    if t == 0 || ops[t - 1].PutManifest? then t else CommitTime(ops, t - 1)
  }

  /** No backup is part-way through its uploads at `t`: nothing was uploaded since the last commit. */
  predicate Settled(ops: seq<Op>, t: nat)
    requires t <= |ops|
  {
    forall i :: CommitTime(ops, t) <= i < t ==> !ops[i].PutData?
  }

  /** While nothing is uploaded and no manifest committed, a listed object keeps its bytes. */
  lemma {:induction false} ListedBytesStand(p: Prefix, ops: seq<Op>, seg: map<Rel, Bytes>, m: Manifest, rel: Rel, c: nat, t: nat)
    requires Restorable(p, seg) && AllCareful(p, ops, seg) && BackupsOnly(ops) && c <= t <= |ops|
    requires At(p, ops, c).manifest == Some(m) && Listed(m, rel)
    requires forall i :: c <= i < t ==> !ops[i].PutManifest? && !ops[i].PutData?
    ensures At(p, ops, t).manifest == Some(m)
    ensures rel in At(p, ops, c).data && rel in At(p, ops, t).data && At(p, ops, t).data[rel] == At(p, ops, c).data[rel]
    decreases t - c
  {
    hide Perform, Restorable;
    if t == c {
      CarefulRun(p, ops, seg, c);
      var i :| 0 <= i < |m.files| && m.files[i].rel == rel;
      assert EntryHeld(At(p, ops, c), seg, m.files[i]);
    } else {
      ListedBytesStand(p, ops, seg, m, rel, c, t - 1);
      Step(p, ops, t - 1);
      assert Careful(ApplyAll(p, ops[..t - 1]), ops[t - 1], seg);
    }
  }

  /** The directory holds the index files and the aux store of the manifest as committed at `c`, and no other index file. */
  ghost predicate Mirrors(files: map<Rel, Bytes>, m: Manifest, data: map<Rel, Bytes>) {
    && (forall rel :: Listed(m, rel) ==> rel in files && rel in data && files[rel] == data[rel])
    && NothingExtra(files, m)
  }

  /**
   A pass that was reported, over any run of backups each of which advanced the
   snapshot, ends with exactly the files its manifest committed, provided no
   backup was part-way through its uploads at the closing manifest read.
   */
  lemma RefreshIsExact(p: Prefix, run: seq<Attempt>, seg: map<Rel, Bytes>, m: Manifest, files: map<Rel, Bytes>, t0: nat, t1: nat)
    requires Restorable(p, seg) && forall i :: 0 <= i < |run| ==> AttemptOk(run[i], seg) && run[i].BackupAttempt?
    requires var ops := RunOps(p, run);
             && Advancing(p, ops) && t0 <= t1 <= |ops| && Settled(ops, t1)
             && At(p, ops, t0).manifest == Some(m) && At(p, ops, t1).manifest.Some?
             && At(p, ops, t1).manifest.value.snapshot == m.snapshot
             && Sealed(files, seg) && AllCopied(p, ops, t0, t1, files, m, |m.files|) && NothingExtra(files, m)
    ensures var c := CommitTime(RunOps(p, run), t1);
            c <= t0 && At(p, RunOps(p, run), c).manifest == Some(m) && Mirrors(files, m, At(p, RunOps(p, run), c).data)
  {
    var ops := RunOps(p, run);
    var c := CommitTime(ops, t1);
    RunIsCareful(p, run, seg);
    RunOfBackups(p, run);
    SnapshotsRise(p, ops, t0, t1);
    ManifestStands(p, ops, c, t1);
    forall rel | Listed(m, rel) ensures rel in files && rel in At(p, ops, c).data && files[rel] == At(p, ops, c).data[rel] {
      CopyIsCommitted(p, ops, seg, m, files, rel, c, t0, t1);
    }
  }

  /** The manifest shown at `t` is the one shown when it was committed. */
  lemma {:induction false} ManifestStands(p: Prefix, ops: seq<Op>, c: nat, t: nat)
    requires BackupsOnly(ops) && c <= t <= |ops| && forall i :: c <= i < t ==> !ops[i].PutManifest?
    ensures At(p, ops, t).manifest == At(p, ops, c).manifest
    decreases t - c
  {
    if c < t {
      ManifestStands(p, ops, c, t - 1);
      Step(p, ops, t - 1);
    }
  }

  lemma CopyIsCommitted(p: Prefix, ops: seq<Op>, seg: map<Rel, Bytes>, m: Manifest, files: map<Rel, Bytes>,
                        rel: Rel, c: nat, t0: nat, t1: nat)
    requires Restorable(p, seg) && AllCareful(p, ops, seg) && BackupsOnly(ops) && c <= t0 <= t1 <= |ops|
    requires At(p, ops, c).manifest == Some(m) && Listed(m, rel)
    requires forall i :: c <= i < t1 ==> !ops[i].PutManifest? && !ops[i].PutData?
    requires Sealed(files, seg) && AllCopied(p, ops, t0, t1, files, m, |m.files|)
    ensures rel in files && rel in At(p, ops, c).data && files[rel] == At(p, ops, c).data[rel]
  {
    var i :| 0 <= i < |m.files| && m.files[i].rel == rel;
    assert Copied(p, ops, t0, t1, files, m.files[i].rel);
    ListedBytesStand(p, ops, seg, m, rel, c, c);
    if Mutable(rel) {
      var t: nat :| t0 <= t <= t1 && rel in At(p, ops, t).data && files[rel] == At(p, ops, t).data[rel];
      ListedBytesStand(p, ops, seg, m, rel, c, t);
    } else {
      CarefulRun(p, ops, seg, c);
      assert EntryHeld(At(p, ops, c), seg, m.files[i]);
    }
  }

  /**
   The refresh program against a primary that performs a run of backups: what it
   reports is exact whenever the backups advanced and none was part-way through
   its uploads at the closing manifest read.
   */
  method RefreshReplica(p: Prefix, ghost run: seq<Attempt>, ops: seq<Op>, faulty: set<nat>, dest: LocalDir, ghost seg: map<Rel, Bytes>)
    returns (r: Outcome<Refreshed>, ghost t1: nat)
    requires ops == RunOps(p, run) && Restorable(p, seg) && Sealed(dest.files, seg)
    requires forall i :: 0 <= i < |run| ==> AttemptOk(run[i], seg) && run[i].BackupAttempt?
    modifies dest
    ensures r.Ok? ==> t1 <= |ops|
    ensures r.Ok? && Advancing(p, ops) && Settled(ops, t1) ==>
              var c := CommitTime(ops, t1);
              At(p, ops, c).manifest == Some(r.value.manifest) && Mirrors(dest.files, r.value.manifest, At(p, ops, c).data)
    ensures Rising(p, run) ==> Advancing(p, ops)
  {
    hide RunOps, ApplyAll, Restorable, Mirrors;
    RunStatesAreRestorable(p, run, seg);
    if Rising(p, run) { RisingAdvances(p, run); }
    var reader := new Reader(p, ops, faulty);
    ghost var t0, passes;
    r, t0, t1, passes := Run(reader, dest, seg);
    if r.Ok? && Advancing(p, ops) && Settled(ops, t1) {
      RefreshIsExact(p, run, seg, r.value.manifest, dest.files, t0, t1);
    }
  }

  /** A directory some reported pass can have produced: manifest read at `t0`, the same snapshot still shown at `t1`. */
  ghost predicate Reported(p: Prefix, ops: seq<Op>, seg: map<Rel, Bytes>, m: Manifest, files: map<Rel, Bytes>, t0: nat, t1: nat)
    requires t0 <= t1 <= |ops|
  {
    Sealed(files, seg) && AllCopied(p, ops, t0, t1, files, m, |m.files|) && NothingExtra(files, m)
  }

  /** No listed mutable object shows bytes other than the committed ones during the pass. */
  ghost predicate MutablesStand(p: Prefix, ops: seq<Op>, m: Manifest, c: nat, t0: nat, t1: nat)
    requires c <= t0 <= t1 <= |ops|
  {
    forall t: nat, rel :: t0 <= t <= t1 && Listed(m, rel) && Mutable(rel)
                          && rel in At(p, ops, t).data && rel in At(p, ops, c).data
                          ==> At(p, ops, t).data[rel] == At(p, ops, c).data[rel]
  }

  /** Bytes a pass can have copied for a listed file, one mutable file read at `t` and every other at `t0`. */
  ghost function CopyAt(p: Prefix, ops: seq<Op>, m: Manifest, t0: nat, t: nat, late: Rel): map<Rel, Bytes>
    requires t0 <= t <= |ops|
  {
    map i | 0 <= i < |m.files| && m.files[i].rel in At(p, ops, if m.files[i].rel == late then t else t0).data ::
      m.files[i].rel := At(p, ops, if m.files[i].rel == late then t else t0).data[m.files[i].rel]
  }

  lemma ListedIsHeld(p: Prefix, seg: map<Rel, Bytes>, m: Manifest, rel: Rel)
    requires Restorable(p, seg) && p.manifest == Some(m) && Listed(m, rel)
    ensures rel in p.data && (!Mutable(rel) ==> rel in seg && p.data[rel] == seg[rel])
  {
    var i :| 0 <= i < |m.files| && m.files[i].rel == rel;
    assert EntryHeld(p, seg, m.files[i]);
  }

  /** Such a copy is one a reported pass can produce. */
  lemma CopyAtIsReported(p: Prefix, ops: seq<Op>, seg: map<Rel, Bytes>, m: Manifest, t0: nat, t1: nat, t: nat, late: Rel)
    requires t0 <= t <= t1 <= |ops| && Listed(m, late)
    requires Restorable(At(p, ops, t0), seg) && At(p, ops, t0).manifest == Some(m)
    requires Restorable(At(p, ops, t), seg) && At(p, ops, t).manifest == Some(m)
    ensures var files := CopyAt(p, ops, m, t0, t, late);
            && Reported(p, ops, seg, m, files, t0, t1)
            && late in files && late in At(p, ops, t).data && files[late] == At(p, ops, t).data[late]
  {
    hide Restorable, At, Perform, CopyAt, Listed, Copied;
    var files := CopyAt(p, ops, m, t0, t, late);
    CopyAtListsOnly(p, ops, m, t0, t, late);
    forall rel | Listed(m, rel)
      ensures rel in files && rel in At(p, ops, if rel == late then t else t0).data
              && files[rel] == At(p, ops, if rel == late then t else t0).data[rel]
              && (!Mutable(rel) ==> rel in seg && files[rel] == seg[rel])
    {
      CopyAtHolds(p, ops, seg, m, t0, t, late, rel);
    }
    forall i | 0 <= i < |m.files| ensures Copied(p, ops, t0, t1, files, m.files[i].rel) {
      CopyAtIsCopied(p, ops, seg, m, t0, t1, t, late, i);
    }
  }

  lemma CopyAtListsOnly(p: Prefix, ops: seq<Op>, m: Manifest, t0: nat, t: nat, late: Rel)
    requires t0 <= t <= |ops|
    ensures forall rel :: rel in CopyAt(p, ops, m, t0, t, late) ==> Listed(m, rel)
  {
    hide At, Perform;
  }

  /** Each listed file is in the copy with the bytes shown when it was read. */
  lemma CopyAtHolds(p: Prefix, ops: seq<Op>, seg: map<Rel, Bytes>, m: Manifest, t0: nat, t: nat, late: Rel, rel: Rel)
    requires t0 <= t <= |ops| && Listed(m, rel)
    requires Restorable(At(p, ops, t0), seg) && At(p, ops, t0).manifest == Some(m)
    requires Restorable(At(p, ops, t), seg) && At(p, ops, t).manifest == Some(m)
    ensures var files, r := CopyAt(p, ops, m, t0, t, late), if rel == late then t else t0;
            && rel in files && rel in At(p, ops, r).data && files[rel] == At(p, ops, r).data[rel]
            && (!Mutable(rel) ==> rel in seg && files[rel] == seg[rel])
  {
    hide Restorable, At, Perform;
    ListedIsHeld(At(p, ops, t0), seg, m, rel);
    ListedIsHeld(At(p, ops, t), seg, m, rel);
  }

  lemma CopyAtIsCopied(p: Prefix, ops: seq<Op>, seg: map<Rel, Bytes>, m: Manifest, t0: nat, t1: nat, t: nat, late: Rel, i: nat)
    requires t0 <= t <= t1 <= |ops| && i < |m.files|
    requires Restorable(At(p, ops, t0), seg) && At(p, ops, t0).manifest == Some(m)
    requires Restorable(At(p, ops, t), seg) && At(p, ops, t).manifest == Some(m)
    ensures Copied(p, ops, t0, t1, CopyAt(p, ops, m, t0, t, late), m.files[i].rel)
  {
    hide Restorable, At, Perform, CopyAt;
    CopyAtHolds(p, ops, seg, m, t0, t, late, m.files[i].rel);
  }

  /**
   Exactly when a reported pass is the committed snapshot, however its reads
   fell between the two manifest reads: no listed mutable object showed other
   bytes meanwhile. A backup that is still uploading can break this unseen,
   because it has not yet committed the manifest the pass compares.
   */
  lemma RefreshIsExactIff(p: Prefix, ops: seq<Op>, seg: map<Rel, Bytes>, m: Manifest, c: nat, t0: nat, t1: nat)
    requires Restorable(p, seg) && AllCareful(p, ops, seg) && c <= t0 <= t1 <= |ops|
    requires forall t: nat :: c <= t <= t1 ==> At(p, ops, t).manifest == Some(m)
    ensures (forall files :: Reported(p, ops, seg, m, files, t0, t1) ==> Mirrors(files, m, At(p, ops, c).data))
            <==> MutablesStand(p, ops, m, c, t0, t1)
  {
    forall t: nat | t <= |ops| ensures Restorable(At(p, ops, t), seg) { CarefulRun(p, ops, seg, t); }
    hide Restorable, At, AllCareful, Perform, CopyAt;
    if MutablesStand(p, ops, m, c, t0, t1) {
      forall files | Reported(p, ops, seg, m, files, t0, t1) ensures Mirrors(files, m, At(p, ops, c).data) {
        forall rel | Listed(m, rel) ensures rel in files && rel in At(p, ops, c).data && files[rel] == At(p, ops, c).data[rel] {
          StandingCopy(p, ops, seg, m, files, rel, c, t0, t1);
        }
      }
    } else {
      var t: nat, rel :| t0 <= t <= t1 && Listed(m, rel) && Mutable(rel) && rel in At(p, ops, t).data
                         && rel in At(p, ops, c).data && At(p, ops, t).data[rel] != At(p, ops, c).data[rel];
      assert At(p, ops, t0).manifest == Some(m) && At(p, ops, t).manifest == Some(m);
      CopyAtIsReported(p, ops, seg, m, t0, t1, t, rel);
      assert !Mirrors(CopyAt(p, ops, m, t0, t, rel), m, At(p, ops, c).data);
    }
  }

  lemma StandingCopy(p: Prefix, ops: seq<Op>, seg: map<Rel, Bytes>, m: Manifest, files: map<Rel, Bytes>,
                     rel: Rel, c: nat, t0: nat, t1: nat)
    requires c <= t0 <= t1 <= |ops| && Restorable(At(p, ops, c), seg) && At(p, ops, c).manifest == Some(m)
    requires MutablesStand(p, ops, m, c, t0, t1) && Reported(p, ops, seg, m, files, t0, t1) && Listed(m, rel)
    ensures rel in files && rel in At(p, ops, c).data && files[rel] == At(p, ops, c).data[rel]
  {
    hide Restorable, At, Perform;
    ListedIsHeld(At(p, ops, c), seg, m, rel);
    var i :| 0 <= i < |m.files| && m.files[i].rel == rel;
    assert Copied(p, ops, t0, t1, files, m.files[i].rel);
  }

  /** A backup caught between its uploads and its manifest: the pass copies its aux store under the old manifest. */
  lemma UploadingBackupTears(before: Bytes, after: Bytes)
    requires before != after
    ensures var m := Manifest(MANIFEST_FORMAT, 1, [FileEntry(Aux, |before|)], false);
            var p := Prefix(map[Aux := before], Some(m), None, None, None);
            var run := [BackupAttempt(Snapshot(2, [(Aux, after)]), true, [], 1)];
            var ops := RunOps(p, run);
            && Restorable(p, map[]) && AttemptOk(run[0], map[]) && |ops| == 1 && At(p, ops, 1).manifest == Some(m)
            && Reported(p, ops, map[], m, map[Aux := after], 0, 1)
            && !Mirrors(map[Aux := after], m, p.data)
  {
    var m := Manifest(MANIFEST_FORMAT, 1, [FileEntry(Aux, |before|)], false);
    var p := Prefix(map[Aux := before], Some(m), None, None, None);
    var a := BackupAttempt(Snapshot(2, [(Aux, after)]), true, [], 1);
    OneUpload(p, a.snap);
    TornPass(p, m, after);
    hide RunOps, At, Reported;
    assert m.files[0].rel == Aux && Listed(m, Aux);
  }

  /** While the aux store is being replaced under an unchanged manifest, a pass can report the new bytes. */
  lemma TornPass(p: Prefix, m: Manifest, after: Bytes)
    requires p.manifest == Some(m) && |m.files| == 1 && m.files[0].rel == Aux
    ensures var ops := [PutData(Aux, after)];
            At(p, ops, 1).manifest == Some(m) && Reported(p, ops, map[], m, map[Aux := after], 0, 1)
  {
    var up, files: map<Rel, Bytes> := PutData(Aux, after), map[Aux := after];
    AfterOne(p, up);
    hide At;
    assert Aux in At(p, [up], 1).data && files[Aux] == At(p, [up], 1).data[Aux];
    assert Copied(p, [up], 0, 1, files, Aux);
  }

  lemma AfterOne(p: Prefix, op: Op)
    ensures At(p, [op], 1) == ApplyOp(p, op)
  {
    assert [op][..1] == [] + [op];
    PerformOne(ApplyOp, p, [], op);
  }

  /** A backup of one file stopped after its first operation has done that upload. */
  lemma OneUpload(p: Prefix, snap: Snapshot)
    requires |snap.files| == 1
    ensures RunOps(p, [BackupAttempt(snap, true, [], 1)]) == [PutData(snap.files[0].0, snap.files[0].1)]
  {
    var a := BackupAttempt(snap, true, [], 1);
    assert DoneOps(p, a) == Uploads(snap.files);
    assert [a][1..] == [];
    assert RunOps(p, [a]) == DoneOps(p, a) + [];
  }

  /** The bytes a manifest commits are the bytes its snapshot uploaded. */
  lemma {:induction false} CommittedBytes(p: Prefix, snap: Snapshot, n: nat, i: nat)
    requires i < n <= |snap.files|
    requires forall j, k :: 0 <= j < k < |snap.files| ==> snap.files[j].0 != snap.files[k].0
    ensures var q := ApplyAll(p, Uploads(snap.files)[..n]);
            snap.files[i].0 in q.data && q.data[snap.files[i].0] == snap.files[i].1
    decreases n
  {
    var ops := Uploads(snap.files);
    assert ops[..n] == ops[..n - 1] + [ops[n - 1]];
    PerformOne(ApplyOp, p, ops[..n - 1], ops[n - 1]);
    if i < n - 1 { CommittedBytes(p, snap, n - 1, i); }
  }

  /** The two directories hold the same index files and the same listed files, byte for byte. */
  ghost predicate SameListed(m: Manifest, a: map<Rel, Bytes>, b: map<Rel, Bytes>) {
    forall rel: Rel :: rel.Index? || Listed(m, rel) ==> (rel in a <==> rel in b) && (rel in a ==> a[rel] == b[rel])
  }

  /** What both programs leave behind over a prefix that stands still. */
  lemma RefreshAgreesWithRestore(p: Prefix, seg: map<Rel, Bytes>, m: Manifest, refreshed: map<Rel, Bytes>, restored: map<Rel, Bytes>)
    requires Restorable(p, seg) && p.manifest == Some(m) && Sealed(refreshed, seg)
    requires AllCopied(p, [], 0, 0, refreshed, m, |m.files|) && NothingExtra(refreshed, m)
    requires forall i :: 0 <= i < |m.files| ==>
               m.files[i].rel in restored && m.files[i].rel in p.data && restored[m.files[i].rel] == p.data[m.files[i].rel]
    requires forall rel :: rel in restored ==> Listed(m, rel)
    ensures SameListed(m, refreshed, restored) && SegmentsPresent(refreshed, m)
  {
    assert At(p, [], 0) == p;
    forall i | 0 <= i < |m.files| ensures m.files[i].rel in refreshed && refreshed[m.files[i].rel] == p.data[m.files[i].rel] {
      assert Copied(p, [], 0, 0, refreshed, m.files[i].rel);
      assert EntryHeld(p, seg, m.files[i]);
    }
    forall i | 0 <= i < |m.files| && !Mutable(m.files[i].rel) ensures |refreshed[m.files[i].rel]| == m.files[i].len {
      assert EntryHeld(p, seg, m.files[i]);
    }
  }

  lemma ListedIsThere(p: Prefix, seg: map<Rel, Bytes>)
    requires Restorable(p, seg) && p.manifest.Some?
    ensures AllThere(p, p.manifest.value)
  {
    var files := p.manifest.value.files;
    forall i | 0 <= i < |files| ensures files[i].rel in p.data { assert EntryHeld(p, seg, files[i]); }
  }

  lemma QuietIsSealed(p: Prefix, seg: map<Rel, Bytes>)
    requires Restorable(p, seg)
    ensures AlwaysSealed(p, [], seg) && At(p, [], 0) == p
  {
    forall t: nat | t <= 0 ensures At(p, [], t) == p {}
  }

  /**
   The two programs over a prefix that stands still: a refresh of any directory an
   earlier refresh or restore left, and a restore into an empty one, when both
   report success, end with the same manifest, index files and aux store, and a
   second refresh would fetch no segment.
   */
  method RefreshBesideRestore(p: Prefix, faulty: set<nat>, replica: LocalDir, ghost seg: map<Rel, Bytes>)
    returns (refreshed: Outcome<Refreshed>, restored: Outcome<Manifest>, copy: LocalDir)
    requires Restorable(p, seg)
    requires forall rel :: rel in replica.files && rel !in {Aux, Index("meta.json"), Index(".managed.json")} ==>
               rel in seg && replica.files[rel] == seg[rel]
    modifies replica
    ensures copy != replica
    ensures faulty == {} && p.manifest.Some? && p.manifest.value.format <= MANIFEST_FORMAT ==>
              refreshed.Ok? && (restored.Ok? <==> !p.manifest.value.bundled)
    ensures refreshed.Ok? && restored.Ok? ==>
              && p.manifest == Some(restored.value) && refreshed.value.manifest == restored.value
              && SameListed(restored.value, replica.files, copy.files)
              && SegmentsPresent(replica.files, restored.value)
  {
    hide Restorable, SameListed, SegmentsPresent, At;
    QuietIsSealed(p, seg);
    if p.manifest.Some? { ListedIsThere(p, seg); }
    var reader := new Reader(p, [], faulty);
    ghost var t0, t1, passes;
    refreshed, t0, t1, passes := Run(reader, replica, seg);
    copy := new LocalDir(map[]);
    var again := new Reader(p, [], faulty);
    ghost var at;
    restored, at := Restore(again, copy);
    if refreshed.Ok? && restored.Ok? {
      RefreshAgreesWithRestore(p, seg, restored.value, replica.files, copy.files);
    }
  }

  // ------------------------------------------------------ restoring what a run left

  /** The directory holds every file of the snapshot, and every segment file with the snapshot's bytes. */
  ghost predicate HoldsSnapshot(files: map<Rel, Bytes>, snap: Snapshot) {
    forall i :: 0 <= i < |snap.files| ==>
      snap.files[i].0 in files && (!Mutable(snap.files[i].0) ==> files[snap.files[i].0] == snap.files[i].1)
  }

  lemma RestoredSnapshot(q: Prefix, seg: map<Rel, Bytes>, m: Manifest, snap: Snapshot, files: map<Rel, Bytes>)
    requires Restorable(q, seg) && q.manifest == Some(m) && !m.bundled && Records(m, snap) && SnapshotSealed(snap, seg)
    requires forall i :: 0 <= i < |m.files| ==> m.files[i].rel in files && m.files[i].rel in q.data && files[m.files[i].rel] == q.data[m.files[i].rel]
    ensures HoldsSnapshot(files, snap)
  {
    forall i | 0 <= i < |snap.files|
      ensures snap.files[i].0 in files && (!Mutable(snap.files[i].0) ==> files[snap.files[i].0] == snap.files[i].1)
    {
      assert FileEntry(snap.files[i].0, |snap.files[i].1|) in m.files;
      var j :| 0 <= j < |m.files| && m.files[j] == FileEntry(snap.files[i].0, |snap.files[i].1|);
      assert EntryHeld(q, seg, m.files[j]);
    }
  }

  /** The last attempt of the run is a park that finished with its bundled manifest stored. */
  predicate EndsBundled(p: Prefix, run: seq<Attempt>) {
    run != []
    && var last := run[|run| - 1];
       last.ParkAttempt? && last.bundling.Bundled? && last.bundling.landed
       && last.done >= |AttemptOps(AfterAttempts(p, run[..|run| - 1]), last)|
  }

  lemma {:induction false} AfterLast(p: Prefix, run: seq<Attempt>)
    requires run != []
    ensures var k := |run| - 1;
            var q := AfterAttempts(p, run[..k]);
            AfterAttempts(p, run) == ApplyAll(q, DoneOps(q, run[k]))
    decreases |run|
  {
    hide DoneOps, Perform;
    var k := |run| - 1;
    if k > 0 {
      var p1 := ApplyAll(p, DoneOps(p, run[0]));
      AfterLast(p1, run[1..]);
      assert run[1..][..k - 1] == run[..k][1..] && run[1..][k - 1] == run[k];
    } else {
      assert run[..0] == [] && run[1..] == [];
    }
  }

  lemma BundledRunEnd(p: Prefix, run: seq<Attempt>)
    requires EndsBundled(p, run)
    ensures AfterAttempts(p, run).manifest.Some? && AfterAttempts(p, run).manifest.value.bundled
  {
    hide AttemptOps, Perform, Records;
    AfterLast(p, run);
    var q := AfterAttempts(p, run[..|run| - 1]);
    CompletedAttemptRecords(q, run[|run| - 1]);
  }

  /**
   Restoring from a prefix that any run of backups and parks has left, crashed
   attempts included. A restore that reports success holds every file of the
   snapshot whose manifest is committed, index files and all, its segment files
   byte for byte. After a park whose bundled manifest was stored it never reports
   success; with no failing read it fails only then, or where nothing was ever
   committed.
   */
  method RestoreAfterRun(p: Prefix, run: seq<Attempt>, faulty: set<nat>, ghost seg: map<Rel, Bytes>)
    returns (r: Outcome<Manifest>, dest: LocalDir)
    requires Restorable(p, seg) && p.manifest.None? && forall i :: 0 <= i < |run| ==> AttemptOk(run[i], seg)
    ensures fresh(dest)
    ensures r.Ok? ==> exists i :: 0 <= i < |run| && Records(r.value, run[i].snap) && HoldsSnapshot(dest.files, run[i].snap)
    ensures EndsBundled(p, run) ==> !r.Ok?
    ensures faulty == {} && AfterAttempts(p, run).manifest.Some? ==> (r.Ok? <==> !AfterAttempts(p, run).manifest.value.bundled)
  {
    hide AfterAttempts, Restorable, Records, HoldsSnapshot, At, AllThere, EndsBundled;
    var q := AfterAttempts(p, run);
    ListedFilesSurviveRuns(p, run, seg);
    CommittedIsOfSomeAttempt(p, run);
    NothingHappens(q);
    if q.manifest.Some? { ListedIsThere(q, seg); FormatIsKnown(p, run); }
    if EndsBundled(p, run) { BundledRunEnd(p, run); }
    var reader := new Reader(q, [], faulty);
    dest := new LocalDir(map[]);
    ghost var t0;
    r, t0 := Restore(reader, dest);
    if r.Ok? {
      ghost var i :| 0 <= i < |run| && Records(r.value, run[i].snap);
      assert SnapshotSealed(run[i].snap, seg);
      RestoredSnapshot(q, seg, r.value, run[i].snap, dest.files);
    }
  }

  lemma FormatIsKnown(p: Prefix, run: seq<Attempt>)
    requires p.manifest.None? && AfterAttempts(p, run).manifest.Some?
    ensures AfterAttempts(p, run).manifest.value.format <= MANIFEST_FORMAT
  {
    hide AfterAttempts;
    CommittedIsOfSomeAttempt(p, run);
  }

  /**
   A refresh has no such refusal. From a prefix that a bundled park was the last to
   write, with no failing read, it reports success and leaves no index file.
   */
  method RefreshAfterPark(p: Prefix, run: seq<Attempt>, replica: LocalDir, ghost seg: map<Rel, Bytes>) returns (r: Outcome<Refreshed>)
    requires Restorable(p, seg) && p.manifest.None? && Sealed(replica.files, seg)
    requires EndsBundled(p, run) && forall i :: 0 <= i < |run| ==> AttemptOk(run[i], seg)
    modifies replica
    ensures r.Ok? && forall rel :: rel in replica.files ==> !rel.Index?
  {
    hide AfterAttempts, Restorable, Records, At, AllThere, EndsBundled, Sealed;
    var q := AfterAttempts(p, run);
    ListedFilesSurviveRuns(p, run, seg);
    BundledRunEnd(p, run);
    CommittedIsOfSomeAttempt(p, run);
    ListedIsThere(q, seg);
    FormatIsKnown(p, run);
    NothingHappens(q);
    QuietIsSealed(q, seg);
    var reader := new Reader(q, [], {});
    ghost var t0, t1, passes;
    r, t0, t1, passes := Run(reader, replica, seg);
    ghost var i :| 0 <= i < |run| && Records(r.value.manifest, run[i].snap);
    BundledListsNoIndex(r.value.manifest, run[i].snap);
  }

  lemma BundledListsNoIndex(m: Manifest, snap: Snapshot)
    requires m.bundled && Records(m, snap)
    ensures forall rel :: Listed(m, rel) ==> !rel.Index?
  {
    forall rel | Listed(m, rel) ensures !rel.Index? {
      var i :| 0 <= i < |m.files| && m.files[i].rel == rel;
      assert m.files[i] in m.files;
    }
  }
}
