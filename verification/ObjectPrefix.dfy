/**
 One backup prefix in the object store, and the object operations each writer
 performs on it, in order. A crash, or an error that aborts a writer, leaves a
 prefix of its operations done; so "at every crash point" is "after every
 prefix of the list".
 */
module ObjectPrefix {
  import opened Script
  import opened Wrappers

  newtype byte = b: int | 0 <= b < 256
  type Bytes = seq<byte>

  /** A file of a shard, relative to the shard directory. */
  datatype Rel = Aux | Index(name: string)

  /** Rewritten by every commit; every other index file is a sealed segment file and never changes. */
  predicate Mutable(rel: Rel) {
    rel == Aux || rel == Index("meta.json") || rel == Index(".managed.json")
  }

  datatype FileEntry = FileEntry(rel: Rel, len: nat)

  const MANIFEST_FORMAT: nat := 1

  datatype Manifest = Manifest(format: nat, snapshot: nat, files: seq<FileEntry>, bundled: bool)

  predicate Listed(m: Manifest, rel: Rel) {
    exists i :: 0 <= i < |m.files| && m.files[i].rel == rel
  }

  /** Where each file sits inside the bundle object: relative name, offset, length. */
  datatype Span = Span(name: string, offset: nat, len: nat)
  type Layout = seq<Span>

  /** What a cold window's marker records that the open and promote paths use. */
  datatype Marker = Marker(snapshot: nat, bundled: bool)

  datatype Prefix = Prefix(data: map<Rel, Bytes>, manifest: Option<Manifest>,
                           bundle: Option<Bytes>, layout: Option<Layout>, marker: Option<Marker>)

  datatype Op =
    | PutData(rel: Rel, bytes: Bytes)
    | DeleteData(rel: Rel)
    | PutManifest(manifest: Manifest)
    | PutBundle(bundle: Bytes)
    | PutLayout(layout: Layout)
    | PutMarker(marker: Marker)
    | DeleteManifest
    | DeleteBundle
    | DeleteLayout
    | DeleteMarker

  function ApplyOp(p: Prefix, op: Op): Prefix {
    match op
    case PutData(rel, bytes) => p.(data := p.data[rel := bytes])
    case DeleteData(rel) => p.(data := p.data - {rel})
    case PutManifest(m) => p.(manifest := Some(m))
    case PutBundle(b) => p.(bundle := Some(b))
    case PutLayout(l) => p.(layout := Some(l))
    case PutMarker(m) => p.(marker := Some(m))
    case DeleteManifest => p.(manifest := None)
    case DeleteBundle => p.(bundle := None)
    case DeleteLayout => p.(layout := None)
    case DeleteMarker => p.(marker := None)
  }

  function ApplyAll(p: Prefix, ops: seq<Op>): Prefix {
    Perform(ApplyOp, p, ops)
  }

  // -------------------------------------------------------------- one backup

  /** A consistent committed state of the shard: its snapshot number and files. */
  datatype Snapshot = Snapshot(number: nat, files: seq<(Rel, Bytes)>)

  function Uploads(files: seq<(Rel, Bytes)>): seq<Op> {
    seq(|files|, i requires 0 <= i < |files| => PutData(files[i].0, files[i].1))
  }

  function ManifestOf(snap: Snapshot): Manifest {
    Manifest(MANIFEST_FORMAT, snap.number,
             seq(|snap.files|, i requires 0 <= i < |snap.files| => FileEntry(snap.files[i].0, |snap.files[i].1|)),
             false)
  }

  /** The manifest a backup is about to replace, as far as it can be read. */
  function Previous(p: Prefix, readable: bool): Option<Manifest> {
    if readable && p.manifest.Some? && p.manifest.value.format <= MANIFEST_FORMAT then p.manifest else None
  }

  /** Delete what the listing shows and neither manifest names. */
  function Prunes(listing: seq<Rel>, manifest: Manifest, previous: Manifest): seq<Op> {
    if listing == [] then []
    else if Listed(manifest, listing[0]) || Listed(previous, listing[0]) then Prunes(listing[1..], manifest, previous)
    else [DeleteData(listing[0])] + Prunes(listing[1..], manifest, previous)
  }

  function Reclaims(snap: Snapshot, previous: Option<Manifest>, listing: seq<Rel>): seq<Op> {
    if previous.Some? && snap.number > previous.value.snapshot
    then Prunes(listing, ManifestOf(snap), previous.value)
    else []
  }

  /** Every object operation of a backup, in order: data, then the manifest, then the pruning. */
  function BackupOps(snap: Snapshot, previous: Option<Manifest>, listing: seq<Rel>): seq<Op> {
    Uploads(snap.files) + [PutManifest(ManifestOf(snap))] + Reclaims(snap, previous, listing)
  }

  ghost predicate Lists(listing: seq<Rel>, data: map<Rel, Bytes>) {
    forall rel :: rel in listing <==> rel in data
  }

  // ------------------------------------------------------------ a bundled park

  /** How far a park's bundling got; `landed` says the bundled manifest was stored, `heard` that the writer knows. */
  datatype Bundling = NoBundle | BundleOnly(bundle: Bytes) | Bundled(bundle: Bytes, layout: Layout, landed: bool, heard: bool)

  function WithoutIndex(files: seq<FileEntry>): seq<FileEntry> {
    if files == [] then []
    else if files[0].rel.Index? then WithoutIndex(files[1..])
    else [files[0]] + WithoutIndex(files[1..])
  }

  function BundledManifest(m: Manifest): Manifest {
    m.(files := WithoutIndex(m.files), bundled := true)
  }

  function Deletes(rels: seq<Rel>): seq<Op> {
    seq(|rels|, i requires 0 <= i < |rels| => DeleteData(rels[i]))
  }

  /** Deletion of the per-file objects is best effort: `dropped` lists those whose delete went through. */
  function BundleOps(m: Manifest, b: Bundling, dropped: seq<Rel>): seq<Op> {
    match b
    case NoBundle => []
    case BundleOnly(bundle) => [PutBundle(bundle)]
    case Bundled(bundle, layout, landed, heard) =>
      [PutBundle(bundle), PutLayout(layout)]
      + (if landed then [PutManifest(BundledManifest(m))] else [])
      + (if landed && heard then Deletes(dropped) else [])
  }

  predicate AllIndex(rels: seq<Rel>) {
    forall i :: 0 <= i < |rels| ==> rels[i].Index?
  }

  /** A cold park up to its local marker: the backup, the bundle, and the manifest that stops naming `index/`. */
  function ParkOps(snap: Snapshot, previous: Option<Manifest>, listing: seq<Rel>, b: Bundling, dropped: seq<Rel>): seq<Op> {
    BackupOps(snap, previous, listing) + BundleOps(ManifestOf(snap), b, dropped)
  }

  // -------------------------------------------- nothing listed is ever missing

  /** Segment files carry unique names: `seg` gives the one content each name ever has. */
  ghost predicate Sealed(data: map<Rel, Bytes>, seg: map<Rel, Bytes>) {
    forall rel :: rel in data && !Mutable(rel) ==> rel in seg && data[rel] == seg[rel]
  }

  ghost predicate SnapshotSealed(snap: Snapshot, seg: map<Rel, Bytes>) {
    forall i :: 0 <= i < |snap.files| && !Mutable(snap.files[i].0) ==>
      snap.files[i].0 in seg && snap.files[i].1 == seg[snap.files[i].0]
  }

  /** A file the manifest names is there; if it is a segment file it is the right one, of the recorded length. */
  ghost predicate EntryHeld(p: Prefix, seg: map<Rel, Bytes>, e: FileEntry) {
    e.rel in p.data && (!Mutable(e.rel) ==> e.rel in seg && p.data[e.rel] == seg[e.rel] && e.len == |seg[e.rel]|)
  }

  ghost predicate Restorable(p: Prefix, seg: map<Rel, Bytes>) {
    && Sealed(p.data, seg)
    && (p.manifest.Some? ==> forall i :: 0 <= i < |p.manifest.value.files| ==> EntryHeld(p, seg, p.manifest.value.files[i]))
  }

  /** The operation neither removes a listed object nor lists an object that is not there. */
  ghost predicate Careful(p: Prefix, op: Op, seg: map<Rel, Bytes>) {
    match op
    case PutData(rel, bytes) => !Mutable(rel) ==> rel in seg && bytes == seg[rel]
    case DeleteData(rel) => p.manifest.Some? ==> !Listed(p.manifest.value, rel)
    case PutManifest(m) => forall i :: 0 <= i < |m.files| ==> EntryHeld(p, seg, m.files[i])
    case _ => true
  }

  lemma CarefulKeepsRestorable(p: Prefix, op: Op, seg: map<Rel, Bytes>)
    requires Restorable(p, seg) && Careful(p, op, seg)
    ensures Restorable(ApplyOp(p, op), seg)
  {
    var p' := ApplyOp(p, op);
    if p'.manifest.Some? && !op.PutManifest? {
      var files := p'.manifest.value.files;
      forall i | 0 <= i < |files| ensures EntryHeld(p', seg, files[i]) {
        assert EntryHeld(p, seg, files[i]);
        assert Listed(p'.manifest.value, files[i].rel);
      }
    }
  }

  /** Every operation is careful in the state it meets. */
  ghost predicate AllCareful(p: Prefix, ops: seq<Op>, seg: map<Rel, Bytes>) {
    forall n :: 0 <= n < |ops| ==> Careful(ApplyAll(p, ops[..n]), ops[n], seg)
  }

  lemma {:induction false} CarefulRun(p: Prefix, ops: seq<Op>, seg: map<Rel, Bytes>, n: nat)
    requires Restorable(p, seg) && AllCareful(p, ops, seg) && n <= |ops|
    ensures Restorable(ApplyAll(p, ops[..n]), seg)
    decreases n
  {
    if n != 0 {
      CarefulRun(p, ops, seg, n - 1);
      assert ops[..n] == ops[..n - 1] + [ops[n - 1]];
      PerformOne(ApplyOp, p, ops[..n - 1], ops[n - 1]);
      CarefulKeepsRestorable(ApplyAll(p, ops[..n - 1]), ops[n - 1], seg);
    }
  }

  lemma CarefulConcat(p: Prefix, a: seq<Op>, b: seq<Op>, seg: map<Rel, Bytes>)
    requires AllCareful(p, a, seg) && AllCareful(ApplyAll(p, a), b, seg)
    ensures AllCareful(p, a + b, seg)
  {
    forall n | 0 <= n < |a + b| ensures Careful(ApplyAll(p, (a + b)[..n]), (a + b)[n], seg) {
      if n < |a| {
        assert (a + b)[..n] == a[..n];
      } else {
        assert (a + b)[..n] == a + b[..n - |a|];
        PerformConcat(ApplyOp, p, a, b[..n - |a|]);
      }
    }
  }

  lemma CarefulThen(p: Prefix, ops: seq<Op>, op: Op, seg: map<Rel, Bytes>)
    requires AllCareful(p, ops, seg) && Careful(ApplyAll(p, ops), op, seg)
    ensures AllCareful(p, ops + [op], seg) && ApplyAll(p, ops + [op]) == ApplyOp(ApplyAll(p, ops), op)
  {
    PerformOne(ApplyOp, p, ops, op);
    assert [op][..0] == [];
    CarefulConcat(p, ops, [op], seg);
  }

  /** The uploads only add data objects, one for each file so far. */
  lemma {:induction false} UploadsHold(p: Prefix, snap: Snapshot, n: nat)
    requires n <= |snap.files|
    ensures var q := ApplyAll(p, Uploads(snap.files)[..n]);
            && q == p.(data := q.data)
            && q.data.Keys == p.data.Keys + (set i | 0 <= i < n :: snap.files[i].0)
    decreases n
  {
    var ops := Uploads(snap.files);
    if n != 0 {
      UploadsHold(p, snap, n - 1);
      assert ops[..n] == ops[..n - 1] + [ops[n - 1]];
      PerformOne(ApplyOp, p, ops[..n - 1], ops[n - 1]);
    }
  }

  lemma UploadsAreCareful(p: Prefix, snap: Snapshot, seg: map<Rel, Bytes>)
    requires SnapshotSealed(snap, seg)
    ensures AllCareful(p, Uploads(snap.files), seg)
  {
  }

  lemma {:induction false} UploadedSealed(p: Prefix, snap: Snapshot, seg: map<Rel, Bytes>, n: nat)
    requires Sealed(p.data, seg) && SnapshotSealed(snap, seg) && n <= |snap.files|
    ensures Sealed(ApplyAll(p, Uploads(snap.files)[..n]).data, seg)
    decreases n
  {
    var ops := Uploads(snap.files);
    if n != 0 {
      UploadedSealed(p, snap, seg, n - 1);
      assert ops[..n] == ops[..n - 1] + [ops[n - 1]];
      PerformOne(ApplyOp, p, ops[..n - 1], ops[n - 1]);
    }
  }

  /** Committing the manifest is safe once every file it names has been uploaded. */
  lemma CommitIsCareful(p: Prefix, snap: Snapshot, seg: map<Rel, Bytes>)
    requires Sealed(p.data, seg) && SnapshotSealed(snap, seg)
    ensures Careful(ApplyAll(p, Uploads(snap.files)), PutManifest(ManifestOf(snap)), seg)
  {
    var n := |snap.files|;
    assert Uploads(snap.files)[..n] == Uploads(snap.files);
    UploadsHold(p, snap, n);
    UploadedSealed(p, snap, seg, n);
    var q := ApplyAll(p, Uploads(snap.files));
    forall i | 0 <= i < n ensures EntryHeld(q, seg, ManifestOf(snap).files[i]) {
      assert snap.files[i].0 in (set j | 0 <= j < n :: snap.files[j].0);
    }
  }

  /** The listed objects that neither manifest names. */
  function Superseded(listing: seq<Rel>, m: Manifest, previous: Manifest): set<Rel> {
    set rel | rel in listing && !Listed(m, rel) && !Listed(previous, rel)
  }

  /** Reclaiming removes exactly the superseded objects and touches nothing else. */
  lemma {:induction false} PrunesEffect(p: Prefix, listing: seq<Rel>, m: Manifest, previous: Manifest)
    ensures ApplyAll(p, Prunes(listing, m, previous)) == p.(data := p.data - Superseded(listing, m, previous))
    decreases |listing|
  {
    hide Listed;
    var gone := Superseded(listing, m, previous);
    if listing == [] {
      assert p.data - gone == p.data;
    } else {
      var rest, others := Prunes(listing[1..], m, previous), Superseded(listing[1..], m, previous);
      if Listed(m, listing[0]) || Listed(previous, listing[0]) {
        PrunesEffect(p, listing[1..], m, previous);
        assert gone == others;
      } else {
        var first := [DeleteData(listing[0])];
        assert first == [] + first;
        PerformOne(ApplyOp, p, [], first[0]);
        PrunesEffect(ApplyAll(p, first), listing[1..], m, previous);
        PerformConcat(ApplyOp, p, first, rest);
        assert gone == {listing[0]} + others;
        assert p.data - {listing[0]} - others == p.data - gone;
      }
    }
  }

  lemma {:induction false} PrunesAreCareful(p: Prefix, listing: seq<Rel>, m: Manifest, previous: Manifest, seg: map<Rel, Bytes>)
    requires p.manifest == Some(m)
    ensures AllCareful(p, Prunes(listing, m, previous), seg)
    decreases |listing|
  {
    if listing != [] {
      var rest := Prunes(listing[1..], m, previous);
      if Listed(m, listing[0]) || Listed(previous, listing[0]) {
        PrunesAreCareful(p, listing[1..], m, previous, seg);
      } else {
        var first := [DeleteData(listing[0])];
        assert first == [] + first;
        PerformOne(ApplyOp, p, [], first[0]);
        PrunesAreCareful(ApplyAll(p, first), listing[1..], m, previous, seg);
        assert AllCareful(p, first, seg) by { assert first[..0] == []; }
        CarefulConcat(p, first, rest, seg);
      }
    }
  }

  lemma BackupIsCareful(p: Prefix, snap: Snapshot, readable: bool, listing: seq<Rel>, seg: map<Rel, Bytes>)
    requires Restorable(p, seg) && SnapshotSealed(snap, seg)
    ensures AllCareful(p, BackupOps(snap, Previous(p, readable), listing), seg)
    ensures ApplyAll(p, BackupOps(snap, Previous(p, readable), listing)).manifest == Some(ManifestOf(snap))
  {
    var ups, put := Uploads(snap.files), [PutManifest(ManifestOf(snap))];
    UploadsAreCareful(p, snap, seg);
    CommitIsCareful(p, snap, seg);
    var q := ApplyAll(p, ups);
    assert AllCareful(q, put, seg) by { assert put[..0] == []; }
    CarefulConcat(p, ups, put, seg);
    PerformOne(ApplyOp, p, ups, put[0]);
    var gc := Reclaims(snap, Previous(p, readable), listing);
    var r := ApplyAll(p, ups + put);
    if gc != [] {
      PrunesAreCareful(r, listing, ManifestOf(snap), Previous(p, readable).value, seg);
      PrunesEffect(r, listing, ManifestOf(snap), Previous(p, readable).value);
    }
    assert AllCareful(r, gc, seg);
    CarefulConcat(p, ups + put, gc, seg);
    PerformConcat(ApplyOp, p, ups + put, gc);
  }

  lemma {:induction false} WithoutIndexKeeps(files: seq<FileEntry>, i: nat)
    requires i < |WithoutIndex(files)|
    ensures WithoutIndex(files)[i] in files && !WithoutIndex(files)[i].rel.Index?
    decreases |files|
  {
    if files[0].rel.Index? {
      WithoutIndexKeeps(files[1..], i);
    } else if i != 0 {
      WithoutIndexKeeps(files[1..], i - 1);
    }
  }

  lemma {:induction false} DeletesAreCareful(p: Prefix, m: Manifest, rels: seq<Rel>, seg: map<Rel, Bytes>, n: nat)
    requires p.manifest == Some(BundledManifest(m)) && AllIndex(rels) && n <= |rels|
    ensures AllCareful(p, Deletes(rels)[..n], seg)
    ensures ApplyAll(p, Deletes(rels)[..n]).manifest == p.manifest
    decreases n
  {
    if n != 0 {
      DeletesAreCareful(p, m, rels, seg, n - 1);
      var ops := Deletes(rels);
      var q := ApplyAll(p, ops[..n - 1]);
      assert ops[..n] == ops[..n - 1] + [ops[n - 1]];
      PerformOne(ApplyOp, p, ops[..n - 1], ops[n - 1]);
      assert Careful(q, ops[n - 1], seg) by {
        forall i | 0 <= i < |BundledManifest(m).files| ensures BundledManifest(m).files[i].rel != rels[n - 1] {
          WithoutIndexKeeps(m.files, i);
        }
      }
      assert AllCareful(q, [ops[n - 1]], seg) by { assert [ops[n - 1]][..0] == []; }
      CarefulConcat(p, ops[..n - 1], [ops[n - 1]], seg);
    }
  }

  lemma BundledManifestHeld(p: Prefix, m: Manifest, seg: map<Rel, Bytes>)
    requires Restorable(p, seg) && p.manifest == Some(m)
    ensures forall i :: 0 <= i < |BundledManifest(m).files| ==> EntryHeld(p, seg, BundledManifest(m).files[i])
  {
    forall i | 0 <= i < |BundledManifest(m).files| ensures EntryHeld(p, seg, BundledManifest(m).files[i]) {
      WithoutIndexKeeps(m.files, i);
      var j :| 0 <= j < |m.files| && m.files[j] == BundledManifest(m).files[i];
      assert EntryHeld(p, seg, m.files[j]);
    }
  }

  lemma BundlePutsAreCareful(p: Prefix, bundle: Bytes, layout: Layout, seg: map<Rel, Bytes>)
    ensures AllCareful(p, [PutBundle(bundle)], seg) && AllCareful(p, [PutBundle(bundle), PutLayout(layout)], seg)
    ensures ApplyAll(p, [PutBundle(bundle), PutLayout(layout)]) == p.(bundle := Some(bundle), layout := Some(layout))
  {
    assert [] + [PutBundle(bundle)] == [PutBundle(bundle)];
    CarefulThen(p, [], PutBundle(bundle), seg);
    assert [PutBundle(bundle)] + [PutLayout(layout)] == [PutBundle(bundle), PutLayout(layout)];
    CarefulThen(p, [PutBundle(bundle)], PutLayout(layout), seg);
  }

  lemma BundlingIsCareful(p: Prefix, m: Manifest, b: Bundling, dropped: seq<Rel>, seg: map<Rel, Bytes>)
    requires Restorable(p, seg) && p.manifest == Some(m) && AllIndex(dropped)
    ensures AllCareful(p, BundleOps(m, b, dropped), seg)
  {
    if b.BundleOnly? {
      BundlePutsAreCareful(p, b.bundle, [], seg);
    } else if b.Bundled? {
      var first, put := [PutBundle(b.bundle), PutLayout(b.layout)], PutManifest(BundledManifest(m));
      BundlePutsAreCareful(p, b.bundle, b.layout, seg);
      var q := ApplyAll(p, first);
      if b.landed {
        assert Careful(q, put, seg) by {
          BundledManifestHeld(p, m, seg);
          forall i | 0 <= i < |BundledManifest(m).files| ensures EntryHeld(q, seg, BundledManifest(m).files[i]) {
            assert EntryHeld(p, seg, BundledManifest(m).files[i]);
          }
        }
        CarefulThen(p, first, put, seg);
        DeletesAreCareful(ApplyAll(p, first + [put]), m, dropped, seg, |dropped|);
        assert Deletes(dropped)[..|dropped|] == Deletes(dropped);
        CarefulConcat(p, first + [put], Deletes(dropped), seg);
        assert first + [put] + [] == first + [put];
      } else {
        assert first + [] + [] == first;
      }
    }
  }

  /** One writer on the prefix, stopped after `done` operations. */
  datatype Attempt =
    | BackupAttempt(snap: Snapshot, readable: bool, listing: seq<Rel>, done: nat)
    | ParkAttempt(snap: Snapshot, readable: bool, listing: seq<Rel>, bundling: Bundling, dropped: seq<Rel>, done: nat)

  function AttemptOps(p: Prefix, a: Attempt): seq<Op> {
    match a
    case BackupAttempt(snap, readable, listing, _) => BackupOps(snap, Previous(p, readable), listing)
    case ParkAttempt(snap, readable, listing, b, dropped, _) => ParkOps(snap, Previous(p, readable), listing, b, dropped)
  }

  function DoneOps(p: Prefix, a: Attempt): seq<Op> {
    if a.done < |AttemptOps(p, a)| then AttemptOps(p, a)[..a.done] else AttemptOps(p, a)
  }

  function AfterAttempts(p: Prefix, run: seq<Attempt>): Prefix
    decreases |run|
  {
    if run == [] then p else AfterAttempts(ApplyAll(p, DoneOps(p, run[0])), run[1..])
  }

  ghost predicate AttemptOk(a: Attempt, seg: map<Rel, Bytes>) {
    SnapshotSealed(a.snap, seg) && (a.ParkAttempt? ==> AllIndex(a.dropped))
  }

  lemma AttemptIsCareful(p: Prefix, a: Attempt, seg: map<Rel, Bytes>)
    requires Restorable(p, seg) && AttemptOk(a, seg)
    ensures AllCareful(p, AttemptOps(p, a), seg)
  {
    BackupIsCareful(p, a.snap, a.readable, a.listing, seg);
    if a.ParkAttempt? {
      var ops := BackupOps(a.snap, Previous(p, a.readable), a.listing);
      CarefulRun(p, ops, seg, |ops|);
      assert ops[..|ops|] == ops;
      BundlingIsCareful(ApplyAll(p, ops), ManifestOf(a.snap), a.bundling, a.dropped, seg);
      CarefulConcat(p, ops, BundleOps(ManifestOf(a.snap), a.bundling, a.dropped), seg);
    }
  }

  /**
   In every state any run of backups and parks can leave a prefix in, each
   attempt stopped after any number of its operations, every file the committed
   manifest names is stored, and every segment file named is intact.
   */
  lemma {:induction false} ListedFilesSurviveRuns(p: Prefix, run: seq<Attempt>, seg: map<Rel, Bytes>)
    requires Restorable(p, seg)
    requires forall i :: 0 <= i < |run| ==> AttemptOk(run[i], seg)
    ensures Restorable(AfterAttempts(p, run), seg)
    decreases |run|
  {
    if run != [] {
      AttemptIsCareful(p, run[0], seg);
      var ops := AttemptOps(p, run[0]);
      var n := if run[0].done < |ops| then run[0].done else |ops|;
      CarefulRun(p, ops, seg, n);
      assert ops[..n] == DoneOps(p, run[0]);
      ListedFilesSurviveRuns(ApplyAll(p, DoneOps(p, run[0])), run[1..], seg);
    }
  }

  // ------------------------------------------------------ what the pruning keeps

  lemma AfterUploads(p: Prefix, snap: Snapshot)
    ensures var q := ApplyAll(p, Uploads(snap.files));
            q == p.(data := q.data) && forall rel :: rel in q.data <==> rel in p.data || Listed(ManifestOf(snap), rel)
  {
    var n := |snap.files|;
    assert Uploads(snap.files)[..n] == Uploads(snap.files);
    UploadsHold(p, snap, n);
    forall rel ensures Listed(ManifestOf(snap), rel) <==> exists i :: 0 <= i < n && snap.files[i].0 == rel {
      if i :| 0 <= i < n && snap.files[i].0 == rel {
        assert ManifestOf(snap).files[i].rel == rel;
      }
    }
  }

  /** A completed backup keeps every object unless the source snapshot moved on. */
  lemma SameSnapshotDeletesNothing(p: Prefix, snap: Snapshot, readable: bool, listing: seq<Rel>)
    requires p.manifest.Some? ==> snap.number <= p.manifest.value.snapshot
    ensures var q := ApplyAll(p, BackupOps(snap, Previous(p, readable), listing));
            forall rel :: rel in q.data <==> rel in p.data || Listed(ManifestOf(snap), rel)
  {
    AfterUploads(p, snap);
    PerformOne(ApplyOp, p, Uploads(snap.files), PutManifest(ManifestOf(snap)));
    assert Uploads(snap.files) + [PutManifest(ManifestOf(snap))] + [] == Uploads(snap.files) + [PutManifest(ManifestOf(snap))];
  }

  /** A completed backup that advances the snapshot leaves exactly the files of its manifest and of the one it replaced. */
  lemma AdvanceKeepsTwoGenerations(p: Prefix, snap: Snapshot, listing: seq<Rel>, seg: map<Rel, Bytes>)
    requires Restorable(p, seg) && p.manifest.Some? && p.manifest.value.format <= MANIFEST_FORMAT
    requires snap.number > p.manifest.value.snapshot
    requires Lists(listing, ApplyAll(p, Uploads(snap.files)).data)
    ensures var q := ApplyAll(p, BackupOps(snap, Previous(p, true), listing));
            forall rel :: rel in q.data <==> Listed(ManifestOf(snap), rel) || Listed(p.manifest.value, rel)
  {
    var m, prev := ManifestOf(snap), p.manifest.value;
    AfterUploads(p, snap);
    PerformOne(ApplyOp, p, Uploads(snap.files), PutManifest(m));
    var r := ApplyAll(p, Uploads(snap.files) + [PutManifest(m)]);
    PrunesEffect(r, listing, m, prev);
    PerformConcat(ApplyOp, p, Uploads(snap.files) + [PutManifest(m)], Prunes(listing, m, prev));
    forall rel | Listed(prev, rel) ensures rel in p.data {
      var i :| 0 <= i < |prev.files| && prev.files[i].rel == rel;
      assert EntryHeld(p, seg, prev.files[i]);
    }
  }

  /** The same after any run of attempts, crashed or not: whatever they orphaned is reclaimed by the next advancing backup. */
  lemma OrphansAreReclaimed(p: Prefix, run: seq<Attempt>, snap: Snapshot, listing: seq<Rel>, seg: map<Rel, Bytes>)
    requires Restorable(p, seg) && forall i :: 0 <= i < |run| ==> AttemptOk(run[i], seg)
    requires var q := AfterAttempts(p, run);
             && q.manifest.Some? && q.manifest.value.format <= MANIFEST_FORMAT && snap.number > q.manifest.value.snapshot
             && Lists(listing, ApplyAll(q, Uploads(snap.files)).data)
    ensures var q := AfterAttempts(p, run);
            forall rel :: rel in ApplyAll(q, BackupOps(snap, Previous(q, true), listing)).data
                          <==> Listed(ManifestOf(snap), rel) || Listed(q.manifest.value, rel)
  {
    ListedFilesSurviveRuns(p, run, seg);
    AdvanceKeepsTwoGenerations(AfterAttempts(p, run), snap, listing, seg);
  }

  // ------------------------------------------------- what a committed manifest says

  /**
   The manifest is of this snapshot: its number, and every file with its length,
   or, once the index files have been bundled, every file that is not one of them.
   */
  ghost predicate Records(m: Manifest, snap: Snapshot) {
    && m.snapshot == snap.number && m.format == MANIFEST_FORMAT
    && (forall i :: 0 <= i < |snap.files| && !(m.bundled && snap.files[i].0.Index?) ==>
          FileEntry(snap.files[i].0, |snap.files[i].1|) in m.files)
    && (forall e :: e in m.files ==> EntryOf(e, snap) && !(m.bundled && e.rel.Index?))
  }

  ghost predicate EntryOf(e: FileEntry, snap: Snapshot) {
    exists i :: 0 <= i < |snap.files| && e == FileEntry(snap.files[i].0, |snap.files[i].1|)
  }

  lemma ManifestRecords(snap: Snapshot)
    ensures Records(ManifestOf(snap), snap) && !ManifestOf(snap).bundled
    ensures Records(BundledManifest(ManifestOf(snap)), snap) && BundledManifest(ManifestOf(snap)).bundled
  {
    var m := ManifestOf(snap);
    forall i | 0 <= i < |snap.files| ensures FileEntry(snap.files[i].0, |snap.files[i].1|) in m.files {
      assert m.files[i] == FileEntry(snap.files[i].0, |snap.files[i].1|);
    }
    forall e ensures e in WithoutIndex(m.files) <==> e in m.files && !e.rel.Index? { WithoutIndexIs(m.files, e); }
    forall e | e in m.files ensures EntryOf(e, snap) {
      var i :| 0 <= i < |m.files| && m.files[i] == e;
    }
  }

  lemma {:induction false} WithoutIndexIs(files: seq<FileEntry>, e: FileEntry)
    ensures e in WithoutIndex(files) <==> e in files && !e.rel.Index?
    decreases |files|
  {
    if files != [] {
      assert files == [files[0]] + files[1..];
      WithoutIndexIs(files[1..], e);
    }
  }

  /** Every manifest the operations commit is of this snapshot, and none is deleted. */
  ghost predicate CommitsOnly(ops: seq<Op>, snap: Snapshot) {
    forall i :: 0 <= i < |ops| ==> !ops[i].DeleteManifest? && (ops[i].PutManifest? ==> Records(ops[i].manifest, snap))
  }

  lemma {:induction false} CommitsOnlyOwn(p: Prefix, ops: seq<Op>, snap: Snapshot, n: nat)
    requires CommitsOnly(ops, snap) && n <= |ops|
    ensures var q := ApplyAll(p, ops[..n]); q.manifest == p.manifest || (q.manifest.Some? && Records(q.manifest.value, snap))
    decreases n
  {
    hide Records;
    if n != 0 {
      CommitsOnlyOwn(p, ops, snap, n - 1);
      assert ops[..n] == ops[..n - 1] + [ops[n - 1]];
      PerformOne(ApplyOp, p, ops[..n - 1], ops[n - 1]);
    }
  }

  lemma {:induction false} PrunesDeleteData(listing: seq<Rel>, m: Manifest, previous: Manifest)
    ensures forall i :: 0 <= i < |Prunes(listing, m, previous)| ==> Prunes(listing, m, previous)[i].DeleteData?
    decreases |listing|
  {
    if listing != [] { PrunesDeleteData(listing[1..], m, previous); }
  }

  lemma AttemptCommitsOwn(p: Prefix, a: Attempt)
    ensures CommitsOnly(AttemptOps(p, a), a.snap)
  {
    hide Records, ManifestOf, BundledManifest;
    var previous := Previous(p, a.readable);
    ManifestRecords(a.snap);
    if previous.Some? { PrunesDeleteData(a.listing, ManifestOf(a.snap), previous.value); }
    assert CommitsOnly(BackupOps(a.snap, previous, a.listing), a.snap);
    if a.ParkAttempt? { assert CommitsOnly(BundleOps(ManifestOf(a.snap), a.bundling, a.dropped), a.snap); }
  }

  /** Operations that commit no manifest leave it alone. */
  lemma {:induction false} ManifestStays(p: Prefix, ops: seq<Op>)
    requires forall i :: 0 <= i < |ops| ==> !ops[i].PutManifest? && !ops[i].DeleteManifest?
    ensures ApplyAll(p, ops).manifest == p.manifest
    decreases |ops|
  {
    if ops != [] {
      var k := |ops| - 1;
      ManifestStays(p, ops[..k]);
      assert ops == ops[..k] + [ops[k]];
      PerformOne(ApplyOp, p, ops[..k], ops[k]);
    }
  }

  /** A completed backup has committed the manifest of its own snapshot. */
  lemma BackupRecords(p: Prefix, snap: Snapshot, previous: Option<Manifest>, listing: seq<Rel>)
    ensures ApplyAll(p, BackupOps(snap, previous, listing)).manifest == Some(ManifestOf(snap))
    ensures Records(ManifestOf(snap), snap) && !ManifestOf(snap).bundled
  {
    hide Records, ManifestOf;
    var head, gc := Uploads(snap.files) + [PutManifest(ManifestOf(snap))], Reclaims(snap, previous, listing);
    ManifestRecords(snap);
    PerformOne(ApplyOp, p, Uploads(snap.files), PutManifest(ManifestOf(snap)));
    PerformConcat(ApplyOp, p, head, gc);
    if gc != [] { PrunesDeleteData(listing, ManifestOf(snap), previous.value); }
    ManifestStays(ApplyAll(p, head), gc);
  }

  /** After the bundle steps the manifest is the bundled one exactly if that landed. */
  lemma BundlingCommits(p: Prefix, m: Manifest, b: Bundling, dropped: seq<Rel>)
    ensures ApplyAll(p, BundleOps(m, b, dropped)).manifest
            == if b.Bundled? && b.landed then Some(BundledManifest(m)) else p.manifest
  {
    hide BundledManifest;
    var ops := BundleOps(m, b, dropped);
    if b.Bundled? && b.landed {
      var head, put, rest := [PutBundle(b.bundle), PutLayout(b.layout)], PutManifest(BundledManifest(m)), if b.heard then Deletes(dropped) else [];
      assert ops == head + [put] + rest;
      PerformOne(ApplyOp, p, head, put);
      PerformConcat(ApplyOp, p, head + [put], rest);
      ManifestStays(ApplyAll(p, head + [put]), rest);
    } else {
      ManifestStays(p, ops);
    }
  }

  /** A completed attempt has committed a manifest of its own snapshot, bundled exactly if it was a park whose bundled manifest landed. */
  lemma CompletedAttemptRecords(p: Prefix, a: Attempt)
    ensures var q := ApplyAll(p, AttemptOps(p, a));
            && q.manifest.Some? && Records(q.manifest.value, a.snap)
            && (q.manifest.value.bundled <==> a.ParkAttempt? && a.bundling.Bundled? && a.bundling.landed)
  {
    hide Records, ManifestOf, BundledManifest, BackupOps, BundleOps;
    var backup := BackupOps(a.snap, Previous(p, a.readable), a.listing);
    BackupRecords(p, a.snap, Previous(p, a.readable), a.listing);
    ManifestRecords(a.snap);
    if a.ParkAttempt? {
      PerformConcat(ApplyOp, p, backup, BundleOps(ManifestOf(a.snap), a.bundling, a.dropped));
      BundlingCommits(ApplyAll(p, backup), ManifestOf(a.snap), a.bundling, a.dropped);
    }
  }

  /** Over any run, crashed attempts included, the committed manifest is the first one or of the snapshot of one of the attempts. */
  lemma {:induction false} CommittedIsOfSomeAttempt(p: Prefix, run: seq<Attempt>)
    ensures var q := AfterAttempts(p, run);
            q.manifest == p.manifest || (q.manifest.Some? && exists i :: 0 <= i < |run| && Records(q.manifest.value, run[i].snap))
    decreases |run|
  {
    hide Records, AttemptOps;
    if run != [] {
      var ops := AttemptOps(p, run[0]);
      var n := if run[0].done < |ops| then run[0].done else |ops|;
      assert ops[..n] == DoneOps(p, run[0]);
      AttemptCommitsOwn(p, run[0]);
      CommitsOnlyOwn(p, ops, run[0].snap, n);
      var p1 := ApplyAll(p, ops[..n]);
      CommittedIsOfSomeAttempt(p1, run[1..]);
      var q := AfterAttempts(p, run);
      if q.manifest.Some? && q.manifest != p1.manifest {
        var i :| 0 <= i < |run| - 1 && Records(q.manifest.value, run[1..][i].snap);
        assert run[i + 1] == run[1..][i];
      }
    }
  }
}
