/**
 Parking a window to object storage and promoting it back, one durable effect
 at a time. A crash keeps a prefix of the effects. After it, the marker in the
 window directory alone decides which copy serves the window; the theorems say
 that copy is whole, at every crash point of every life of a window.
 */
module ColdTier {
  import opened Script
  import opened Wrappers
  import opened ObjectPrefix
  import opened Bundle
  import RefreshTheorems

  /** A window: its local files, the cold marker in its directory, and its prefix in the object store. */
  datatype Window = Window(local: map<Rel, Bytes>, marker: Option<Marker>, remote: Prefix)

  datatype Effect =
    | Remote(op: Op)
    | WriteLocal(rel: Rel, bytes: Bytes)
    | RemoveLocal(rel: Rel)
    | WriteMarker(marker: Marker)
    | RemoveMarker

  function Do(w: Window, e: Effect): Window {
    match e
    case Remote(op) => w.(remote := ApplyOp(w.remote, op))
    case WriteLocal(rel, bytes) => w.(local := w.local[rel := bytes])
    case RemoveLocal(rel) => w.(local := w.local - {rel})
    case WriteMarker(m) => w.(marker := Some(m))
    case RemoveMarker => w.(marker := None)
  }

  function DoAll(w: Window, es: seq<Effect>): Window {
    Perform(Do, w, es)
  }

  // ------------------------------------------------------- the copy that serves

  /** The window's committed index files. */
  type Contents = map<Rel, Bytes>

  ghost predicate IndexOnly(contents: Contents) {
    forall rel: Rel :: rel in contents ==> rel.Index?
  }

  ghost predicate LocalFull(w: Window, contents: Contents) {
    forall rel :: rel in contents ==> rel in w.local && w.local[rel] == contents[rel]
  }

  /** The layout names each committed file exactly once and cuts it out whole. */
  ghost predicate SpansHold(bundle: Bytes, layout: Layout, contents: Contents) {
    && DistinctNames(layout)
    && (forall i :: 0 <= i < |layout| ==>
          && Index(layout[i].name) in contents && Cut(bundle, layout[i]) == Some(contents[Index(layout[i].name)]))
    && (forall rel :: rel in contents ==> exists i :: 0 <= i < |layout| && Index(layout[i].name) == rel)
  }

  ghost predicate RemoteFull(p: Prefix, bundled: bool, contents: Contents) {
    if bundled then
      p.bundle.Some? && p.layout.Some? && SpansHold(p.bundle.value, p.layout.value, contents)
    else
      forall rel :: rel in contents ==> rel in p.data && p.data[rel] == contents[rel]
  }

  /** The copy the marker selects holds every committed file: the local one without a marker, else the one it describes. */
  ghost predicate Complete(w: Window, contents: Contents) {
    if w.marker.None? then LocalFull(w, contents) else RemoteFull(w.remote, w.marker.value.bundled, contents)
  }

  // ------------------------------------------------------------------ parking

  /** How the bundle steps go: the object, its layout and the bundled manifest are stored, and the last store is heard of. */
  datatype BundleLuck = BundleLuck(stored: bool, described: bool, landed: bool, heard: bool)

  datatype ParkPlan = ParkPlan(snap: Snapshot, readable: bool, listing: seq<Rel>,
                               luck: BundleLuck, dropped: seq<Rel>, evicted: seq<Rel>)

  /** The backup took the committed index files, each file once, and no other index file. */
  ghost predicate Took(snap: Snapshot, contents: Contents) {
    && (forall i, j :: 0 <= i < j < |snap.files| ==> snap.files[i].0 != snap.files[j].0)
    && (forall rel :: rel in contents ==> exists i :: 0 <= i < |snap.files| && snap.files[i] == (rel, contents[rel]))
    && (forall i :: 0 <= i < |snap.files| && snap.files[i].0.Index? ==> snap.files[i].0 in contents)
  }

  /** The index files a manifest lists, by their names in the index directory. */
  function IndexNames(files: seq<FileEntry>): seq<string> {
    if files == [] then []
    else
      IndexNames(files[..|files| - 1])
      + if files[|files| - 1].rel.Index? then [files[|files| - 1].rel.name] else []
  }

  /** The index directory of a window. */
  function IndexDir(local: map<Rel, Bytes>): map<string, Bytes> {
    map rel | rel in local && rel.Index? :: rel.name := local[rel]
  }

  /** What the bundle steps of a park get done, from the local files the manifest lists. */
  function BundlingOf(local: map<Rel, Bytes>, m: Manifest, luck: BundleLuck): Bundling {
    var dir, names := IndexDir(local), IndexNames(m.files);
    if !AllThere(dir, names) || !luck.stored then NoBundle
    else if !luck.described then BundleOnly(Joined(dir, names))
    else Bundled(Joined(dir, names), Spans(dir, names), luck.landed, luck.heard)
  }

  lemma {:induction false} NameListedIff(files: seq<FileEntry>, name: string)
    ensures name in IndexNames(files) <==> exists i :: 0 <= i < |files| && files[i].rel == Index(name)
    decreases |files|
  {
    if files != [] {
      var k := |files| - 1;
      NameListedIff(files[..k], name);
      if name in IndexNames(files[..k]) {
        var i :| 0 <= i < k && files[..k][i].rel == Index(name);
        assert files[i].rel == Index(name);
      }
      if i :| 0 <= i < k && files[i].rel == Index(name) {
        assert files[..k][i].rel == Index(name);
      }
    }
  }

  lemma {:induction false} IndexNamesAreDistinct(files: seq<FileEntry>)
    requires forall i, j :: 0 <= i < j < |files| ==> files[i].rel != files[j].rel
    ensures var names := IndexNames(files); forall i, j :: 0 <= i < j < |names| ==> names[i] != names[j]
    decreases |files|
  {
    if files != [] {
      var k := |files| - 1;
      IndexNamesAreDistinct(files[..k]);
      if files[k].rel.Index? { NameListedIff(files[..k], files[k].rel.name); }
    }
  }

  /** The bundle a park builds from a whole local index holds every committed file. */
  lemma BuiltBundleHolds(local: map<Rel, Bytes>, snap: Snapshot, contents: Contents)
    requires Took(snap, contents) && IndexOnly(contents)
    requires forall rel :: rel in contents ==> rel in local && local[rel] == contents[rel]
    ensures var dir, names := IndexDir(local), IndexNames(ManifestOf(snap).files);
            AllThere(dir, names) && SpansHold(Joined(dir, names), Spans(dir, names), contents)
  {
    var files, dir := ManifestOf(snap).files, IndexDir(local);
    var names := IndexNames(files);
    forall i, j | 0 <= i < j < |files| ensures files[i].rel != files[j].rel { assert snap.files[i].0 != snap.files[j].0; }
    IndexNamesAreDistinct(files);
    forall i | 0 <= i < |names| ensures Index(names[i]) in contents && names[i] in dir && dir[names[i]] == contents[Index(names[i])] {
      NameListedIff(files, names[i]);
      var j :| 0 <= j < |files| && files[j].rel == Index(names[i]);
      assert snap.files[j].0 == Index(names[i]);
      DirHolds(local, names[i]);
    }
    JoinedHolds(dir, names);
    forall rel | rel in contents ensures exists i :: 0 <= i < |names| && Index(names[i]) == rel {
      var j :| 0 <= j < |snap.files| && snap.files[j] == (rel, contents[rel]);
      NameListedIff(files, rel.name);
      assert files[j].rel == Index(rel.name);
    }
    NamedSpansHold(Joined(dir, names), Spans(dir, names), names, dir, contents);
  }

  lemma DirHolds(local: map<Rel, Bytes>, name: string)
    requires Index(name) in local
    ensures name in IndexDir(local) && IndexDir(local)[name] == local[Index(name)]
  {
  }

  lemma NamedSpansHold(bundle: Bytes, layout: Layout, names: seq<string>, dir: map<string, Bytes>, contents: Contents)
    requires Holds(bundle, layout, names, dir)
    requires forall i, j :: 0 <= i < j < |names| ==> names[i] != names[j]
    requires forall i :: 0 <= i < |names| ==> Index(names[i]) in contents && dir[names[i]] == contents[Index(names[i])]
    requires forall rel :: rel in contents ==> exists i :: 0 <= i < |names| && Index(names[i]) == rel
    ensures SpansHold(bundle, layout, contents)
  {
    forall i | 0 <= i < |layout|
      ensures Index(layout[i].name) in contents && Cut(bundle, layout[i]) == Some(contents[Index(layout[i].name)])
    {
      assert layout[i].name == names[i];
    }
    forall rel | rel in contents ensures exists i :: 0 <= i < |layout| && Index(layout[i].name) == rel {
      var i :| 0 <= i < |names| && Index(names[i]) == rel;
      assert Index(layout[i].name) == rel;
    }
  }

  function Lift(ops: seq<Op>): seq<Effect> {
    seq(|ops|, i requires 0 <= i < |ops| => Remote(ops[i]))
  }

  function Evictions(rels: seq<Rel>): seq<Effect> {
    seq(|rels|, i requires 0 <= i < |rels| => RemoveLocal(rels[i]))
  }

  function RemoteOps(w: Window, plan: ParkPlan): seq<Op> {
    ParkOps(plan.snap, Previous(w.remote, plan.readable), plan.listing, BundlingIn(w, plan), plan.dropped)
  }

  function BundlingIn(w: Window, plan: ParkPlan): Bundling {
    BundlingOf(w.local, ManifestOf(plan.snap), plan.luck)
  }

  function MarkerOf(w: Window, plan: ParkPlan): Marker {
    Marker(plan.snap.number, BundlingIn(w, plan).Bundled?)
  }

  /** What follows the object-store work: the local marker, its published copy, the eviction of the local bulk. */
  function ParkTail(marker: Marker, evicted: seq<Rel>): seq<Effect> {
    [WriteMarker(marker)] + ([Remote(PutMarker(marker))] + Evictions(evicted))
  }

  /** Offline cold park: object store, then the two markers, then the local bulk goes last. */
  function ParkEffects(w: Window, plan: ParkPlan): seq<Effect> {
    Lift(RemoteOps(w, plan)) + ParkTail(MarkerOf(w, plan), plan.evicted)
  }

  lemma {:induction false} LiftTouchesRemoteOnly(w: Window, ops: seq<Op>, n: nat)
    requires n <= |ops|
    ensures DoAll(w, Lift(ops)[..n]) == w.(remote := ApplyAll(w.remote, ops[..n]))
    decreases n
  {
    if n != 0 {
      LiftTouchesRemoteOnly(w, ops, n - 1);
      assert Lift(ops)[..n] == Lift(ops)[..n - 1] + [Lift(ops)[n - 1]];
      assert ops[..n] == ops[..n - 1] + [ops[n - 1]];
      PerformOne(Do, w, Lift(ops)[..n - 1], Lift(ops)[n - 1]);
      PerformOne(ApplyOp, w.remote, ops[..n - 1], ops[n - 1]);
    }
  }

  /** A completed backup leaves every committed file under `data/` with its committed bytes. */
  lemma BackupHoldsContents(p: Prefix, snap: Snapshot, readable: bool, listing: seq<Rel>, contents: Contents)
    requires Took(snap, contents)
    ensures RemoteFull(ApplyAll(p, BackupOps(snap, Previous(p, readable), listing)), false, contents)
  {
    var ups, m := Uploads(snap.files), ManifestOf(snap);
    var q := ApplyAll(p, ups);
    assert ups[..|ups|] == ups;
    PerformOne(ApplyOp, p, ups, PutManifest(m));
    var gc := Reclaims(snap, Previous(p, readable), listing);
    PerformConcat(ApplyOp, p, ups + [PutManifest(m)], gc);
    var r := ApplyAll(p, ups + [PutManifest(m)]);
    if gc != [] { PrunesEffect(r, listing, m, Previous(p, readable).value); }
    forall rel | rel in contents
      ensures var end := ApplyAll(p, BackupOps(snap, Previous(p, readable), listing));
              rel in end.data && end.data[rel] == contents[rel]
    {
      var i :| 0 <= i < |snap.files| && snap.files[i] == (rel, contents[rel]);
      RefreshTheorems.CommittedBytes(p, snap, |snap.files|, i);
      assert m.files[i].rel == rel;
    }
  }

  /** After the bundle steps the copy the new marker will describe is whole. */
  lemma BundlingHoldsContents(p: Prefix, m: Manifest, b: Bundling, dropped: seq<Rel>, contents: Contents)
    requires RemoteFull(p, false, contents)
    requires b.Bundled? ==> SpansHold(b.bundle, b.layout, contents)
    ensures RemoteFull(ApplyAll(p, BundleOps(m, b, dropped)), b.Bundled?, contents)
  {
    if b.BundleOnly? {
      assert [PutBundle(b.bundle)] == [] + [PutBundle(b.bundle)];
      PerformOne(ApplyOp, p, [], PutBundle(b.bundle));
    } else if b.Bundled? {
      BundledStands(p, m, b, dropped);
    }
  }

  /** The bundle and its layout, once put, stand through the rest of the bundle steps. */
  lemma BundledStands(p: Prefix, m: Manifest, b: Bundling, dropped: seq<Rel>)
    requires b.Bundled?
    ensures var q := ApplyAll(p, BundleOps(m, b, dropped)); q.bundle == Some(b.bundle) && q.layout == Some(b.layout)
  {
    hide Perform;
    var first := [PutBundle(b.bundle), PutLayout(b.layout)];
    BundlePutsAreCareful(p, b.bundle, b.layout, map[]);
    var put: seq<Op> := if b.landed then [PutManifest(BundledManifest(m))] else [];
    var last := if b.landed && b.heard then Deletes(dropped) else [];
    PerformConcat(ApplyOp, p, first, put);
    PerformConcat(ApplyOp, p, first + put, last);
    KeepsBundle(ApplyAll(p, first), put, |put|);
    assert put[..|put|] == put;
    KeepsBundle(ApplyAll(p, first + put), last, |last|);
    assert last[..|last|] == last;
  }

  lemma {:induction false} KeepsBundle(p: Prefix, ops: seq<Op>, n: nat)
    requires n <= |ops| && forall i :: 0 <= i < |ops| ==> ops[i].PutManifest? || ops[i].DeleteData?
    ensures ApplyAll(p, ops[..n]).bundle == p.bundle && ApplyAll(p, ops[..n]).layout == p.layout
    decreases n
  {
    if n != 0 {
      KeepsBundle(p, ops, n - 1);
      assert ops[..n] == ops[..n - 1] + [ops[n - 1]];
      PerformOne(ApplyOp, p, ops[..n - 1], ops[n - 1]);
    }
  }

  /** Once the marker is written, publishing it and evicting the bulk disturb neither it nor what it describes. */
  lemma {:induction false} TailKeepsRemote(w: Window, es: seq<Effect>, n: nat, contents: Contents)
    requires n <= |es| && w.marker.Some? && RemoteFull(w.remote, w.marker.value.bundled, contents)
    requires forall i :: 0 <= i < |es| ==> es[i].RemoveLocal? || (es[i].Remote? && es[i].op.PutMarker?)
    ensures DoAll(w, es[..n]).marker == w.marker
    ensures RemoteFull(DoAll(w, es[..n]).remote, w.marker.value.bundled, contents)
    decreases n
  {
    if n != 0 {
      TailKeepsRemote(w, es, n - 1, contents);
      assert es[..n] == es[..n - 1] + [es[n - 1]];
      PerformOne(Do, w, es[..n - 1], es[n - 1]);
    }
  }

  /** When the object-store work is done, the window is still hot and the copy the marker will describe is whole. */
  lemma ParkedRemoteIsFull(w: Window, plan: ParkPlan, contents: Contents)
    requires LocalFull(w, contents) && Took(plan.snap, contents) && IndexOnly(contents)
    ensures DoAll(w, Lift(RemoteOps(w, plan))) == w.(remote := ApplyAll(w.remote, RemoteOps(w, plan)))
    ensures RemoteFull(ApplyAll(w.remote, RemoteOps(w, plan)), BundlingIn(w, plan).Bundled?, contents)
  {
    hide Took, IndexNames, IndexDir, Joined, Spans;
    var ops, bundling := RemoteOps(w, plan), BundlingIn(w, plan);
    assert Lift(ops)[..|ops|] == Lift(ops) && ops[..|ops|] == ops;
    LiftTouchesRemoteOnly(w, ops, |ops|);
    var backup := BackupOps(plan.snap, Previous(w.remote, plan.readable), plan.listing);
    BackupHoldsContents(w.remote, plan.snap, plan.readable, plan.listing, contents);
    PerformConcat(ApplyOp, w.remote, backup, BundleOps(ManifestOf(plan.snap), bundling, plan.dropped));
    BuiltBundleHolds(w.local, plan.snap, contents);
    BundlingHoldsContents(ApplyAll(w.remote, backup), ManifestOf(plan.snap), bundling, plan.dropped, contents);
  }

  lemma ParkTailIsSafe(w: Window, marker: Marker, evicted: seq<Rel>, contents: Contents, k: nat)
    requires w.marker.None? && LocalFull(w, contents) && RemoteFull(w.remote, marker.bundled, contents)
    requires k <= |ParkTail(marker, evicted)|
    ensures Complete(DoAll(w, ParkTail(marker, evicted)[..k]), contents)
    ensures k > 0 ==> DoAll(w, ParkTail(marker, evicted)[..k]).marker == Some(marker)
  {
    var mk := WriteMarker(marker);
    var rest := [Remote(PutMarker(marker))] + Evictions(evicted);
    if k == 0 {
      assert ParkTail(marker, evicted)[..0] == [];
    } else {
      assert [mk] == [] + [mk];
      PerformOne(Do, w, [], mk);
      PerformPrefix(Do, w, [mk], rest, k);
      TailKeepsRemote(Do(w, mk), rest, k - 1, contents);
    }
  }

  /** A hot window being parked, its bundle built from its own files, is whole at every crash point, and ends cold. */
  lemma ParkIsCrashSafe(w: Window, plan: ParkPlan, contents: Contents, n: nat)
    requires w.marker.None? && LocalFull(w, contents) && IndexOnly(contents) && Took(plan.snap, contents)
    requires n <= |ParkEffects(w, plan)|
    ensures Complete(DoAll(w, ParkEffects(w, plan)[..n]), contents)
    ensures n == |ParkEffects(w, plan)| ==> DoAll(w, ParkEffects(w, plan)[..n]).marker == Some(MarkerOf(w, plan))
  {
    hide BundlingIn, RemoteOps, Took;
    var ops, tail := RemoteOps(w, plan), ParkTail(MarkerOf(w, plan), plan.evicted);
    PerformPrefix(Do, w, Lift(ops), tail, n);
    if n < |ops| {
      LiftTouchesRemoteOnly(w, ops, n);
    } else {
      ParkedRemoteIsFull(w, plan, contents);
      ParkTailIsSafe(DoAll(w, Lift(ops)), MarkerOf(w, plan), plan.evicted, contents, n - |ops|);
    }
  }

  lemma {:induction false} EvictionsEffect(w: Window, rels: seq<Rel>)
    ensures DoAll(w, Evictions(rels)) == w.(local := w.local - set rel | rel in rels)
    decreases |rels|
  {
    hide Perform;
    if rels == [] {
      PerformNone(Do, w);
      assert w.local - (set rel | rel in rels) == w.local;
    } else {
      var k := |rels| - 1;
      EvictionsEffect(w, rels[..k]);
      assert Evictions(rels) == Evictions(rels[..k]) + [RemoveLocal(rels[k])];
      PerformOne(Do, w, Evictions(rels[..k]), RemoveLocal(rels[k]));
      assert (set rel | rel in rels) == (set rel | rel in rels[..k]) + {rels[k]};
    }
  }

  lemma ParkTailEffect(w: Window, marker: Marker, evicted: seq<Rel>)
    ensures var end := DoAll(w, ParkTail(marker, evicted));
            && end.marker == Some(marker) && end.remote == w.remote.(marker := Some(marker))
            && end.local == w.local - set rel | rel in evicted
  {
    hide Perform;
    var mk, pub := WriteMarker(marker), Remote(PutMarker(marker));
    PerformNone(Do, w);
    assert [] + [mk] == [mk] && [mk] + ([pub] + Evictions(evicted)) == [mk] + [pub] + Evictions(evicted);
    PerformOne(Do, w, [], mk);
    PerformOne(Do, w, [mk], pub);
    PerformConcat(Do, w, [mk] + [pub], Evictions(evicted));
    EvictionsEffect(DoAll(w, [mk] + [pub]), evicted);
  }

  /**
   What a finished park of a whole window leaves: a manifest of the snapshot it
   took, bundled exactly if bundle, layout and bundled manifest were all stored; a
   marker of that snapshot, in the directory and published, that says bundled
   exactly if bundle and layout were; and locally everything but what it evicted.
   */
  lemma FinishedPark(w: Window, plan: ParkPlan, contents: Contents)
    requires LocalFull(w, contents) && Took(plan.snap, contents) && IndexOnly(contents)
    ensures var end, luck := DoAll(w, ParkEffects(w, plan)), plan.luck;
            && end.remote.manifest.Some? && Records(end.remote.manifest.value, plan.snap)
            && (end.remote.manifest.value.bundled <==> luck.stored && luck.described && luck.landed)
            && end.marker == Some(Marker(plan.snap.number, luck.stored && luck.described)) == end.remote.marker
            && end.local == w.local - set rel | rel in plan.evicted
  {
    hide Perform, Took, IndexNames, IndexDir, Joined, Spans, Records, BackupOps, BundleOps, ParkTail;
    var ops, marker := RemoteOps(w, plan), MarkerOf(w, plan);
    var backup, m := BackupOps(plan.snap, Previous(w.remote, plan.readable), plan.listing), ManifestOf(plan.snap);
    BuiltBundleHolds(w.local, plan.snap, contents);
    assert Lift(ops)[..|ops|] == Lift(ops) && ops[..|ops|] == ops;
    LiftTouchesRemoteOnly(w, ops, |ops|);
    PerformConcat(Do, w, Lift(ops), ParkTail(marker, plan.evicted));
    ParkTailEffect(w.(remote := ApplyAll(w.remote, ops)), marker, plan.evicted);
    PerformConcat(ApplyOp, w.remote, backup, BundleOps(m, BundlingIn(w, plan), plan.dropped));
    BackupRecords(w.remote, plan.snap, Previous(w.remote, plan.readable), plan.listing);
    BundlingCommits(ApplyAll(w.remote, backup), m, BundlingIn(w, plan), plan.dropped);
    ManifestRecords(plan.snap);
  }

  /** The order of a park's last steps: the marker is published only once it is written, and a local file goes only once it is published. */
  lemma ParkOrder(w: Window, plan: ParkPlan, n: nat)
    requires n <= |ParkEffects(w, plan)|
    ensures var mid, marker := DoAll(w, ParkEffects(w, plan)[..n]), Some(MarkerOf(w, plan));
            && (mid.marker == w.marker || mid.marker == marker)
            && (mid.remote.marker != w.remote.marker ==> mid.marker == marker == mid.remote.marker)
            && (mid.local != w.local ==> mid.marker == marker == mid.remote.marker)
  {
    hide Perform, BundlingIn, RemoteOps, ParkTail;
    var ops, tail := RemoteOps(w, plan), ParkTail(MarkerOf(w, plan), plan.evicted);
    PerformPrefix(Do, w, Lift(ops), tail, n);
    if n <= |ops| {
      LiftTouchesRemoteOnly(w, ops, n);
      RemoteOpsPublishNothing(w, plan, n);
    } else {
      assert Lift(ops)[..|ops|] == Lift(ops) && ops[..|ops|] == ops;
      LiftTouchesRemoteOnly(w, ops, |ops|);
      RemoteOpsPublishNothing(w, plan, |ops|);
      TailOrder(DoAll(w, Lift(ops)), MarkerOf(w, plan), plan.evicted, n - |ops|);
    }
  }

  lemma TailOrder(w: Window, marker: Marker, evicted: seq<Rel>, k: nat)
    requires 0 < k <= |ParkTail(marker, evicted)|
    ensures var mid := DoAll(w, ParkTail(marker, evicted)[..k]);
            && mid.marker == Some(marker)
            && (if k == 1 then mid.remote == w.remote && mid.local == w.local else mid.remote == w.remote.(marker := Some(marker)))
  {
    hide Perform;
    var mk, pub, rest := WriteMarker(marker), Remote(PutMarker(marker)), Evictions(evicted);
    PerformNone(Do, w);
    assert [] + [mk] == [mk] && ParkTail(marker, evicted) == [mk] + [pub] + rest;
    PerformOne(Do, w, [], mk);
    PerformOne(Do, w, [mk], pub);
    if k == 1 {
      assert ParkTail(marker, evicted)[..1] == [mk];
    } else {
      PerformPrefix(Do, w, [mk] + [pub], rest, k);
      assert rest[..k - 2] == Evictions(evicted[..k - 2]);
      EvictionsEffect(DoAll(w, [mk] + [pub]), evicted[..k - 2]);
    }
  }

  lemma RemoteOpsPublishNothing(w: Window, plan: ParkPlan, n: nat)
    requires n <= |RemoteOps(w, plan)|
    ensures ApplyAll(w.remote, RemoteOps(w, plan)[..n]).marker == w.remote.marker
  {
    hide Perform, BundlingIn, ManifestOf, BundledManifest;
    var ops, previous := RemoteOps(w, plan), Previous(w.remote, plan.readable);
    if previous.Some? { PrunesDeleteData(plan.listing, ManifestOf(plan.snap), previous.value); }
    forall i | 0 <= i < |ops| ensures !ops[i].PutMarker? && !ops[i].DeleteMarker? {}
    PublishesNothing(w.remote, ops, n);
  }

  lemma {:induction false} PublishesNothing(p: Prefix, ops: seq<Op>, n: nat)
    requires n <= |ops| && forall i :: 0 <= i < |ops| ==> !ops[i].PutMarker? && !ops[i].DeleteMarker?
    ensures ApplyAll(p, ops[..n]).marker == p.marker
    decreases n
  {
    if n != 0 {
      PublishesNothing(p, ops, n - 1);
      assert ops[..n] == ops[..n - 1] + [ops[n - 1]];
      PerformOne(ApplyOp, p, ops[..n - 1], ops[n - 1]);
    }
  }

  // ---------------------------------------------------------------- promoting

  /** `listing` is the per-file objects as listed; `removed` says the marker removal worked; `drops` the reclamation deletes that went through. */
  datatype PromotePlan = PromotePlan(listing: seq<Rel>, removed: bool, drops: seq<Op>)

  /** The files a promotion materialises: the bundle's spans, or every listed index object. */
  function Materialised(p: Prefix, bundled: bool, listing: seq<Rel>): seq<(Rel, Bytes)> {
    if bundled then
      if p.bundle.Some? && p.layout.Some? then CutAll(p.bundle.value, p.layout.value) else []
    else
      ReadAll(p.data, listing)
  }

  function CutAll(bundle: Bytes, layout: Layout): seq<(Rel, Bytes)> {
    if layout == [] || Cut(bundle, layout[0]).None? then []
    else [(Index(layout[0].name), Cut(bundle, layout[0]).value)] + CutAll(bundle, layout[1..])
  }

  function ReadAll(data: map<Rel, Bytes>, listing: seq<Rel>): seq<(Rel, Bytes)> {
    if listing == [] then []
    else if listing[0] in data then [(listing[0], data[listing[0]])] + ReadAll(data, listing[1..])
    else []
  }

  function Writes(files: seq<(Rel, Bytes)>): seq<Effect> {
    seq(|files|, i requires 0 <= i < |files| => WriteLocal(files[i].0, files[i].1))
  }

  /** Whether every read of the materialisation succeeds; if not, the promotion fails before it touches the marker. */
  predicate Readable(p: Prefix, bundled: bool, listing: seq<Rel>) {
    if bundled then
      && p.bundle.Some? && p.layout.Some?
      && forall i :: 0 <= i < |p.layout.value| ==> Cut(p.bundle.value, p.layout.value[i]).Some?
    else
      forall i :: 0 <= i < |listing| ==> listing[i] in p.data
  }

  /** A failed removal goes unnoticed. */
  function Unmark(removed: bool): seq<Effect> {
    if removed then [RemoveMarker] else []
  }

  function PromoteTail(w: Window, plan: PromotePlan): seq<Effect>
    requires w.marker.Some?
  {
    if Readable(w.remote, w.marker.value.bundled, plan.listing) then Unmark(plan.removed) + Lift(plan.drops) else []
  }

  function PromoteEffects(w: Window, plan: PromotePlan): seq<Effect>
    requires w.marker.Some?
  {
    Writes(Materialised(w.remote, w.marker.value.bundled, plan.listing)) + PromoteTail(w, plan)
  }

  predicate IsDelete(op: Op) {
    op.DeleteData? || op.DeleteManifest? || op.DeleteBundle? || op.DeleteLayout? || op.DeleteMarker?
  }

  ghost predicate PromotePlanOk(w: Window, plan: PromotePlan) {
    && (forall rel: Rel :: rel in plan.listing <==> rel in w.remote.data && rel.Index?)
    && (forall i :: 0 <= i < |plan.drops| ==> IsDelete(plan.drops[i]))
  }

  /** A materialised file is the committed one, and every committed file is materialised. */
  ghost predicate Covers(files: seq<(Rel, Bytes)>, contents: Contents) {
    && (forall i :: 0 <= i < |files| && files[i].0 in contents ==> files[i].1 == contents[files[i].0])
    && (forall rel :: rel in contents ==> exists i :: 0 <= i < |files| && files[i].0 == rel)
  }

  lemma {:induction false} ReadAllReads(data: map<Rel, Bytes>, listing: seq<Rel>)
    requires forall i :: 0 <= i < |listing| ==> listing[i] in data
    ensures |ReadAll(data, listing)| == |listing|
    ensures forall i :: 0 <= i < |listing| ==> ReadAll(data, listing)[i] == (listing[i], data[listing[i]])
    decreases |listing|
  {
    if listing != [] { ReadAllReads(data, listing[1..]); }
  }

  lemma {:induction false} CutAllSpans(bundle: Bytes, layout: Layout)
    requires forall i :: 0 <= i < |layout| ==> Cut(bundle, layout[i]).Some?
    ensures |CutAll(bundle, layout)| == |layout|
    ensures forall i :: 0 <= i < |layout| ==> CutAll(bundle, layout)[i] == (Index(layout[i].name), Cut(bundle, layout[i]).value)
    decreases |layout|
  {
    if layout != [] { CutAllSpans(bundle, layout[1..]); }
  }

  lemma MaterialisedCovers(w: Window, plan: PromotePlan, contents: Contents)
    requires w.marker.Some? && Complete(w, contents) && IndexOnly(contents) && PromotePlanOk(w, plan)
    ensures Readable(w.remote, w.marker.value.bundled, plan.listing)
    ensures Covers(Materialised(w.remote, w.marker.value.bundled, plan.listing), contents)
  {
    if w.marker.value.bundled {
      CutAllSpans(w.remote.bundle.value, w.remote.layout.value);
    } else {
      ReadAllReads(w.remote.data, plan.listing);
      forall rel | rel in contents ensures exists i :: 0 <= i < |plan.listing| && ReadAll(w.remote.data, plan.listing)[i].0 == rel {
        var i :| 0 <= i < |plan.listing| && plan.listing[i] == rel;
        assert ReadAll(w.remote.data, plan.listing)[i].0 == rel;
      }
    }
  }

  lemma {:induction false} WritesLand(w: Window, files: seq<(Rel, Bytes)>, n: nat, contents: Contents)
    requires n <= |files|
    requires forall i :: 0 <= i < |files| && files[i].0 in contents ==> files[i].1 == contents[files[i].0]
    ensures var w' := DoAll(w, Writes(files)[..n]);
            && w' == w.(local := w'.local)
            && forall i :: 0 <= i < n && files[i].0 in contents ==> files[i].0 in w'.local && w'.local[files[i].0] == contents[files[i].0]
    decreases n
  {
    if n != 0 {
      WritesLand(w, files, n - 1, contents);
      assert Writes(files)[..n] == Writes(files)[..n - 1] + [Writes(files)[n - 1]];
      PerformOne(Do, w, Writes(files)[..n - 1], Writes(files)[n - 1]);
    }
  }

  /** No delete takes away what a marker left in place selects. */
  predicate Harmless(bundled: bool, drops: seq<Op>, contents: Contents) {
    if bundled then DeleteBundle !in drops && DeleteLayout !in drops
    else forall rel :: rel in contents ==> DeleteData(rel) !in drops
  }

  /** What deletes leave of a prefix. */
  lemma {:induction false} DropsEffect(p: Prefix, drops: seq<Op>)
    requires forall i :: 0 <= i < |drops| ==> IsDelete(drops[i])
    ensures var q := ApplyAll(p, drops);
            && q.bundle == (if DeleteBundle in drops then None else p.bundle)
            && q.layout == (if DeleteLayout in drops then None else p.layout)
            && (forall rel :: rel in q.data <==> rel in p.data && DeleteData(rel) !in drops)
            && (forall rel :: rel in q.data ==> q.data[rel] == p.data[rel])
    decreases |drops|
  {
    hide Perform;
    if drops == [] {
      PerformNone(ApplyOp, p);
    } else {
      var k := |drops| - 1;
      DropsEffect(p, drops[..k]);
      assert drops == drops[..k] + [drops[k]];
      PerformOne(ApplyOp, p, drops[..k], drops[k]);
    }
  }

  lemma DropsAreHarmlessIff(p: Prefix, bundled: bool, drops: seq<Op>, contents: Contents)
    requires RemoteFull(p, bundled, contents) && forall i :: 0 <= i < |drops| ==> IsDelete(drops[i])
    ensures RemoteFull(ApplyAll(p, drops), bundled, contents) <==> Harmless(bundled, drops, contents)
  {
    hide Perform, SpansHold;
    DropsEffect(p, drops);
  }

  lemma PromoteTailIsSafeIff(w: Window, removed: bool, drops: seq<Op>, contents: Contents, k: nat)
    requires LocalFull(w, contents) && w.marker.Some? && Complete(w, contents) && k <= |Unmark(removed)| + |drops|
    requires forall i :: 0 <= i < |drops| ==> IsDelete(drops[i])
    ensures var end := DoAll(w, (Unmark(removed) + Lift(drops))[..k]);
            && (removed ==> Complete(end, contents))
            && (!removed ==> (Complete(end, contents) <==> Harmless(w.marker.value.bundled, drops[..k], contents)))
            && end.marker == if removed && k > 0 then None else w.marker
  {
    hide Perform;
    if !removed {
      assert Unmark(removed) + Lift(drops) == Lift(drops);
      LiftTouchesRemoteOnly(w, drops, k);
      DropsAreHarmlessIff(w.remote, w.marker.value.bundled, drops[..k], contents);
    } else if k == 0 {
      PerformNone(Do, w);
      assert ([RemoveMarker] + Lift(drops))[..0] == [];
    } else {
      assert [RemoveMarker] == [] + [RemoveMarker];
      PerformNone(Do, w);
      PerformOne(Do, w, [], RemoveMarker);
      PerformPrefix(Do, w, [RemoveMarker], Lift(drops), k);
      LiftTouchesRemoteOnly(Do(w, RemoveMarker), drops, k - 1);
    }
  }

  /** The reclamation deletes among the first `n` effects of a promotion. */
  function Dropped(w: Window, plan: PromotePlan, n: nat): seq<Op>
    requires w.marker.Some?
  {
    var before := |Materialised(w.remote, w.marker.value.bundled, plan.listing)| + |Unmark(plan.removed)|;
    if n <= before then [] else if n - before <= |plan.drops| then plan.drops[..n - before] else plan.drops
  }

  /**
   A cold window being promoted is whole at a crash point if and only if its
   marker removal worked or no delete done so far took away what the marker
   left behind selects. A finished promotion is hot exactly when it worked.
   */
  lemma PromoteIsCrashSafeIff(w: Window, plan: PromotePlan, contents: Contents, n: nat)
    requires w.marker.Some? && Complete(w, contents) && IndexOnly(contents) && PromotePlanOk(w, plan)
    requires n <= |PromoteEffects(w, plan)|
    ensures Complete(DoAll(w, PromoteEffects(w, plan)[..n]), contents)
            <==> plan.removed || Harmless(w.marker.value.bundled, Dropped(w, plan, n), contents)
    ensures n == |PromoteEffects(w, plan)| ==> (DoAll(w, PromoteEffects(w, plan)[..n]).marker.None? <==> plan.removed)
  {
    hide Perform, Materialised, Harmless;
    var files := Materialised(w.remote, w.marker.value.bundled, plan.listing);
    MaterialisedCovers(w, plan, contents);
    PerformPrefix(Do, w, Writes(files), Unmark(plan.removed) + Lift(plan.drops), n);
    NothingIsHarmless(w.marker.value.bundled, contents);
    if n < |files| {
      WritesLand(w, files, n, contents);
    } else {
      assert Writes(files)[..|files|] == Writes(files);
      WritesLand(w, files, |files|, contents);
      var k := n - |files|;
      PromoteTailIsSafeIff(DoAll(w, Writes(files)), plan.removed, plan.drops, contents, k);
      if !plan.removed { assert Dropped(w, plan, n) == plan.drops[..k]; }
    }
  }

  /** A cold copy that cannot be read stops a promotion before the marker or the store is touched. */
  lemma UnreadablePromoteStops(w: Window, plan: PromotePlan, n: nat)
    requires w.marker.Some? && n <= |PromoteEffects(w, plan)| && !Readable(w.remote, w.marker.value.bundled, plan.listing)
    ensures var end := DoAll(w, PromoteEffects(w, plan)[..n]); end.marker == w.marker && end.remote == w.remote
  {
    hide Perform, Materialised, Readable;
    var files := Materialised(w.remote, w.marker.value.bundled, plan.listing);
    assert PromoteEffects(w, plan) == Writes(files);
    WritesLand(w, files, n, map[]);
  }

  lemma NothingIsHarmless(bundled: bool, contents: Contents)
    ensures Harmless(bundled, [], contents)
  {
  }

  /**
   A finished promotion leaves the window whole if and only if the marker was
   removed or neither the bundle nor its layout, nor for an unbundled window any
   committed file, was deleted behind it.
   */
  lemma FailedRemovalStrandsWindow(w: Window, plan: PromotePlan, contents: Contents)
    requires w.marker.Some? && Complete(w, contents) && IndexOnly(contents) && PromotePlanOk(w, plan)
    ensures Complete(DoAll(w, PromoteEffects(w, plan)), contents)
            <==> plan.removed || Harmless(w.marker.value.bundled, plan.drops, contents)
  {
    var all := PromoteEffects(w, plan);
    assert all[..|all|] == all;
    MaterialisedCovers(w, plan, contents);
    PromoteIsCrashSafeIff(w, plan, contents, |all|);
    assert plan.drops[..|plan.drops|] == plan.drops;
  }

  // --------------------------------------------------------- a window's whole life

  /** One thing that happens to a window; a park or promotion may crash after `done` effects. */
  datatype Event =
    | Commit(contents: Contents)
    | Park(park: ParkPlan, done: nat)
    | Promote(promote: PromotePlan, done: nat)

  datatype State = State(window: Window, contents: Contents)

  function Upto(es: seq<Effect>, done: nat): seq<Effect> {
    if done < |es| then es[..done] else es
  }

  /** Only a hot window takes commits or is parked; only a cold one is promoted. */
  function Live(s: State, e: Event): State {
    match e
    case Commit(contents) =>
      if s.window.marker.Some? then s
      else State(s.window.(local := s.window.local + contents), contents)
    case Park(plan, done) =>
      if s.window.marker.Some? then s
      else s.(window := DoAll(s.window, Upto(ParkEffects(s.window, plan), done)))
    case Promote(plan, done) =>
      if s.window.marker.None? then s
      else s.(window := DoAll(s.window, Upto(PromoteEffects(s.window, plan), done)))
  }

  function Lives(s: State, es: seq<Event>): State
    decreases |es|
  {
    if es == [] then s else Lives(Live(s, es[0]), es[1..])
  }

  /** Each park backs up the files committed at that moment, each listing is accurate, and a failed marker removal is followed by no harmful delete. */
  ghost predicate LifeOk(s: State, es: seq<Event>)
    decreases |es|
  {
    es != [] ==>
      && (match es[0]
          case Commit(contents) => IndexOnly(contents)
          case Park(plan, _) => Took(plan.snap, s.contents)
          case Promote(plan, done) =>
            && PromotePlanOk(s.window, plan)
            && (s.window.marker.Some? && !plan.removed
                ==> Harmless(s.window.marker.value.bundled, Dropped(s.window, plan, done), s.contents)))
      && LifeOk(Live(s, es[0]), es[1..])
  }

  /** The first event of a life that keeps `LifeOk` leaves the selected copy whole. */
  lemma LiveKeepsContents(s: State, e: Event)
    requires IndexOnly(s.contents) && Complete(s.window, s.contents) && LifeOk(s, [e])
    ensures IndexOnly(Live(s, e).contents) && Complete(Live(s, e).window, Live(s, e).contents)
  {
    hide Perform, ParkEffects, PromoteEffects, Took, Harmless, Dropped, RemoteFull, PromotePlanOk;
    match e
    case Commit(_) =>
    case Park(plan, done) =>
      if s.window.marker.None? {
        var all := ParkEffects(s.window, plan);
        var n := if done < |all| then done else |all|;
        assert all[..n] == Upto(all, done);
        ParkIsCrashSafe(s.window, plan, s.contents, n);
      }
    case Promote(plan, done) =>
      if s.window.marker.Some? {
        var all := PromoteEffects(s.window, plan);
        var n := if done < |all| then done else |all|;
        assert all[..n] == Upto(all, done);
        PromoteIsCrashSafeIff(s.window, plan, s.contents, n);
        MaterialisedCovers(s.window, plan, s.contents);
        SameDrops(s.window, plan, done);
      }
  }

  /**
   What each event of a life achieves: a commit to a hot window is what the window
   then holds, a finished park makes it cold and a finished promotion whose marker
   removal worked makes it hot; neither changes what is committed.
   */
  lemma LifeMoves(s: State, e: Event)
    requires IndexOnly(s.contents) && Complete(s.window, s.contents) && LifeOk(s, [e])
    ensures Live(s, e).contents == if e.Commit? && s.window.marker.None? then e.contents else s.contents
    ensures e.Park? && s.window.marker.None? && e.done >= |ParkEffects(s.window, e.park)| ==> Live(s, e).window.marker.Some?
    ensures e.Promote? && s.window.marker.Some? && e.promote.removed && e.done >= |PromoteEffects(s.window, e.promote)|
            ==> Live(s, e).window.marker.None? && LocalFull(Live(s, e).window, s.contents)
  {
    hide Perform, ParkEffects, PromoteEffects, Took, Harmless, Dropped, RemoteFull, PromotePlanOk;
    match e
    case Commit(_) =>
    case Park(plan, done) =>
      var all := ParkEffects(s.window, plan);
      if s.window.marker.None? {
        assert all[..|all|] == all;
        ParkIsCrashSafe(s.window, plan, s.contents, |all|);
      }
    case Promote(plan, done) =>
      if s.window.marker.Some? {
        var all := PromoteEffects(s.window, plan);
        assert all[..|all|] == all;
        PromoteIsCrashSafeIff(s.window, plan, s.contents, |all|);
      }
  }

  /** Any sequence of commits, parks and promotions, each crashing anywhere, keeps the window's committed files served. */
  lemma {:induction false} EveryLifeKeepsContents(s: State, es: seq<Event>)
    requires IndexOnly(s.contents) && Complete(s.window, s.contents) && LifeOk(s, es)
    ensures Complete(Lives(s, es).window, Lives(s, es).contents)
    decreases |es|
  {
    hide Live, Complete, Took, PromotePlanOk, Harmless;
    if es != [] {
      assert [es[0]][1..] == [];
      LiveKeepsContents(s, es[0]);
      EveryLifeKeepsContents(Live(s, es[0]), es[1..]);
    }
  }

  /** Effects past the end of a promotion drop nothing more. */
  lemma SameDrops(w: Window, plan: PromotePlan, done: nat)
    requires w.marker.Some?
    ensures var all := |PromoteEffects(w, plan)|;
            done > all && Readable(w.remote, w.marker.value.bundled, plan.listing) ==> Dropped(w, plan, done) == Dropped(w, plan, all)
  {
    hide Materialised;
  }
}
