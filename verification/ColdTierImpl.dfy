/**
 Parking and promoting as programs over a machine that may lose power after any
 effect. Each program is proved to perform the effects `ColdTier` lists for it,
 in that order, up to the moment the power goes.
 */
module ColdTierImpl {
  import opened Script
  import opened Wrappers
  import opened ObjectPrefix
  import opened Bundle
  import opened ColdTier
  import Refresh

  class Machine {
    var w: Window
    var budget: nat
    ghost const start: Window
    ghost var trace: seq<Effect>

    ghost predicate Valid()
      reads this
    {
      w == DoAll(start, trace)
    }

    constructor (w: Window, budget: nat)
      ensures Valid() && this.w == start == w && this.budget == budget && trace == []
    {
      this.w, this.budget, start, trace := w, budget, w, [];
    }

    /** One durable effect; `alive` is false once the power is gone. */
    method Perform(e: Effect) returns (alive: bool)
      requires Valid()
      modifies this
      ensures Valid() && trace == old(trace) + (if alive then [e] else [])
      ensures w == if alive then Do(old(w), e) else old(w)
    {
      alive := budget > 0;
      if alive {
        PerformOne(Do, start, trace, e);
        w, budget, trace := Do(w, e), budget - 1, trace + [e];
      } else {
        assert trace + [] == trace;
      }
    }
  }

  /** The trace grew by a prefix of `es`, by all of it exactly when the power lasted. */
  ghost predicate Performed(before: seq<Effect>, after: seq<Effect>, es: seq<Effect>, alive: bool) {
    exists n: nat :: n <= |es| && after == before + es[..n] && (alive <==> n == |es|)
  }

  lemma PerformedBoth(a: seq<Effect>, b: seq<Effect>, c: seq<Effect>, es: seq<Effect>, fs: seq<Effect>, alive: bool)
    requires Performed(a, b, es, true) && Performed(b, c, fs, alive)
    ensures Performed(a, c, es + fs, alive)
  {
    var n: nat :| n <= |fs| && c == b + fs[..n] && (alive <==> n == |fs|);
    assert es[..|es|] == es && b == a + es;
    assert (es + fs)[..|es| + n] == es + fs[..n];
    assert c == a + (es + fs)[..|es| + n];
  }

  lemma PerformedFirst(a: seq<Effect>, b: seq<Effect>, es: seq<Effect>, fs: seq<Effect>)
    requires Performed(a, b, es, false)
    ensures Performed(a, b, es + fs, false)
  {
    var n: nat :| n <= |es| && b == a + es[..n] && n != |es|;
    assert (es + fs)[..n] == es[..n];
  }

  /** Where a trace that grew by a prefix has led. */
  lemma Reached(start: Window, before: seq<Effect>, after: seq<Effect>, es: seq<Effect>, alive: bool) returns (n: nat)
    requires Performed(before, after, es, alive)
    ensures n <= |es| && DoAll(start, after) == DoAll(DoAll(start, before), es[..n]) && (alive <==> n == |es|)
  {
    hide Script.Perform;
    n :| n <= |es| && after == before + es[..n] && (alive <==> n == |es|);
    PerformConcat(Do, start, before, es[..n]);
  }

  /** Perform a list of effects in order. */
  method PerformAll(machine: Machine, es: seq<Effect>) returns (alive: bool)
    requires machine.Valid()
    modifies machine
    ensures machine.Valid() && Performed(old(machine.trace), machine.trace, es, alive)
    ensures alive ==> machine.w == DoAll(old(machine.w), es)
    ensures (forall i :: 0 <= i < |es| ==> es[i].Remote?) ==> machine.w.local == old(machine.w.local)
  {
    alive := true;
    ghost var w0, before := machine.w, machine.trace;
    for i := 0 to |es|
      invariant machine.Valid() && alive && machine.trace == before + es[..i] && machine.w == DoAll(w0, es[..i])
      invariant (forall j :: 0 <= j < i ==> es[j].Remote?) ==> machine.w.local == w0.local
    {
      assert es[..i + 1] == es[..i] + [es[i]];
      PerformOne(Do, w0, es[..i], es[i]);
      alive := machine.Perform(es[i]);
      if !alive {
        return;
      }
    }
    assert es[..|es|] == es;
  }

  /** Remove the local index files, in the order the directory yields them. */
  method EvictLocalIndex(machine: Machine, order: seq<Rel>) returns (alive: bool)
    requires machine.Valid()
    modifies machine
    ensures machine.Valid() && Performed(old(machine.trace), machine.trace, Evictions(order), alive)
  {
    alive := true;
    ghost var before, es := machine.trace, Evictions(order);
    for i := 0 to |order|
      invariant machine.Valid() && alive && machine.trace == before + es[..i]
    {
      assert es[..i + 1] == es[..i] + [es[i]];
      alive := machine.Perform(RemoveLocal(order[i]));
      if !alive {
        return;
      }
    }
  }

  // ------------------------------------------------------------------ parking

  lemma LiftConcat(a: seq<Op>, b: seq<Op>)
    ensures Lift(a + b) == Lift(a) + Lift(b)
  {
  }

  /** Upload the files of a snapshot, in order. */
  method UploadAll(machine: Machine, files: seq<(Rel, Bytes)>) returns (alive: bool)
    requires machine.Valid()
    modifies machine
    ensures machine.Valid() && Performed(old(machine.trace), machine.trace, Lift(Uploads(files)), alive)
    ensures machine.w.local == old(machine.w.local) && machine.w.remote.manifest == old(machine.w.remote.manifest)
  {
    alive := true;
    ghost var before, es := machine.trace, Lift(Uploads(files));
    for i := 0 to |files|
      invariant machine.Valid() && alive && machine.trace == before + es[..i]
      invariant machine.w.local == old(machine.w.local) && machine.w.remote.manifest == old(machine.w.remote.manifest)
    {
      assert es[..i + 1] == es[..i] + [es[i]];
      alive := machine.Perform(Remote(PutData(files[i].0, files[i].1)));
      if !alive {
        return;
      }
    }
  }

  /** Delete the listed objects neither manifest names. */
  method PruneAll(machine: Machine, listing: seq<Rel>, m: Manifest, previous: Manifest) returns (alive: bool)
    requires machine.Valid()
    modifies machine
    ensures machine.Valid() && Performed(old(machine.trace), machine.trace, Lift(Prunes(listing, m, previous)), alive)
    ensures machine.w.local == old(machine.w.local)
  {
    hide Script.Perform, Listed;
    alive := true;
    ghost var before, done, all := machine.trace, [], Prunes(listing, m, previous);
    for i := 0 to |listing|
      invariant machine.Valid() && alive && machine.trace == before + Lift(done)
      invariant all == done + Prunes(listing[i..], m, previous) && machine.w.local == old(machine.w.local)
    {
      assert listing[i..][1..] == listing[i + 1..];
      if !Listed(m, listing[i]) && !Listed(previous, listing[i]) {
        alive := machine.Perform(Remote(DeleteData(listing[i])));
        if !alive {
          assert Lift(all)[..|done|] == Lift(done);
          return;
        }
        LiftConcat(done, [DeleteData(listing[i])]);
        assert Lift([DeleteData(listing[i])]) == [Remote(DeleteData(listing[i]))];
        done := done + [DeleteData(listing[i])];
      }
    }
    assert Lift(all)[..|all|] == Lift(done);
  }

  /** The backup inside a park: uploads, the manifest, and the pruning when the snapshot advanced. */
  method BackUp(machine: Machine, snap: Snapshot, readable: bool, listing: seq<Rel>) returns (alive: bool)
    requires machine.Valid()
    modifies machine
    ensures machine.Valid() && machine.w.local == old(machine.w.local)
    ensures Performed(old(machine.trace), machine.trace,
                      Lift(BackupOps(snap, Previous(old(machine.w.remote), readable), listing)), alive)
  {
    hide Script.Perform, Uploads, Prunes;
    ghost var t0, p0 := machine.trace, machine.w.remote;
    ghost var ups, put, gc := Uploads(snap.files), [PutManifest(ManifestOf(snap))], Reclaims(snap, Previous(p0, readable), listing);
    LiftConcat(ups, put);
    LiftConcat(ups + put, gc);
    alive := UploadAll(machine, snap.files);
    ghost var t1 := machine.trace;
    var previous := Previous(machine.w.remote, readable);
    assert previous == Previous(p0, readable);
    if !alive {
      PerformedFirst(t0, machine.trace, Lift(ups), Lift(put));
      PerformedFirst(t0, machine.trace, Lift(ups + put), Lift(gc));
      return;
    }
    alive := PerformAll(machine, [Remote(PutManifest(ManifestOf(snap)))]);
    assert [Remote(PutManifest(ManifestOf(snap)))] == Lift(put);
    PerformedBoth(t0, t1, machine.trace, Lift(ups), Lift(put), alive);
    ghost var t2 := machine.trace;
    if !alive {
      PerformedFirst(t0, machine.trace, Lift(ups + put), Lift(gc));
      return;
    }
    if previous.Some? && snap.number > previous.value.snapshot {
      alive := PruneAll(machine, listing, ManifestOf(snap), previous.value);
    } else {
      assert Lift(gc)[..0] == [] && t2 == t2 + [];
    }
    PerformedBoth(t0, t2, machine.trace, Lift(ups + put), Lift(gc), alive);
  }

  /** The manifest `end` is `m` for a bundled window: same snapshot, marked as bundled, and naming exactly the files of `m` that are no index files. */
  ghost predicate BundledFrom(m: Manifest, end: Manifest) {
    && end.snapshot == m.snapshot && end.format == m.format && end.bundled
    && forall e :: e in end.files <==> e in m.files && !e.rel.Index?
  }

  lemma BundlingMeans(w: Window, m: Manifest, luck: BundleLuck, dropped: seq<Rel>)
    ensures var b := BundlingOf(w.local, m, luck);
            var end := DoAll(w, Lift(BundleOps(m, b, dropped))).remote.manifest;
            && (b.Bundled? <==> && luck.stored && luck.described
                                && forall e :: e in m.files && e.rel.Index? ==> e.rel in w.local)
            && (if b.Bundled? && luck.landed then end.Some? && BundledFrom(m, end.value) else end == w.remote.manifest)
  {
    hide Script.Perform, BundleOps, Joined, Spans;
    var b := BundlingOf(w.local, m, luck);
    var ops := BundleOps(m, b, dropped);
    LiftTouchesRemoteOnly(w, ops, |ops|);
    assert ops[..|ops|] == ops && Lift(ops)[..|ops|] == Lift(ops);
    BundlingCommits(w.remote, m, b, dropped);
    forall e ensures e in WithoutIndex(m.files) <==> e in m.files && !e.rel.Index? { WithoutIndexIs(m.files, e); }
    NamesAreThere(w.local, m.files);
  }

  /** All named index files are in the directory exactly if every index entry has its local file. */
  lemma NamesAreThere(local: map<Rel, Bytes>, files: seq<FileEntry>)
    ensures AllThere(IndexDir(local), IndexNames(files)) <==> forall e :: e in files && e.rel.Index? ==> e.rel in local
  {
    var dir, names := IndexDir(local), IndexNames(files);
    forall name: string ensures name in dir <==> Index(name) in local {}
    if AllThere(dir, names) {
      forall e | e in files && e.rel.Index? ensures e.rel in local {
        NameListedIff(files, e.rel.name);
        assert e.rel.name in names;
      }
    }
    if forall e :: e in files && e.rel.Index? ==> e.rel in local {
      forall i | 0 <= i < |names| ensures names[i] in dir { NameListedIff(files, names[i]); }
    }
  }

  /** Bundle the window's own index files and, once the bundled manifest is known to be stored, drop the per-file objects. */
  method BundleWindow(machine: Machine, m: Manifest, luck: BundleLuck, dropped: seq<Rel>) returns (alive: bool, bundled: bool)
    requires machine.Valid()
    modifies machine
    ensures machine.Valid() && machine.w.local == old(machine.w.local)
    ensures Performed(old(machine.trace), machine.trace,
                      Lift(BundleOps(m, BundlingOf(old(machine.w.local), m, luck), dropped)), alive)
    ensures bundled == BundlingOf(old(machine.w.local), m, luck).Bundled?
    ensures bundled <==> && luck.stored && luck.described
                         && forall e :: e in m.files && e.rel.Index? ==> e.rel in old(machine.w.local)
    ensures alive ==> var end := machine.w.remote.manifest;
                      if bundled && luck.landed then end.Some? && BundledFrom(m, end.value) else end == old(machine.w.remote.manifest)
  {
    hide Script.Perform, BundleOps, BundlingOf, BundledFrom, Lift;
    ghost var w0, t0 := machine.w, machine.trace;
    alive, bundled := BundleSteps(machine, m, luck, dropped);
    ghost var es := Lift(BundleOps(m, BundlingOf(w0.local, m, luck), dropped));
    ghost var n := Reached(machine.start, t0, machine.trace, es, alive);
    assert es[..|es|] == es;
    BundlingMeans(w0, m, luck, dropped);
  }

  /** The steps themselves: bundle, layout, bundled manifest, deletes, stopping at the first that does not get through. */
  method BundleSteps(machine: Machine, m: Manifest, luck: BundleLuck, dropped: seq<Rel>) returns (alive: bool, bundled: bool)
    requires machine.Valid()
    modifies machine
    ensures machine.Valid() && machine.w.local == old(machine.w.local)
    ensures Performed(old(machine.trace), machine.trace,
                      Lift(BundleOps(m, BundlingOf(old(machine.w.local), m, luck), dropped)), alive)
    ensures bundled == BundlingOf(old(machine.w.local), m, luck).Bundled?
  {
    hide Script.Perform, Joined, Spans, IndexNames, IndexDir, BundledManifest, Holds;
    var built := BuildFromDir(IndexDir(machine.w.local), IndexNames(m.files));
    alive, bundled := true, false;
    ghost var t0 := machine.trace;
    if built.None? || !luck.stored {
      assert Lift([])[..0] == [] && t0 == t0 + [];
      return;
    }
    var (bundle, layout) := built.value;
    if !luck.described {
      alive := PerformAll(machine, [Remote(PutBundle(bundle))]);
      assert [Remote(PutBundle(bundle))] == Lift([PutBundle(bundle)]);
      return;
    }
    bundled := true;
    alive := PerformAll(machine, [Remote(PutBundle(bundle)), Remote(PutLayout(layout))]);
    ghost var first := [PutBundle(bundle), PutLayout(layout)];
    ghost var put: seq<Op> := if luck.landed then [PutManifest(BundledManifest(m))] else [];
    ghost var last := if luck.landed && luck.heard then Deletes(dropped) else [];
    LiftConcat(first, put);
    LiftConcat(first + put, last);
    assert [Remote(PutBundle(bundle)), Remote(PutLayout(layout))] == Lift(first);
    ghost var t1 := machine.trace;
    if !alive {
      PerformedFirst(t0, machine.trace, Lift(first), Lift(put));
      PerformedFirst(t0, machine.trace, Lift(first + put), Lift(last));
      return;
    }
    alive := DropPerFile(machine, m, luck, dropped);
    LiftConcat(put, last);
    assert first + put + last == first + (put + last);
    LiftConcat(first, put + last);
    PerformedBoth(t0, t1, machine.trace, Lift(first), Lift(put + last), alive);
  }

  /** Commit the manifest that no longer names the index files, then delete their objects. */
  method DropPerFile(machine: Machine, m: Manifest, luck: BundleLuck, dropped: seq<Rel>) returns (alive: bool)
    requires machine.Valid()
    modifies machine
    ensures machine.Valid() && machine.w.local == old(machine.w.local)
    ensures Performed(old(machine.trace), machine.trace,
                      Lift((if luck.landed then [PutManifest(BundledManifest(m))] else [])
                           + (if luck.landed && luck.heard then Deletes(dropped) else [])), alive)
  {
    hide Script.Perform, BundledManifest;
    ghost var t0 := machine.trace;
    alive := true;
    if !luck.landed {
      assert Lift([] + [])[..0] == [] && t0 == t0 + [];
      return;
    }
    ghost var put, last := [PutManifest(BundledManifest(m))], if luck.heard then Deletes(dropped) else [];
    LiftConcat(put, last);
    alive := PerformAll(machine, [Remote(PutManifest(BundledManifest(m)))]);
    assert [Remote(PutManifest(BundledManifest(m)))] == Lift(put);
    ghost var t1 := machine.trace;
    if !alive {
      PerformedFirst(t0, machine.trace, Lift(put), Lift(last));
      return;
    }
    if luck.heard {
      alive := PerformAll(machine, Lift(Deletes(dropped)));
    } else {
      assert Lift(last)[..0] == [] && t1 == t1 + [];
    }
    PerformedBoth(t0, t1, machine.trace, Lift(put), Lift(last), alive);
  }

  /**
   Offline cold park: back up, bundle the window's own files, then the marker,
   its published copy, and the eviction last. Wherever the power goes, the copy
   the marker selects holds every committed file.
   */
  method ColdPark(machine: Machine, plan: ParkPlan, ghost contents: Contents) returns (alive: bool)
    requires machine.Valid()
    modifies machine
    ensures machine.Valid()
    ensures Performed(old(machine.trace), machine.trace, ParkEffects(old(machine.w), plan), alive)
    ensures old(machine.w.marker).None? && LocalFull(old(machine.w), contents) && IndexOnly(contents) && Took(plan.snap, contents)
            ==> Complete(machine.w, contents)
    ensures alive && LocalFull(old(machine.w), contents) && IndexOnly(contents) && Took(plan.snap, contents) ==>
              var end, luck := machine.w, plan.luck;
              && end.remote.manifest.Some? && Records(end.remote.manifest.value, plan.snap)
              && (end.remote.manifest.value.bundled <==> luck.stored && luck.described && luck.landed)
              && end.marker == Some(Marker(plan.snap.number, luck.stored && luck.described)) == end.remote.marker
              && end.local == old(machine.w.local) - set rel | rel in plan.evicted
  {
    hide Complete, Took, LocalFull, IndexOnly, Records, ParkEffects, Script.Perform;
    ghost var w0, t0 := machine.w, machine.trace;
    alive := Park(machine, plan);
    ghost var es := ParkEffects(w0, plan);
    ghost var n := Reached(machine.start, t0, machine.trace, es, alive);
    assert es[..|es|] == es;
    if LocalFull(w0, contents) && IndexOnly(contents) && Took(plan.snap, contents) {
      if w0.marker.None? { ParkIsCrashSafe(w0, plan, contents, n); }
      FinishedPark(w0, plan, contents);
    }
  }

  /** A window whose park stored its bundled manifest cannot be restored file by file: a restore from its prefix never reports success. */
  method ParkThenRestore(machine: Machine, plan: ParkPlan, faulty: set<nat>, ghost contents: Contents)
    returns (alive: bool, r: Refresh.Outcome<Manifest>)
    requires machine.Valid()
    requires LocalFull(machine.w, contents) && IndexOnly(contents) && Took(plan.snap, contents)
    modifies machine
    ensures alive && plan.luck.stored && plan.luck.described && plan.luck.landed ==> !r.Ok?
    ensures alive && r.Ok? ==> Records(r.value, plan.snap) && !r.value.bundled
  {
    hide LocalFull, IndexOnly, Took, Records, Complete, ParkEffects, Refresh.At;
    alive := ColdPark(machine, plan, contents);
    var reader := new Refresh.Reader(machine.w.remote, [], faulty);
    var dest := new Refresh.LocalDir(map[]);
    Refresh.NothingHappens(machine.w.remote);
    ghost var t0;
    r, t0 := Refresh.Restore(reader, dest);
  }

  method Park(machine: Machine, plan: ParkPlan) returns (alive: bool)
    requires machine.Valid()
    modifies machine
    ensures machine.Valid()
    ensures Performed(old(machine.trace), machine.trace, ParkEffects(old(machine.w), plan), alive)
  {
    hide Script.Perform, BackupOps, BundleOps, BundlingOf, Evictions, Lift;
    ghost var w0, t0 := machine.w, machine.trace;
    ghost var backup := BackupOps(plan.snap, Previous(w0.remote, plan.readable), plan.listing);
    ghost var bundle := BundleOps(ManifestOf(plan.snap), BundlingIn(w0, plan), plan.dropped);
    ghost var head, tail := Lift(backup + bundle), ParkTail(MarkerOf(w0, plan), plan.evicted);
    LiftConcat(backup, bundle);
    alive := BackUp(machine, plan.snap, plan.readable, plan.listing);
    ghost var t1 := machine.trace;
    if !alive {
      PerformedFirst(t0, machine.trace, Lift(backup), Lift(bundle));
      PerformedFirst(t0, machine.trace, head, tail);
      return;
    }
    var bundled;
    alive, bundled := BundleWindow(machine, ManifestOf(plan.snap), plan.luck, plan.dropped);
    PerformedBoth(t0, t1, machine.trace, Lift(backup), Lift(bundle), alive);
    ghost var t2 := machine.trace;
    if !alive {
      PerformedFirst(t0, machine.trace, head, tail);
      return;
    }
    alive := MarkAndEvict(machine, Marker(plan.snap.number, bundled), plan.evicted);
    PerformedBoth(t0, t2, machine.trace, head, tail, alive);
  }

  /** The local marker, its published copy, and only then the local bulk. */
  method MarkAndEvict(machine: Machine, marker: Marker, evicted: seq<Rel>) returns (alive: bool)
    requires machine.Valid()
    modifies machine
    ensures machine.Valid() && Performed(old(machine.trace), machine.trace, ParkTail(marker, evicted), alive)
  {
    hide Script.Perform;
    ghost var t0, evicts := machine.trace, Evictions(evicted);
    var mk, pub := WriteMarker(marker), Remote(PutMarker(marker));
    alive := PerformAll(machine, [mk, pub]);
    assert ParkTail(marker, evicted) == [mk, pub] + evicts;
    ghost var t1 := machine.trace;
    if !alive {
      PerformedFirst(t0, machine.trace, [mk, pub], evicts);
      return;
    }
    alive := EvictLocalIndex(machine, evicted);
    PerformedBoth(t0, t1, machine.trace, [mk, pub], evicts, alive);
  }

  lemma WritesSnoc(files: seq<(Rel, Bytes)>, rel: Rel, bytes: Bytes)
    ensures Writes(files + [(rel, bytes)]) == Writes(files) + [WriteLocal(rel, bytes)]
  {
  }

  lemma PerformedSome(before: seq<Effect>, after: seq<Effect>, files: seq<(Rel, Bytes)>, all: seq<(Rel, Bytes)>, alive: bool)
    requires after == before + Writes(files) && files <= all && (alive <==> files == all)
    ensures Performed(before, after, Writes(all), alive)
  {
    assert Writes(all)[..|files|] == Writes(files);
  }

  /** Cut the bundle into local files; `readable` is false when a span lies beyond the bundle. */
  method WriteSpans(machine: Machine, bundle: Bytes, layout: Layout) returns (alive: bool, readable: bool)
    requires machine.Valid()
    modifies machine
    ensures machine.Valid() && machine.w.remote == old(machine.w.remote)
    ensures Performed(old(machine.trace), machine.trace, Writes(CutAll(bundle, layout)), alive)
    ensures alive ==> (readable <==> forall i :: 0 <= i < |layout| ==> Cut(bundle, layout[i]).Some?)
  {
    hide Script.Perform, Cut;
    ghost var before, p, files: seq<(Rel, Bytes)> := machine.trace, machine.w.remote, [];
    alive, readable := true, true;
    for i := 0 to |layout|
      invariant machine.Valid() && alive && readable && machine.w.remote == p
      invariant forall j :: 0 <= j < i ==> Cut(bundle, layout[j]).Some?
      invariant machine.trace == before + Writes(files)
      invariant CutAll(bundle, layout) == files + CutAll(bundle, layout[i..])
    {
      var bytes := Cut(bundle, layout[i]);
      if bytes.None? {
        readable := false;
        PerformedSome(before, machine.trace, files, CutAll(bundle, layout), true);
        return;
      }
      assert layout[i..][1..] == layout[i + 1..];
      WritesSnoc(files, Index(layout[i].name), bytes.value);
      alive := machine.Perform(WriteLocal(Index(layout[i].name), bytes.value));
      if !alive {
        PerformedSome(before, machine.trace, files, CutAll(bundle, layout), false);
        return;
      }
      files := files + [(Index(layout[i].name), bytes.value)];
    }
    PerformedSome(before, machine.trace, files, CutAll(bundle, layout), true);
  }

  /** Download the listed index objects into local files; `readable` is false when one is missing. */
  method WriteObjects(machine: Machine, listing: seq<Rel>) returns (alive: bool, readable: bool)
    requires machine.Valid()
    modifies machine
    ensures machine.Valid() && machine.w.remote == old(machine.w.remote)
    ensures Performed(old(machine.trace), machine.trace, Writes(ReadAll(old(machine.w.remote.data), listing)), alive)
    ensures alive ==> (readable <==> forall i :: 0 <= i < |listing| ==> listing[i] in old(machine.w.remote.data))
  {
    hide Script.Perform;
    var data := machine.w.remote.data;
    ghost var before, p, files: seq<(Rel, Bytes)> := machine.trace, machine.w.remote, [];
    alive, readable := true, true;
    for i := 0 to |listing|
      invariant machine.Valid() && alive && readable && machine.w.remote == p
      invariant forall j :: 0 <= j < i ==> listing[j] in data
      invariant machine.trace == before + Writes(files)
      invariant ReadAll(data, listing) == files + ReadAll(data, listing[i..])
    {
      if listing[i] !in data {
        readable := false;
        PerformedSome(before, machine.trace, files, ReadAll(data, listing), true);
        return;
      }
      assert listing[i..][1..] == listing[i + 1..];
      WritesSnoc(files, listing[i], data[listing[i]]);
      alive := machine.Perform(WriteLocal(listing[i], data[listing[i]]));
      if !alive {
        PerformedSome(before, machine.trace, files, ReadAll(data, listing), false);
        return;
      }
      files := files + [(listing[i], data[listing[i]])];
    }
    PerformedSome(before, machine.trace, files, ReadAll(data, listing), true);
  }

  /** Write the files of a cold copy into the window directory. */
  method Materialise(machine: Machine, bundled: bool, listing: seq<Rel>) returns (alive: bool, readable: bool)
    requires machine.Valid()
    modifies machine
    ensures machine.Valid() && machine.w.remote == old(machine.w.remote)
    ensures Performed(old(machine.trace), machine.trace, Writes(Materialised(old(machine.w.remote), bundled, listing)), alive)
    ensures alive ==> (readable <==> Readable(old(machine.w.remote), bundled, listing))
  {
    var p := machine.w.remote;
    if !bundled {
      alive, readable := WriteObjects(machine, listing);
    } else if p.bundle.Some? && p.layout.Some? {
      alive, readable := WriteSpans(machine, p.bundle.value, p.layout.value);
    } else {
      PerformedSome(machine.trace, machine.trace, [], [], true);
      alive, readable := true, false;
    }
  }

  /**
   Promote: materialise the local index, drop the marker, then reclaim the cold
   copy. Wherever the power goes, the copy the marker selects is whole unless the
   marker removal failed and a delete took what it selects.
   */
  method PromoteCold(machine: Machine, plan: PromotePlan, ghost contents: Contents) returns (alive: bool, ghost n: nat)
    requires machine.Valid() && machine.w.marker.Some?
    modifies machine
    ensures machine.Valid()
    ensures Performed(old(machine.trace), machine.trace, PromoteEffects(old(machine.w), plan), alive)
    ensures n <= |PromoteEffects(old(machine.w), plan)| && (alive <==> n == |PromoteEffects(old(machine.w), plan)|)
    ensures Complete(old(machine.w), contents) && IndexOnly(contents) && PromotePlanOk(old(machine.w), plan) ==>
              (Complete(machine.w, contents)
               <==> plan.removed || Harmless(old(machine.w).marker.value.bundled, Dropped(old(machine.w), plan, n), contents))
    ensures !Readable(old(machine.w.remote), old(machine.w.marker).value.bundled, plan.listing) ==>
              machine.w.marker == old(machine.w.marker) && machine.w.remote == old(machine.w.remote)
  {
    ghost var w0, t0 := machine.w, machine.trace;
    alive := Promote(machine, plan);
    n := Reached(machine.start, t0, machine.trace, PromoteEffects(w0, plan), alive);
    if Complete(w0, contents) && IndexOnly(contents) && PromotePlanOk(w0, plan) {
      PromoteIsCrashSafeIff(w0, plan, contents, n);
    }
    if !Readable(w0.remote, w0.marker.value.bundled, plan.listing) { UnreadablePromoteStops(w0, plan, n); }
  }

  method Promote(machine: Machine, plan: PromotePlan) returns (alive: bool)
    requires machine.Valid() && machine.w.marker.Some?
    modifies machine
    ensures machine.Valid()
    ensures Performed(old(machine.trace), machine.trace, PromoteEffects(old(machine.w), plan), alive)
  {
    ghost var w0, t0 := machine.w, machine.trace;
    var bundled := machine.w.marker.value.bundled;
    ghost var writes, tail := Writes(Materialised(w0.remote, bundled, plan.listing)), PromoteTail(w0, plan);
    var readable;
    alive, readable := Materialise(machine, bundled, plan.listing);
    if !alive {
      PerformedFirst(t0, machine.trace, writes, tail);
      return;
    }
    ghost var t1 := machine.trace;
    if !readable {
      assert writes + tail == writes;
      return;
    }
    if plan.removed {
      alive := PerformAll(machine, [RemoveMarker]);
    } else {
      assert Unmark(false)[..0] == [] && t1 == t1 + [];
    }
    ghost var unmark := Unmark(plan.removed);
    if !alive {
      PerformedFirst(t1, machine.trace, unmark, Lift(plan.drops));
      PerformedBoth(t0, t1, machine.trace, writes, tail, false);
      return;
    }
    ghost var t2 := machine.trace;
    alive := PerformAll(machine, Lift(plan.drops));
    PerformedBoth(t1, t2, machine.trace, unmark, Lift(plan.drops), alive);
    PerformedBoth(t0, t1, machine.trace, writes, tail, alive);
  }
}
