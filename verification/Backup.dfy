/**
 The backup writer as a program: loops over an object store that changes in
 place and may stop accepting writes at any moment.
 */
module Backup {
  import opened Script
  import opened Wrappers
  import opened ObjectPrefix

  /** The store under one prefix; after `budget` more writes and deletes every further one fails. */
  class ObjectStore {
    var p: Prefix
    var budget: nat

    constructor (p: Prefix, budget: nat)
      ensures this.p == p && this.budget == budget
    {
      this.p, this.budget := p, budget;
    }

    method Perform(op: Op) returns (ok: bool)
      modifies this
      ensures ok <==> old(budget) > 0
      ensures if ok then p == ApplyOp(old(p), op) && budget == old(budget) - 1
              else p == old(p) && budget == old(budget)
    {
      ok := budget > 0;
      if ok {
        p, budget := ApplyOp(p, op), budget - 1;
      }
    }

    /** Every data object, in no particular order. */
    method List() returns (listing: seq<Rel>)
      ensures Lists(listing, p.data)
    {
      listing := [];
      var left := p.data.Keys;
      while left != {}
        invariant left <= p.data.Keys
        invariant forall rel :: rel in listing <==> rel in p.data.Keys - left
        decreases |left|
      {
        var rel :| rel in left;
        listing, left := listing + [rel], left - {rel};
      }
    }
  }

  function Min(a: nat, b: nat): nat { if a < b then a else b }

  lemma PrunesStep(keys: seq<Rel>, i: nat, m: Manifest, previous: Manifest)
    requires i <= |keys|
    ensures if i == |keys| then Prunes(keys[i..], m, previous) == []
            else Prunes(keys[i..], m, previous)
                 == (if !Listed(m, keys[i]) && !Listed(previous, keys[i]) then [DeleteData(keys[i])] else [])
                    + Prunes(keys[i + 1..], m, previous)
  {
    hide Listed;
    if i < |keys| {
      assert keys[i..][1..] == keys[i + 1..];
      assert [] + Prunes(keys[i + 1..], m, previous) == Prunes(keys[i + 1..], m, previous);
    }
  }

  /** Delete the objects neither manifest names; a failed delete stops the pass and is reported. */
  method PruneSuperseded(store: ObjectStore, m: Manifest, previous: Manifest)
    returns (ok: bool, pruned: nat, ghost listing: seq<Rel>)
    modifies store
    ensures Lists(listing, old(store.p.data))
    ensures var ops := Prunes(listing, m, previous);
            && pruned == Min(old(store.budget), |ops|) && (ok <==> pruned == |ops|)
            && store.p == ApplyAll(old(store.p), ops[..pruned]) && store.budget == old(store.budget) - pruned
  {
    hide Script.Perform, Listed, Prunes, Lists;
    var keys := store.List();
    listing := keys;
    ghost var p0, b0, all := store.p, store.budget, Prunes(keys, m, previous);
    ghost var done: seq<Op> := [];
    PerformNone(ApplyOp, p0);
    assert keys[0..] == keys;
    ok, pruned := true, 0;
    for i := 0 to |keys|
      invariant ok && pruned == |done| && store.budget == b0 - pruned
      invariant all == done + Prunes(keys[i..], m, previous)
      invariant store.p == ApplyAll(p0, done)
    {
      PrunesStep(keys, i, m, previous);
      if !Listed(m, keys[i]) && !Listed(previous, keys[i]) {
        PerformOne(ApplyOp, p0, done, DeleteData(keys[i]));
        ok := store.Perform(DeleteData(keys[i]));
        if !ok {
          assert all[..pruned] == done;
          return;
        }
        done, pruned := done + [DeleteData(keys[i])], pruned + 1;
      }
    }
    PrunesStep(keys, |keys|, m, previous);
    assert all[..pruned] == done == all;
  }

  /** Write every file of the snapshot under `data/`, in order. */
  method UploadFiles(store: ObjectStore, files: seq<(Rel, Bytes)>) returns (ok: bool, entries: seq<FileEntry>, ghost done: nat)
    modifies store
    ensures done == Min(old(store.budget), |files|) && (ok <==> done == |files|)
    ensures store.p == ApplyAll(old(store.p), Uploads(files)[..done]) && store.budget == old(store.budget) - done
    ensures ok ==> |entries| == |files| && forall i :: 0 <= i < |files| ==> entries[i] == FileEntry(files[i].0, |files[i].1|)
  {
    ghost var p0, b0, ops := store.p, store.budget, Uploads(files);
    entries, done, ok := [], 0, true;
    for i := 0 to |files|
      invariant ok && done == i == |entries| && store.budget == b0 - i
      invariant store.p == ApplyAll(p0, ops[..i])
      invariant forall j :: 0 <= j < i ==> entries[j] == FileEntry(files[j].0, |files[j].1|)
    {
      assert ops[..i + 1] == ops[..i] + [ops[i]];
      PerformOne(ApplyOp, p0, ops[..i], ops[i]);
      ok := store.Perform(PutData(files[i].0, files[i].1));
      if !ok {
        return;
      }
      entries, done := entries + [FileEntry(files[i].0, |files[i].1|)], i + 1;
    }
  }

  lemma PrefixOfConcat(p: Prefix, a: seq<Op>, b: seq<Op>, n: nat)
    requires n <= |b|
    ensures (a + b)[..|a| + n] == a + b[..n]
    ensures ApplyAll(p, (a + b)[..|a| + n]) == ApplyAll(ApplyAll(p, a), b[..n])
  {
    PerformConcat(ApplyOp, p, a, b[..n]);
  }

  /** The head of a backup: the uploads and the manifest that commits them. */
  function Head(snap: Snapshot): seq<Op> {
    Uploads(snap.files) + [PutManifest(ManifestOf(snap))]
  }

  method Commit(store: ObjectStore, snap: Snapshot) returns (r: Option<Manifest>, ghost done: nat)
    modifies store
    ensures done == Min(old(store.budget), |Head(snap)|) && (r.Some? <==> done == |Head(snap)|)
    ensures store.p == ApplyAll(old(store.p), Head(snap)[..done]) && store.budget == old(store.budget) - done
    ensures r.Some? ==> r.value == ManifestOf(snap)
  {
    ghost var p0, ups := store.p, Uploads(snap.files);
    r := None;
    var ok, entries;
    ok, entries, done := UploadFiles(store, snap.files);
    assert Head(snap)[..done] == ups[..done];
    if !ok {
      return;
    }
    assert ups[..done] == ups;
    var manifest := Manifest(MANIFEST_FORMAT, snap.number, entries, false);
    assert entries == ManifestOf(snap).files;
    ok := store.Perform(PutManifest(manifest));
    if !ok {
      return;
    }
    done := done + 1;
    assert Head(snap)[..done] == Head(snap);
    PerformOne(ApplyOp, p0, ups, PutManifest(manifest));
    r := Some(manifest);
  }

  /** A backup's operations are the head and then the reclaims, and the manifest changes no data object. */
  lemma HeadThenReclaims(p: Prefix, snap: Snapshot, previous: Option<Manifest>, listing: seq<Rel>, n: nat)
    requires n <= |Reclaims(snap, previous, listing)|
    ensures var ops, gc := BackupOps(snap, previous, listing), Reclaims(snap, previous, listing);
            && |ops| == |Head(snap)| + |gc|
            && ops[..|Head(snap)|] == Head(snap) && ops[..|Head(snap)| + n] == Head(snap) + gc[..n]
            && ApplyAll(p, ops[..|Head(snap)| + n]) == ApplyAll(ApplyAll(p, Head(snap)), gc[..n])
    ensures ApplyAll(p, Head(snap)).data == ApplyAll(p, Uploads(snap.files)).data
  {
    hide Reclaims, Uploads, ManifestOf;
    PrefixOfConcat(p, Head(snap), Reclaims(snap, previous, listing), n);
    PerformOne(ApplyOp, p, Uploads(snap.files), PutManifest(ManifestOf(snap)));
  }

  /**
   A backup: upload, commit the manifest, then reclaim. Whatever happens it has
   performed the first `done` operations of `BackupOps` and no others, and it
   reports success exactly when it performed them all.
   */
  method Run(store: ObjectStore, snap: Snapshot, readable: bool)
    returns (r: Option<Manifest>, ghost listing: seq<Rel>, ghost done: nat)
    modifies store
    ensures var ops := BackupOps(snap, Previous(old(store.p), readable), listing);
            && done == Min(old(store.budget), |ops|) && (r.Some? <==> done == |ops|)
            && store.p == ApplyAll(old(store.p), ops[..done]) && store.budget == old(store.budget) - done
    ensures r.Some? ==> r.value == ManifestOf(snap)
    ensures r.Some? ==> store.p.manifest == r && r.value.snapshot == snap.number && !r.value.bundled && Records(r.value, snap)
    ensures r.Some? ==> Lists(listing, ApplyAll(old(store.p), Uploads(snap.files)).data)
                        || Reclaims(snap, Previous(old(store.p), readable), listing) == []
  {
    hide Perform, Prunes, Uploads, Lists, BackupOps, Head, Records;
    ghost var p0 := store.p;
    var previous := Previous(store.p, readable); // the uploads below do not touch the manifest
    listing := [];
    r, done := Commit(store, snap);
    HeadThenReclaims(p0, snap, previous, [], 0);
    assert BackupOps(snap, previous, [])[..done] == Head(snap)[..done];
    if r.None? {
      return;
    }
    assert Head(snap)[..done] == Head(snap);
    if previous.Some? && r.value.snapshot > previous.value.snapshot {
      var ok, pruned;
      ok, pruned, listing := PruneSuperseded(store, r.value, previous.value);
      HeadThenReclaims(p0, snap, previous, listing, pruned);
      done := done + pruned;
      if !ok {
        r := None;
      }
    } else {
      assert Reclaims(snap, previous, []) == [];
    }
    BackupRecords(p0, snap, previous, listing);
    ghost var ops := BackupOps(snap, previous, listing);
    assert ops[..|ops|] == ops;
  }
}
