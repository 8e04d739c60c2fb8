/**
 Restore and replica refresh, reading a prefix that a primary may be rewriting
 at the same time. The primary's object operations are a fixed list; each read
 of the replica sees the prefix after some number of them, never fewer than the
 read before saw. That is every interleaving of reads with backups and their
 pruning.
 */
module Refresh {
  import opened Wrappers
  import opened ObjectPrefix

  /** The prefix after the first `t` operations. */
  function At(p: Prefix, ops: seq<Op>, t: nat): Prefix
    requires t <= |ops|
  {
    ApplyAll(p, ops[..t])
  }

  datatype Fetched<+T> = Got(value: T) | Missing | Broken

  /** Every object the manifest names is there. */
  ghost predicate AllThere(p: Prefix, m: Manifest) {
    forall i :: 0 <= i < |m.files| ==> m.files[i].rel in p.data
  }

  /** `faulty` are the reads, counted from 0, that the network fails. */
  class Reader {
    const p: Prefix
    const ops: seq<Op>
    const faulty: set<nat>
    var now: nat
    var count: nat

    ghost predicate Valid()
      reads this
    {
      now <= |ops|
    }

    /** Nothing runs beside the reads and none of them fails. */
    ghost predicate Calm() {
      ops == [] && faulty == {}
    }

    constructor (p: Prefix, ops: seq<Op>, faulty: set<nat>)
      ensures Valid() && this.p == p && this.ops == ops && this.faulty == faulty && now == 0
    {
      this.p, this.ops, this.faulty, now, count := p, ops, faulty, 0, 0;
    }

    /** Any number of the primary's operations happen. */
    method Wait()
      requires Valid()
      modifies this`now
      ensures Valid() && old(now) <= now
    {
      var t: nat :| now <= t <= |ops|;
      now := t;
    }

    method ReadManifest() returns (r: Fetched<Manifest>)
      requires Valid()
      modifies this
      ensures Valid() && old(now) <= now
      ensures r.Got? ==> At(p, ops, now).manifest == Some(r.value) && r.value.format <= MANIFEST_FORMAT
      ensures r.Missing? ==> At(p, ops, now).manifest == None
      ensures r.Broken? ==> old(count) in faulty
                            || (At(p, ops, now).manifest.Some? && At(p, ops, now).manifest.value.format > MANIFEST_FORMAT)
    {
      Wait();
      var m, fails := At(p, ops, now).manifest, count in faulty;
      count := count + 1;
      if fails || (m.Some? && m.value.format > MANIFEST_FORMAT) {
        return Broken;
      }
      r := if m.Some? then Got(m.value) else Missing;
    }

    method ReadData(rel: Rel) returns (r: Fetched<Bytes>)
      requires Valid()
      modifies this
      ensures Valid() && old(now) <= now
      ensures r.Got? ==> rel in At(p, ops, now).data && At(p, ops, now).data[rel] == r.value
      ensures r.Missing? ==> rel !in At(p, ops, now).data
      ensures r.Broken? ==> old(count) in faulty
    {
      Wait();
      var data, fails := At(p, ops, now).data, count in faulty;
      count := count + 1;
      if fails {
        return Broken;
      }
      r := if rel in data then Got(data[rel]) else Missing;
    }
  }

  lemma EntryIsListed(m: Manifest, i: nat)
    requires i < |m.files|
    ensures Listed(m, m.files[i].rel)
  {
  }

  lemma NothingHappens(p: Prefix)
    ensures At(p, [], 0) == p
  {
  }

  /** The replica's shard directory: its index files and aux store. */
  class LocalDir {
    var files: map<Rel, Bytes>

    constructor (files: map<Rel, Bytes>)
      ensures this.files == files
    {
      this.files := files;
    }
  }

  /** Segment names are unique across everything the primary ever uploads. */
  ghost predicate AlwaysSealed(p: Prefix, ops: seq<Op>, seg: map<Rel, Bytes>) {
    forall t: nat :: t <= |ops| ==> Sealed(At(p, ops, t).data, seg)
  }

  /** A local copy of a listed file: a segment file is the segment, a mutable file was read between `from` and `to`. */
  ghost predicate Copied(p: Prefix, ops: seq<Op>, from: nat, to: nat, files: map<Rel, Bytes>, rel: Rel)
    requires to <= |ops|
  {
    && rel in files
    && (Mutable(rel) ==> exists t: nat :: from <= t <= to && rel in At(p, ops, t).data && files[rel] == At(p, ops, t).data[rel])
  }

  ghost predicate AllCopied(p: Prefix, ops: seq<Op>, from: nat, to: nat, files: map<Rel, Bytes>, m: Manifest, n: nat)
    requires to <= |ops| && n <= |m.files|
  {
    forall i :: 0 <= i < n ==> Copied(p, ops, from, to, files, m.files[i].rel)
  }

  /** No index file that the manifest does not name. */
  ghost predicate NothingExtra(files: map<Rel, Bytes>, m: Manifest) {
    forall rel :: rel in files && rel.Index? ==> Listed(m, rel)
  }

  function Mutables(files: seq<FileEntry>): nat {
    if files == [] then 0 else Mutables(files[..|files| - 1]) + (if Mutable(files[|files| - 1].rel) then 1 else 0)
  }

  /** Every segment file of the manifest is already local, at its recorded length. */
  ghost predicate SegmentsPresent(files: map<Rel, Bytes>, m: Manifest) {
    forall i :: 0 <= i < |m.files| && !Mutable(m.files[i].rel) ==>
      m.files[i].rel in files && |files[m.files[i].rel]| == m.files[i].len
  }

  datatype Stats = Stats(downloaded: nat, skipped: nat, removed: nat)
  datatype Outcome<+T> = Ok(value: T) | NotFound | Error

  lemma CopiedLater(p: Prefix, ops: seq<Op>, from: nat, to: nat, to': nat, files: map<Rel, Bytes>, m: Manifest, n: nat)
    requires to <= to' <= |ops| && n <= |m.files| && AllCopied(p, ops, from, to, files, m, n)
    ensures AllCopied(p, ops, from, to', files, m, n)
  {
    forall i | 0 <= i < n ensures Copied(p, ops, from, to', files, m.files[i].rel) {
      assert Copied(p, ops, from, to, files, m.files[i].rel);
    }
  }

  /** Fetch one file, unless it is a segment file already present at its recorded length. */
  method FetchFile(reader: Reader, dest: LocalDir, e: FileEntry, ghost seg: map<Rel, Bytes>) returns (r: Outcome<bool>)
    requires reader.Valid() && AlwaysSealed(reader.p, reader.ops, seg) && Sealed(dest.files, seg)
    modifies reader, dest
    ensures reader.Valid() && old(reader.now) <= reader.now && Sealed(dest.files, seg)
    ensures r.Ok? ==> && Copied(reader.p, reader.ops, old(reader.now), reader.now, dest.files, e.rel)
                      && dest.files.Keys == old(dest.files).Keys + {e.rel}
                      && (r.value <==> Mutable(e.rel) || e.rel !in old(dest.files) || |old(dest.files)[e.rel]| != e.len)
    ensures !r.Ok? || !r.value ==> dest.files == old(dest.files)
    ensures forall rel :: rel in dest.files && rel != e.rel ==> rel in old(dest.files) && dest.files[rel] == old(dest.files)[rel]
    ensures reader.Calm() && e.rel in reader.p.data ==> r.Ok?
    ensures r.Error? ==> reader.faulty != {}
  {
    NothingHappens(reader.p);
    hide At;
    if !Mutable(e.rel) && e.rel in dest.files && |dest.files[e.rel]| == e.len {
      return Ok(false);
    }
    var got := reader.ReadData(e.rel);
    if !got.Got? {
      return if got.Missing? then NotFound else Error;
    }
    dest.files := dest.files[e.rel := got.value];
    r := Ok(true);
  }

  /** Copies stand while another file is fetched. */
  lemma CopiesStand(p: Prefix, ops: seq<Op>, from: nat, to: nat, files: map<Rel, Bytes>, to': nat, files': map<Rel, Bytes>, m: Manifest, n: nat)
    requires from <= to <= to' <= |ops| && n < |m.files| && AllCopied(p, ops, from, to, files, m, n)
    requires Copied(p, ops, to, to', files', m.files[n].rel) && files.Keys <= files'.Keys
    requires forall rel :: rel in files && rel != m.files[n].rel ==> files'[rel] == files[rel]
    ensures AllCopied(p, ops, from, to', files', m, n + 1)
  {
    hide At;
    forall i | 0 <= i < n + 1 ensures Copied(p, ops, from, to', files', m.files[i].rel) {
      if i < n { assert Copied(p, ops, from, to, files, m.files[i].rel); }
    }
  }

  /** Fetching the next file keeps the segments that are there, and fetches none of them again. */
  lemma SegmentsStand(files: map<Rel, Bytes>, files': map<Rel, Bytes>, m: Manifest, n: nat)
    requires n < |m.files| && SegmentsPresent(files, m) && files.Keys <= files'.Keys
    requires forall rel :: rel in files && rel != m.files[n].rel ==> files'[rel] == files[rel]
    requires !Mutable(m.files[n].rel) ==> files' == files
    ensures SegmentsPresent(files', m)
  {
  }

  lemma MutablesNext(files: seq<FileEntry>, n: nat)
    requires n < |files|
    ensures Mutables(files[..n + 1]) == Mutables(files[..n]) + if Mutable(files[n].rel) then 1 else 0
  {
    assert files[..n + 1][..n] == files[..n];
  }

  /** Fetch the manifest's files, skipping segment files already present at their recorded length. */
  method Download(reader: Reader, dest: LocalDir, m: Manifest, ghost seg: map<Rel, Bytes>)
    returns (r: Outcome<Stats>)
    requires reader.Valid() && AlwaysSealed(reader.p, reader.ops, seg) && Sealed(dest.files, seg)
    modifies reader, dest
    ensures reader.Valid() && old(reader.now) <= reader.now && Sealed(dest.files, seg)
    ensures r.Ok? ==> AllCopied(reader.p, reader.ops, old(reader.now), reader.now, dest.files, m, |m.files|)
    ensures r.Ok? ==> r.value.downloaded + r.value.skipped == |m.files| && r.value.removed == 0
    ensures SegmentsPresent(old(dest.files), m) ==> SegmentsPresent(dest.files, m)
    ensures r.Ok? && SegmentsPresent(old(dest.files), m) ==> r.value.downloaded == Mutables(m.files)
    ensures reader.Calm() && AllThere(reader.p, m) ==> r.Ok?
    ensures r.Error? ==> reader.faulty != {}
    ensures forall rel :: rel in dest.files ==> rel in old(dest.files) || Listed(m, rel)
    ensures old(dest.files).Keys <= dest.files.Keys
  {
    hide At, Listed, Sealed, AlwaysSealed, Copied, AllCopied, Mutables, Mutable;
    ghost var from, segmentsPresent := reader.now, SegmentsPresent(dest.files, m);
    var downloaded, skipped := 0, 0;
    NothingCopied(reader.p, reader.ops, from, dest.files, m);
    for i := 0 to |m.files|
      invariant reader.Valid() && from <= reader.now && Sealed(dest.files, seg)
      invariant AllCopied(reader.p, reader.ops, from, reader.now, dest.files, m, i)
      invariant downloaded + skipped == i
      invariant old(dest.files).Keys <= dest.files.Keys && forall rel :: rel in dest.files ==> rel in old(dest.files) || Listed(m, rel)
      invariant segmentsPresent ==> SegmentsPresent(dest.files, m) && downloaded == Mutables(m.files[..i])
    {
      ghost var before, was := dest.files, reader.now;
      EntryIsListed(m, i);
      MutablesNext(m.files, i);
      var fetched := FetchFile(reader, dest, m.files[i], seg);
      if !fetched.Ok? {
        return if fetched.NotFound? then NotFound else Error;
      }
      CopiesStand(reader.p, reader.ops, from, was, before, reader.now, dest.files, m, i);
      if segmentsPresent { SegmentsStand(before, dest.files, m, i); }
      if fetched.value {
        downloaded := downloaded + 1;
      } else {
        skipped := skipped + 1;
      }
    }
    assert m.files[..|m.files|] == m.files;
    r := Ok(Stats(downloaded, skipped, 0));
  }

  lemma NothingCopied(p: Prefix, ops: seq<Op>, from: nat, files: map<Rel, Bytes>, m: Manifest)
    requires from <= |ops|
    ensures AllCopied(p, ops, from, from, files, m, 0) && Mutables(m.files[..0]) == 0
  {
  }

  /** Remove the local index files the manifest does not name; leave the rest alone. */
  method RemoveStale(dest: LocalDir, m: Manifest) returns (removed: nat)
    modifies dest
    ensures NothingExtra(dest.files, m)
    ensures forall rel :: rel in dest.files <==> rel in old(dest.files) && (rel.Index? ==> Listed(m, rel))
    ensures forall rel :: rel in dest.files ==> dest.files[rel] == old(dest.files)[rel]
    ensures removed == |old(dest.files).Keys - dest.files.Keys|
  {
    hide Listed;
    ghost var before, gone: set<Rel> := dest.files, {};
    var left := set rel | rel in dest.files && rel.Index?;
    removed := 0;
    while left != {}
      invariant left <= dest.files.Keys && gone <= before.Keys && gone !! left
      invariant forall rel :: rel in gone ==> rel.Index? && !Listed(m, rel)
      invariant forall rel :: rel in before && rel.Index? && rel !in left && rel !in gone ==> Listed(m, rel)
      invariant forall rel :: rel in left ==> rel.Index?
      invariant dest.files == before - gone && removed == |gone|
      decreases |left|
    {
      var rel :| rel in left;
      left := left - {rel};
      if !Listed(m, rel) {
        assert before - gone - {rel} == before - (gone + {rel});
        dest.files := dest.files - {rel};
        gone, removed := gone + {rel}, removed + 1;
      }
    }
    assert before.Keys - dest.files.Keys == gone;
  }

  /** The index files a directory has that the manifest does not name. */
  function Stale(files: map<Rel, Bytes>, m: Manifest): set<Rel> {
    set rel | rel in files && rel.Index? && !Listed(m, rel)
  }

  method RefreshOnce(reader: Reader, dest: LocalDir, m: Manifest, ghost seg: map<Rel, Bytes>)
    returns (r: Outcome<Stats>)
    requires reader.Valid() && AlwaysSealed(reader.p, reader.ops, seg) && Sealed(dest.files, seg)
    modifies reader, dest
    ensures reader.Valid() && old(reader.now) <= reader.now && Sealed(dest.files, seg)
    ensures r.Ok? ==> AllCopied(reader.p, reader.ops, old(reader.now), reader.now, dest.files, m, |m.files|)
    ensures r.Ok? ==> NothingExtra(dest.files, m)
    ensures r.Ok? ==> r.value.downloaded + r.value.skipped == |m.files|
    ensures r.Ok? ==> r.value.removed == |Stale(old(dest.files), m)|
    ensures reader.Calm() && AllThere(reader.p, m) ==> r.Ok?
    ensures r.Error? ==> reader.faulty != {}
    ensures !r.Ok? && SegmentsPresent(old(dest.files), m) ==> SegmentsPresent(dest.files, m)
    ensures r.Ok? && SegmentsPresent(old(dest.files), m) ==> r.value.downloaded == Mutables(m.files)
  {
    r := Download(reader, dest, m, seg);
    if r.Ok? {
      ghost var before, from := dest.files, old(reader.now);
      var removed := RemoveStale(dest, m);
      assert before.Keys - dest.files.Keys == Stale(old(dest.files), m);
      r := Ok(r.value.(removed := removed));
      forall i | 0 <= i < |m.files| ensures Copied(reader.p, reader.ops, from, reader.now, dest.files, m.files[i].rel) {
        assert Copied(reader.p, reader.ops, from, reader.now, before, m.files[i].rel);
        assert Listed(m, m.files[i].rel);
      }
    }
  }

  const MAX_REFRESH_RETRIES := 3

  /** There is a manifest this code understands and everything it names. */
  ghost predicate Fetchable(p: Prefix) {
    p.manifest.Some? && p.manifest.value.format <= MANIFEST_FORMAT && AllThere(p, p.manifest.value)
  }

  ghost predicate FormatsKnown(p: Prefix, ops: seq<Op>) {
    forall t: nat :: t <= |ops| && At(p, ops, t).manifest.Some? ==> At(p, ops, t).manifest.value.format <= MANIFEST_FORMAT
  }

  ghost predicate AlwaysCommitted(p: Prefix, ops: seq<Op>) {
    forall t: nat :: t <= |ops| ==> At(p, ops, t).manifest.Some?
  }

  datatype Refreshed = Refreshed(manifest: Manifest, stats: Stats)

  /**
   The bounded retry loop. A result is reported only for a pass whose manifest
   was read at `t0` and whose snapshot the prefix still showed at `t1`, after
   the pass. Without failing reads it gives up only after the last pass allowed, or
   on an object missing a second time.
   */
  method Run(reader: Reader, dest: LocalDir, ghost seg: map<Rel, Bytes>)
    returns (r: Outcome<Refreshed>, ghost t0: nat, ghost t1: nat, ghost passes: nat)
    requires reader.Valid() && AlwaysSealed(reader.p, reader.ops, seg) && Sealed(dest.files, seg)
    modifies reader, dest
    ensures reader.Valid() && Sealed(dest.files, seg)
    ensures r.Ok? ==> && old(reader.now) <= t0 <= t1 <= |reader.ops|
                      && At(reader.p, reader.ops, t0).manifest == Some(r.value.manifest)
                      && At(reader.p, reader.ops, t1).manifest.Some?
                      && At(reader.p, reader.ops, t1).manifest.value.snapshot == r.value.manifest.snapshot
                      && AllCopied(reader.p, reader.ops, t0, t1, dest.files, r.value.manifest, |r.value.manifest.files|)
                      && NothingExtra(dest.files, r.value.manifest)
                      && r.value.stats.downloaded + r.value.stats.skipped == |r.value.manifest.files|
    ensures r.Ok? && reader.ops == [] && SegmentsPresent(old(dest.files), r.value.manifest) ==>
              r.value.stats.downloaded == Mutables(r.value.manifest.files)
    ensures r.Ok? ==> 1 <= passes <= MAX_REFRESH_RETRIES + 1
    ensures r.Error? && reader.faulty == {} && FormatsKnown(reader.p, reader.ops) ==> passes == MAX_REFRESH_RETRIES + 1
    ensures r.NotFound? && AlwaysCommitted(reader.p, reader.ops) ==> passes >= 2
    ensures reader.Calm() && Fetchable(reader.p) ==>
              && r.Ok? && r.value.manifest == reader.p.manifest.value
              && r.value.stats.removed == |Stale(old(dest.files), r.value.manifest)|
  {
    NothingHappens(reader.p);
    t0, t1, passes := reader.now, reader.now, 0;
    ghost var dir := dest.files;
    r := Error;
    var first := reader.ReadManifest();
    if !first.Got? {
      return if first.Missing? then NotFound else Error, t0, t1, 0;
    }
    var manifest, retried404 := first.value, false;
    for attempt := 0 to MAX_REFRESH_RETRIES + 1
      invariant reader.Valid() && old(reader.now) <= reader.now && Sealed(dest.files, seg) && !r.Ok?
      invariant At(reader.p, reader.ops, reader.now).manifest == Some(manifest)
      invariant passes == attempt && (retried404 ==> attempt > 0) && r == Error
      invariant reader.ops == [] && SegmentsPresent(dir, manifest) ==> SegmentsPresent(dest.files, manifest)
      invariant reader.Calm() && Fetchable(reader.p) ==> attempt == 0 && manifest == reader.p.manifest.value && dest.files == dir
    {
      t0, passes := reader.now, passes + 1;
      var pass := RefreshOnce(reader, dest, manifest, seg);
      ghost var ended := reader.now;
      if pass.Error? || (pass.NotFound? && retried404) {
        return if pass.Error? then Error else NotFound, t0, reader.now, passes;
      }
      var current := reader.ReadManifest();
      if !current.Got? {
        return if current.Missing? then NotFound else Error, t0, reader.now, passes;
      }
      if pass.NotFound? {
        retried404 := true;
      } else if current.value.snapshot == manifest.snapshot {
        t1 := reader.now;
        CopiedLater(reader.p, reader.ops, t0, ended, t1, dest.files, manifest, |manifest.files|);
        return Ok(Refreshed(manifest, pass.value)), t0, t1, passes;
      }
      manifest := current.value;
    }
  }

  /** Restore into a directory: download every file the manifest names, or refuse a bundled prefix. */
  method Restore(reader: Reader, dest: LocalDir) returns (r: Outcome<Manifest>, ghost t0: nat)
    requires reader.Valid()
    modifies reader, dest
    ensures reader.Valid() && old(reader.now) <= t0 <= reader.now
    ensures r.Ok? ==> At(reader.p, reader.ops, t0).manifest == Some(r.value) && !r.value.bundled
    ensures r.Ok? ==> forall i :: 0 <= i < |r.value.files| ==>
              exists t: nat :: t0 <= t <= reader.now && r.value.files[i].rel in At(reader.p, reader.ops, t).data
                        && r.value.files[i].rel in dest.files
                        && dest.files[r.value.files[i].rel] == At(reader.p, reader.ops, t).data[r.value.files[i].rel]
    ensures r.Ok? ==> forall rel :: rel in dest.files ==> rel in old(dest.files) || Listed(r.value, rel)
    ensures reader.Calm() && Fetchable(reader.p) ==> (r.Ok? <==> !reader.p.manifest.value.bundled)
  {
    NothingHappens(reader.p);
    t0 := reader.now;
    var read := reader.ReadManifest();
    if !read.Got? {
      return if read.Missing? then NotFound else Error, t0;
    }
    t0 := reader.now;
    var m := read.value;
    if m.bundled {
      return Error, t0;
    }
    for i := 0 to |m.files|
      invariant reader.Valid() && t0 <= reader.now
      invariant forall j :: 0 <= j < i ==>
        exists t: nat :: t0 <= t <= reader.now && m.files[j].rel in At(reader.p, reader.ops, t).data
                  && m.files[j].rel in dest.files
                  && dest.files[m.files[j].rel] == At(reader.p, reader.ops, t).data[m.files[j].rel]
      invariant forall rel :: rel in dest.files ==> rel in old(dest.files) || Listed(m, rel)
    {
      var got := reader.ReadData(m.files[i].rel);
      if !got.Got? {
        return if got.Missing? then NotFound else Error, t0;
      }
      dest.files := dest.files[m.files[i].rel := got.value];
    }
    r := Ok(m);
  }
}
