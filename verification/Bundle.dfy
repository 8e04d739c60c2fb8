/** Concatenating a window's index files into one object, and cutting them out again. */
module Bundle {
  import opened Wrappers
  import opened ObjectPrefix

  /** The bytes of a span, when the object is long enough to hold it. */
  function Cut(bundle: Bytes, span: Span): Option<Bytes> {
    if span.offset + span.len <= |bundle| then Some(bundle[span.offset..span.offset + span.len]) else None
  }

  ghost predicate DistinctNames(layout: Layout) {
    forall i, j :: 0 <= i < j < |layout| ==> layout[i].name != layout[j].name
  }

  /** The layout names each file once and cuts it out of the bundle. */
  ghost predicate Holds(bundle: Bytes, layout: Layout, names: seq<string>, dir: map<string, Bytes>) {
    && |layout| == |names|
    && (forall i :: 0 <= i < |names| ==>
          && names[i] in dir && layout[i].name == names[i] && Cut(bundle, layout[i]) == Some(dir[names[i]]))
  }

  predicate AllThere(dir: map<string, Bytes>, names: seq<string>) {
    forall i :: 0 <= i < |names| ==> names[i] in dir
  }

  /** The named files one after the other, and where each one went. */
  function Joined(dir: map<string, Bytes>, names: seq<string>): Bytes
    requires AllThere(dir, names)
  {
    if names == [] then [] else Joined(dir, names[..|names| - 1]) + dir[names[|names| - 1]]
  }

  function Spans(dir: map<string, Bytes>, names: seq<string>): (layout: Layout)
    requires AllThere(dir, names)
    ensures |layout| == |names|
  {
    if names == [] then []
    else
      var k := |names| - 1;
      Spans(dir, names[..k]) + [Span(names[k], |Joined(dir, names[..k])|, |dir[names[k]]|)]
  }

  /** Every span cuts its file out of the joined object. */
  lemma {:induction false} JoinedHolds(dir: map<string, Bytes>, names: seq<string>)
    requires AllThere(dir, names)
    ensures Holds(Joined(dir, names), Spans(dir, names), names, dir)
    decreases |names|
  {
    if names != [] {
      var k := |names| - 1;
      JoinedHolds(dir, names[..k]);
      var before, all, layout := Joined(dir, names[..k]), Joined(dir, names), Spans(dir, names);
      forall i | 0 <= i < |names| ensures layout[i].name == names[i] && Cut(all, layout[i]) == Some(dir[names[i]]) {
        if i < k {
          assert names[..k][i] == names[i] && Cut(before, layout[i]) == Some(dir[names[i]]);
          CutStands(before, dir[names[k]], layout[i]);
        } else {
          assert all[|before|..|before| + |dir[names[k]]|] == dir[names[k]];
        }
      }
    }
  }

  lemma CutStands(before: Bytes, more: Bytes, span: Span)
    requires Cut(before, span).Some?
    ensures Cut(before + more, span) == Cut(before, span)
  {
    assert (before + more)[span.offset..span.offset + span.len] == before[span.offset..span.offset + span.len];
  }

  /** Stream the named files of a directory into one object, recording where each one went; a missing file fails the build. */
  method BuildFromDir(dir: map<string, Bytes>, names: seq<string>) returns (r: Option<(Bytes, Layout)>)
    ensures r.Some? <==> AllThere(dir, names)
    ensures r.Some? ==> r.value == (Joined(dir, names), Spans(dir, names)) && Holds(r.value.0, r.value.1, names, dir)
  {
    var bundle: Bytes, layout: Layout := [], [];
    for i := 0 to |names|
      invariant AllThere(dir, names[..i])
      invariant bundle == Joined(dir, names[..i]) && layout == Spans(dir, names[..i])
    {
      if names[i] !in dir {
        return None;
      }
      assert names[..i + 1][..i] == names[..i];
      layout := layout + [Span(names[i], |bundle|, |dir[names[i]]|)];
      bundle := bundle + dir[names[i]];
    }
    assert names[..|names|] == names;
    JoinedHolds(dir, names);
    r := Some((bundle, layout));
  }

  /** Cut every span out of the bundle; a span beyond its end fails the whole promotion. */
  method Unbundle(bundle: Bytes, layout: Layout) returns (r: Option<map<string, Bytes>>)
    ensures r.Some? <==> forall i :: 0 <= i < |layout| ==> Cut(bundle, layout[i]).Some?
    ensures r.Some? && DistinctNames(layout) ==>
              && (forall name :: name in r.value <==> exists i :: 0 <= i < |layout| && layout[i].name == name)
              && (forall i :: 0 <= i < |layout| ==> Some(r.value[layout[i].name]) == Cut(bundle, layout[i]))
  {
    var out: map<string, Bytes> := map[];
    for i := 0 to |layout|
      invariant forall j :: 0 <= j < i ==> Cut(bundle, layout[j]).Some?
      invariant forall name :: name in out <==> exists j :: 0 <= j < i && layout[j].name == name
      invariant DistinctNames(layout) ==> forall j :: 0 <= j < i ==> Some(out[layout[j].name]) == Cut(bundle, layout[j])
    {
      var bytes := Cut(bundle, layout[i]);
      if bytes.None? {
        return None;
      }
      out := out[layout[i].name := bytes.value];
    }
    r := Some(out);
  }

  /** A bundle gives back exactly the directory it was built from. */
  method RoundTrip(dir: map<string, Bytes>, names: seq<string>) returns (back: Option<map<string, Bytes>>)
    requires forall i, j :: 0 <= i < j < |names| ==> names[i] != names[j]
    requires forall name :: name in names <==> name in dir
    ensures back == Some(dir)
  {
    hide Joined, Spans, Cut;
    var built := BuildFromDir(dir, names);
    assert forall i, j :: 0 <= i < j < |names| ==> built.value.1[i].name != built.value.1[j].name;
    back := Unbundle(built.value.0, built.value.1);
    forall name | name in dir ensures name in back.value && back.value[name] == dir[name] {
      var i :| 0 <= i < |names| && names[i] == name;
      assert built.value.1[i].name == name;
    }
    assert back.value == dir;
  }
}
