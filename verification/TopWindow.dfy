/**
 A sort by one key is answered from a window: the segment's collector picks the
 first `n` hits by the stored key alone, ties going to the earlier document
 address, and only the window is then ranked, by the value as it reads and with
 the composite key as tiebreaker. The gateway merges the windows of all shards.
 */
module TopWindow {
  import opened Wrappers
  import opened ObjectPrefix
  import opened LittleEndian
  import opened Rounding
  import opened Sorting
  import opened SortValues
  import opened GatewayPaging

  /** The collector's order: the stored sort key alone. */
  function ByValue(order: SortOrder): (Hit, Hit) -> bool {
    (a: Hit, b: Hit) => CmpCell(CellAt(a, 0), CellAt(b, 0), order) != Greater
  }

  /** `hits` are listed in document address order; the collector's sort keeps it among ties. */
  function WindowOf(order: SortOrder, n: nat, hits: seq<Hit>): seq<Hit> {
    Take(n, Sort(ByValue(order), hits))
  }

  /** A store's answer. */
  function StorePage(order: SortOrder, n: nat, hits: seq<Hit>): seq<Hit> {
    Sort(Ranking([order]), WindowOf(order, n, hits))
  }

  function StorePages(order: SortOrder, n: nat, shards: seq<seq<Hit>>): seq<seq<Hit>> {
    seq(|shards|, i requires 0 <= i < |shards| => StorePage(order, n, shards[i]))
  }

  /** The gateway's page without an offset; `limit` is a 32-bit number, so the shards are asked for all of it. */
  function WindowedPage(order: SortOrder, limit: nat, shards: seq<seq<Hit>>): seq<Hit> {
    Window(0, limit, Merged([order], Flatten(StorePages(order, limit, shards))))
  }

  /** A sort column of one type, over hits their keys identify. */
  ghost predicate Column(order: SortOrder, s: set<Hit>) {
    Keyed(s) && (forall h :: h in s ==> Plain(h, [order])) && OneKind(s, [order])
  }

  ghost predicate Shard(order: SortOrder, hits: seq<Hit>, s: set<Hit>) {
    Column(order, s) && Within(hits, s) && Once(hits)
  }

  ghost predicate Fleet(order: SortOrder, shards: seq<seq<Hit>>, s: set<Hit>) {
    Column(order, s) && forall k :: 0 <= k < |shards| ==> Shard(order, shards[k], s)
  }

  // --------------------------------------------------------------- the collector's order

  lemma CellsCompose(a: Cell, b: Cell, c: Cell, order: SortOrder)
    requires SameKind(a, b) && SameKind(b, c) && SameKind(a, c)
    requires Read(a) != Num(NaN) && Read(b) != Num(NaN) && Read(c) != Num(NaN)
    ensures Composes(CmpCell(a, b, order), CmpCell(b, c, order), CmpCell(a, c, order))
    ensures CmpCell(a, b, order) == Reverse(CmpCell(b, a, order))
  {
    hide Round, CmpBytes;
    CmpComposes(Read(a), Read(b), Read(c), order);
    CmpIsAntisymmetric(Read(a), Read(b), order);
  }

  lemma HitCellsCompose(x: Hit, y: Hit, z: Hit, order: SortOrder, s: set<Hit>)
    requires Column(order, s) && x in s && y in s && z in s
    ensures ByValue(order)(x, y) || ByValue(order)(y, x)
    ensures ByValue(order)(x, y) && ByValue(order)(y, z) ==> ByValue(order)(x, z)
  {
    hide CmpCell, Read;
    assert [order][0] == order;
    assert SameKinds(x, y, [order]) && SameKinds(y, z, [order]) && SameKinds(x, z, [order]);
    assert ValueAt(x, 0) != Num(NaN) && ValueAt(y, 0) != Num(NaN) && ValueAt(z, 0) != Num(NaN);
    CellsCompose(CellAt(x, 0), CellAt(y, 0), CellAt(z, 0), order);
  }

  lemma CollectorIsPreorder(order: SortOrder, s: set<Hit>)
    requires Column(order, s)
    ensures Preorder(ByValue(order), s)
  {
    hide ByValue, Column;
    forall x, y | x in s && y in s ensures ByValue(order)(x, y) || ByValue(order)(y, x) {
      HitCellsCompose(x, y, x, order, s);
    }
    forall x, y, z | x in s && y in s && z in s && ByValue(order)(x, y) && ByValue(order)(y, z)
      ensures ByValue(order)(x, z)
    {
      HitCellsCompose(x, y, z, order, s);
    }
  }

  // ------------------------------------------------------------------- counting

  ghost function Elements(xs: seq<Hit>): set<Hit> {
    set h | h in xs
  }

  lemma {:induction false} ElementsOnce(xs: seq<Hit>)
    requires Once(xs)
    ensures |Elements(xs)| == |xs|
  {
    if xs != [] {
      ElementsOnce(xs[1..]);
      assert Elements(xs) == {xs[0]} + Elements(xs[1..]);
      assert xs[0] !in xs[1..];
    }
  }

  lemma {:induction false} Subsets(a: set<Hit>, b: set<Hit>)
    requires a <= b
    ensures |a| <= |b|
  {
    if a != {} {
      var h :| h in a;
      Subsets(a - {h}, b - {h});
    }
  }

  /** The other hits that are level with `h` or before it. */
  ghost function Level(le: (Hit, Hit) -> bool, xs: seq<Hit>, h: Hit): set<Hit> {
    set y | y in xs && y != h && le(y, h)
  }

  /** The hits strictly before `h`. */
  ghost function Ahead(le: (Hit, Hit) -> bool, xs: seq<Hit>, h: Hit): set<Hit> {
    set y | y in xs && !le(h, y)
  }

  /** What is strictly before `h` comes before it in the sorted list, and nothing does but what is level or before. */
  lemma Position(le: (Hit, Hit) -> bool, xs: seq<Hit>, h: Hit, s: set<Hit>) returns (k: nat)
    requires Preorder(le, s) && Within(xs, s) && Once(xs) && h in xs
    ensures k < |Sort(le, xs)| && Sort(le, xs)[k] == h && |Ahead(le, xs, h)| <= k <= |Level(le, xs, h)|
  {
    SortIsSorted(le, xs, s);
    var v := Sort(le, xs);
    OnceOfMultiset(xs, v);
    SameMultisetSameElements(xs, v);
    k :| 0 <= k < |v| && v[k] == h;
    ElementsOnce(v[..k]);
    forall y | y in Elements(v[..k]) ensures y in Level(le, xs, h) {
      var i :| 0 <= i < k && v[i] == y;
      assert v[i] in v && le(v[i], v[k]);
    }
    forall y | y in Ahead(le, xs, h) ensures y in Elements(v[..k]) {
      AheadComesFirst(le, v, k, y, s);
    }
    Subsets(Elements(v[..k]), Level(le, xs, h));
    Subsets(Ahead(le, xs, h), Elements(v[..k]));
  }

  lemma AheadComesFirst(le: (Hit, Hit) -> bool, v: seq<Hit>, k: nat, y: Hit, s: set<Hit>)
    requires Preorder(le, s) && Within(v, s) && Sorted(le, v) && k < |v| && y in v && !le(v[k], y)
    ensures y in v[..k]
  {
    var j :| 0 <= j < |v| && v[j] == y;
    assert j != k;
    assert j < k;
    assert v[..k][j] == y;
  }

  /** Inserting puts a hit after what is strictly before it and before the rest. */
  lemma {:induction false} InsertSplits(le: (Hit, Hit) -> bool, h: Hit, v: seq<Hit>) returns (k: nat)
    ensures k <= |v| && Insert(le, h, v) == v[..k] + [h] + v[k..]
    ensures (forall i :: 0 <= i < k ==> !le(h, v[i])) && (k < |v| ==> le(h, v[k]))
  {
    if v == [] || le(h, v[0]) {
      k := 0;
    } else {
      var j := InsertSplits(le, h, v[1..]);
      k := j + 1;
      assert v == [v[0]] + v[1..];
      assert v[..k] == [v[0]] + v[1..][..j] && v[k..] == v[1..][j..];
    }
  }

  /** At the lowest address a hit comes right after what is strictly before it. */
  lemma FirstGoesAhead(le: (Hit, Hit) -> bool, h: Hit, others: seq<Hit>, s: set<Hit>) returns (k: nat)
    requires Preorder(le, s) && Within([h] + others, s) && Once([h] + others)
    ensures k < |Sort(le, [h] + others)| && Sort(le, [h] + others)[k] == h && k <= |Ahead(le, [h] + others, h)|
  {
    assert ([h] + others)[1..] == others;
    assert Within(others, s) && Once(others);
    SortIsSorted(le, others, s);
    var v := Sort(le, others);
    OnceOfMultiset(others, v);
    SameMultisetSameElements(others, v);
    k := InsertSplits(le, h, v);
    ElementsOnce(v[..k]);
    forall y | y in Elements(v[..k]) ensures y in Ahead(le, [h] + others, h) {
      var i :| 0 <= i < k && v[i] == y;
      assert v[i] in v;
    }
    Subsets(Elements(v[..k]), Ahead(le, [h] + others, h));
  }

  /** At the highest address a hit comes before nothing it is level with. */
  lemma {:induction false} LastGoesBehind(le: (Hit, Hit) -> bool, others: seq<Hit>, h: Hit, s: set<Hit>) returns (k: nat)
    requires Preorder(le, s) && Within(others + [h], s)
    ensures k < |Sort(le, others + [h])| && Sort(le, others + [h])[k] == h
    ensures forall j :: k < j < |Sort(le, others + [h])| ==> !le(Sort(le, others + [h])[j], h)
    decreases |others|
  {
    if others == [] {
      assert others + [h] == [h] && [h][1..] == [];
      k := 0;
    } else {
      var x, rest := others[0], others[1..] + [h];
      assert (others + [h])[1..] == rest && (others + [h])[0] == x;
      forall i | 0 <= i < |rest| ensures rest[i] in s { assert rest[i] == (others + [h])[i + 1]; }
      assert h in s by { assert (others + [h])[|others|] == h; }
      SortIsSorted(le, rest, s);
      var v := Sort(le, rest);
      var j := LastGoesBehind(le, others[1..], h, s);
      var q := InsertSplits(le, x, v);
      k := if le(x, h) then j + 1 else j;
      InsertBeside(le, v, j, x, q, s);
    }
  }

  lemma InsertBeside(le: (Hit, Hit) -> bool, v: seq<Hit>, j: nat, x: Hit, q: nat, s: set<Hit>)
    requires Preorder(le, s) && Within(v, s) && x in s && Sorted(le, v) && j < |v| && q <= |v|
    requires forall i :: j < i < |v| ==> !le(v[i], v[j])
    requires (forall i :: 0 <= i < q ==> !le(x, v[i])) && (q < |v| ==> le(x, v[q]))
    ensures var w, k := v[..q] + [x] + v[q..], if le(x, v[j]) then j + 1 else j;
            w[k] == v[j] && forall i :: k < i < |w| ==> !le(w[i], v[j])
  {
    assert q < j ==> le(v[q], v[j]);
    assert q <= j <==> le(x, v[j]);
  }

  // -------------------------------------------------------------- who is in a window

  /** Whatever the address order, the hit is in the window. */
  ghost predicate Sure(order: SortOrder, n: nat, xs: seq<Hit>, h: Hit) {
    h in xs && |Level(ByValue(order), xs, h)| < n
  }

  /** In some address order the hit is in the window. */
  ghost predicate Possible(order: SortOrder, n: nat, xs: seq<Hit>, h: Hit) {
    h in xs && |Ahead(ByValue(order), xs, h)| < n
  }

  function Without(xs: seq<Hit>, h: Hit): seq<Hit> {
    if xs == [] then [] else if xs[0] == h then xs[1..] else [xs[0]] + Without(xs[1..], h)
  }

  function ToFront(xs: seq<Hit>, h: Hit): seq<Hit> {
    if h in xs then [h] + Without(xs, h) else xs
  }

  function ToBack(xs: seq<Hit>, h: Hit): seq<Hit> {
    if h in xs then Without(xs, h) + [h] else xs
  }

  lemma {:induction false} WithoutKeepsRest(xs: seq<Hit>, h: Hit)
    requires h in xs
    ensures multiset(Without(xs, h)) + multiset{h} == multiset(xs)
  {
    assert xs == [xs[0]] + xs[1..];
    if xs[0] != h { WithoutKeepsRest(xs[1..], h); }
  }

  lemma MovesKeepMultiset(xs: seq<Hit>, h: Hit)
    ensures multiset(ToFront(xs, h)) == multiset(xs) == multiset(ToBack(xs, h))
  {
    if h in xs { WithoutKeepsRest(xs, h); }
  }

  /** Another address order of the same hits. */
  lemma Rearranged(order: SortOrder, xs: seq<Hit>, other: seq<Hit>, s: set<Hit>)
    requires Shard(order, xs, s) && multiset(other) == multiset(xs)
    ensures Shard(order, other, s) && SameElements(xs, other)
  {
    SameMultisetSameElements(xs, other);
    OnceOfMultiset(xs, other);
    forall i | 0 <= i < |other| ensures other[i] in s { assert other[i] in xs; }
  }

  lemma InTake(v: seq<Hit>, n: nat, k: nat)
    requires k < |v| && Once(v)
    ensures v[k] in Take(n, v) <==> k < n
  {
    if k < n { assert Take(n, v)[k] == v[k]; }
  }

  lemma WindowPosition(order: SortOrder, n: nat, xs: seq<Hit>, k: nat, s: set<Hit>)
    requires Shard(order, xs, s) && k < |Sort(ByValue(order), xs)|
    ensures Sort(ByValue(order), xs)[k] in WindowOf(order, n, xs) <==> k < n
  {
    hide ByValue, Column;
    CollectorIsPreorder(order, s);
    SortIsSorted(ByValue(order), xs, s);
    OnceOfMultiset(xs, Sort(ByValue(order), xs));
    InTake(Sort(ByValue(order), xs), n, k);
  }

  lemma SureIsIn(order: SortOrder, n: nat, xs: seq<Hit>, other: seq<Hit>, h: Hit, s: set<Hit>)
    requires Shard(order, xs, s) && multiset(other) == multiset(xs) && Sure(order, n, xs, h)
    ensures h in WindowOf(order, n, other)
  {
    hide ByValue, Column, WindowOf;
    Rearranged(order, xs, other, s);
    CollectorIsPreorder(order, s);
    var k := Position(ByValue(order), other, h, s);
    assert Level(ByValue(order), xs, h) == Level(ByValue(order), other, h);
    WindowPosition(order, n, other, k, s);
  }

  lemma InIsPossible(order: SortOrder, n: nat, xs: seq<Hit>, other: seq<Hit>, h: Hit, s: set<Hit>)
    requires Shard(order, xs, s) && multiset(other) == multiset(xs) && h in WindowOf(order, n, other)
    ensures Possible(order, n, xs, h)
  {
    hide ByValue, Column;
    Rearranged(order, xs, other, s);
    CollectorIsPreorder(order, s);
    SortIsSorted(ByValue(order), other, s);
    SameMultisetSameElements(other, Sort(ByValue(order), other));
    assert h in Sort(ByValue(order), other);
    var k := Position(ByValue(order), other, h, s);
    assert Ahead(ByValue(order), xs, h) == Ahead(ByValue(order), other, h);
    WindowPosition(order, n, other, k, s);
  }

  lemma PossibleAtFront(order: SortOrder, n: nat, xs: seq<Hit>, h: Hit, s: set<Hit>)
    requires Shard(order, xs, s) && Possible(order, n, xs, h)
    ensures h in WindowOf(order, n, ToFront(xs, h))
  {
    hide ByValue, Column, WindowOf;
    var other := ToFront(xs, h);
    MovesKeepMultiset(xs, h);
    Rearranged(order, xs, other, s);
    CollectorIsPreorder(order, s);
    var k := FirstGoesAhead(ByValue(order), h, Without(xs, h), s);
    assert Ahead(ByValue(order), xs, h) == Ahead(ByValue(order), other, h);
    WindowPosition(order, n, other, k, s);
  }

  lemma UnsureAtBack(order: SortOrder, n: nat, xs: seq<Hit>, h: Hit, s: set<Hit>)
    requires Shard(order, xs, s) && !Sure(order, n, xs, h)
    ensures h !in WindowOf(order, n, ToBack(xs, h))
  {
    hide ByValue, Column, WindowOf;
    var other := ToBack(xs, h);
    MovesKeepMultiset(xs, h);
    Rearranged(order, xs, other, s);
    CollectorIsPreorder(order, s);
    if h in xs {
      var k := LastGoesBehind(ByValue(order), Without(xs, h), h, s);
      assert Level(ByValue(order), xs, h) == Level(ByValue(order), other, h);
      LevelComesBefore(ByValue(order), other, k, h, s);
      WindowPosition(order, n, other, k, s);
    } else {
      WindowIsFrom(order, n, other, s);
    }
  }

  lemma LevelComesBefore(le: (Hit, Hit) -> bool, other: seq<Hit>, k: nat, h: Hit, s: set<Hit>)
    requires Preorder(le, s) && Within(other, s) && Once(other) && k < |Sort(le, other)| && Sort(le, other)[k] == h
    requires forall j :: k < j < |Sort(le, other)| ==> !le(Sort(le, other)[j], h)
    ensures |Level(le, other, h)| <= k
  {
    var v := Sort(le, other);
    SortIsSorted(le, other, s);
    OnceOfMultiset(other, v);
    SameMultisetSameElements(other, v);
    forall y | y in Level(le, other, h) ensures y in Elements(v[..k]) {
      var j :| 0 <= j < |v| && v[j] == y;
      assert j < k;
      assert v[..k][j] == y;
    }
    ElementsOnce(v[..k]);
    Subsets(Level(le, other, h), Elements(v[..k]));
  }

  lemma WindowIsFrom(order: SortOrder, n: nat, xs: seq<Hit>, s: set<Hit>)
    requires Shard(order, xs, s)
    ensures forall h :: h in WindowOf(order, n, xs) ==> h in xs
    ensures Within(WindowOf(order, n, xs), s) && Once(WindowOf(order, n, xs)) && |WindowOf(order, n, xs)| <= n
  {
    hide ByValue, Column;
    CollectorIsPreorder(order, s);
    SortIsSorted(ByValue(order), xs, s);
    SameMultisetSameElements(xs, Sort(ByValue(order), xs));
    OnceOfMultiset(xs, Sort(ByValue(order), xs));
  }

  /** A hit is in the window in every address order exactly when fewer than `n` others are level with it or before it. */
  lemma SureIff(order: SortOrder, n: nat, xs: seq<Hit>, h: Hit, s: set<Hit>)
    requires Shard(order, xs, s)
    ensures (forall other :: multiset(other) == multiset(xs) ==> h in WindowOf(order, n, other)) <==> Sure(order, n, xs, h)
  {
    hide WindowOf, Sure, Shard;
    if Sure(order, n, xs, h) {
      forall other | multiset(other) == multiset(xs) ensures h in WindowOf(order, n, other) {
        SureIsIn(order, n, xs, other, h, s);
      }
    } else {
      UnsureAtBack(order, n, xs, h, s);
      MovesKeepMultiset(xs, h);
    }
  }

  /** A hit is in the window in some address order exactly when fewer than `n` are strictly before it. */
  lemma PossibleIff(order: SortOrder, n: nat, xs: seq<Hit>, h: Hit, s: set<Hit>)
    requires Shard(order, xs, s)
    ensures (exists other :: multiset(other) == multiset(xs) && h in WindowOf(order, n, other)) <==> Possible(order, n, xs, h)
  {
    hide WindowOf, Possible, Shard;
    if Possible(order, n, xs, h) {
      PossibleAtFront(order, n, xs, h, s);
      MovesKeepMultiset(xs, h);
    }
    forall other | multiset(other) == multiset(xs) && h in WindowOf(order, n, other) ensures Possible(order, n, xs, h) {
      InIsPossible(order, n, xs, other, h, s);
    }
  }

  // --------------------------------------------------------------- the gateway's page

  /** The shards with the hits of each at other addresses. */
  ghost predicate Shuffled(others: seq<seq<Hit>>, shards: seq<seq<Hit>>) {
    |others| == |shards| && forall k :: 0 <= k < |shards| ==> multiset(others[k]) == multiset(shards[k])
  }

  lemma ShuffledFleet(order: SortOrder, others: seq<seq<Hit>>, shards: seq<seq<Hit>>, s: set<Hit>)
    requires Fleet(order, shards, s) && Shuffled(others, shards)
    ensures Fleet(order, others, s)
  {
    hide Shard, Column;
    forall k | 0 <= k < |others| ensures Shard(order, others[k], s) { Rearranged(order, shards[k], others[k], s); }
  }

  lemma {:induction false} InFlatten(lists: seq<seq<Hit>>, h: Hit)
    ensures h in Flatten(lists) <==> exists k :: 0 <= k < |lists| && h in lists[k]
  {
    if lists != [] {
      InFlatten(lists[1..], h);
      if h in Flatten(lists[1..]) {
        var k :| 0 <= k < |lists| - 1 && h in lists[1..][k];
        assert h in lists[k + 1];
      }
      if k :| 0 <= k < |lists| && h in lists[k] {
        if k > 0 { assert h in lists[1..][k - 1]; }
      }
    }
  }

  lemma StorePageIs(order: SortOrder, n: nat, xs: seq<Hit>, s: set<Hit>)
    requires Shard(order, xs, s)
    ensures SameElements(StorePage(order, n, xs), WindowOf(order, n, xs)) && Within(StorePage(order, n, xs), s)
    ensures Strict(Ranking([order]), StorePage(order, n, xs))
  {
    hide Ranking, WindowOf;
    var window, page := WindowOf(order, n, xs), StorePage(order, n, xs);
    WindowIsFrom(order, n, xs, s);
    RankingIsOrder([order], s);
    SortIsSorted(Ranking([order]), window, s);
    SameMultisetSameElements(page, window);
    OnceOfMultiset(window, page);
  }

  ghost predicate InSomeWindow(order: SortOrder, n: nat, shards: seq<seq<Hit>>, h: Hit) {
    exists k :: 0 <= k < |shards| && h in WindowOf(order, n, shards[k])
  }

  /** What the gateway gathers, ranked: the hits of the windows. */
  lemma Gathered(order: SortOrder, n: nat, shards: seq<seq<Hit>>, s: set<Hit>)
    requires Fleet(order, shards, s)
    ensures var merged := Merged([order], Flatten(StorePages(order, n, shards)));
            && Strict(Ranking([order]), merged) && Within(merged, s)
            && forall h :: h in merged <==> InSomeWindow(order, n, shards, h)
  {
    hide Ranking, Merged, WindowOf, StorePage, Shard;
    var pages := StorePages(order, n, shards);
    forall k | 0 <= k < |pages| ensures Within(pages[k], s) && SameElements(pages[k], WindowOf(order, n, shards[k])) {
      StorePageIs(order, n, shards[k], s);
    }
    FlattenWithin(pages, s);
    MergedIsStrict([order], Flatten(pages), s);
    forall h ensures h in Merged([order], Flatten(pages)) <==> InSomeWindow(order, n, shards, h) {
      InFlatten(pages, h);
      if InSomeWindow(order, n, shards, h) {
        var k :| 0 <= k < |shards| && h in WindowOf(order, n, shards[k]);
        assert h in pages[k];
      }
    }
  }

  /** A page, told by what is in the windows. */
  lemma WindowedPageIs(order: SortOrder, limit: nat, shards: seq<seq<Hit>>, want: seq<Hit>, s: set<Hit>)
    requires Fleet(order, shards, s) && Strict(Ranking([order]), want) && Within(want, s) && |want| <= limit
    ensures WindowedPage(order, limit, shards) == want
            <==> && (forall x :: x in want ==> InSomeWindow(order, limit, shards, x))
                 && (forall y :: InSomeWindow(order, limit, shards, y) && y !in want ==> Beaten(Ranking([order]), limit, want, y))
  {
    hide Ranking, Merged, StorePages, InSomeWindow, Beaten, Shard, Take;
    var merged := Merged([order], Flatten(StorePages(order, limit, shards)));
    Gathered(order, limit, shards, s);
    RankingIsOrder([order], s);
    HeadIs(Ranking([order]), limit, want, merged, s);
    assert merged[0..] == merged;
  }

  /** In some shard the hit is in the window whatever the address order. */
  ghost predicate Secured(order: SortOrder, n: nat, shards: seq<seq<Hit>>, h: Hit) {
    exists k :: 0 <= k < |shards| && Sure(order, n, shards[k], h)
  }

  /**
   Every hit of the page is secured, and whatever else can get into a window
   ranks after a full page.
   */
  ghost predicate PageOk(order: SortOrder, n: nat, shards: seq<seq<Hit>>, want: seq<Hit>) {
    && (forall x :: x in want ==> Secured(order, n, shards, x))
    && (forall k, h :: 0 <= k < |shards| && Possible(order, n, shards[k], h) && h !in want ==> Beaten(Ranking([order]), n, want, h))
  }

  lemma OkPageIsRight(order: SortOrder, limit: nat, shards: seq<seq<Hit>>, others: seq<seq<Hit>>, want: seq<Hit>, s: set<Hit>)
    requires Fleet(order, shards, s) && Strict(Ranking([order]), want) && Within(want, s) && |want| <= limit
    requires Shuffled(others, shards) && PageOk(order, limit, shards, want)
    ensures WindowedPage(order, limit, others) == want
  {
    hide Ranking, WindowedPage, Sure, Possible, WindowOf, Beaten, Shard;
    ShuffledFleet(order, others, shards, s);
    WindowedPageIs(order, limit, others, want, s);
    forall x | x in want ensures InSomeWindow(order, limit, others, x) {
      assert Secured(order, limit, shards, x);
      var k :| 0 <= k < |shards| && Sure(order, limit, shards[k], x);
      SureIsIn(order, limit, shards[k], others[k], x, s);
    }
    forall y | InSomeWindow(order, limit, others, y) && y !in want ensures Beaten(Ranking([order]), limit, want, y) {
      var k :| 0 <= k < |others| && y in WindowOf(order, limit, others[k]);
      InIsPossible(order, limit, shards[k], others[k], y, s);
    }
  }

  /** Every shard with `h` at its highest address. */
  function AllToBack(shards: seq<seq<Hit>>, h: Hit): (r: seq<seq<Hit>>)
    ensures |r| == |shards|
  {
    seq(|shards|, k requires 0 <= k < |shards| => ToBack(shards[k], h))
  }

  lemma UnsecuredIsLost(order: SortOrder, limit: nat, shards: seq<seq<Hit>>, want: seq<Hit>, x: Hit, s: set<Hit>)
    requires Fleet(order, shards, s) && Strict(Ranking([order]), want) && Within(want, s) && |want| <= limit
    requires x in want && !Secured(order, limit, shards, x)
    ensures Shuffled(AllToBack(shards, x), shards) && WindowedPage(order, limit, AllToBack(shards, x)) != want
  {
    hide Ranking, WindowedPage, Sure, WindowOf, Beaten, Shard, ToBack;
    var others := AllToBack(shards, x);
    forall k | 0 <= k < |shards| ensures multiset(others[k]) == multiset(shards[k]) && x !in WindowOf(order, limit, others[k]) {
      MovesKeepMultiset(shards[k], x);
      UnsureAtBack(order, limit, shards[k], x, s);
    }
    ShuffledFleet(order, others, shards, s);
    WindowedPageIs(order, limit, others, want, s);
    assert !InSomeWindow(order, limit, others, x);
  }

  lemma UnbeatenGetsIn(order: SortOrder, limit: nat, shards: seq<seq<Hit>>, want: seq<Hit>, k: nat, h: Hit, s: set<Hit>)
    requires Fleet(order, shards, s) && Strict(Ranking([order]), want) && Within(want, s) && |want| <= limit
    requires k < |shards| && Possible(order, limit, shards[k], h) && h !in want && !Beaten(Ranking([order]), limit, want, h)
    ensures var others := shards[k := ToFront(shards[k], h)];
            Shuffled(others, shards) && WindowedPage(order, limit, others) != want
  {
    hide Ranking, WindowedPage, Possible, WindowOf, Beaten, Shard, ToFront;
    var others := shards[k := ToFront(shards[k], h)];
    MovesKeepMultiset(shards[k], h);
    PossibleAtFront(order, limit, shards[k], h, s);
    ShuffledFleet(order, others, shards, s);
    WindowedPageIs(order, limit, others, want, s);
    assert h in WindowOf(order, limit, others[k]);
    assert InSomeWindow(order, limit, others, h);
  }

  /**
   The merged page is `want` in every address order of the shards' hits if and
   only if each of its hits has, in some shard, fewer than `limit` others level
   with it or before it on the stored key, and every other hit with fewer than
   `limit` strictly before it in its shard ranks after a full page.
   */
  lemma PageIsRightIff(order: SortOrder, limit: nat, shards: seq<seq<Hit>>, want: seq<Hit>, s: set<Hit>)
    requires Fleet(order, shards, s) && Strict(Ranking([order]), want) && Within(want, s) && |want| <= limit
    ensures (forall others :: Shuffled(others, shards) ==> WindowedPage(order, limit, others) == want)
            <==> PageOk(order, limit, shards, want)
  {
    hide Ranking, WindowedPage, Secured, Possible, Beaten, Shard, Shuffled, Within, Strict;
    if PageOk(order, limit, shards, want) {
      forall others | Shuffled(others, shards) ensures WindowedPage(order, limit, others) == want {
        OkPageIsRight(order, limit, shards, others, want, s);
      }
    } else if x :| x in want && !Secured(order, limit, shards, x) {
      UnsecuredIsLost(order, limit, shards, want, x, s);
    } else {
      var k, h :| 0 <= k < |shards| && Possible(order, limit, shards[k], h) && h !in want && !Beaten(Ranking([order]), limit, want, h);
      UnbeatenGetsIn(order, limit, shards, want, k, h, s);
    }
  }

  // ---------------------------------------------------------- pages reached by offset

  /** The gateway's page when the shards answer from their windows. */
  function OffsetPage(order: SortOrder, offset: nat, limit: nat, shards: seq<seq<Hit>>): seq<Hit> {
    Window(offset, limit, Merged([order], Flatten(StorePages(order, ShardLimit(offset, limit), shards))))
  }

  /** A strict list from another whose `n`-th hit is the other's has the other's first `n`. */
  lemma LastDecides(le: (Hit, Hit) -> bool, n: nat, xs: seq<Hit>, all: seq<Hit>, s: set<Hit>)
    requires OrderOn(le, s) && Strict(le, xs) && Strict(le, all) && Within(all, s) && forall h :: h in xs ==> h in all
    requires 0 < n <= |xs| && n <= |all| && xs[n - 1] == all[n - 1]
    ensures xs[..n] == all[..n]
  {
    hide OrderOn;
    forall h | h in xs[..n] ensures h in all[..n] {
      var i :| 0 <= i < n && xs[i] == h;
      assert h in xs && h in all;
      var j :| 0 <= j < |all| && all[j] == h;
      if j >= n {
        assert le(all[n - 1], h) && all[n - 1] != h && i < n - 1 && le(h, all[n - 1]);
        assert h in s && all[n - 1] in s;
        Antisymmetric(le, h, all[n - 1], s);
      } else {
        assert all[..n][j] == h;
      }
    }
    SameByCount(xs[..n], all[..n]);
    assert Within(xs[..n], s) && Within(all[..n], s) by {
      forall i | 0 <= i < n ensures xs[i] in s { assert xs[..n][i] in all[..n]; }
    }
    StrictIsUnique(le, xs[..n], all[..n], s);
  }

  /** A list of distinct hits inside another of the same length has the same hits. */
  lemma SameByCount(a: seq<Hit>, b: seq<Hit>)
    requires Once(a) && Once(b) && |a| == |b| && forall h :: h in a ==> h in b
    ensures SameElements(a, b)
  {
    ElementsOnce(a);
    ElementsOnce(b);
    forall h | h in b ensures h in a {
      if h !in a { Subsets(Elements(a) + {h}, Elements(b)); }
    }
  }

  /** The page after an offset is right exactly when everything up to its end is. */
  lemma WindowDecides(le: (Hit, Hit) -> bool, offset: nat, limit: nat, xs: seq<Hit>, all: seq<Hit>, s: set<Hit>)
    requires OrderOn(le, s) && Strict(le, xs) && Strict(le, all) && Within(all, s) && (forall h :: h in xs ==> h in all)
    requires limit > 0 && (|all| <= offset + limit ==> xs == all)
    ensures Window(offset, limit, xs) == Window(offset, limit, all) <==> Take(offset + limit, xs) == Take(offset + limit, all)
  {
    hide OrderOn, Strict;
    var n := offset + limit;
    if Take(n, xs) == Take(n, all) {
      WindowOfHeads(offset, limit, xs, all);
    } else if Window(offset, limit, xs) == Window(offset, limit, all) && |all| > n {
      LastOfWindow(offset, limit, xs, all);
      LastDecides(le, n, xs, all, s);
    }
  }

  lemma LastOfWindow(offset: nat, limit: nat, xs: seq<Hit>, all: seq<Hit>)
    requires limit > 0 && |all| > offset + limit && Window(offset, limit, xs) == Window(offset, limit, all)
    ensures |xs| >= offset + limit && xs[offset + limit - 1] == all[offset + limit - 1]
  {
    assert |Window(offset, limit, all)| == limit;
    assert Window(offset, limit, all)[limit - 1] == all[offset + limit - 1];
    assert Window(offset, limit, xs)[limit - 1] == xs[offset + limit - 1];
  }

  /** What the windows gather comes from the ranking, and is all of it when that is no longer than the windows are deep. */
  lemma GatheredFrom(order: SortOrder, n: nat, shards: seq<seq<Hit>>, s: set<Hit>)
    requires Fleet(order, shards, s)
    ensures var merged, all := Merged([order], Flatten(StorePages(order, n, shards))), Merged([order], Flatten(shards));
            && Strict(Ranking([order]), merged) && Strict(Ranking([order]), all) && Within(all, s)
            && (forall h :: h in merged ==> h in all) && (|all| <= n ==> merged == all)
  {
    hide Ranking, Merged, WindowOf, Shard, StorePages;
    var merged, all := Merged([order], Flatten(StorePages(order, n, shards))), Merged([order], Flatten(shards));
    Gathered(order, n, shards, s);
    FlattenWithin(shards, s) by { Shards(order, shards, s); }
    MergedIsStrict([order], Flatten(shards), s);
    RankingIsOrder([order], s);
    forall h ensures InSomeWindow(order, n, shards, h) ==> h in all {
      InFlatten(shards, h);
      if InSomeWindow(order, n, shards, h) {
        var k :| 0 <= k < |shards| && h in WindowOf(order, n, shards[k]);
        WindowIsFrom(order, n, shards[k], s);
      }
    }
    if |all| <= n {
      forall h | h in all ensures InSomeWindow(order, n, shards, h) {
        InFlatten(shards, h);
        var k :| 0 <= k < |shards| && h in shards[k];
        forall x | x in shards[k] ensures x in all { InFlatten(shards, x); }
        ShortShardFits(order, n, shards[k], all, h, s);
      }
      StrictIsUnique(Ranking([order]), merged, all, s);
    }
  }

  lemma Shards(order: SortOrder, shards: seq<seq<Hit>>, s: set<Hit>)
    requires Fleet(order, shards, s)
    ensures forall k :: 0 <= k < |shards| ==> Within(shards[k], s)
  {
  }

  lemma ShortShardFits(order: SortOrder, n: nat, xs: seq<Hit>, all: seq<Hit>, h: Hit, s: set<Hit>)
    requires Shard(order, xs, s) && h in xs && Once(all) && |all| <= n && forall x :: x in xs ==> x in all
    ensures h in WindowOf(order, n, xs)
  {
    hide ByValue, WindowOf, Column;
    ElementsOnce(all);
    Subsets(Level(ByValue(order), xs, h) + {h}, Elements(all));
    assert |Level(ByValue(order), xs, h) + {h}| == |Level(ByValue(order), xs, h)| + 1;
    SureIsIn(order, n, xs, xs, h, s);
  }

  /**
   A page at an offset is the page of one index holding every shard's hits, in
   every address order, if and only if the condition holds of everything up to
   the end of the page.
   */
  lemma OffsetPageIsGlobalIff(order: SortOrder, offset: nat, limit: nat, shards: seq<seq<Hit>>, s: set<Hit>)
    requires Fleet(order, shards, s) && limit > 0 && offset + limit < TWO_32
    ensures var all := Merged([order], Flatten(shards));
            (forall others :: Shuffled(others, shards) ==> OffsetPage(order, offset, limit, others) == Window(offset, limit, all))
            <==> PageOk(order, offset + limit, shards, Take(offset + limit, all))
  {
    hide Ranking, Merged, PageOk, Window, StorePages, Shuffled, Fleet, Take;
    var n, all := offset + limit, Merged([order], Flatten(shards));
    GatheredFrom(order, n, shards, s);
    StrictTake(Ranking([order]), n, all);
    assert all[0..] == all;
    WithinStretch(all, 0, n, s);
    PageIsRightIff(order, n, shards, Take(n, all), s);
    forall others | Shuffled(others, shards)
      ensures OffsetPage(order, offset, limit, others) == Window(offset, limit, all) <==> WindowedPage(order, n, others) == Take(n, all)
    {
      OffsetPageIs(order, offset, limit, others, shards, s);
    }
  }

  lemma OffsetPageIs(order: SortOrder, offset: nat, limit: nat, others: seq<seq<Hit>>, shards: seq<seq<Hit>>, s: set<Hit>)
    requires Fleet(order, shards, s) && Shuffled(others, shards) && limit > 0 && offset + limit < TWO_32
    ensures var all := Merged([order], Flatten(shards));
            OffsetPage(order, offset, limit, others) == Window(offset, limit, all)
            <==> WindowedPage(order, offset + limit, others) == Take(offset + limit, all)
  {
    hide Ranking, Merged, Window, StorePages, Shuffled, Fleet, Take;
    var n, all := offset + limit, Merged([order], Flatten(shards));
    var merged := Merged([order], Flatten(StorePages(order, n, others)));
    ShuffledFleet(order, others, shards, s);
    GatheredFrom(order, n, others, s);
    MergedOfShuffled(order, others, shards, s);
    FleetRanks(order, shards, s);
    WindowDecides(Ranking([order]), offset, limit, merged, all, s);
    WholeWindow(n, merged);
  }

  lemma FleetRanks(order: SortOrder, shards: seq<seq<Hit>>, s: set<Hit>)
    requires Fleet(order, shards, s)
    ensures OrderOn(Ranking([order]), s)
  {
    RankingIsOrder([order], s);
  }

  lemma WholeWindow(n: nat, xs: seq<Hit>)
    ensures Window(0, n, xs) == Take(n, xs)
  {
    assert xs[0..] == xs;
  }

  /** The ranking of everything does not depend on the addresses. */
  lemma MergedOfShuffled(order: SortOrder, others: seq<seq<Hit>>, shards: seq<seq<Hit>>, s: set<Hit>)
    requires Fleet(order, shards, s) && Shuffled(others, shards)
    ensures Merged([order], Flatten(others)) == Merged([order], Flatten(shards))
  {
    hide Merged, Ranking;
    ShuffledFleet(order, others, shards, s);
    FlattenWithin(others, s);
    FlattenWithin(shards, s);
    MergedIsStrict([order], Flatten(shards), s);
    forall h ensures h in Flatten(others) <==> h in Flatten(shards) {
      InFlatten(others, h);
      InFlatten(shards, h);
      forall k | 0 <= k < |shards| ensures h in others[k] <==> h in shards[k] {
        SameMultisetSameElements(others[k], shards[k]);
      }
    }
    MergedIs([order], Flatten(others), Merged([order], Flatten(shards)), s);
  }

  // ------------------------------------------------------------------- one store

  /** A hit off the page is level with one on it, or before it, on the stored key. */
  predicate Crosses(order: SortOrder, n: nat, ranked: seq<Hit>) {
    exists i, j :: 0 <= i < n <= j < |ranked| && ByValue(order)(ranked[j], ranked[i])
  }

  /** One of the hits is level with or after all the others on the stored key. */
  lemma {:induction false} Hindmost(le: (Hit, Hit) -> bool, xs: seq<Hit>, s: set<Hit>) returns (x: Hit)
    requires Preorder(le, s) && Within(xs, s) && xs != []
    ensures x in xs && forall y :: y in xs ==> le(y, x)
  {
    assert xs == [xs[0]] + xs[1..];
    if |xs| == 1 {
      x := xs[0];
    } else {
      assert forall i :: 0 <= i < |xs| - 1 ==> xs[1..][i] == xs[i + 1];
      var z := Hindmost(le, xs[1..], s);
      x := if le(xs[0], z) then z else xs[0];
    }
  }

  /** A page that nothing crosses secures its hits. */
  lemma UncrossedIsSure(order: SortOrder, n: nat, hits: seq<Hit>, ranked: seq<Hit>, x: Hit)
    requires SameElements(ranked, hits) && Once(ranked) && !Crosses(order, n, ranked) && x in Take(n, ranked)
    ensures Sure(order, n, hits, x)
  {
    hide ByValue;
    var want := Take(n, ranked);
    forall y | y in Level(ByValue(order), hits, x) ensures y in Elements(want) - {x} {
      var j :| 0 <= j < |ranked| && ranked[j] == y;
      var i :| 0 <= i < |want| && want[i] == x;
      assert ranked[i] == x;
      if j < |want| { assert want[j] == y; }
    }
    Subsets(Level(ByValue(order), hits, x), Elements(want) - {x});
    ElementsOnce(want);
  }

  /** A page that something crosses leaves one of its hits unsure. */
  lemma CrossedIsUnsure(order: SortOrder, n: nat, hits: seq<Hit>, ranked: seq<Hit>, s: set<Hit>) returns (x: Hit)
    requires Column(order, s) && Within(ranked, s) && SameElements(ranked, hits) && Once(ranked) && Crosses(order, n, ranked)
    ensures x in Take(n, ranked) && !Sure(order, n, hits, x)
  {
    hide ByValue, Column;
    var want, bv := Take(n, ranked), ByValue(order);
    var i, j :| 0 <= i < n <= j < |ranked| && bv(ranked[j], ranked[i]);
    CollectorIsPreorder(order, s);
    x := Hindmost(bv, want, s);
    assert want[i] == ranked[i] && ranked[i] in want;
    assert bv(ranked[j], x);
    NotInHead(ranked, n, j);
    forall y | y in (Elements(want) - {x}) + {ranked[j]} ensures y in Level(bv, hits, x) {
      if y != ranked[j] { assert y in want && y in ranked; }
    }
    Subsets((Elements(want) - {x}) + {ranked[j]}, Level(bv, hits, x));
    ElementsOnce(want);
  }

  lemma NotInHead(ranked: seq<Hit>, n: nat, j: nat)
    requires Once(ranked) && n <= j < |ranked|
    ensures ranked[j] !in Take(n, ranked)
  {
  }

  /** For one shard whose ranking is `ranked`, the condition on the head of it comes down to what crosses the cut. */
  lemma OkIsUncrossed(order: SortOrder, n: nat, hits: seq<Hit>, ranked: seq<Hit>, s: set<Hit>)
    requires Column(order, s) && Within(ranked, s) && SameElements(ranked, hits) && Strict(Ranking([order]), ranked)
    ensures PageOk(order, n, [hits], Take(n, ranked)) <==> !Crosses(order, n, ranked)
  {
    hide Ranking, Crosses, Sure, Column, Beaten;
    var want := Take(n, ranked);
    forall x ensures Secured(order, n, [hits], x) <==> Sure(order, n, hits, x) {
      assert [hits][0] == hits;
    }
    if Crosses(order, n, ranked) {
      var x := CrossedIsUnsure(order, n, hits, ranked, s);
    } else {
      forall x | x in want ensures Sure(order, n, hits, x) { UncrossedIsSure(order, n, hits, ranked, x); }
      forall h | h in hits && h !in want ensures Beaten(Ranking([order]), n, want, h) {
        BeatenByHead(Ranking([order]), n, ranked, h);
      }
    }
  }

  lemma BeatenByHead(le: (Hit, Hit) -> bool, n: nat, ranked: seq<Hit>, h: Hit)
    requires Strict(le, ranked) && h in ranked && h !in Take(n, ranked)
    ensures Beaten(le, n, Take(n, ranked), h)
  {
    var j :| 0 <= j < |ranked| && ranked[j] == h;
    assert ranked[0..] == ranked;
    InTake(ranked, n, j);
    BeatenByStretch(le, n, ranked, 0, j);
  }

  /** The gateway's page from one shard is the store's. */
  lemma OneStore(order: SortOrder, n: nat, hits: seq<Hit>, s: set<Hit>)
    requires Shard(order, hits, s)
    ensures WindowedPage(order, n, [hits]) == StorePage(order, n, hits)
  {
    hide Ranking, WindowOf, Merged, StorePage;
    var page := StorePage(order, n, hits);
    StorePageIs(order, n, hits, s);
    var pages := StorePages(order, n, [hits]);
    assert pages == [page] && |pages[1..]| == 0 && Flatten(pages) == page;
    MergedIs([order], page, page, s);
    WindowIsFrom(order, n, hits, s);
    assert page[0..] == page;
    StoreFits(order, n, hits, s);
  }

  lemma StoreFits(order: SortOrder, n: nat, hits: seq<Hit>, s: set<Hit>)
    requires Shard(order, hits, s)
    ensures |StorePage(order, n, hits)| <= n
  {
    hide Ranking, WindowOf;
    WindowIsFrom(order, n, hits, s);
    RankingIsOrder([order], s);
    SortIsSorted(Ranking([order]), WindowOf(order, n, hits), s);
    assert |multiset(StorePage(order, n, hits))| == |multiset(WindowOf(order, n, hits))|;
  }

  /** A shard's ranking, whatever its address order. */
  lemma RankingOf(order: SortOrder, hits: seq<Hit>, other: seq<Hit>, s: set<Hit>)
    requires Shard(order, hits, s) && multiset(other) == multiset(hits)
    ensures var ranked := Sort(Ranking([order]), hits);
            && Strict(Ranking([order]), ranked) && Within(ranked, s) && SameElements(ranked, hits)
            && Sort(Ranking([order]), other) == ranked
  {
    hide Ranking;
    RankingIsOrder([order], s);
    Rearranged(order, hits, other, s);
    SortIsSorted(Ranking([order]), hits, s);
    SortIsSorted(Ranking([order]), other, s);
    SortedIsUnique(Ranking([order]), Sort(Ranking([order]), other), Sort(Ranking([order]), hits), s);
    OnceOfMultiset(hits, Sort(Ranking([order]), hits));
    SameMultisetSameElements(Sort(Ranking([order]), hits), hits);
  }

  /**
   A store's single-key page is the head of the ranking for every address order
   of its hits exactly when every hit on it is strictly before every hit off it
   on the stored key.
   */
  lemma WindowIsExactIff(order: SortOrder, n: nat, hits: seq<Hit>, s: set<Hit>)
    requires Shard(order, hits, s)
    ensures (forall other :: multiset(other) == multiset(hits)
                             ==> StorePage(order, n, other) == ShardPage([order], n, other))
            <==> !Crosses(order, n, Sort(Ranking([order]), hits))
  {
    hide Ranking, StorePage, Crosses, WindowedPage, PageOk, Sort;
    var ranked := Sort(Ranking([order]), hits);
    RankingOf(order, hits, hits, s);
    OkIsUncrossed(order, n, hits, ranked, s);
    StrictTake(Ranking([order]), n, ranked);
    PageIsRightIff(order, n, [hits], Take(n, ranked), s);
    forall other | multiset(other) == multiset(hits)
      ensures ShardPage([order], n, other) == Take(n, ranked) && StorePage(order, n, other) == WindowedPage(order, n, [other])
    {
      RankingOf(order, hits, other, s);
      Rearranged(order, hits, other, s);
      OneStore(order, n, other, s);
    }
    OneShuffled(hits);
    if !Crosses(order, n, ranked) {
      forall other | multiset(other) == multiset(hits) ensures StorePage(order, n, other) == ShardPage([order], n, other) {
        assert Shuffled([other], [hits]);
      }
    }
  }

  lemma OneShuffled(hits: seq<Hit>)
    ensures forall others :: Shuffled(others, [hits]) ==> exists other :: others == [other] && multiset(other) == multiset(hits)
  {
    forall others | Shuffled(others, [hits]) ensures exists other :: others == [other] && multiset(other) == multiset(hits) {
      assert others == [others[0]];
    }
  }
}
