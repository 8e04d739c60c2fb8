/**
 Scrolls that leave the total order: over whole numbers that a float cannot hold,
 and over ties that lie across a page boundary.
 */
module ScrollExamples {
  import opened Wrappers
  import opened ObjectPrefix
  import opened LittleEndian
  import opened Rounding
  import opened Sorting
  import opened SortValues
  import opened GatewayPaging
  import opened TopWindow
  import opened WindowedScroll

  function Copies(h: Hit, m: nat): seq<Hit> {
    if m == 0 then [] else [h] + Copies(h, m - 1)
  }

  lemma SortOfOne(le: (Hit, Hit) -> bool, x: Hit)
    ensures Sort(le, [x]) == [x]
  {
    assert [x][1..] == [];
  }

  lemma SortOfTwo(le: (Hit, Hit) -> bool, x: Hit, y: Hit)
    ensures Sort(le, [x, y]) == if le(x, y) then [x, y] else [y, x]
  {
    assert [x, y][1..] == [y] && [y][1..] == [];
    SortOfOne(le, y);
    assert [x] + [y] == [x, y] && [y] + [x] == [y, x];
    assert Insert(le, x, []) == [x];
  }

  /** The merge of what one shard sends when it sends one hit or none. */
  lemma PageOfOne(order: SortOrder, hits: seq<Hit>, x: Hit)
    requires StorePage(order, 1, hits) == [x]
    ensures WindowedPage(order, 1, [hits]) == [x]
  {
    hide StorePage, Ranking, Sort;
    var pages := StorePages(order, 1, [hits]);
    assert pages == [[x]] && |pages[1..]| == 0 && Flatten(pages) == [x];
    SortOfOne(Ranking([order]), x);
    assert [x][1..] == [] && Dedupe([x], {}) == [x];
  }

  lemma PageOfNone(order: SortOrder)
    ensures WindowedPage(order, 1, [[]]) == []
  {
    hide Ranking, ByValue;
    var pages := StorePages(order, 1, [[]]);
    assert |pages| == 1 && pages[0] == [] && |pages[1..]| == 0;
    assert Flatten(pages) == [];
  }

  /** Of two hits the one strictly first on the stored key is the page of one, in either address order. */
  lemma FirstOfTwo(order: SortOrder, a: Hit, b: Hit)
    requires CmpCell(CellAt(a, 0), CellAt(b, 0), order) == Less && CmpCell(CellAt(b, 0), CellAt(a, 0), order) == Greater
    ensures StorePage(order, 1, [a, b]) == [a] == StorePage(order, 1, [b, a])
  {
    hide Ranking, CmpCell, Sort;
    SortOfTwo(ByValue(order), a, b);
    SortOfTwo(ByValue(order), b, a);
    assert Take(1, [a, b]) == [a];
    SortOfOne(Ranking([order]), a);
  }

  lemma BeyondOfTwo(cursor: Option<Hit>, orders: seq<SortOrder>, a: Hit, b: Hit)
    requires cursor.None? || (KeysetAfter(a, cursor.value, orders) && KeysetAfter(b, cursor.value, orders))
    ensures Beyond(cursor, orders, [a, b]) == [a, b]
  {
    hide KeysetAfter;
    BeyondAllOrNone(cursor, orders, [a, b]);
  }

  // ------------------------------------------------------- whole numbers beyond 2^53

  /** Two whole numbers of which the first was moved towards the start of the order and the second reads strictly after it. */
  ghost predicate Stuck(order: SortOrder, v: Cell, w: Cell) {
    v.Long? && w.Long? && MovedBack(v, order) && CmpSortValue(Read(v), Read(w), order) == Less
  }

  /** The first hit's cursor selects both hits again. */
  lemma BothSelected(order: SortOrder, a: Hit, b: Hit)
    requires Stuck(order, CellAt(a, 0), CellAt(b, 0))
    ensures KeysetAfter(a, a, [order]) && KeysetAfter(b, a, [order])
    ensures CmpCell(CellAt(a, 0), CellAt(b, 0), order) == Less && CmpCell(CellAt(b, 0), CellAt(a, 0), order) == Greater
  {
    hide KeysetAfter, Round, Trip;
    var orders, v, w := [order], CellAt(a, 0), CellAt(b, 0);
    assert orders[0] == order && orders[..0] == [];
    assert Plain(a, orders) && Plain(b, orders) && SameKinds(b, a, orders);
    SelectedAgainIff(a, orders);
    assert AllSurvive(a, orders[..0]) && MovedBack(CellAt(a, 0), orders[0]);
    CmpIsAntisymmetric(Read(v), Read(w), order);
    KeysetOfOne(b, a, order);
    ReadDecides(w, v, order);
    if w.i <= v.i { RoundRises(w.i, v.i); }
    if v.i <= w.i { RoundRises(v.i, w.i); }
  }

  /**
   Pages of one over two such hits, in either address order: the first hit is
   returned for ever and the second never, though no two hits are tied.
   */
  lemma RoundedScrollRepeats(order: SortOrder, a: Hit, b: Hit, hits: seq<Hit>, m: nat)
    requires Stuck(order, CellAt(a, 0), CellAt(b, 0)) && (hits == [a, b] || hits == [b, a])
    ensures KeyScroll(order, 1, [hits], m) == Copies(a, m)
    ensures !Tied(a, b, order)
  {
    hide KeyPage, KeysetAfter, Stuck, Follow;
    NotTied(order, a, b);
    KeyPageRepeats(order, a, b, hits, None);
    KeyPageRepeats(order, a, b, hits, Some(a));
    FollowsItself(cursor => KeyPage(order, 1, [hits], cursor), a, None, m);
  }

  lemma NotTied(order: SortOrder, a: Hit, b: Hit)
    requires Stuck(order, CellAt(a, 0), CellAt(b, 0))
    ensures !Tied(a, b, order)
  {
  }

  lemma KeyPageRepeats(order: SortOrder, a: Hit, b: Hit, hits: seq<Hit>, cursor: Option<Hit>)
    requires Stuck(order, CellAt(a, 0), CellAt(b, 0)) && (hits == [a, b] || hits == [b, a])
    requires cursor == None || cursor == Some(a)
    ensures KeyPage(order, 1, [hits], cursor) == [a]
  {
    hide KeysetAfter, Stuck, WindowedPage, StorePage, Beyond, CmpCell;
    BothSelected(order, a, b);
    BeyondOfTwo(cursor, [order], hits[0], hits[1]);
    assert hits == [hits[0], hits[1]];
    FirstOfTwo(order, a, b);
    PageOfOne(order, hits, a);
    assert BeyondAll(cursor, [order], [hits]) == [hits];
  }

  lemma {:induction false} FollowsItself(page: Option<Hit> -> seq<Hit>, a: Hit, cursor: Option<Hit>, m: nat)
    requires page(cursor) == [a] == page(Some(a))
    ensures Follow(1, page, cursor, m) == Copies(a, m)
    decreases m
  {
    if m > 0 { FollowsItself(page, a, Some(a), m - 1); }
  }

  /** One past 2^53, sorted upwards, and three past it, sorted downwards: an input each on which a scroll never ends. */
  lemma ScrollPast2To53(low: Bytes, high: Bytes, m: nat)
    ensures var a, b := Hit([Long(TWO_53 + 1)], low), Hit([Long(TWO_53 + 4)], high);
            KeyScroll(Asc, 1, [[a, b]], m) == Copies(a, m) && !Tied(a, b, Asc)
    ensures var a, b := Hit([Long(TWO_53 + 3)], low), Hit([Long(TWO_53)], high);
            KeyScroll(Desc, 1, [[a, b]], m) == Copies(a, m) && !Tied(a, b, Desc)
  {
    hide Round, KeyScroll, Tied, Back;
    FirstRounded();
    TripReadsTheSame(TWO_53 + 1);
    TripReadsTheSame(TWO_53 + 3);
    RoundedReads();
    var a, b := Hit([Long(TWO_53 + 1)], low), Hit([Long(TWO_53 + 4)], high);
    RoundedScrollRepeats(Asc, a, b, [a, b], m);
    var c, d := Hit([Long(TWO_53 + 3)], low), Hit([Long(TWO_53)], high);
    RoundedScrollRepeats(Desc, c, d, [c, d], m);
  }

  lemma RoundedReads()
    ensures Round(TWO_53) == TWO_53 == Round(TWO_53 + 1) && Round(TWO_53 + 3) == TWO_53 + 4 == Round(TWO_53 + 4)
  {
    SmallIsExact(TWO_53);
    FirstRounded();
  }

  /**
   Two hits that store one number the cursor moves towards the end: after the
   first nothing is selected, and the second is lost in the address order that
   favours it most.
   */
  lemma MovedOnHitIsLost(order: SortOrder, v: Cell, low: Bytes, high: Bytes, m: nat)
    requires v.Long? && !Survives(v) && !MovedBack(v, order) && CmpBytes(low, high) == Less && m > 0
    ensures var a, b := Hit([v], low), Hit([v], high);
            KeyScroll(order, 1, [[a, b]], m) == [a] && CmpHits(a, b, [order]) == Less
  {
    hide KeysetAfter, Round, Trip, CmpBytes, WindowedPage, StorePage, Beyond;
    var a, b, orders := Hit([v], low), Hit([v], high), [order];
    assert orders[0] == order && CellAt(a, 0) == v == CellAt(b, 0);
    assert Plain(a, orders) && Plain(b, orders) && SameKinds(a, a, orders) && SameKinds(b, a, orders);
    KeysetOfOne(a, a, order);
    KeysetOfOne(b, a, order);
    BeyondAllOrNone(Some(a), orders, [a, b]);
    BeyondAllOrNone(None, orders, [a, b]);
    assert BeyondAll(None, orders, [[a, b]]) == [[a, b]] && BeyondAll(Some(a), orders, [[a, b]]) == [[]];
    FirstOfLevel(order, a, b);
    PageOfOne(order, [a, b], a);
    PageOfNone(order);
    var page := cursor => KeyPage(order, 1, [[a, b]], cursor);
    assert page(None) == [a] && page(Some(a)) == [];
    FollowsOnce(page, a, m);
    assert CmpFrom(a, b, orders, 1) == Less;
  }

  lemma FollowsOnce(page: Option<Hit> -> seq<Hit>, a: Hit, m: nat)
    requires page(None) == [a] && page(Some(a)) == [] && m > 0
    ensures Follow(1, page, None, m) == [a]
  {
    assert m > 1 ==> Follow(1, page, Some(a), m - 1) == [];
  }

  /** Of two hits level on the stored key the one at the lower address is the page of one. */
  lemma FirstOfLevel(order: SortOrder, a: Hit, b: Hit)
    requires CmpCell(CellAt(a, 0), CellAt(b, 0), order) == Equal
    ensures StorePage(order, 1, [a, b]) == [a]
  {
    hide Ranking, CmpCell, Sort;
    SortOfTwo(ByValue(order), a, b);
    assert Take(1, [a, b]) == [a];
    SortOfOne(Ranking([order]), a);
  }

  /**
   2^53 and one past it read the same, so the smaller key ranks first; the
   collector tells them apart, and in either address order the page of one is the
   other hit.
   */
  lemma FloatTieMisleads(low: Bytes, high: Bytes)
    requires CmpBytes(low, high) == Less
    ensures var a, b := Hit([Long(TWO_53 + 1)], low), Hit([Long(TWO_53)], high);
            && StorePage(Asc, 1, [a, b]) == [b] == StorePage(Asc, 1, [b, a])
            && ShardPage([Asc], 1, [a, b]) == [a]
  {
    hide Round, CmpBytes, Sort, StorePage;
    RoundedReads();
    var a, b := Hit([Long(TWO_53 + 1)], low), Hit([Long(TWO_53)], high);
    assert [Asc][0] == Asc && CellAt(a, 0) == Long(TWO_53 + 1) && CellAt(b, 0) == Long(TWO_53);
    FirstOfTwo(Asc, b, a);
    assert CmpFrom(a, b, [Asc], 1) == Less;
    SortOfTwo(Ranking([Asc]), a, b);
    assert Take(1, [a, b]) == [a];
  }

  // ----------------------------------------------------------------------- ties

  /**
   Two hits level on the sort key, the one with the greater key at the lower
   address, pages of one: the first page holds the greater key, nothing is left
   after its cursor, and the other hit is never returned.
   */
  lemma TiedHitIsSkipped(order: SortOrder, v: Cell, low: Bytes, high: Bytes)
    requires Read(v) != Num(NaN) && Survives(v) && CmpBytes(low, high) == Less
    ensures var a, b := Hit([v], low), Hit([v], high);
            && StorePage(order, 1, [b, a]) == [b]
            && Beyond(Some(b), [order], [b, a]) == []
            && ShardPage([order], 1, [b, a]) == [a]
  {
    hide CmpHits, KeysetAfter, Sort, Beyond, CmpCell, StorePage;
    var a, b := Hit([v], low), Hit([v], high);
    TiedByKey(order, v, low, high);
    KeysetIsStrictlyAfter(a, b, [order]);
    KeysetIsStrictlyAfter(b, b, [order]);
    BeyondAllOrNone(Some(b), [order], [b, a]);
    FirstOfLevel(order, b, a);
    SortOfTwo(Ranking([order]), b, a);
    assert Take(1, [a, b]) == [a];
  }

  /** Level on the sort key, hits rank by their keys. */
  lemma TiedByKey(order: SortOrder, v: Cell, low: Bytes, high: Bytes)
    requires Read(v) != Num(NaN) && Survives(v) && CmpBytes(low, high) == Less
    ensures var a, b := Hit([v], low), Hit([v], high);
            && CmpHits(a, b, [order]) == Less && CmpHits(b, a, [order]) == Greater && CmpHits(b, b, [order]) == Equal
            && CmpCell(CellAt(b, 0), CellAt(a, 0), order) == Equal
  {
    hide CmpSortValue, CmpBytes, Read, CmpCell;
    var a, b := Hit([v], low), Hit([v], high);
    BytesCompose(low, high, low);
    BytesCompose(high, high, high);
    CmpIsAntisymmetric(Read(v), Read(v), order);
    SurvivorsCompareAlike(v, v, order);
    assert CellAt(a, 0) == v == CellAt(b, 0);
    assert CmpFrom(a, b, [order], 1) == Less && CmpFrom(b, a, [order], 1) == Greater && CmpFrom(b, b, [order], 1) == Equal;
  }
}
