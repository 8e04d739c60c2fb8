/**
 Scrolling by one sort key, over any number of shards. Every page is merged from
 the collectors' windows and every cursor carries the key as it reads, so the
 scroll follows the documented total order only under a condition on the stored
 values around its page boundaries.
 */
module WindowedScroll {
  import opened Wrappers
  import opened ObjectPrefix
  import opened LittleEndian
  import opened Rounding
  import opened Sorting
  import opened SortValues
  import opened GatewayPaging
  import opened TopWindow

  /** A page of a scroll: every shard answers from the window of what the cursor selects. */
  function KeyPage(order: SortOrder, limit: nat, shards: seq<seq<Hit>>, cursor: Option<Hit>): seq<Hit> {
    WindowedPage(order, limit, BeyondAll(cursor, [order], shards))
  }

  function KeyScroll(order: SortOrder, limit: nat, shards: seq<seq<Hit>>, m: nat): seq<Hit> {
    Follow(limit, cursor => KeyPage(order, limit, shards, cursor), None, m)
  }

  /** The total order of everything on the shards. */
  function Total(order: SortOrder, shards: seq<seq<Hit>>): seq<Hit> {
    Merged([order], Flatten(shards))
  }

  // ------------------------------------------------- address orders, before and after a cursor

  function Unselected(cursor: Option<Hit>, orders: seq<SortOrder>, xs: seq<Hit>): seq<Hit> {
    if xs == [] then []
    else if cursor.None? || KeysetAfter(xs[0], cursor.value, orders) then Unselected(cursor, orders, xs[1..])
    else [xs[0]] + Unselected(cursor, orders, xs[1..])
  }

  lemma {:induction false} Partitioned(cursor: Option<Hit>, orders: seq<SortOrder>, xs: seq<Hit>)
    ensures multiset(Beyond(cursor, orders, xs)) + multiset(Unselected(cursor, orders, xs)) == multiset(xs)
    ensures forall h :: h in Unselected(cursor, orders, xs) ==> cursor.Some? && !KeysetAfter(h, cursor.value, orders)
  {
    hide KeysetAfter;
    if xs != [] {
      assert xs == [xs[0]] + xs[1..];
      Partitioned(cursor, orders, xs[1..]);
    }
  }

  lemma {:induction false} BeyondConcat(cursor: Option<Hit>, orders: seq<SortOrder>, a: seq<Hit>, b: seq<Hit>)
    ensures Beyond(cursor, orders, a + b) == Beyond(cursor, orders, a) + Beyond(cursor, orders, b)
    decreases |a|
  {
    hide KeysetAfter;
    if a == [] {
      assert a + b == b;
    } else {
      assert (a + b)[1..] == a[1..] + b;
      BeyondConcat(cursor, orders, a[1..], b);
    }
  }

  /** A list every hit of which is after the cursor is selected whole, and one no hit of which is, not at all. */
  lemma {:induction false} BeyondAllOrNone(cursor: Option<Hit>, orders: seq<SortOrder>, xs: seq<Hit>)
    ensures (forall h :: h in xs ==> cursor.None? || KeysetAfter(h, cursor.value, orders)) ==> Beyond(cursor, orders, xs) == xs
    ensures cursor.Some? && (forall h :: h in xs ==> !KeysetAfter(h, cursor.value, orders)) ==> Beyond(cursor, orders, xs) == []
    decreases |xs|
  {
    hide KeysetAfter;
    if xs != [] {
      BeyondAllOrNone(cursor, orders, xs[1..]);
      assert xs[0] in xs && xs == [xs[0]] + xs[1..];
    }
  }

  /** How often the cursor's selection holds a hit. */
  lemma {:induction false} BeyondCounts(cursor: Option<Hit>, orders: seq<SortOrder>, xs: seq<Hit>, h: Hit)
    ensures multiset(Beyond(cursor, orders, xs))[h]
            == if cursor.None? || KeysetAfter(h, cursor.value, orders) then multiset(xs)[h] else 0
  {
    hide KeysetAfter;
    if xs != [] {
      assert xs == [xs[0]] + xs[1..];
      BeyondCounts(cursor, orders, xs[1..], h);
    }
  }

  /** The selections from two address orders are two address orders of one selection. */
  lemma BeyondShuffled(cursor: Option<Hit>, orders: seq<SortOrder>, others: seq<seq<Hit>>, shards: seq<seq<Hit>>)
    requires Shuffled(others, shards)
    ensures Shuffled(BeyondAll(cursor, orders, others), BeyondAll(cursor, orders, shards))
  {
    hide KeysetAfter, Beyond;
    forall k | 0 <= k < |shards|
      ensures multiset(Beyond(cursor, orders, others[k])) == multiset(Beyond(cursor, orders, shards[k]))
    {
      forall h ensures multiset(Beyond(cursor, orders, others[k]))[h] == multiset(Beyond(cursor, orders, shards[k]))[h] {
        BeyondCounts(cursor, orders, others[k], h);
        BeyondCounts(cursor, orders, shards[k], h);
      }
    }
  }

  function Lifted(cursor: Option<Hit>, orders: seq<SortOrder>, rest: seq<seq<Hit>>, shards: seq<seq<Hit>>): (r: seq<seq<Hit>>)
    requires |rest| == |shards|
    ensures |r| == |shards|
  {
    seq(|shards|, k requires 0 <= k < |shards| => rest[k] + Unselected(cursor, orders, shards[k]))
  }

  /** Every address order of the selection comes from one of the shards. */
  lemma LiftedSelects(cursor: Option<Hit>, orders: seq<SortOrder>, rest: seq<seq<Hit>>, shards: seq<seq<Hit>>)
    requires Shuffled(rest, BeyondAll(cursor, orders, shards))
    ensures var others := Lifted(cursor, orders, rest, shards);
            Shuffled(others, shards) && BeyondAll(cursor, orders, others) == rest
  {
    hide KeysetAfter, Beyond, Unselected;
    var others := Lifted(cursor, orders, rest, shards);
    forall k | 0 <= k < |shards|
      ensures multiset(others[k]) == multiset(shards[k]) && Beyond(cursor, orders, others[k]) == rest[k]
    {
      LiftedOne(cursor, orders, rest[k], shards[k]);
    }
  }

  lemma LiftedOne(cursor: Option<Hit>, orders: seq<SortOrder>, rest: seq<Hit>, xs: seq<Hit>)
    requires multiset(rest) == multiset(Beyond(cursor, orders, xs))
    ensures multiset(rest + Unselected(cursor, orders, xs)) == multiset(xs)
    ensures Beyond(cursor, orders, rest + Unselected(cursor, orders, xs)) == rest
  {
    hide KeysetAfter, Beyond, Unselected;
    var dropped := Unselected(cursor, orders, xs);
    Partitioned(cursor, orders, xs);
    SameMultisetSameElements(rest, Beyond(cursor, orders, xs));
    BeyondElements(cursor, orders, xs);
    BeyondConcat(cursor, orders, rest, dropped);
    BeyondAllOrNone(cursor, orders, rest);
    BeyondAllOrNone(cursor, orders, dropped);
    if dropped != [] { assert dropped[0] in dropped; }
    assert rest + [] == rest;
  }

  // --------------------------------------------------------------- the general theorem

  /** The condition for the page after the first `p` hits, on what its cursor selects. */
  ghost predicate OkAt(order: SortOrder, limit: nat, shards: seq<seq<Hit>>, all: seq<Hit>, p: nat) {
    p <= |all| ==> PageOk(order, limit, BeyondAll(CursorAt(all, p), [order], shards), Take(limit, all[p..]))
  }

  lemma FleetIsCluster(order: SortOrder, shards: seq<seq<Hit>>, s: set<Hit>)
    requires Fleet(order, shards, s)
    ensures Cluster([order], shards, s)
  {
  }

  lemma TotalIsStrict(order: SortOrder, shards: seq<seq<Hit>>, s: set<Hit>)
    requires Fleet(order, shards, s)
    ensures var all := Total(order, shards);
            && Strict(Ranking([order]), all) && Within(all, s) && SameElements(all, Flatten(shards))
  {
    hide Merged, Ranking;
    FlattenWithin(shards, s);
    MergedIsStrict([order], Flatten(shards), s);
  }

  lemma BeyondFleet(order: SortOrder, shards: seq<seq<Hit>>, cursor: Option<Hit>, s: set<Hit>)
    requires Fleet(order, shards, s)
    ensures Fleet(order, BeyondAll(cursor, [order], shards), s)
  {
    hide KeysetAfter;
    FleetIsCluster(order, shards, s);
    BeyondKeepsCluster([order], shards, cursor, s);
  }

  /** The page after the first `p` hits is right in every address order exactly when the condition holds there. */
  lemma KeyPageIff(order: SortOrder, limit: nat, shards: seq<seq<Hit>>, all: seq<Hit>, p: nat, s: set<Hit>)
    requires Fleet(order, shards, s) && Strict(Ranking([order]), all) && Within(all, s) && p <= |all|
    ensures (forall others :: Shuffled(others, shards) ==> KeyPage(order, limit, others, CursorAt(all, p)) == Take(limit, all[p..]))
            <==> OkAt(order, limit, shards, all, p)
  {
    hide Ranking, WindowedPage, PageOk, BeyondAll, Shuffled, Take, Fleet;
    var cursor, want := CursorAt(all, p), Take(limit, all[p..]);
    var chosen := BeyondAll(cursor, [order], shards);
    BeyondFleet(order, shards, cursor, s);
    StrictDrop(Ranking([order]), all, p);
    StrictTake(Ranking([order]), limit, all[p..]);
    WithinStretch(all, p, limit, s);
    PageIsRightIff(order, limit, chosen, want, s);
    if PageOk(order, limit, chosen, want) {
      forall others | Shuffled(others, shards) ensures KeyPage(order, limit, others, cursor) == want {
        BeyondShuffled(cursor, [order], others, shards);
      }
    } else {
      var rest :| Shuffled(rest, chosen) && WindowedPage(order, limit, rest) != want;
      LiftedSelects(cursor, [order], rest, shards);
      ShuffledLength(rest, shards, cursor, [order]);
      var others := Lifted(cursor, [order], rest, shards);
      assert Shuffled(others, shards) && KeyPage(order, limit, others, cursor) != want;
    }
  }

  lemma ShuffledLength(rest: seq<seq<Hit>>, shards: seq<seq<Hit>>, cursor: Option<Hit>, orders: seq<SortOrder>)
    requires Shuffled(rest, BeyondAll(cursor, orders, shards))
    ensures |rest| == |shards|
  {
  }

  lemma KeyPageFits(order: SortOrder, limit: nat, shards: seq<seq<Hit>>, cursor: Option<Hit>)
    ensures |KeyPage(order, limit, shards, cursor)| <= limit
  {
    hide Merged;
  }

  /** The `j`-th page of the scroll over some address order. */
  predicate RightAt(order: SortOrder, limit: nat, others: seq<seq<Hit>>, all: seq<Hit>, p: nat) {
    p <= |all| ==> KeyPage(order, limit, others, CursorAt(all, p)) == Take(limit, all[p..])
  }

  lemma OkAtIff(order: SortOrder, limit: nat, shards: seq<seq<Hit>>, all: seq<Hit>, p: nat, s: set<Hit>)
    requires Fleet(order, shards, s) && Strict(Ranking([order]), all) && Within(all, s)
    ensures (forall others :: Shuffled(others, shards) ==> RightAt(order, limit, others, all, p)) <==> OkAt(order, limit, shards, all, p)
  {
    hide KeyPage, PageOk, Fleet, Strict, Within, Shuffled, Take;
    if p <= |all| { KeyPageIff(order, limit, shards, all, p, s); }
  }

  lemma KeyScrollRight(order: SortOrder, limit: nat, others: seq<seq<Hit>>, all: seq<Hit>, m: nat)
    requires limit > 0
    ensures KeyScroll(order, limit, others, m) == Take(m * limit, all)
            <==> forall j :: 0 <= j < m ==> RightAt(order, limit, others, all, j * limit)
  {
    hide KeyPage, Take, Follow;
    var page := cursor => KeyPage(order, limit, others, cursor);
    forall c ensures |page(c)| <= limit { KeyPageFits(order, limit, others, c); }
    FollowIff(limit, page, all, m);
    forall p: nat ensures PageRight(limit, page, all, p) <==> RightAt(order, limit, others, all, p) {}
    forall j | 0 <= j < m ensures PageRight(limit, page, all, j * limit) <==> RightAt(order, limit, others, all, j * limit) {}
  }

  /**
   Scrolling by one key over any number of shards: for every address order of
   the shards' hits, `m` pages are the first `m * limit` hits of the total order,
   if and only if at each of the `m` positions every hit of the page to come is
   secured among what its cursor selects, and whatever else selected can get into
   a window ranks after a full page.
   */
  lemma KeyScrollIsExactIff(order: SortOrder, limit: nat, m: nat, shards: seq<seq<Hit>>, s: set<Hit>)
    requires Fleet(order, shards, s) && limit > 0
    ensures var all := Total(order, shards);
            (forall others :: Shuffled(others, shards) ==> KeyScroll(order, limit, others, m) == Take(m * limit, all))
            <==> forall j :: 0 <= j < m ==> OkAt(order, limit, shards, all, j * limit)
  {
    hide KeyScroll, Total, RightAt, OkAt, Take, Fleet, Shuffled, Ranking;
    var all := Total(order, shards);
    TotalIsStrict(order, shards, s);
    forall others ensures KeyScroll(order, limit, others, m) == Take(m * limit, all)
                          <==> forall j :: 0 <= j < m ==> RightAt(order, limit, others, all, j * limit)
    {
      KeyScrollRight(order, limit, others, all, m);
    }
    if forall others :: Shuffled(others, shards) ==> KeyScroll(order, limit, others, m) == Take(m * limit, all) {
      forall j | 0 <= j < m ensures OkAt(order, limit, shards, all, j * limit) {
        OkAtIff(order, limit, shards, all, j * limit, s);
      }
    }
    if forall j :: 0 <= j < m ==> OkAt(order, limit, shards, all, j * limit) {
      forall others | Shuffled(others, shards) ensures KeyScroll(order, limit, others, m) == Take(m * limit, all) {
        forall j | 0 <= j < m ensures RightAt(order, limit, others, all, j * limit) {
          OkAtIff(order, limit, shards, all, j * limit, s);
        }
      }
    }
  }

  // ------------------------------------------------------- columns that survive a cursor

  /** In some shard fewer than `limit` of the other hits still to come are level with the hit or before it. */
  ghost predicate Uncrowded(order: SortOrder, limit: nat, shards: seq<seq<Hit>>, rest: seq<Hit>, h: Hit) {
    exists k :: 0 <= k < |shards| && h in shards[k] && |Level(ByValue(order), shards[k], h) * Elements(rest)| < limit
  }

  /** What the cursor at `p` selects from a shard, where values survive. */
  lemma SurvivorsSelected(order: SortOrder, shards: seq<seq<Hit>>, p: nat, k: nat, s: set<Hit>)
    requires Fleet(order, shards, s) && Surviving(s, [order]) && p <= |Total(order, shards)| && k < |shards|
    ensures var all := Total(order, shards);
            forall h :: h in Beyond(CursorAt(all, p), [order], shards[k]) <==> h in shards[k] && h in all[p..]
  {
    hide Merged, Ranking, KeysetAfter, Beyond;
    var all := Total(order, shards);
    TotalIsStrict(order, shards, s);
    BeyondElements(CursorAt(all, p), [order], shards[k]);
    forall h | h in shards[k] ensures h in all[p..] <==> p == 0 || KeysetAfter(h, all[p - 1], [order]) {
      InFlatten(shards, h);
      var i :| 0 <= i < |all| && all[i] == h;
      if p > 0 { AfterPosition([order], all, p, i, s); }
      InSuffix(all, p, i);
    }
  }

  lemma InSuffix(all: seq<Hit>, p: nat, i: nat)
    requires p <= |all| && i < |all| && forall j, k :: 0 <= j < k < |all| ==> all[j] != all[k]
    ensures all[i] in all[p..] <==> p <= i
  {
    if p <= i { assert all[p..][i - p] == all[i]; }
  }

  /** Where values survive, the condition at `p` is that no hit of the page is crowded out of its shards. */
  lemma OkIsUncrowded(order: SortOrder, limit: nat, shards: seq<seq<Hit>>, p: nat, s: set<Hit>)
    requires Fleet(order, shards, s) && Surviving(s, [order]) && p <= |Total(order, shards)|
    ensures var all := Total(order, shards);
            OkAt(order, limit, shards, all, p)
            <==> forall h :: h in Take(limit, all[p..]) ==> Uncrowded(order, limit, shards, all[p..], h)
  {
    hide Total, Ranking, ByValue, Beyond, Beaten, Fleet, Take;
    var all := Total(order, shards);
    var rest, want := all[p..], Take(limit, all[p..]);
    var chosen := BeyondAll(CursorAt(all, p), [order], shards);
    TotalIsStrict(order, shards, s);
    forall k | 0 <= k < |shards| ensures forall h :: h in chosen[k] <==> h in shards[k] && h in rest {
      SurvivorsSelected(order, shards, p, k, s);
    }
    forall h | h in want ensures Secured(order, limit, chosen, h) <==> Uncrowded(order, limit, shards, rest, h) {
      TakeIsFrom(limit, rest, h);
      forall k | 0 <= k < |shards| && h in shards[k]
        ensures Level(ByValue(order), chosen[k], h) == Level(ByValue(order), shards[k], h) * Elements(rest)
      {
      }
      if Uncrowded(order, limit, shards, rest, h) {
        var k :| 0 <= k < |shards| && h in shards[k] && |Level(ByValue(order), shards[k], h) * Elements(rest)| < limit;
        assert Sure(order, limit, chosen[k], h);
      }
    }
    StrictDrop(Ranking([order]), all, p);
    forall h | h in rest && h !in want ensures Beaten(Ranking([order]), limit, want, h) {
      BeatenByHead(Ranking([order]), limit, rest, h);
    }
  }

  lemma TakeIsFrom(n: nat, xs: seq<Hit>, h: Hit)
    requires h in Take(n, xs)
    ensures h in xs
  {
  }

  /** Nobody on the page after the first `p` hits is crowded out. */
  ghost predicate RoomAt(order: SortOrder, limit: nat, shards: seq<seq<Hit>>, all: seq<Hit>, p: nat) {
    p <= |all| ==> forall h :: h in Take(limit, all[p..]) ==> Uncrowded(order, limit, shards, all[p..], h)
  }

  /**
   Where values survive, the scroll over many shards is exact for every address
   order if and only if each hit, when its page is due, has in some shard fewer
   than `limit` hits still to come that are level with it or before it.
   */
  lemma ManyShardsExactIff(order: SortOrder, limit: nat, m: nat, shards: seq<seq<Hit>>, s: set<Hit>)
    requires Fleet(order, shards, s) && Surviving(s, [order]) && limit > 0
    ensures var all := Total(order, shards);
            (forall others :: Shuffled(others, shards) ==> KeyScroll(order, limit, others, m) == Take(m * limit, all))
            <==> forall j :: 0 <= j < m ==> RoomAt(order, limit, shards, all, j * limit)
  {
    hide KeyScroll, Total, Take, Fleet, Shuffled, PageOk, Uncrowded;
    var all := Total(order, shards);
    KeyScrollIsExactIff(order, limit, m, shards, s);
    forall p: nat ensures OkAt(order, limit, shards, all, p) <==> RoomAt(order, limit, shards, all, p) {
      if p <= |all| { OkIsUncrowded(order, limit, shards, p, s); }
    }
  }

  // ------------------------------------------------------------------- one shard

  predicate Tied(a: Hit, b: Hit, order: SortOrder) {
    CmpSortValue(ValueAt(a, 0), ValueAt(b, 0), order) == Equal
  }

  /** The `j`-th page boundary falls between hits that differ on the sort key, or past the end. */
  predicate CleanCut(order: SortOrder, limit: nat, all: seq<Hit>, j: nat) {
    0 < j * limit < |all| ==> !Tied(all[j * limit - 1], all[j * limit], order)
  }

  /** Where values survive, ranked hits are sorted as the collector sorts them, and a tie is a tie in both orders. */
  lemma RankedIsByValue(order: SortOrder, a: Hit, b: Hit)
    requires Plain(a, [order]) && Plain(b, [order]) && SameKinds(a, b, [order]) && AllSurvive(a, [order]) && AllSurvive(b, [order])
    ensures Ranking([order])(a, b) ==> ByValue(order)(a, b)
    ensures Ranking([order])(a, b) ==> (ByValue(order)(b, a) <==> Tied(a, b, order))
  {
    hide CmpCell, CmpSortValue, Read, Survives;
    assert [order][0] == order;
    SurvivorsCompareAlike(CellAt(a, 0), CellAt(b, 0), order);
    SurvivorsCompareAlike(CellAt(b, 0), CellAt(a, 0), order);
    CmpIsAntisymmetric(ValueAt(a, 0), ValueAt(b, 0), order);
    assert CmpHits(a, b, [order]) != Greater ==> CmpSortValue(ValueAt(a, 0), ValueAt(b, 0), order) != Greater;
  }

  /** Where values survive, something crosses a cut exactly when the hits on either side of it are tied. */
  lemma CrossesIsTie(order: SortOrder, n: nat, ranked: seq<Hit>, s: set<Hit>)
    requires Column(order, s) && Surviving(s, [order]) && Within(ranked, s) && Strict(Ranking([order]), ranked)
    ensures Crosses(order, n, ranked) <==> 0 < n < |ranked| && Tied(ranked[n - 1], ranked[n], order)
  {
    hide ByValue, Ranking, Tied;
    var bv := ByValue(order);
    CollectorIsPreorder(order, s);
    forall i, j | 0 <= i < j < |ranked|
      ensures bv(ranked[i], ranked[j]) && (bv(ranked[j], ranked[i]) <==> Tied(ranked[i], ranked[j], order))
    {
      RankedIsByValue(order, ranked[i], ranked[j]);
    }
    if 0 < n < |ranked| {
      assert Crosses(order, n, ranked) <==> bv(ranked[n], ranked[n - 1]) by { CrossesAtCut(bv, n, ranked, s, order); }
    }
  }

  lemma CrossesAtCut(bv: (Hit, Hit) -> bool, n: nat, ranked: seq<Hit>, s: set<Hit>, order: SortOrder)
    requires Preorder(bv, s) && Within(ranked, s) && Sorted(bv, ranked) && 0 < n < |ranked| && bv == ByValue(order)
    ensures Crosses(order, n, ranked) <==> bv(ranked[n], ranked[n - 1])
  {
    hide ByValue;
    if Crosses(order, n, ranked) {
      var i, j :| 0 <= i < n <= j < |ranked| && bv(ranked[j], ranked[i]);
      assert bv(ranked[i], ranked[n - 1]) && bv(ranked[n], ranked[j]);
      assert bv(ranked[n], ranked[i]);
    }
  }

  /** One shard: the condition at `p` is that the cut at `p + limit` is clean. */
  lemma OkIsClean(order: SortOrder, limit: nat, hits: seq<Hit>, all: seq<Hit>, p: nat, s: set<Hit>)
    requires Shard(order, hits, s) && Surviving(s, [order]) && all == Total(order, [hits]) && limit > 0
    ensures OkAt(order, limit, [hits], all, p)
            <==> (p + limit < |all| ==> !Tied(all[p + limit - 1], all[p + limit], order))
  {
    hide Total, Ranking, PageOk, Tied, Crosses, Beyond;
    if p <= |all| {
      var shards, rest := [hits], all[p..];
      OneFleet(order, hits, s);
      TotalIsStrict(order, shards, s);
      SurvivorsSelected(order, shards, p, 0, s);
      var chosen := Beyond(CursorAt(all, p), [order], hits);
      assert BeyondAll(CursorAt(all, p), [order], shards) == [chosen];
      StrictDrop(Ranking([order]), all, p);
      forall h ensures h in rest <==> h in chosen {
        if h in rest { TotalOfOne(order, hits, all, p, h, s); }
      }
      OkIsUncrossed(order, limit, chosen, rest, s);
      CrossesIsTie(order, limit, rest, s);
      if p + limit < |all| { assert rest[limit - 1] == all[p + limit - 1] && rest[limit] == all[p + limit]; }
    }
  }

  lemma OneFleet(order: SortOrder, hits: seq<Hit>, s: set<Hit>)
    requires Shard(order, hits, s)
    ensures Fleet(order, [hits], s)
  {
  }

  lemma TotalOfOne(order: SortOrder, hits: seq<Hit>, all: seq<Hit>, p: nat, h: Hit, s: set<Hit>)
    requires Shard(order, hits, s) && all == Total(order, [hits]) && p <= |all| && h in all[p..]
    ensures h in hits
  {
    hide Total;
    OneFleet(order, hits, s);
    TotalIsStrict(order, [hits], s);
    assert h in all;
    InFlatten([hits], h);
  }

  /**
   Where values survive, `m` pages of a scroll over one shard are the first
   `m * limit` hits of the total order for every address order of its hits, if
   and only if no tie on the key lies across any of the `m` page boundaries.
   */
  lemma ScrollIsExactIff(order: SortOrder, limit: nat, m: nat, hits: seq<Hit>, s: set<Hit>)
    requires Shard(order, hits, s) && Surviving(s, [order]) && limit > 0
    ensures var all := Total(order, [hits]);
            (forall other :: multiset(other) == multiset(hits) ==> KeyScroll(order, limit, [other], m) == Take(m * limit, all))
            <==> forall j :: 1 <= j <= m ==> CleanCut(order, limit, all, j)
  {
    hide KeyScroll, Total, Take, Shard, OkAt, Tied;
    var all := Total(order, [hits]);
    OneFleet(order, hits, s);
    KeyScrollIsExactIff(order, limit, m, [hits], s);
    forall j: nat ensures OkAt(order, limit, [hits], all, j * limit) <==> CleanCut(order, limit, all, j + 1) {
      assert (j + 1) * limit == j * limit + limit;
      OkIsClean(order, limit, hits, all, j * limit, s);
    }
    assert (forall j :: 0 <= j < m ==> OkAt(order, limit, [hits], all, j * limit))
           <==> forall j :: 1 <= j <= m ==> CleanCut(order, limit, all, j) by { CutsShift(order, limit, hits, all, m); }
    OneShuffled(hits);
    forall other | multiset(other) == multiset(hits) ensures Shuffled([other], [hits]) {}
  }

  lemma CutsShift(order: SortOrder, limit: nat, hits: seq<Hit>, all: seq<Hit>, m: nat)
    requires forall j: nat :: OkAt(order, limit, [hits], all, j * limit) <==> CleanCut(order, limit, all, j + 1)
    ensures (forall j :: 0 <= j < m ==> OkAt(order, limit, [hits], all, j * limit))
            <==> forall j :: 1 <= j <= m ==> CleanCut(order, limit, all, j)
  {
    hide OkAt, CleanCut;
    if forall j :: 0 <= j < m ==> OkAt(order, limit, [hits], all, j * limit) {
      forall j | 1 <= j <= m ensures CleanCut(order, limit, all, j) {
        assert OkAt(order, limit, [hits], all, (j - 1) * limit);
      }
    }
    if forall j :: 1 <= j <= m ==> CleanCut(order, limit, all, j) {
      forall j | 0 <= j < m ensures OkAt(order, limit, [hits], all, j * limit) {
        assert CleanCut(order, limit, all, j + 1);
      }
    }
  }
}
