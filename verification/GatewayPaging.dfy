/**
 Scatter and gather: each shard answers with the head of its own ranking, the
 gateway merges, drops repeats and cuts the page. The page is the one a single
 index over all the hits would give, and following cursors visits them all.
 */
module GatewayPaging {
  import opened Wrappers
  import opened ObjectPrefix
  import opened LittleEndian
  import opened Sorting
  import opened SortValues

  function Flatten(lists: seq<seq<Hit>>): seq<Hit> {
    if lists == [] then [] else lists[0] + Flatten(lists[1..])
  }

  /** Keep the first hit of each key. */
  function Dedupe(xs: seq<Hit>, seen: set<Bytes>): seq<Hit> {
    if xs == [] then []
    else if xs[0].key in seen then Dedupe(xs[1..], seen)
    else [xs[0]] + Dedupe(xs[1..], seen + {xs[0].key})
  }

  /** What the gateway makes of the hits it gathered, before it cuts the page. */
  function Merged(orders: seq<SortOrder>, hits: seq<Hit>): seq<Hit> {
    Dedupe(Sort(Ranking(orders), hits), {})
  }

  function Window(offset: nat, limit: nat, xs: seq<Hit>): seq<Hit> {
    Take(limit, xs[if offset < |xs| then offset else |xs|..])
  }

  /** The depth each shard is asked for: nothing for an empty page, else enough to cover it, in 32 bits. */
  function ShardLimit(offset: nat, limit: nat): nat {
    if limit == 0 then 0 else if offset + limit < TWO_32 then offset + limit else TWO_32 - 1
  }

  function ShardPage(orders: seq<SortOrder>, limit: nat, hits: seq<Hit>): seq<Hit> {
    Take(limit, Sort(Ranking(orders), hits))
  }

  function ShardPages(orders: seq<SortOrder>, limit: nat, shards: seq<seq<Hit>>): seq<seq<Hit>> {
    seq(|shards|, i requires 0 <= i < |shards| => ShardPage(orders, limit, shards[i]))
  }

  /** The hits of each shard are plain and named once there; a hit on two shards is the same hit. */
  ghost predicate Cluster(orders: seq<SortOrder>, shards: seq<seq<Hit>>, s: set<Hit>) {
    && Keyed(s) && (forall h :: h in s ==> Plain(h, orders))
    && (forall i :: 0 <= i < |shards| ==> Within(shards[i], s) && Once(shards[i]))
  }

  ghost predicate Once(xs: seq<Hit>) {
    forall i, j :: 0 <= i < j < |xs| ==> xs[i] != xs[j]
  }

  // ------------------------------------------------------------------ one merge

  lemma {:induction false} DedupeElements(xs: seq<Hit>, seen: set<Bytes>, s: set<Hit>)
    requires Keyed(s) && Within(xs, s)
    ensures forall h :: h in Dedupe(xs, seen) <==> h in xs && h.key !in seen
  {
    if xs != [] {
      assert xs == [xs[0]] + xs[1..];
      if xs[0].key in seen {
        DedupeElements(xs[1..], seen, s);
      } else {
        DedupeElements(xs[1..], seen + {xs[0].key}, s);
        forall h | h in xs && h.key == xs[0].key ensures h == xs[0] {}
      }
    }
  }

  lemma {:induction false} DedupeIsStrict(le: (Hit, Hit) -> bool, xs: seq<Hit>, seen: set<Bytes>, s: set<Hit>)
    requires Keyed(s) && Within(xs, s) && Sorted(le, xs)
    ensures Strict(le, Dedupe(xs, seen))
  {
    if xs != [] {
      assert xs == [xs[0]] + xs[1..];
      if xs[0].key in seen {
        DedupeIsStrict(le, xs[1..], seen, s);
      } else {
        var rest := Dedupe(xs[1..], seen + {xs[0].key});
        DedupeIsStrict(le, xs[1..], seen + {xs[0].key}, s);
        DedupeElements(xs[1..], seen + {xs[0].key}, s);
        forall y | y in rest ensures le(xs[0], y) && xs[0] != y {
          var j :| 0 <= j < |xs| - 1 && xs[1..][j] == y;
          assert le(xs[0], xs[j + 1]);
        }
        Consed(le, xs[0], rest);
      }
    }
  }

  /** Some hit of the list before position `i` has its key. */
  predicate SeenBefore(xs: seq<Hit>, i: nat)
    requires i < |xs|
  {
    exists j :: 0 <= j < i && xs[j].key == xs[i].key
  }

  /** The hits kept are those whose key is new at their place: of several copies, even unequal ones, the best ranked. */
  lemma {:induction false} DedupeKeepsFirst(xs: seq<Hit>, n: nat)
    requires n <= |xs|
    ensures Dedupe(xs[..n], {}) == Firsts(xs, n)
    decreases n
  {
    if n > 0 {
      DedupeKeepsFirst(xs, n - 1);
      assert xs[..n] == xs[..n - 1] + [xs[n - 1]];
      DedupeOfLast(xs[..n - 1], xs[n - 1], {});
      if xs[n - 1].key in Keys(xs[..n - 1]) {
        var j :| 0 <= j < n - 1 && xs[..n - 1][j].key == xs[n - 1].key;
        assert SeenBefore(xs, n - 1);
      }
    }
  }

  function Firsts(xs: seq<Hit>, n: nat): seq<Hit>
    requires n <= |xs|
  {
    if n == 0 then [] else Firsts(xs, n - 1) + if SeenBefore(xs, n - 1) then [] else [xs[n - 1]]
  }

  function Keys(xs: seq<Hit>): set<Bytes> {
    set i | 0 <= i < |xs| :: xs[i].key
  }

  lemma {:induction false} DedupeOfLast(xs: seq<Hit>, h: Hit, seen: set<Bytes>)
    ensures Dedupe(xs + [h], seen) == Dedupe(xs, seen) + if h.key in seen + Keys(xs) then [] else [h]
    decreases |xs|
  {
    if xs == [] {
      assert xs + [h] == [h] && [h][1..] == [] && Keys(xs) == {};
    } else {
      assert (xs + [h])[1..] == xs[1..] + [h];
      assert Keys(xs) == {xs[0].key} + Keys(xs[1..]) by { assert xs == [xs[0]] + xs[1..]; }
      DedupeOfLast(xs[1..], h, if xs[0].key in seen then seen else seen + {xs[0].key});
    }
  }

  lemma SameMultisetSameElements(a: seq<Hit>, b: seq<Hit>)
    requires multiset(a) == multiset(b)
    ensures SameElements(a, b)
  {
    forall h ensures h in a <==> h in b {
      assert h in a <==> h in multiset(a);
    }
  }

  /** Merging gives the strictly ranked list of the hits gathered. */
  lemma MergedIsStrict(orders: seq<SortOrder>, hits: seq<Hit>, s: set<Hit>)
    requires Keyed(s) && (forall h :: h in s ==> Plain(h, orders)) && Within(hits, s)
    ensures Strict(Ranking(orders), Merged(orders, hits)) && SameElements(Merged(orders, hits), hits)
    ensures Within(Merged(orders, hits), s)
  {
    var le := Ranking(orders);
    RankingIsOrder(orders, s);
    SortIsSorted(le, hits, s);
    DedupeIsStrict(le, Sort(le, hits), {}, s);
    DedupeElements(Sort(le, hits), {}, s);
    SameMultisetSameElements(Sort(le, hits), hits);
  }

  /** A list that is strictly ranked and has the same hits is what merging gives. */
  lemma MergedIs(orders: seq<SortOrder>, hits: seq<Hit>, ranked: seq<Hit>, s: set<Hit>)
    requires Keyed(s) && (forall h :: h in s ==> Plain(h, orders)) && Within(hits, s)
    requires Strict(Ranking(orders), ranked) && SameElements(ranked, hits)
    ensures Merged(orders, hits) == ranked
  {
    hide Ranking, Merged;
    RankingIsOrder(orders, s);
    MergedIsStrict(orders, hits, s);
    forall i | 0 <= i < |ranked| ensures ranked[i] in s {
      assert ranked[i] in hits;
    }
    StrictIsUnique(Ranking(orders), Merged(orders, hits), ranked, s);
  }

  lemma StrictTake(le: (Hit, Hit) -> bool, n: nat, xs: seq<Hit>)
    requires Strict(le, xs)
    ensures Strict(le, Take(n, xs)) && forall h :: h in Take(n, xs) ==> h in xs
  {
  }

  lemma OnceOfMultiset(xs: seq<Hit>, ys: seq<Hit>)
    requires Once(xs) && multiset(xs) == multiset(ys)
    ensures Once(ys)
  {
    forall i, j | 0 <= i < j < |ys| ensures ys[i] != ys[j] {
      if ys[i] == ys[j] {
        TwiceCounts(ys, i, j);
        OnceCounts(xs, ys[i]);
      }
    }
  }

  lemma TwiceCounts(ys: seq<Hit>, i: nat, j: nat)
    requires i < j < |ys| && ys[i] == ys[j]
    ensures multiset(ys)[ys[i]] >= 2
  {
    assert ys == ys[..i] + [ys[i]] + ys[i + 1..j] + [ys[j]] + ys[j + 1..];
  }

  lemma {:induction false} OnceCounts(xs: seq<Hit>, h: Hit)
    requires Once(xs)
    ensures multiset(xs)[h] <= 1
  {
    if xs != [] {
      assert xs == [xs[0]] + xs[1..];
      OnceCounts(xs[1..], h);
      if h == xs[0] { assert h !in xs[1..]; }
    }
  }

  /** A shard's ranking is strict, so it is already what merging its hits alone would give. */
  lemma ShardRanking(orders: seq<SortOrder>, hits: seq<Hit>, s: set<Hit>)
    requires Keyed(s) && (forall h :: h in s ==> Plain(h, orders)) && Within(hits, s) && Once(hits)
    ensures Sort(Ranking(orders), hits) == Merged(orders, hits)
  {
    var le := Ranking(orders);
    RankingIsOrder(orders, s);
    SortIsSorted(le, hits, s);
    OnceOfMultiset(hits, Sort(le, hits));
    SameMultisetSameElements(Sort(le, hits), hits);
    MergedIs(orders, hits, Sort(le, hits), s);
  }

  // ------------------------------------------------------------------ many shards

  lemma {:induction false} FlattenWithin(shards: seq<seq<Hit>>, s: set<Hit>)
    requires forall i :: 0 <= i < |shards| ==> Within(shards[i], s)
    ensures Within(Flatten(shards), s)
  {
    if shards != [] { FlattenWithin(shards[1..], s); }
  }

  /** Merging everything is the union of the first shard's ranking with the merge of the rest. */
  lemma MergedSplits(orders: seq<SortOrder>, shards: seq<seq<Hit>>, s: set<Hit>)
    requires Keyed(s) && (forall h :: h in s ==> Plain(h, orders)) && shards != []
    requires forall i :: 0 <= i < |shards| ==> Within(shards[i], s)
    ensures Merged(orders, Flatten(shards))
            == Union(Ranking(orders), Merged(orders, shards[0]), Merged(orders, Flatten(shards[1..])))
  {
    hide Merged, Ranking;
    var le, first, rest := Ranking(orders), Merged(orders, shards[0]), Merged(orders, Flatten(shards[1..]));
    FlattenWithin(shards, s);
    FlattenWithin(shards[1..], s);
    RankingIsOrder(orders, s);
    MergedIsStrict(orders, shards[0], s);
    MergedIsStrict(orders, Flatten(shards[1..]), s);
    UnionIsStrict(le, first, rest, s);
    UnionElements(le, first, rest);
    MergedIs(orders, Flatten(shards), Union(le, first, rest), s);
  }

  lemma ShardPageIsMerged(orders: seq<SortOrder>, p: nat, hits: seq<Hit>, s: set<Hit>)
    requires Keyed(s) && (forall h :: h in s ==> Plain(h, orders)) && Within(hits, s) && Once(hits)
    ensures Merged(orders, ShardPage(orders, p, hits)) == Take(p, Merged(orders, hits)) && Within(ShardPage(orders, p, hits), s)
  {
    hide Merged, Ranking;
    var page := ShardPage(orders, p, hits);
    ShardRanking(orders, hits, s);
    MergedIsStrict(orders, hits, s);
    StrictTake(Ranking(orders), p, Merged(orders, hits));
    MergedIs(orders, page, page, s);
  }

  /** The first `n` hits overall need no more than the first `n` of each shard. */
  lemma {:induction false} HeadsSuffice(orders: seq<SortOrder>, n: nat, p: nat, shards: seq<seq<Hit>>, s: set<Hit>)
    requires Cluster(orders, shards, s) && n <= p
    ensures Take(n, Merged(orders, Flatten(ShardPages(orders, p, shards)))) == Take(n, Merged(orders, Flatten(shards)))
    decreases |shards|
  {
    hide Merged, Ranking, Take, ShardPage;
    var pages := ShardPages(orders, p, shards);
    if shards == [] {
      assert pages == [];
    } else {
      forall i | 0 <= i < |shards| ensures Within(pages[i], s) { ShardPageIsMerged(orders, p, shards[i], s); }
      assert pages[1..] == ShardPages(orders, p, shards[1..]);
      var le, first, rest, rest' := Ranking(orders), Merged(orders, shards[0]),
                                    Merged(orders, Flatten(shards[1..])), Merged(orders, Flatten(pages[1..]));
      MergedSplits(orders, shards, s);
      MergedSplits(orders, pages, s);
      ShardPageIsMerged(orders, p, shards[0], s);
      HeadsSuffice(orders, n, p, shards[1..], s);
      CutUnions(le, n, p, first, rest, rest');
    }
  }

  lemma CutUnions(le: (Hit, Hit) -> bool, n: nat, p: nat, first: seq<Hit>, rest: seq<Hit>, rest': seq<Hit>)
    requires n <= p && Take(n, rest') == Take(n, rest)
    ensures Take(n, Union(le, Take(p, first), rest')) == Take(n, Union(le, first, rest))
  {
    hide Union;
    TakeUnion(le, n, n, first, n, rest);
    TakeUnion(le, n, n, Take(p, first), n, rest');
    assert Take(n, Take(p, first)) == Take(n, first);
  }

  lemma WindowOfHeads(offset: nat, limit: nat, xs: seq<Hit>, ys: seq<Hit>)
    requires Take(offset + limit, xs) == Take(offset + limit, ys)
    ensures Window(offset, limit, xs) == Window(offset, limit, ys)
  {
    WindowOfTake(offset, limit, xs);
    WindowOfTake(offset, limit, ys);
  }

  lemma WindowOfTake(offset: nat, limit: nat, xs: seq<Hit>)
    ensures Window(offset, limit, Take(offset + limit, xs)) == Window(offset, limit, xs)
  {
    var n := offset + limit;
    if n < |xs| {
      assert xs[..n][offset..] == xs[offset..n] == xs[offset..][..limit];
    }
  }

  /** Nothing of a shard is cut off by the 32-bit limit that the page could need. */
  predicate Reachable(offset: nat, limit: nat, shards: seq<seq<Hit>>) {
    offset + limit < TWO_32 || forall i :: 0 <= i < |shards| ==> |shards[i]| < TWO_32
  }

  /**
   The gateway's page is the page of one index holding every shard's hits: hits
   `offset` to `offset + limit` of the ranking of them all, each hit once.
   */
  lemma PageIsGlobal(orders: seq<SortOrder>, offset: nat, limit: nat, shards: seq<seq<Hit>>, s: set<Hit>)
    requires Cluster(orders, shards, s) && limit > 0 && Reachable(offset, limit, shards)
    ensures Window(offset, limit, Merged(orders, Flatten(ShardPages(orders, ShardLimit(offset, limit), shards))))
            == Window(offset, limit, Merged(orders, Flatten(shards)))
  {
    hide Merged, Window;
    var n, p := offset + limit, ShardLimit(offset, limit);
    if p < n {
      forall i | 0 <= i < |shards| ensures ShardPage(orders, p, shards[i]) == ShardPage(orders, n, shards[i]) {
        SortLength(orders, shards[i]);
      }
      assert ShardPages(orders, p, shards) == ShardPages(orders, n, shards);
    }
    HeadsSuffice(orders, n, n, shards, s);
    WindowOfHeads(offset, limit, Merged(orders, Flatten(ShardPages(orders, n, shards))), Merged(orders, Flatten(shards)));
  }

  /** A request for no hits is a request for none from each shard, and gives an empty page whatever the offset. */
  lemma {:induction false} ZeroLimitIsEmpty(orders: seq<SortOrder>, offset: nat, shards: seq<seq<Hit>>)
    ensures Flatten(ShardPages(orders, ShardLimit(offset, 0), shards)) == [] && Merged(orders, []) == []
    decreases |shards|
  {
    hide Ranking;
    if shards != [] {
      var pages := ShardPages(orders, 0, shards);
      assert pages[1..] == ShardPages(orders, 0, shards[1..]) && pages[0] == [];
      ZeroLimitIsEmpty(orders, offset, shards[1..]);
    }
  }

  lemma {:induction false} InsertLength(le: (Hit, Hit) -> bool, h: Hit, xs: seq<Hit>)
    ensures |Insert(le, h, xs)| == |xs| + 1
  {
    if xs != [] && !le(h, xs[0]) { InsertLength(le, h, xs[1..]); }
  }

  lemma {:induction false} SortLength(orders: seq<SortOrder>, hits: seq<Hit>)
    ensures |Sort(Ranking(orders), hits)| == |hits|
  {
    if hits != [] {
      SortLength(orders, hits[1..]);
      InsertLength(Ranking(orders), hits[0], Sort(Ranking(orders), hits[1..]));
    }
  }

  /** The page does not depend on which shard answers first. */
  lemma AnswerOrderIsIrrelevant(orders: seq<SortOrder>, a: seq<Hit>, b: seq<Hit>, s: set<Hit>)
    requires Keyed(s) && (forall h :: h in s ==> Plain(h, orders)) && Within(a, s) && multiset(a) == multiset(b)
    ensures Merged(orders, a) == Merged(orders, b)
  {
    SameMultisetSameElements(a, b);
    MergedIsStrict(orders, a, s);
    forall i | 0 <= i < |b| ensures b[i] in s { assert b[i] in a; }
    MergedIs(orders, b, Merged(orders, a), s);
  }

  // ------------------------------------------------------------------ cursors

  /** The hits of a shard its keyset query selects. */
  function Beyond(cursor: Option<Hit>, orders: seq<SortOrder>, xs: seq<Hit>): seq<Hit> {
    if xs == [] then []
    else if cursor.None? || KeysetAfter(xs[0], cursor.value, orders) then [xs[0]] + Beyond(cursor, orders, xs[1..])
    else Beyond(cursor, orders, xs[1..])
  }

  function BeyondAll(cursor: Option<Hit>, orders: seq<SortOrder>, shards: seq<seq<Hit>>): seq<seq<Hit>> {
    seq(|shards|, i requires 0 <= i < |shards| => Beyond(cursor, orders, shards[i]))
  }

  /** A page of a scroll: every shard resumes after the same cursor; the offset is ignored. */
  function ScrollPage(orders: seq<SortOrder>, limit: nat, shards: seq<seq<Hit>>, cursor: Option<Hit>): seq<Hit> {
    Window(0, limit, Merged(orders, Flatten(ShardPages(orders, ShardLimit(0, limit), BeyondAll(cursor, orders, shards)))))
  }

  /** The first `m` pages a client gets: a full page hands out its last hit as the next cursor, a short one ends the scroll. */
  function Follow(limit: nat, page: Option<Hit> -> seq<Hit>, cursor: Option<Hit>, m: nat): seq<Hit>
    decreases m
  {
    if m == 0 then []
    else
      var hits := page(cursor);
      if |hits| < limit || hits == [] then hits
      else hits + Follow(limit, page, Some(hits[|hits| - 1]), m - 1)
  }

  function Scroll(orders: seq<SortOrder>, limit: nat, shards: seq<seq<Hit>>, m: nat): seq<Hit> {
    Follow(limit, cursor => ScrollPage(orders, limit, shards, cursor), None, m)
  }

  ghost predicate OneKind(s: set<Hit>, orders: seq<SortOrder>) {
    forall a, b :: a in s && b in s ==> SameKinds(a, b, orders)
  }

  lemma {:induction false} BeyondElements(cursor: Option<Hit>, orders: seq<SortOrder>, xs: seq<Hit>)
    ensures forall h :: h in Beyond(cursor, orders, xs)
                        <==> h in xs && (cursor.None? || KeysetAfter(h, cursor.value, orders))
  {
    if xs != [] {
      assert xs == [xs[0]] + xs[1..];
      BeyondElements(cursor, orders, xs[1..]);
    }
  }

  lemma {:induction false} BeyondOnce(cursor: Option<Hit>, orders: seq<SortOrder>, xs: seq<Hit>)
    requires Once(xs)
    ensures Once(Beyond(cursor, orders, xs))
  {
    if xs != [] {
      BeyondOnce(cursor, orders, xs[1..]);
      BeyondElements(cursor, orders, xs[1..]);
      assert xs[0] !in xs[1..];
    }
  }

  lemma {:induction false} BeyondOfFlatten(cursor: Option<Hit>, orders: seq<SortOrder>, shards: seq<seq<Hit>>)
    ensures forall h :: h in Flatten(BeyondAll(cursor, orders, shards))
                        <==> h in Flatten(shards) && (cursor.None? || KeysetAfter(h, cursor.value, orders))
  {
    hide KeysetAfter;
    if shards != [] {
      BeyondOfFlatten(cursor, orders, shards[1..]);
      BeyondElements(cursor, orders, shards[0]);
      assert BeyondAll(cursor, orders, shards)[1..] == BeyondAll(cursor, orders, shards[1..]);
    }
  }

  lemma StrictDrop(le: (Hit, Hit) -> bool, xs: seq<Hit>, p: nat)
    requires Strict(le, xs) && p <= |xs|
    ensures Strict(le, xs[p..])
  {
  }

  lemma BeyondKeepsCluster(orders: seq<SortOrder>, shards: seq<seq<Hit>>, cursor: Option<Hit>, s: set<Hit>)
    requires Cluster(orders, shards, s)
    ensures Cluster(orders, BeyondAll(cursor, orders, shards), s)
  {
    hide KeysetAfter;
    var rest := BeyondAll(cursor, orders, shards);
    forall i | 0 <= i < |shards| ensures Within(rest[i], s) && Once(rest[i]) {
      BeyondElements(cursor, orders, shards[i]);
      BeyondOnce(cursor, orders, shards[i]);
      forall j | 0 <= j < |rest[i]| ensures rest[i][j] in s { assert rest[i][j] in shards[i]; }
    }
  }

  lemma {:induction false} BeyondIsShorter(cursor: Option<Hit>, orders: seq<SortOrder>, xs: seq<Hit>)
    ensures |Beyond(cursor, orders, xs)| <= |xs|
  {
    if xs != [] { BeyondIsShorter(cursor, orders, xs[1..]); }
  }

  lemma ReachableBeyond(orders: seq<SortOrder>, limit: nat, shards: seq<seq<Hit>>, cursor: Option<Hit>)
    requires Reachable(0, limit, shards)
    ensures Reachable(0, limit, BeyondAll(cursor, orders, shards))
  {
    forall i | 0 <= i < |shards| ensures |BeyondAll(cursor, orders, shards)[i]| <= |shards[i]| {
      BeyondIsShorter(cursor, orders, shards[i]);
    }
  }

  // ------------------------------------------------------------------ whole scrolls

  /** The cursor a scroll stands on after the first `p` hits of the ranking. */
  function CursorAt(all: seq<Hit>, p: nat): Option<Hit>
    requires p <= |all|
  {
    if p == 0 then None else Some(all[p - 1])
  }

  /** The page after the first `p` hits is the next stretch of the ranking. */
  predicate PageRight(limit: nat, page: Option<Hit> -> seq<Hit>, all: seq<Hit>, p: nat) {
    p <= |all| ==> page(CursorAt(all, p)) == Take(limit, all[p..])
  }

  /** So are the `m` pages from there on. */
  predicate RightFrom(limit: nat, page: Option<Hit> -> seq<Hit>, all: seq<Hit>, p: nat, m: nat)
    decreases m
  {
    m == 0 || (PageRight(limit, page, all, p) && RightFrom(limit, page, all, p + limit, m - 1))
  }

  /** `m` pages of `limit` hits. */
  function Pages(m: nat, limit: nat): nat {
    if m == 0 then 0 else limit + Pages(m - 1, limit)
  }

  lemma {:induction false} PagesAre(m: nat, limit: nat)
    ensures Pages(m, limit) == m * limit
  {
    if m > 0 { PagesAre(m - 1, limit); }
  }

  lemma TakeSplits(k: nat, n: nat, xs: seq<Hit>)
    requires k <= |xs|
    ensures Take(k + n, xs) == xs[..k] + Take(n, xs[k..]) && Take(k, xs) == xs[..k]
  {
    if k + n < |xs| { assert xs[..k + n] == xs[..k] + xs[k..][..n]; } else { assert xs == xs[..k] + xs[k..]; }
  }

  lemma SameConcat(a: seq<Hit>, b: seq<Hit>, c: seq<Hit>, d: seq<Hit>)
    requires |a| == |c|
    ensures a + b == c + d <==> a == c && b == d
  {
    assert (a + b)[..|a|] == a && (a + b)[|a|..] == b;
    assert (c + d)[..|c|] == c && (c + d)[|c|..] == d;
  }

  lemma {:induction false} EmptyFrom(limit: nat, page: Option<Hit> -> seq<Hit>, all: seq<Hit>, p: nat, m: nat)
    requires p > |all|
    ensures RightFrom(limit, page, all, p, m)
    decreases m
  {
    if m > 0 { EmptyFrom(limit, page, all, p + limit, m - 1); }
  }

  /** What a scroll returns is the ranking exactly when each of its pages is the next stretch of it. */
  lemma {:induction false} FollowFrom(limit: nat, page: Option<Hit> -> seq<Hit>, all: seq<Hit>, p: nat, m: nat)
    requires limit > 0 && p <= |all| && forall c :: |page(c)| <= limit
    ensures Follow(limit, page, CursorAt(all, p), m) == Take(Pages(m, limit), all[p..]) <==> RightFrom(limit, page, all, p, m)
    decreases m
  {
    hide Take;
    if m == 0 {
      TakeSplits(0, 0, all[p..]);
    } else {
      var hits, rest, more := page(CursorAt(all, p)), all[p..], Pages(m - 1, limit);
      if |rest| < limit {
        TakeAll(limit, rest);
        TakeAll(limit + more, rest);
        EmptyFrom(limit, page, all, p + limit, m - 1);
      } else {
        TakeSplits(limit, more, rest);
        assert rest[limit..] == all[p + limit..];
        if |hits| == limit {
          var next := Follow(limit, page, Some(hits[limit - 1]), m - 1);
          SameConcat(hits, next, rest[..limit], Take(more, rest[limit..]));
          if hits == rest[..limit] {
            assert hits[limit - 1] == all[p + limit - 1];
            FollowFrom(limit, page, all, p + limit, m - 1);
          }
        }
      }
    }
  }

  lemma TakeAll(n: nat, xs: seq<Hit>)
    requires |xs| <= n
    ensures Take(n, xs) == xs
  {
  }

  lemma {:induction false} RightFromIs(limit: nat, page: Option<Hit> -> seq<Hit>, all: seq<Hit>, i: nat, m: nat)
    ensures RightFrom(limit, page, all, i * limit, m) <==> forall j :: i <= j < i + m ==> PageRight(limit, page, all, j * limit)
    decreases m
  {
    hide PageRight;
    if m > 0 {
      assert (i + 1) * limit == i * limit + limit;
      RightFromIs(limit, page, all, i + 1, m - 1);
      if forall j :: i <= j < i + m ==> PageRight(limit, page, all, j * limit) {
        assert PageRight(limit, page, all, i * limit);
        assert forall j :: i + 1 <= j < i + 1 + (m - 1) ==> PageRight(limit, page, all, j * limit);
      }
      if PageRight(limit, page, all, i * limit) && (forall j :: i + 1 <= j < i + 1 + (m - 1) ==> PageRight(limit, page, all, j * limit)) {
        forall j | i <= j < i + m ensures PageRight(limit, page, all, j * limit) {
          if j > i { assert i + 1 <= j < i + 1 + (m - 1); }
        }
      }
    }
  }

  /** `m` pages are the first `m * limit` hits exactly when the `j`-th is the stretch from `j * limit` on, for every `j` below `m`. */
  lemma FollowIff(limit: nat, page: Option<Hit> -> seq<Hit>, all: seq<Hit>, m: nat)
    requires limit > 0 && forall c :: |page(c)| <= limit
    ensures Follow(limit, page, None, m) == Take(m * limit, all)
            <==> forall j :: 0 <= j < m ==> PageRight(limit, page, all, j * limit)
  {
    hide Follow, Take, RightFrom, PageRight;
    FollowFrom(limit, page, all, 0, m);
    RightFromIs(limit, page, all, 0, m);
    PagesAre(m, limit);
    assert all[0..] == all && 0 * limit == 0;
  }

  // ------------------------------------------------------- when a scroll is exact

  /**
   The cursor after the first `p` hits selects none of them and all of the next
   `limit`.
   */
  predicate Separates(orders: seq<SortOrder>, limit: nat, all: seq<Hit>, p: nat) {
    0 < p <= |all| ==>
      && (forall i :: 0 <= i < p ==> !KeysetAfter(all[i], all[p - 1], orders))
      && (forall i :: p <= i < p + limit && i < |all| ==> KeysetAfter(all[i], all[p - 1], orders))
  }

  /** A scroll page is the head of what the cursor selects. */
  lemma ScrollPageIs(orders: seq<SortOrder>, limit: nat, shards: seq<seq<Hit>>, cursor: Option<Hit>, s: set<Hit>)
    requires Cluster(orders, shards, s) && 0 < limit && Reachable(0, limit, shards)
    ensures ScrollPage(orders, limit, shards, cursor) == Take(limit, Merged(orders, Flatten(BeyondAll(cursor, orders, shards))))
  {
    hide Merged, KeysetAfter;
    var rest := BeyondAll(cursor, orders, shards);
    BeyondKeepsCluster(orders, shards, cursor, s);
    ReachableBeyond(orders, limit, shards, cursor);
    PageIsGlobal(orders, 0, limit, rest, s);
    assert Merged(orders, Flatten(rest))[0..] == Merged(orders, Flatten(rest));
  }

  /** What the cursor at position `p` selects, ranked. */
  lemma Selected(orders: seq<SortOrder>, shards: seq<seq<Hit>>, p: nat, s: set<Hit>)
    requires Cluster(orders, shards, s) && p <= |Merged(orders, Flatten(shards))|
    ensures var all := Merged(orders, Flatten(shards));
            var rest := Merged(orders, Flatten(BeyondAll(CursorAt(all, p), orders, shards)));
            && Strict(Ranking(orders), all) && Within(all, s) && Strict(Ranking(orders), rest) && Within(rest, s)
            && forall h :: h in rest <==> h in all && (p == 0 || KeysetAfter(h, all[p - 1], orders))
  {
    hide Merged, Ranking, KeysetAfter;
    var all := Merged(orders, Flatten(shards));
    var cursor := CursorAt(all, p);
    BeyondKeepsCluster(orders, shards, cursor, s);
    FlattenWithin(shards, s);
    FlattenWithin(BeyondAll(cursor, orders, shards), s);
    MergedIsStrict(orders, Flatten(shards), s);
    MergedIsStrict(orders, Flatten(BeyondAll(cursor, orders, shards)), s);
    BeyondOfFlatten(cursor, orders, shards);
  }

  /** Position by position: what heads a selection from a strict ranking. */
  lemma HeadsByPosition(le: (Hit, Hit) -> bool, limit: nat, all: seq<Hit>, p: nat, rest: seq<Hit>, s: set<Hit>)
    requires OrderOn(le, s) && Strict(le, all) && Within(all, s) && p <= |all| && limit > 0
    requires forall h :: h in rest ==> h in all
    ensures Heads(le, limit, Take(limit, all[p..]), rest)
            <==> && (forall i :: 0 <= i < p ==> all[i] !in rest)
                 && (forall i :: p <= i < p + limit && i < |all| ==> all[i] in rest)
  {
    hide OrderOn, Take, Beaten;
    var want := Take(limit, all[p..]);
    forall i | 0 <= i < |all| ensures all[i] in want <==> p <= i < p + limit {
      InStretch(all, p, limit, i);
    }
    forall i | 0 <= i < p ensures !Beaten(le, limit, want, all[i]) {
      NotBeaten(le, limit, all, p, i, s);
    }
    forall i | p + limit <= i < |all| ensures Beaten(le, limit, want, all[i]) {
      BeatenByStretch(le, limit, all, p, i);
    }
    forall x ensures x in want ==> x in all {
      if x in want { StretchIsIn(all, p, limit, x); }
    }
  }

  lemma StretchIsIn(all: seq<Hit>, p: nat, limit: nat, x: Hit)
    requires p <= |all| && x in Take(limit, all[p..])
    ensures x in all
  {
  }

  lemma NotBeaten(le: (Hit, Hit) -> bool, limit: nat, all: seq<Hit>, p: nat, i: nat, s: set<Hit>)
    requires OrderOn(le, s) && Strict(le, all) && Within(all, s) && i < p <= |all| && limit > 0
    ensures !Beaten(le, limit, Take(limit, all[p..]), all[i])
  {
    hide OrderOn;
    var want := Take(limit, all[p..]);
    if want != [] {
      assert want[0] in want && want[0] == all[p] && le(all[i], all[p]) && all[i] != all[p];
      if le(all[p], all[i]) { Antisymmetric(le, all[i], all[p], s); }
    }
  }

  lemma BeatenByStretch(le: (Hit, Hit) -> bool, limit: nat, all: seq<Hit>, p: nat, i: nat)
    requires Strict(le, all) && p + limit <= i < |all|
    ensures Beaten(le, limit, Take(limit, all[p..]), all[i])
  {
    var want := Take(limit, all[p..]);
    forall x | x in want ensures le(x, all[i]) {
      var k :| 0 <= k < |want| && want[k] == x;
      assert x == all[p + k];
    }
  }

  lemma InStretch(all: seq<Hit>, p: nat, limit: nat, i: nat)
    requires p <= |all| && i < |all| && forall j, k :: 0 <= j < k < |all| ==> all[j] != all[k]
    ensures all[i] in Take(limit, all[p..]) <==> p <= i < p + limit
  {
    var want := Take(limit, all[p..]);
    if p <= i < p + limit { assert want[i - p] == all[i]; }
    if all[i] in want {
      var k :| 0 <= k < |want| && want[k] == all[i];
      assert all[p + k] == all[i];
    }
  }

  /** The page after the first `p` hits of the global ranking is the next `limit` hits of it exactly when its cursor separates them. */
  lemma PageFollowsIff(orders: seq<SortOrder>, limit: nat, shards: seq<seq<Hit>>, p: nat, s: set<Hit>)
    requires Cluster(orders, shards, s) && 0 < limit && Reachable(0, limit, shards)
    requires p <= |Merged(orders, Flatten(shards))|
    ensures var all := Merged(orders, Flatten(shards));
            ScrollPage(orders, limit, shards, CursorAt(all, p)) == Take(limit, all[p..]) <==> Separates(orders, limit, all, p)
  {
    hide Merged, Ranking, KeysetAfter, ScrollPage, Take, Heads;
    var all := Merged(orders, Flatten(shards));
    var rest, want := Merged(orders, Flatten(BeyondAll(CursorAt(all, p), orders, shards))), Take(limit, all[p..]);
    ScrollPageIs(orders, limit, shards, CursorAt(all, p), s);
    Selected(orders, shards, p, s);
    RankingIsOrder(orders, s);
    StrictDrop(Ranking(orders), all, p);
    StrictTake(Ranking(orders), limit, all[p..]);
    WithinStretch(all, p, limit, s);
    HeadIs(Ranking(orders), limit, want, rest, s);
    HeadsByPosition(Ranking(orders), limit, all, p, rest, s);
    forall i | 0 <= i < |all| && 0 < p ensures all[i] in rest <==> KeysetAfter(all[i], all[p - 1], orders) {}
    if p == 0 { forall i | 0 <= i < |all| ensures all[i] in rest {} }
  }

  lemma WithinStretch(all: seq<Hit>, p: nat, limit: nat, s: set<Hit>)
    requires Within(all, s) && p <= |all|
    ensures Within(Take(limit, all[p..]), s) && |Take(limit, all[p..])| <= limit
  {
  }

  /**
   `m` pages of a scroll are the first `m * limit` hits of the global ranking,
   each once, if and only if each cursor on the way selects none of the hits
   before it and all of the next page.
   */
  lemma ScanScrollIsExactIff(orders: seq<SortOrder>, limit: nat, shards: seq<seq<Hit>>, m: nat, s: set<Hit>)
    requires Cluster(orders, shards, s) && 0 < limit && Reachable(0, limit, shards)
    ensures var all := Merged(orders, Flatten(shards));
            Scroll(orders, limit, shards, m) == Take(m * limit, all)
            <==> forall j :: 0 <= j < m ==> Separates(orders, limit, all, j * limit)
  {
    hide Merged, ScrollPage, Take, Follow, Separates;
    var all := Merged(orders, Flatten(shards));
    var page := cursor => ScrollPage(orders, limit, shards, cursor);
    forall c ensures |page(c)| <= limit { ScrollPageFits(orders, limit, shards, c); }
    FollowIff(limit, page, all, m);
    forall p: nat ensures PageRight(limit, page, all, p) <==> Separates(orders, limit, all, p) {
      if p <= |all| { PageFollowsIff(orders, limit, shards, p, s); } else { PastTheEnd(orders, limit, all, p); }
    }
  }

  lemma PastTheEnd(orders: seq<SortOrder>, limit: nat, all: seq<Hit>, p: nat)
    requires p > |all|
    ensures Separates(orders, limit, all, p)
  {
  }

  lemma ScrollPageFits(orders: seq<SortOrder>, limit: nat, shards: seq<seq<Hit>>, cursor: Option<Hit>)
    ensures |ScrollPage(orders, limit, shards, cursor)| <= limit
  {
    hide Merged;
  }

  /** A scroll that has to go on from a hit whose first rounded value was moved towards the start is not exact. */
  lemma MovedBackCursorFails(orders: seq<SortOrder>, limit: nat, shards: seq<seq<Hit>>, m: nat, j: nat, i: nat, s: set<Hit>)
    requires Cluster(orders, shards, s) && 0 < limit && Reachable(0, limit, shards)
    requires 0 < j < m && 0 < j * limit <= |Merged(orders, Flatten(shards))| && i < |orders|
    requires var last := Merged(orders, Flatten(shards))[j * limit - 1];
             AllSurvive(last, orders[..i]) && MovedBack(CellAt(last, i), orders[i])
    ensures Scroll(orders, limit, shards, m) != Take(m * limit, Merged(orders, Flatten(shards)))
  {
    hide Merged, Scroll, KeysetAfter, MovedBack;
    var all := Merged(orders, Flatten(shards));
    FlattenWithin(shards, s);
    MergedIsStrict(orders, Flatten(shards), s);
    ScanScrollIsExactIff(orders, limit, shards, m, s);
    SelectedAgainIff(all[j * limit - 1], orders);
    assert !Separates(orders, limit, all, j * limit);
  }

  // ------------------------------------------------------- columns that survive a cursor

  /** Every sort value of the set comes back from a cursor as it was stored. */
  ghost predicate Surviving(s: set<Hit>, orders: seq<SortOrder>) {
    forall h :: h in s ==> AllSurvive(h, orders)
  }

  /** In a strict ranking of values that survive, what the cursor at `p` selects is the list from `p` on. */
  lemma AfterPosition(orders: seq<SortOrder>, all: seq<Hit>, p: nat, i: nat, s: set<Hit>)
    requires Keyed(s) && (forall x :: x in s ==> Plain(x, orders)) && OneKind(s, orders) && Surviving(s, orders)
    requires Within(all, s) && Strict(Ranking(orders), all) && 0 < p <= |all| && i < |all|
    ensures KeysetAfter(all[i], all[p - 1], orders) <==> p <= i
  {
    hide CmpHits, KeysetAfter;
    var h, cursor := all[i], all[p - 1];
    RankingIsOrder(orders, s);
    KeysetIsStrictlyAfter(h, cursor, orders);
    assert Ranking(orders)(h, cursor) <==> CmpHits(h, cursor, orders) != Greater;
    if i < p - 1 {
      assert Ranking(orders)(h, cursor);
    } else if i > p - 1 {
      assert Ranking(orders)(cursor, h) && cursor != h;
    }
  }

  /** Where values survive, every cursor separates. */
  lemma SurvivorsSeparate(orders: seq<SortOrder>, limit: nat, all: seq<Hit>, p: nat, s: set<Hit>)
    requires Keyed(s) && (forall x :: x in s ==> Plain(x, orders)) && OneKind(s, orders) && Surviving(s, orders)
    requires Within(all, s) && Strict(Ranking(orders), all)
    ensures Separates(orders, limit, all, p)
  {
    hide KeysetAfter, Ranking;
    if 0 < p <= |all| {
      forall i | 0 <= i < |all| ensures KeysetAfter(all[i], all[p - 1], orders) <==> p <= i {
        AfterPosition(orders, all, p, i, s);
      }
    }
  }

  /** The page after the cursor at position `p` of the global ranking is the next `limit` hits of it. */
  lemma ScrollPageFollows(orders: seq<SortOrder>, limit: nat, shards: seq<seq<Hit>>, p: nat, s: set<Hit>)
    requires Cluster(orders, shards, s) && OneKind(s, orders) && Surviving(s, orders) && 0 < limit && Reachable(0, limit, shards)
    requires p <= |Merged(orders, Flatten(shards))|
    ensures var all := Merged(orders, Flatten(shards));
            ScrollPage(orders, limit, shards, CursorAt(all, p)) == Take(limit, all[p..])
  {
    hide Merged, Ranking, KeysetAfter, ScrollPage, Separates;
    Selected(orders, shards, p, s);
    PageFollowsIff(orders, limit, shards, p, s);
    SurvivorsSeparate(orders, limit, Merged(orders, Flatten(shards)), p, s);
  }

  /** Where values survive, following cursors visits every hit exactly once, in ranking order. */
  lemma ScrollVisitsEveryHitOnce(orders: seq<SortOrder>, limit: nat, shards: seq<seq<Hit>>, m: nat, s: set<Hit>)
    requires Cluster(orders, shards, s) && OneKind(s, orders) && Surviving(s, orders) && 0 < limit && Reachable(0, limit, shards)
    ensures var all := Merged(orders, Flatten(shards));
            && Scroll(orders, limit, shards, m) == Take(m * limit, all)
            && Strict(Ranking(orders), all) && SameElements(all, Flatten(shards))
  {
    hide Merged, Scroll, Separates, Ranking;
    var all := Merged(orders, Flatten(shards));
    FlattenWithin(shards, s);
    MergedIsStrict(orders, Flatten(shards), s);
    ScanScrollIsExactIff(orders, limit, shards, m, s);
    forall p: nat ensures Separates(orders, limit, all, p) { SurvivorsSeparate(orders, limit, all, p, s); }
  }

  // ------------------------------------------------------------- the gateway's merge

  /** Gather the bodies, rank, keep the first hit of each key, then cut the global window. */
  method MergePage(orders: seq<SortOrder>, offset: nat, limit: nat, bodies: seq<seq<Hit>>) returns (page: seq<Hit>)
    ensures page == if limit == 0 then Merged(orders, Flatten(bodies))[Min(offset, |Merged(orders, Flatten(bodies))|)..]
                    else Window(offset, limit, Merged(orders, Flatten(bodies)))
  {
    var hits: seq<Hit> := [];
    for i := 0 to |bodies|
      invariant Flatten(bodies) == hits + Flatten(bodies[i..])
    {
      assert bodies[i..][1..] == bodies[i + 1..];
      hits := hits + bodies[i];
    }
    assert Flatten(bodies) == hits;
    var ranked := Sort(Ranking(orders), hits);
    page := DropRepeats(ranked);
    page := page[Min(offset, |page|)..];
    if limit > 0 && |page| > limit {
      page := page[..limit];
    }
  }

  function Min(a: nat, b: nat): nat {
    if a <= b then a else b
  }

  method DropRepeats(hits: seq<Hit>) returns (kept: seq<Hit>)
    ensures kept == Dedupe(hits, {}) == Firsts(hits, |hits|)
  {
    DedupeKeepsFirst(hits, |hits|);
    assert hits[..|hits|] == hits;
    var seen: set<Bytes> := {};
    kept := [];
    for i := 0 to |hits|
      invariant Dedupe(hits, {}) == kept + Dedupe(hits[i..], seen)
    {
      assert hits[i..][1..] == hits[i + 1..];
      if hits[i].key !in seen {
        seen, kept := seen + {hits[i].key}, kept + [hits[i]];
      }
    }
  }
}
