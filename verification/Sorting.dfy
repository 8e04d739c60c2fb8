/**
 Sorting by a comparator that need only be a total order on the elements at
 hand: canonical forms of multisets and sets, and merging with a cut-off.
 */
module Sorting {

  /** `le` ranks the elements of `s`, possibly with ties. */
  ghost predicate Preorder<T(!new)>(le: (T, T) -> bool, s: set<T>) {
    && (forall x, y :: x in s && y in s ==> le(x, y) || le(y, x))
    && (forall x, y, z :: x in s && y in s && z in s && le(x, y) && le(y, z) ==> le(x, z))
  }

  /** `le` is a total order on the elements of `s`. */
  ghost predicate OrderOn<T(!new)>(le: (T, T) -> bool, s: set<T>) {
    Preorder(le, s) && forall x, y :: x in s && y in s && le(x, y) && le(y, x) ==> x == y
  }

  /** `le` is a total order. */
  ghost predicate Order<T(!new)>(le: (T, T) -> bool) {
    && (forall x, y :: le(x, y) || le(y, x))
    && (forall x, y, z :: le(x, y) && le(y, z) ==> le(x, z))
    && (forall x, y :: le(x, y) && le(y, x) ==> x == y)
  }

  ghost predicate Within<T>(xs: seq<T>, s: set<T>) {
    forall i :: 0 <= i < |xs| ==> xs[i] in s
  }

  ghost predicate Sorted<T>(le: (T, T) -> bool, xs: seq<T>) {
    forall i, j :: 0 <= i < j < |xs| ==> le(xs[i], xs[j])
  }

  function Insert<T>(le: (T, T) -> bool, x: T, xs: seq<T>): seq<T> {
    if xs == [] || le(x, xs[0]) then [x] + xs else [xs[0]] + Insert(le, x, xs[1..])
  }

  function Sort<T>(le: (T, T) -> bool, xs: seq<T>): seq<T> {
    if xs == [] then [] else Insert(le, xs[0], Sort(le, xs[1..]))
  }

  lemma {:induction false} InsertElements<T>(le: (T, T) -> bool, x: T, xs: seq<T>)
    ensures multiset(Insert(le, x, xs)) == multiset{x} + multiset(xs)
  {
    if xs != [] && !le(x, xs[0]) {
      InsertElements(le, x, xs[1..]);
      assert xs == [xs[0]] + xs[1..];
    }
  }

  lemma {:induction false} InsertIsSorted<T(!new)>(le: (T, T) -> bool, x: T, xs: seq<T>, s: set<T>)
    requires Preorder(le, s) && x in s && Within(xs, s) && Sorted(le, xs)
    ensures Sorted(le, Insert(le, x, xs)) && Within(Insert(le, x, xs), s)
  {
    if xs == [] || le(x, xs[0]) {
      forall j | 0 <= j < |xs| ensures le(x, xs[j]) {
        if j > 0 { assert le(xs[0], xs[j]); }
      }
    } else {
      var rest := Insert(le, x, xs[1..]);
      InsertIsSorted(le, x, xs[1..], s);
      InsertElements(le, x, xs[1..]);
      forall j | 0 <= j < |rest| ensures le(xs[0], rest[j]) {
        assert rest[j] in multiset(rest);
      }
    }
  }

  /** Sorting gives a sorted permutation. */
  lemma {:induction false} SortIsSorted<T(!new)>(le: (T, T) -> bool, xs: seq<T>, s: set<T>)
    requires Preorder(le, s) && Within(xs, s)
    ensures Sorted(le, Sort(le, xs)) && multiset(Sort(le, xs)) == multiset(xs) && Within(Sort(le, xs), s)
  {
    if xs != [] {
      SortIsSorted(le, xs[1..], s);
      assert xs == [xs[0]] + xs[1..];
      InsertIsSorted(le, xs[0], Sort(le, xs[1..]), s);
      InsertElements(le, xs[0], Sort(le, xs[1..]));
    }
  }

  /** Sorting leaves a sorted list as it is, ties included. */
  lemma {:induction false} SortOfSorted<T>(le: (T, T) -> bool, xs: seq<T>)
    requires Sorted(le, xs)
    ensures Sort(le, xs) == xs
  {
    if xs != [] {
      SortOfSorted(le, xs[1..]);
      assert xs == [xs[0]] + xs[1..];
    }
  }

  /** The head of a sorted list comes before everything in it. */
  lemma HeadIsLeast<T(!new)>(le: (T, T) -> bool, xs: seq<T>, x: T, s: set<T>)
    requires OrderOn(le, s) && Within(xs, s) && x in xs && forall j :: 0 < j < |xs| ==> le(xs[0], xs[j])
    ensures le(xs[0], x)
  {
    var i :| 0 <= i < |xs| && xs[i] == x;
  }

  lemma TailMultiset<T>(xs: seq<T>)
    requires xs != []
    ensures multiset(xs[1..]) == multiset(xs) - multiset{xs[0]}
  {
    assert xs == [xs[0]] + xs[1..];
  }

  /** There is only one sorted arrangement. */
  lemma {:induction false} SortedIsUnique<T(!new)>(le: (T, T) -> bool, a: seq<T>, b: seq<T>, s: set<T>)
    requires OrderOn(le, s) && Within(a, s) && Within(b, s)
    requires Sorted(le, a) && Sorted(le, b) && multiset(a) == multiset(b)
    ensures a == b
    decreases |a|
  {
    hide OrderOn;
    assert |a| == |multiset(a)| == |multiset(b)| == |b|;
    if a != [] {
      assert a[0] in multiset(b) && b[0] in multiset(a);
      HeadIsLeast(le, a, b[0], s);
      HeadIsLeast(le, b, a[0], s);
      Antisymmetric(le, a[0], b[0], s);
      TailMultiset(a);
      TailMultiset(b);
      SortedIsUnique(le, a[1..], b[1..], s);
      assert a == [a[0]] + a[1..] && b == [b[0]] + b[1..];
    }
  }

  lemma Antisymmetric<T(!new)>(le: (T, T) -> bool, x: T, y: T, s: set<T>)
    requires OrderOn(le, s) && x in s && y in s && le(x, y) && le(y, x)
    ensures x == y
  {
  }

  /** Sorted forms are equal exactly when the multisets are. */
  lemma SortIsCanonical<T(!new)>(le: (T, T) -> bool, xs: seq<T>, ys: seq<T>)
    requires Order(le)
    ensures Sort(le, xs) == Sort(le, ys) <==> multiset(xs) == multiset(ys)
  {
    var s := set x | x in xs + ys;
    SortIsSorted(le, xs, s);
    SortIsSorted(le, ys, s);
    if multiset(xs) == multiset(ys) { SortedIsUnique(le, Sort(le, xs), Sort(le, ys), s); }
  }

  // ---------------------------------------------------------- lists without repeats

  ghost predicate Strict<T>(le: (T, T) -> bool, xs: seq<T>) {
    forall i, j :: 0 <= i < j < |xs| ==> le(xs[i], xs[j]) && xs[i] != xs[j]
  }

  ghost predicate SameElements<T(!new)>(a: seq<T>, b: seq<T>) {
    forall x :: x in a <==> x in b
  }

  lemma EmptyAlike<T(!new)>(a: seq<T>, b: seq<T>)
    requires SameElements(a, b)
    ensures a == [] <==> b == []
  {
    if a != [] { assert a[0] in b; }
    if b != [] { assert b[0] in a; }
  }

  lemma TailElements<T(!new)>(le: (T, T) -> bool, xs: seq<T>)
    requires Strict(le, xs) && xs != []
    ensures forall x :: x in xs[1..] <==> x in xs && x != xs[0]
  {
    assert xs == [xs[0]] + xs[1..];
  }

  lemma {:induction false} StrictIsUnique<T(!new)>(le: (T, T) -> bool, a: seq<T>, b: seq<T>, s: set<T>)
    requires OrderOn(le, s) && Within(a, s) && Within(b, s)
    requires Strict(le, a) && Strict(le, b) && SameElements(a, b)
    ensures a == b
    decreases |a|
  {
    hide OrderOn;
    EmptyAlike(a, b);
    if a != [] {
      assert a[0] in a && b[0] in b;
      HeadIsLeast(le, a, b[0], s);
      HeadIsLeast(le, b, a[0], s);
      Antisymmetric(le, a[0], b[0], s);
      TailElements(le, a);
      TailElements(le, b);
      StrictIsUnique(le, a[1..], b[1..], s);
      assert a == [a[0]] + a[1..] && b == [b[0]] + b[1..];
    }
  }

  /** The union of two strictly sorted lists, head by head. */
  function Union<T(==)>(le: (T, T) -> bool, xs: seq<T>, ys: seq<T>): seq<T>
    decreases |xs| + |ys|
  {
    if xs == [] then ys
    else if ys == [] then xs
    else if xs[0] == ys[0] then [xs[0]] + Union(le, xs[1..], ys[1..])
    else if le(xs[0], ys[0]) then [xs[0]] + Union(le, xs[1..], ys)
    else [ys[0]] + Union(le, xs, ys[1..])
  }

  lemma {:induction false} UnionElements<T(!new)>(le: (T, T) -> bool, xs: seq<T>, ys: seq<T>)
    ensures forall x :: x in Union(le, xs, ys) <==> x in xs || x in ys
    decreases |xs| + |ys|
  {
    if xs != [] && ys != [] {
      assert xs == [xs[0]] + xs[1..] && ys == [ys[0]] + ys[1..];
      if xs[0] == ys[0] {
        UnionElements(le, xs[1..], ys[1..]);
      } else if le(xs[0], ys[0]) {
        UnionElements(le, xs[1..], ys);
      } else {
        UnionElements(le, xs, ys[1..]);
      }
    }
  }

  lemma Consed<T(!new)>(le: (T, T) -> bool, x: T, rest: seq<T>)
    requires Strict(le, rest) && forall y :: y in rest ==> le(x, y) && x != y
    ensures Strict(le, [x] + rest)
  {
  }

  /** Everything in a strictly sorted list comes after what comes before its head. */
  lemma AfterHead<T(!new)>(le: (T, T) -> bool, x: T, ys: seq<T>, s: set<T>)
    requires OrderOn(le, s) && x in s && Within(ys, s) && Strict(le, ys) && ys != [] && le(x, ys[0]) && x != ys[0]
    ensures forall y :: y in ys ==> le(x, y) && x != y
  {
    forall y | y in ys ensures le(x, y) && x != y {
      var i :| 0 <= i < |ys| && ys[i] == y;
      if i > 0 { assert le(ys[0], ys[i]) && ys[0] != ys[i]; }
    }
  }

  lemma AfterOwnHead<T(!new)>(le: (T, T) -> bool, xs: seq<T>)
    requires Strict(le, xs) && xs != []
    ensures forall y :: y in xs[1..] ==> le(xs[0], y) && xs[0] != y
  {
    forall y | y in xs[1..] ensures le(xs[0], y) && xs[0] != y {
      var i :| 0 <= i < |xs| - 1 && xs[1..][i] == y;
      assert le(xs[0], xs[i + 1]) && xs[0] != xs[i + 1];
    }
  }

  lemma {:induction false} UnionIsStrict<T(!new)>(le: (T, T) -> bool, xs: seq<T>, ys: seq<T>, s: set<T>)
    requires OrderOn(le, s) && Within(xs, s) && Within(ys, s) && Strict(le, xs) && Strict(le, ys)
    ensures Strict(le, Union(le, xs, ys))
    decreases |xs| + |ys|
  {
    if xs != [] && ys != [] {
      AfterOwnHead(le, xs);
      AfterOwnHead(le, ys);
      if xs[0] == ys[0] {
        UnionIsStrict(le, xs[1..], ys[1..], s);
        UnionElements(le, xs[1..], ys[1..]);
        Consed(le, xs[0], Union(le, xs[1..], ys[1..]));
      } else if le(xs[0], ys[0]) {
        UnionIsStrict(le, xs[1..], ys, s);
        UnionElements(le, xs[1..], ys);
        AfterHead(le, xs[0], ys, s);
        Consed(le, xs[0], Union(le, xs[1..], ys));
      } else {
        UnionIsStrict(le, xs, ys[1..], s);
        UnionElements(le, xs, ys[1..]);
        AfterHead(le, ys[0], xs, s);
        Consed(le, ys[0], Union(le, xs, ys[1..]));
      }
    }
  }

  function Take<T>(n: nat, xs: seq<T>): seq<T> {
    if n < |xs| then xs[..n] else xs
  }

  /** The first `n` of a union need no more than the first `n` of each side. */
  lemma {:induction false} TakeUnion<T>(le: (T, T) -> bool, n: nat, p: nat, xs: seq<T>, q: nat, ys: seq<T>)
    requires n <= p && n <= q
    ensures Take(n, Union(le, xs, ys)) == Take(n, Union(le, Take(p, xs), Take(q, ys)))
    decreases |xs| + |ys|
  {
    hide Take;
    if n == 0 || xs == [] || ys == [] {
      TakeUnionOfOne(le, n, p, xs, q, ys);
    } else {
      var tx, ty := Take(p, xs), Take(q, ys);
      TakeHead(p, xs);
      TakeHead(q, ys);
      if xs[0] == ys[0] {
        TakeUnion(le, n - 1, p - 1, xs[1..], q - 1, ys[1..]);
        TakeCons(n, xs[0], Union(le, xs[1..], ys[1..]));
        TakeCons(n, xs[0], Union(le, tx[1..], ty[1..]));
      } else if le(xs[0], ys[0]) {
        TakeUnion(le, n - 1, p - 1, xs[1..], q, ys);
        TakeCons(n, xs[0], Union(le, xs[1..], ys));
        TakeCons(n, xs[0], Union(le, tx[1..], ty));
      } else {
        TakeUnion(le, n - 1, p, xs, q - 1, ys[1..]);
        TakeCons(n, ys[0], Union(le, xs, ys[1..]));
        TakeCons(n, ys[0], Union(le, tx, ty[1..]));
      }
    }
  }

  lemma TakeUnionOfOne<T>(le: (T, T) -> bool, n: nat, p: nat, xs: seq<T>, q: nat, ys: seq<T>)
    requires n <= p && n <= q && (n == 0 || xs == [] || ys == [])
    ensures Take(n, Union(le, xs, ys)) == Take(n, Union(le, Take(p, xs), Take(q, ys)))
  {
  }

  lemma TakeHead<T>(n: nat, xs: seq<T>)
    requires n > 0 && xs != []
    ensures Take(n, xs) != [] && Take(n, xs)[0] == xs[0] && Take(n, xs)[1..] == Take(n - 1, xs[1..])
  {
  }

  lemma TakeCons<T>(n: nat, x: T, xs: seq<T>)
    requires n > 0
    ensures Take(n, [x] + xs) == [x] + Take(n - 1, xs)
  {
  }

  /** `want` is in the list, and the rest of the list, if it matters at all, comes after a full `want`. */
  ghost predicate Heads<T(!new)>(le: (T, T) -> bool, n: nat, want: seq<T>, xs: seq<T>) {
    && (forall x :: x in want ==> x in xs)
    && (forall y :: y in xs && y !in want ==> Beaten(le, n, want, y))
  }

  ghost predicate Beaten<T(!new)>(le: (T, T) -> bool, n: nat, want: seq<T>, y: T) {
    |want| == n && forall x :: x in want ==> le(x, y)
  }

  /** The first `n` of a strictly sorted list, told by membership. */
  lemma {:induction false} HeadIs<T(!new)>(le: (T, T) -> bool, n: nat, want: seq<T>, xs: seq<T>, s: set<T>)
    requires OrderOn(le, s) && Within(xs, s) && Within(want, s) && Strict(le, xs) && Strict(le, want) && |want| <= n
    ensures Take(n, xs) == want <==> Heads(le, n, want, xs)
    decreases n
  {
    if want == [] {
      if xs != [] { assert xs[0] in xs; }
    } else if xs == [] {
      assert want[0] in want;
    } else if xs[0] != want[0] {
      assert Take(n, xs)[0] == xs[0];
      if Heads(le, n, want, xs) { HeadsAgree(le, n, want, xs, s); }
    } else {
      TakeHead(n, xs);
      HeadIs(le, n - 1, want[1..], xs[1..], s);
      HeadsOfTails(le, n, want, xs, s);
      assert want == [want[0]] + want[1..] && Take(n, xs) == [xs[0]] + Take(n - 1, xs[1..]);
    }
  }

  lemma HeadsAgree<T(!new)>(le: (T, T) -> bool, n: nat, want: seq<T>, xs: seq<T>, s: set<T>)
    requires OrderOn(le, s) && Within(xs, s) && Within(want, s) && Strict(le, xs) && Strict(le, want)
    requires want != [] && xs != [] && Heads(le, n, want, xs)
    ensures xs[0] == want[0]
  {
    assert want[0] in want && xs[0] in xs;
    HeadIsLeast(le, xs, want[0], s);
    if xs[0] in want { HeadIsLeast(le, want, xs[0], s); }
    Antisymmetric(le, xs[0], want[0], s);
  }

  lemma HeadsOfTails<T(!new)>(le: (T, T) -> bool, n: nat, want: seq<T>, xs: seq<T>, s: set<T>)
    requires Strict(le, xs) && Strict(le, want) && want != [] && xs != [] && xs[0] == want[0] && n > 0
    ensures Heads(le, n, want, xs) <==> Heads(le, n - 1, want[1..], xs[1..])
  {
    TailElements(le, xs);
    TailElements(le, want);
    AfterOwnHead(le, xs);
    forall y | y in xs[1..] ensures Beaten(le, n, want, y) <==> Beaten(le, n - 1, want[1..], y) {
      assert want == [want[0]] + want[1..];
    }
  }

  // --------------------------------------------------------------- dictionary order

  /** Dictionary order on lists. */
  predicate LexLe<T(==)>(le: (T, T) -> bool, a: seq<T>, b: seq<T>) {
    a == [] || (b != [] && if a[0] == b[0] then LexLe(le, a[1..], b[1..]) else le(a[0], b[0]))
  }

  lemma {:induction false} LexIsTotal<T(!new)>(le: (T, T) -> bool, a: seq<T>, b: seq<T>)
    requires Order(le)
    ensures LexLe(le, a, b) || LexLe(le, b, a)
  {
    if a != [] && b != [] && a[0] == b[0] { LexIsTotal(le, a[1..], b[1..]); }
  }

  lemma {:induction false} LexIsAntisymmetric<T(!new)>(le: (T, T) -> bool, a: seq<T>, b: seq<T>)
    requires Order(le) && LexLe(le, a, b) && LexLe(le, b, a)
    ensures a == b
  {
    if a != [] && b != [] && a[0] == b[0] {
      LexIsAntisymmetric(le, a[1..], b[1..]);
      assert a == [a[0]] + a[1..] && b == [b[0]] + b[1..];
    }
  }

  lemma {:induction false} LexIsTransitive<T(!new)>(le: (T, T) -> bool, a: seq<T>, b: seq<T>, c: seq<T>)
    requires Order(le) && LexLe(le, a, b) && LexLe(le, b, c)
    ensures LexLe(le, a, c)
  {
    if a != [] && a[0] == b[0] && b[0] == c[0] { LexIsTransitive(le, a[1..], b[1..], c[1..]); }
  }

  // ------------------------------------------------------------- images of multisets

  function Map<S, A>(f: S -> A, xs: seq<S>): (r: seq<A>)
    ensures |r| == |xs| && forall i :: 0 <= i < |xs| ==> r[i] == f(xs[i])
  {
    seq(|xs|, i requires 0 <= i < |xs| => f(xs[i]))
  }

  lemma MapWithout<S, A>(f: S -> A, xs: seq<S>, j: nat)
    requires j < |xs|
    ensures multiset(Map(f, xs)) == multiset{f(xs[j])} + multiset(Map(f, xs[..j] + xs[j + 1..]))
  {
    hide Map;
    var a, b := Map(f, xs[..j]), Map(f, xs[j + 1..]);
    assert Map(f, xs) == a + [f(xs[j])] + b;
    assert Map(f, xs[..j] + xs[j + 1..]) == a + b;
  }

  lemma Cancel<A>(a: A, m: multiset<A>, n: multiset<A>)
    requires multiset{a} + m == multiset{a} + n
    ensures m == n
  {
    assert m == (multiset{a} + m) - multiset{a};
  }

  /** Some element of `ys` has the image of the first element of `xs`. */
  lemma ImageAt<S, A>(f: S -> A, xs: seq<S>, ys: seq<S>) returns (j: nat)
    requires xs != [] && multiset(Map(f, xs)) == multiset(Map(f, ys))
    ensures j < |ys| && f(ys[j]) == f(xs[0])
  {
    hide Map;
    var fy := Map(f, ys);
    MapWithout(f, xs, 0);
    assert f(xs[0]) in multiset(fy);
    j :| 0 <= j < |fy| && fy[j] == f(xs[0]);
  }

  lemma Fewer<S, A>(f: S -> A, xs: seq<S>, ys: seq<S>, j: nat)
    requires xs != [] && j < |ys| && f(ys[j]) == f(xs[0]) && multiset(Map(f, xs)) == multiset(Map(f, ys))
    ensures multiset(Map(f, xs[..0] + xs[1..])) == multiset(Map(f, ys[..j] + ys[j + 1..]))
  {
    hide Map;
    MapWithout(f, xs, 0);
    MapWithout(f, ys, j);
    Cancel(f(xs[0]), multiset(Map(f, xs[..0] + xs[1..])), multiset(Map(f, ys[..j] + ys[j + 1..])));
  }

  /** When equal images under `f` mean equal images under `g`, equal multisets of `f` images mean equal ones of `g` images. */
  lemma {:induction false} MapsAgree<S(!new), A, B>(f: S -> A, g: S -> B, xs: seq<S>, ys: seq<S>)
    requires forall x, y :: x in xs && y in ys && f(x) == f(y) ==> g(x) == g(y)
    requires multiset(Map(f, xs)) == multiset(Map(f, ys))
    ensures multiset(Map(g, xs)) == multiset(Map(g, ys))
    decreases |xs|
  {
    hide Map;
    assert |multiset(Map(f, xs))| == |xs| && |multiset(Map(f, ys))| == |ys|;
    if xs == [] {
      assert ys == [];
    } else {
      var j := ImageAt(f, xs, ys);
      var others, rest := xs[..0] + xs[1..], ys[..j] + ys[j + 1..];
      assert g(xs[0]) == g(ys[j]);
      Fewer(f, xs, ys, j);
      MapsAgree(f, g, others, rest);
      MapWithout(g, xs, 0);
      MapWithout(g, ys, j);
    }
  }
}
