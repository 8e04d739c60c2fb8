/**
 The comparator that the stores and the gateway share, the total order of hits
 built on it, and the keyset predicate a store evaluates to find what comes
 after a cursor. The comparator sees a column's values as they are read, whole
 numbers rounded to floats; the keyset predicate sees them as they are stored.
 */
module SortValues {
  import opened Wrappers
  import opened ObjectPrefix
  import opened LittleEndian
  import opened Rounding
  import opened Sorting

  datatype Ordering = Less | Equal | Greater

  function Reverse(c: Ordering): Ordering {
    match c
    case Less => Greater
    case Equal => Equal
    case Greater => Less
  }

  datatype SortOrder = Asc | Desc

  /** A 64-bit float up to its numeric value: the two zeros are one, and NaN is unordered. */
  datatype Float = NaN | NegInf | Finite(r: real) | PosInf

  datatype SortValue = Missing | Num(x: Float) | Str(s: Bytes)

  function PartialCmp(x: Float, y: Float): Option<Ordering> {
    if x.NaN? || y.NaN? then None
    else if x == y then Some(Equal)
    else if x.NegInf? || y.PosInf? then Some(Less)
    else if x.PosInf? || y.NegInf? then Some(Greater)
    else Some(if x.r < y.r then Less else Greater)
  }

  predicate ByteLe(a: byte, b: byte) {
    a <= b
  }

  /** Strings and encoded keys compare byte by byte. */
  function CmpBytes(a: Bytes, b: Bytes): Ordering {
    if a == b then Equal else if LexLe(ByteLe, a, b) then Less else Greater
  }

  function CmpSortValue(a: SortValue, b: SortValue, order: SortOrder): Ordering {
    match (a, b)
    case (Missing, Missing) => Equal
    case (Missing, _) => Greater
    case (_, Missing) => Less
    case (Num(x), Num(y)) =>
      var c := PartialCmp(x, y);
      Directed(if c.Some? then c.value else Equal, order)
    case (Str(s), Str(t)) => Directed(CmpBytes(s, t), order)
    case (Num(_), Str(_)) => Less
    case (Str(_), Num(_)) => Greater
  }

  function Directed(c: Ordering, order: SortOrder): Ordering {
    if order.Desc? then Reverse(c) else c
  }

  // --------------------------------------------------------- laws of the comparator

  /** How two comparisons compose in a total preorder. */
  predicate Composes(ab: Ordering, bc: Ordering, ac: Ordering) {
    (ab.Equal? ==> ac == bc) && (bc.Equal? ==> ac == ab) && (ab == bc ==> ac == ab)
  }

  lemma BytesCompose(a: Bytes, b: Bytes, c: Bytes)
    ensures Composes(CmpBytes(a, b), CmpBytes(b, c), CmpBytes(a, c)) && CmpBytes(a, b) == Reverse(CmpBytes(b, a))
    ensures CmpBytes(a, b) == Equal <==> a == b
  {
    LexIsTotal(ByteLe, a, b);
    LexIsTotal(ByteLe, b, c);
    LexIsTotal(ByteLe, a, c);
    if LexLe(ByteLe, a, b) && LexLe(ByteLe, b, a) { LexIsAntisymmetric(ByteLe, a, b); }
    if LexLe(ByteLe, a, c) && LexLe(ByteLe, c, a) { LexIsAntisymmetric(ByteLe, a, c); }
    if LexLe(ByteLe, b, c) && LexLe(ByteLe, c, b) { LexIsAntisymmetric(ByteLe, b, c); }
    if LexLe(ByteLe, a, b) && LexLe(ByteLe, b, c) { LexIsTransitive(ByteLe, a, b, c); }
    if LexLe(ByteLe, c, b) && LexLe(ByteLe, b, a) { LexIsTransitive(ByteLe, c, b, a); }
  }

  /** Swapping the operands reverses the verdict, for all values, NaN included. */
  lemma CmpIsAntisymmetric(a: SortValue, b: SortValue, order: SortOrder)
    ensures CmpSortValue(a, b, order) == Reverse(CmpSortValue(b, a, order))
  {
    if a.Str? && b.Str? { BytesCompose(a.s, b.s, a.s); }
  }

  /** Without NaN the comparator composes as a total preorder, across kinds and in either direction. */
  lemma CmpComposes(a: SortValue, b: SortValue, c: SortValue, order: SortOrder)
    requires a != Num(NaN) && b != Num(NaN) && c != Num(NaN)
    ensures Composes(CmpSortValue(a, b, order), CmpSortValue(b, c, order), CmpSortValue(a, c, order))
  {
    hide CmpBytes;
    if a.Str? && b.Str? && c.Str? { BytesCompose(a.s, b.s, c.s); }
  }

  /**
   What the verdicts mean: numbers by value, strings byte by byte, both turned
   round by `Desc`; a number before a string and anything before a missing value
   either way.
   */
  lemma VerdictsMean(x: real, y: real, s: Bytes, t: Bytes, order: SortOrder)
    ensures CmpSortValue(Num(Finite(x)), Num(Finite(y)), order) == Less <==> if order.Asc? then x < y else x > y
    ensures CmpSortValue(Str(s), Str(t), order) == Less
            <==> s != t && if order.Asc? then LexLe(ByteLe, s, t) else LexLe(ByteLe, t, s)
    ensures CmpSortValue(Num(Finite(x)), Str(s), order) == Less
    ensures CmpSortValue(Num(Finite(x)), Missing, order) == Less == CmpSortValue(Str(s), Missing, order)
    ensures CmpSortValue(Num(NegInf), Num(Finite(x)), Asc) == Less == CmpSortValue(Num(Finite(x)), Num(PosInf), Asc)
  {
    BytesCompose(s, t, s);
  }

  ghost predicate PreorderOn(values: set<SortValue>, order: SortOrder) {
    && (forall a, b :: a in values && b in values ==>
          CmpSortValue(a, b, order) != Greater || CmpSortValue(b, a, order) != Greater)
    && (forall a, b, c :: a in values && b in values && c in values
          && CmpSortValue(a, b, order) != Greater && CmpSortValue(b, c, order) != Greater
          ==> CmpSortValue(a, c, order) != Greater)
  }

  /** NaN stands next to two numbers that differ. */
  ghost predicate NaNBetween(values: set<SortValue>) {
    Num(NaN) in values
    && exists x, y :: Num(x) in values && Num(y) in values && !x.NaN? && !y.NaN? && x != y
  }

  /** The comparator is a total preorder on a set of values exactly when no NaN stands next to two numbers that differ. */
  lemma PreorderIff(values: set<SortValue>, order: SortOrder)
    ensures PreorderOn(values, order) <==> !NaNBetween(values)
  {
    forall a, b | a in values && b in values
      ensures CmpSortValue(a, b, order) != Greater || CmpSortValue(b, a, order) != Greater
    {
      CmpIsAntisymmetric(a, b, order);
    }
    if NaNBetween(values) {
      var x, y :| Num(x) in values && Num(y) in values && !x.NaN? && !y.NaN? && x != y;
      NaNHides(x, y, order);
    } else {
      forall a, b, c | a in values && b in values && c in values
        && CmpSortValue(a, b, order) != Greater && CmpSortValue(b, c, order) != Greater
        ensures CmpSortValue(a, c, order) != Greater
      {
        if a != Num(NaN) && b != Num(NaN) && c != Num(NaN) {
          CmpComposes(a, b, c, order);
        }
      }
    }
  }

  /** Of two numbers that differ one comes strictly first, and yet each is level with NaN. */
  lemma NaNHides(x: Float, y: Float, order: SortOrder)
    requires !x.NaN? && !y.NaN? && x != y
    ensures CmpSortValue(Num(x), Num(y), order) == Greater || CmpSortValue(Num(y), Num(x), order) == Greater
    ensures CmpSortValue(Num(x), Num(NaN), order) == Equal == CmpSortValue(Num(NaN), Num(y), order)
    ensures CmpSortValue(Num(y), Num(NaN), order) == Equal == CmpSortValue(Num(NaN), Num(x), order)
  {
  }

  // -------------------------------------------------------------------- hits

  /** A sort column's value as the segment stores it; a DATE is a whole number of microseconds. */
  datatype Cell = Absent | Long(i: i64) | Double(x: Float) | Keyword(s: Bytes)

  /** The value as hits and cursors carry it: a whole number becomes a float. */
  function Read(c: Cell): SortValue {
    match c
    case Absent => Missing
    case Long(i) => Num(Finite(Round(i) as real))
    case Double(x) => Num(x)
    case Keyword(s) => Str(s)
  }

  /** What a query compares the column with once the value has been read into a cursor: a float becomes a whole number again. */
  function Term(c: Cell): Cell {
    if c.Long? then Long(Trip(c.i)) else c
  }

  /** A hit's stored sort values, in key order, and its encoded composite key. */
  datatype Hit = Hit(cells: seq<Cell>, key: Bytes)

  /** A value the hit does not carry counts as missing. */
  function CellAt(h: Hit, i: nat): Cell {
    if i < |h.cells| then h.cells[i] else Absent
  }

  function ValueAt(h: Hit, i: nat): SortValue {
    Read(CellAt(h, i))
  }

  function CmpFrom(a: Hit, b: Hit, orders: seq<SortOrder>, i: nat): Ordering
    requires i <= |orders|
    decreases |orders| - i
  {
    if i == |orders| then CmpBytes(a.key, b.key)
    else
      var c := CmpSortValue(ValueAt(a, i), ValueAt(b, i), orders[i]);
      if c != Equal then c else CmpFrom(a, b, orders, i + 1)
  }

  /** The sort tuple first, the encoded key as the final tiebreaker. */
  function CmpHits(a: Hit, b: Hit, orders: seq<SortOrder>): Ordering {
    CmpFrom(a, b, orders, 0)
  }

  function Ranking(orders: seq<SortOrder>): (Hit, Hit) -> bool {
    (a: Hit, b: Hit) => CmpHits(a, b, orders) != Greater
  }

  predicate Plain(h: Hit, orders: seq<SortOrder>) {
    forall i :: 0 <= i < |orders| ==> ValueAt(h, i) != Num(NaN)
  }

  /** No two hits of the set share a key. */
  ghost predicate Keyed(s: set<Hit>) {
    forall a, b :: a in s && b in s && a.key == b.key ==> a == b
  }

  lemma {:induction false} HitsCompose(a: Hit, b: Hit, c: Hit, orders: seq<SortOrder>, i: nat)
    requires i <= |orders| && Plain(a, orders) && Plain(b, orders) && Plain(c, orders)
    ensures Composes(CmpFrom(a, b, orders, i), CmpFrom(b, c, orders, i), CmpFrom(a, c, orders, i))
    ensures CmpFrom(a, b, orders, i) == Reverse(CmpFrom(b, a, orders, i))
    ensures CmpFrom(a, b, orders, i) == Equal ==> a.key == b.key
    decreases |orders| - i
  {
    hide CmpBytes, CmpSortValue;
    if i == |orders| {
      BytesCompose(a.key, b.key, c.key);
    } else {
      CmpComposes(ValueAt(a, i), ValueAt(b, i), ValueAt(c, i), orders[i]);
      CmpIsAntisymmetric(ValueAt(a, i), ValueAt(b, i), orders[i]);
      HitsCompose(a, b, c, orders, i + 1);
    }
  }

  /** The first sort value on which two hits differ decides between them, in its own direction; if none does, the encoded keys do, ascending. */
  lemma {:induction false} FirstDifferenceDecides(a: Hit, b: Hit, orders: seq<SortOrder>, i: nat, k: nat)
    requires i <= k <= |orders|
    requires forall j :: i <= j < k ==> CmpSortValue(ValueAt(a, j), ValueAt(b, j), orders[j]) == Equal
    ensures k < |orders| && CmpSortValue(ValueAt(a, k), ValueAt(b, k), orders[k]) != Equal
            ==> CmpFrom(a, b, orders, i) == CmpSortValue(ValueAt(a, k), ValueAt(b, k), orders[k])
    ensures k == |orders| && a.key != b.key ==> CmpFrom(a, b, orders, i) == if LexLe(ByteLe, a.key, b.key) then Less else Greater
    decreases k - i
  {
    hide CmpSortValue;
    if i < k { FirstDifferenceDecides(a, b, orders, i + 1, k); }
  }

  /** Ranking hits whose keys identify them is a total order. */
  lemma RankingIsOrder(orders: seq<SortOrder>, s: set<Hit>)
    requires Keyed(s) && forall h :: h in s ==> Plain(h, orders)
    ensures OrderOn(Ranking(orders), s)
  {
    hide CmpHits;
    var le := Ranking(orders);
    forall x, y | x in s && y in s ensures (le(x, y) || le(y, x)) && (le(x, y) && le(y, x) ==> x == y) {
      RankedTriple(x, y, x, orders);
    }
    forall x, y, z | x in s && y in s && z in s && le(x, y) && le(y, z) ensures le(x, z) {
      RankedTriple(x, y, z, orders);
    }
  }

  lemma RankedTriple(x: Hit, y: Hit, z: Hit, orders: seq<SortOrder>)
    requires Plain(x, orders) && Plain(y, orders) && Plain(z, orders)
    ensures var le := Ranking(orders);
            && (le(x, y) || le(y, x)) && (le(x, y) && le(y, z) ==> le(x, z))
            && (le(x, y) && le(y, x) ==> x.key == y.key)
  {
    HitsCompose(x, y, z, orders, 0);
  }

  // ------------------------------------------------------------- stored against read

  function CmpInt(i: int, j: int): Ordering {
    if i < j then Less else if i == j then Equal else Greater
  }

  /** Stored values in the column's own order: whole numbers as such, anything else as it reads. */
  function CmpCell(a: Cell, b: Cell, order: SortOrder): Ordering {
    if a.Long? && b.Long? then Directed(CmpInt(a.i, b.i), order) else CmpSortValue(Read(a), Read(b), order)
  }

  /** Each sort column has one type. */
  predicate SameKind(a: Cell, b: Cell) {
    a.Absent? || b.Absent? || ((a.Long? <==> b.Long?) && (a.Double? <==> b.Double?))
  }

  predicate SameKinds(a: Hit, b: Hit, orders: seq<SortOrder>) {
    forall i :: 0 <= i < |orders| ==> SameKind(CellAt(a, i), CellAt(b, i))
  }

  /** The trip through a cursor gives the stored value back. */
  predicate Survives(c: Cell) {
    Term(c) == c
  }

  predicate AllSurvive(h: Hit, orders: seq<SortOrder>) {
    forall i :: 0 <= i < |orders| ==> Survives(CellAt(h, i))
  }

  /** Every whole number up to 2^53 survives, and so does everything that is not one. */
  lemma SmallSurvives(c: Cell)
    requires c.Long? ==> -TWO_53 <= c.i <= TWO_53
    ensures Survives(c)
  {
    if c.Long? { SmallIsExact(c.i); }
  }

  /** A value that reads as strictly before or after the cursor's is so against the cursor's term too. */
  lemma ReadDecides(v: Cell, c: Cell, order: SortOrder)
    requires SameKind(v, c)
    ensures CmpSortValue(Read(v), Read(c), order) != Equal
            ==> CmpCell(v, Term(c), order) == CmpSortValue(Read(v), Read(c), order)
  {
    hide Round, Back;
    if v.Long? && c.Long? {
      TripReadsTheSame(c.i);
      if v.i <= Trip(c.i) { RoundRises(v.i, Trip(c.i)); }
      if v.i >= Trip(c.i) { RoundRises(Trip(c.i), v.i); }
    }
  }

  /** Values that survive compare as stored the way they compare as read. */
  lemma SurvivorsCompareAlike(v: Cell, c: Cell, order: SortOrder)
    requires SameKind(v, c) && Survives(v) && Survives(c)
    ensures CmpCell(v, c, order) == CmpSortValue(Read(v), Read(c), order)
  {
    hide Round, Back;
    ReadDecides(v, c, order);
    if v.Long? && c.Long? && Round(v.i) == Round(c.i) {
      assert Trip(v.i) == Trip(c.i);
    }
  }

  // ---------------------------------------------------------- the keyset predicate

  /** The stored value equals the cursor's term; a cursor without a value matches hits without one. */
  predicate KvExact(v: Cell, term: Cell) {
    match term
    case Absent => v.Absent?
    case Long(j) => v == Long(j)
    case Double(y) => v.Double? && PartialCmp(v.x, y) == Some(Equal)
    case Keyword(t) => v == Keyword(t)
  }

  /** The stored value is in the open range beyond the cursor's term, or missing; nothing is after a missing cursor value. */
  predicate KvAfter(v: Cell, term: Cell, order: SortOrder) {
    match term
    case Absent => false
    case Long(j) => v.Absent? || (v.Long? && if order.Asc? then v.i > j else v.i < j)
    case Double(y) => v.Absent? || (v.Double? && PartialCmp(v.x, y) == Some(if order.Asc? then Greater else Less))
    case Keyword(t) => v.Absent? || (v.Keyword? && CmpBytes(v.s, t) == if order.Asc? then Greater else Less)
  }

  predicate ExactUpTo(h: Hit, cursor: Hit, n: nat) {
    forall j :: 0 <= j < n ==> KvExact(CellAt(h, j), Term(CellAt(cursor, j)))
  }

  /** An alternative per position: equal before it, after at it; and a last one: equal throughout, greater key. */
  predicate KeysetAfter(h: Hit, cursor: Hit, orders: seq<SortOrder>) {
    || (exists i :: 0 <= i < |orders| && ExactUpTo(h, cursor, i) && KvAfter(CellAt(h, i), Term(CellAt(cursor, i)), orders[i]))
    || (ExactUpTo(h, cursor, |orders|) && CmpBytes(h.key, cursor.key) == Greater)
  }

  /** At one position: the exact query is "compares equal", the range query "compares greater". */
  lemma PositionQueries(v: Cell, c: Cell, order: SortOrder)
    requires Read(v) != Num(NaN) && Read(c) != Num(NaN) && SameKind(v, c)
    ensures KvExact(v, c) <==> CmpCell(v, c, order) == Equal
    ensures KvAfter(v, c, order) <==> CmpCell(v, c, order) == Greater
  {
    hide Round;
  }

  lemma {:induction false} KeysetFrom(h: Hit, cursor: Hit, orders: seq<SortOrder>, i: nat)
    requires i <= |orders| && Plain(h, orders) && Plain(cursor, orders) && SameKinds(h, cursor, orders)
    requires AllSurvive(h, orders) && AllSurvive(cursor, orders) && ExactUpTo(h, cursor, i)
    ensures CmpFrom(h, cursor, orders, i) == Greater <==> KeysetAfter(h, cursor, orders)
    decreases |orders| - i
  {
    hide CmpBytes, CmpSortValue, CmpCell, KvExact, KvAfter, Term, Read;
    forall j | 0 <= j < |orders|
      ensures KvExact(CellAt(h, j), Term(CellAt(cursor, j))) <==> CmpSortValue(ValueAt(h, j), ValueAt(cursor, j), orders[j]) == Equal
      ensures KvAfter(CellAt(h, j), Term(CellAt(cursor, j)), orders[j])
              <==> CmpSortValue(ValueAt(h, j), ValueAt(cursor, j), orders[j]) == Greater
    {
      assert ValueAt(h, j) != Num(NaN) && ValueAt(cursor, j) != Num(NaN);
      PositionQueries(CellAt(h, j), CellAt(cursor, j), orders[j]);
      SurvivorsCompareAlike(CellAt(h, j), CellAt(cursor, j), orders[j]);
    }
    if i < |orders| {
      if KvExact(CellAt(h, i), Term(CellAt(cursor, i))) {
        KeysetFrom(h, cursor, orders, i + 1);
      } else {
        assert !ExactUpTo(h, cursor, |orders|);
        forall k | i < k < |orders| ensures !ExactUpTo(h, cursor, k) {}
      }
    }
  }

  /** When the sort values survive, the keyset query selects exactly the hits strictly after the cursor in the ranking. */
  lemma KeysetIsStrictlyAfter(h: Hit, cursor: Hit, orders: seq<SortOrder>)
    requires Plain(h, orders) && Plain(cursor, orders) && SameKinds(h, cursor, orders)
    requires AllSurvive(h, orders) && AllSurvive(cursor, orders)
    ensures KeysetAfter(h, cursor, orders) <==> CmpHits(h, cursor, orders) == Greater
  {
    KeysetFrom(h, cursor, orders, 0);
  }

  // ------------------------------------------------------- what rounding does to it

  /** The trip through a cursor moves the value towards the start of the order. */
  predicate MovedBack(c: Cell, order: SortOrder) {
    c.Long? && if order.Asc? then Trip(c.i) < c.i else Trip(c.i) > c.i
  }

  /** A hit is selected again by its own cursor exactly when the first of its values not to survive was moved towards the start. */
  lemma SelectedAgainIff(h: Hit, orders: seq<SortOrder>)
    requires Plain(h, orders)
    ensures KeysetAfter(h, h, orders)
            <==> exists i :: 0 <= i < |orders| && AllSurvive(h, orders[..i]) && MovedBack(CellAt(h, i), orders[i])
  {
    hide Trip, CmpBytes;
    BytesCompose(h.key, h.key, h.key);
    forall i | 0 <= i < |orders|
      ensures KvExact(CellAt(h, i), Term(CellAt(h, i))) <==> Survives(CellAt(h, i))
      ensures KvAfter(CellAt(h, i), Term(CellAt(h, i)), orders[i]) <==> MovedBack(CellAt(h, i), orders[i])
    {
      assert ValueAt(h, i) != Num(NaN);
      OwnTerm(CellAt(h, i), orders[i]);
    }
    forall i | 0 <= i < |orders| ensures ExactUpTo(h, h, i) <==> AllSurvive(h, orders[..i]) {}
  }

  lemma OwnTerm(c: Cell, order: SortOrder)
    requires Read(c) != Num(NaN)
    ensures KvExact(c, Term(c)) <==> Survives(c)
    ensures KvAfter(c, Term(c), order) <==> MovedBack(c, order)
  {
    hide Trip;
    if c.Keyword? { BytesCompose(c.s, c.s, c.s); }
  }

  /** A one-key query: after the cursor's term, or level with it and of a greater key. */
  lemma KeysetOfOne(h: Hit, cursor: Hit, order: SortOrder)
    requires Plain(h, [order]) && Plain(cursor, [order]) && SameKinds(h, cursor, [order])
    ensures var c := CmpCell(CellAt(h, 0), Term(CellAt(cursor, 0)), order);
            KeysetAfter(h, cursor, [order]) <==> c == Greater || (c == Equal && CmpBytes(h.key, cursor.key) == Greater)
  {
    hide CmpBytes, CmpCell, KvExact, KvAfter, Trip;
    var orders := [order];
    assert orders[0] == order && ValueAt(h, 0) != Num(NaN) && ValueAt(cursor, 0) != Num(NaN);
    PositionQueries(CellAt(h, 0), Term(CellAt(cursor, 0)), order);
    assert ExactUpTo(h, cursor, 0);
    assert ExactUpTo(h, cursor, 1) <==> KvExact(CellAt(h, 0), Term(CellAt(cursor, 0)));
  }

  /**
   Sorting by one key, the query puts a hit on the side of the cursor where the
   ranking has it exactly when the two read differently, or the hit's stored value
   is level with the cursor's term, or stands on the side its key does.
   */
  lemma KeysetIsExactIff(h: Hit, cursor: Hit, order: SortOrder)
    requires Plain(h, [order]) && Plain(cursor, [order]) && SameKinds(h, cursor, [order])
    ensures (KeysetAfter(h, cursor, [order]) <==> CmpHits(h, cursor, [order]) == Greater)
            <==> var stored := CmpCell(CellAt(h, 0), Term(CellAt(cursor, 0)), order);
                 || CmpSortValue(ValueAt(h, 0), ValueAt(cursor, 0), order) != Equal
                 || stored == Equal
                 || (stored == Greater <==> CmpBytes(h.key, cursor.key) == Greater)
  {
    hide CmpBytes, CmpCell, CmpSortValue, KeysetAfter, Term, Read;
    assert [order][0] == order;
    KeysetOfOne(h, cursor, order);
    ReadDecides(CellAt(h, 0), CellAt(cursor, 0), order);
    assert CmpFrom(h, cursor, [order], 1) == CmpBytes(h.key, cursor.key);
  }

  /** Among the hits that store one value the query follows the ranking, whatever their keys, exactly when the value survives. */
  lemma SurvivesIff(v: Cell, order: SortOrder)
    requires Read(v) != Num(NaN)
    ensures (forall k, l :: KeysetAfter(Hit([v], k), Hit([v], l), [order])
                            <==> CmpHits(Hit([v], k), Hit([v], l), [order]) == Greater)
            <==> Survives(v)
  {
    hide KeysetAfter, CmpHits, CmpBytes, Trip;
    forall k, l ensures (KeysetAfter(Hit([v], k), Hit([v], l), [order])
                         <==> CmpHits(Hit([v], k), Hit([v], l), [order]) == Greater)
                        <==> Survives(v) || (MovedBack(v, order) <==> CmpBytes(k, l) == Greater)
    {
      var a, b := Hit([v], k), Hit([v], l);
      assert CellAt(a, 0) == v == CellAt(b, 0);
      KeysetIsExactIff(a, b, order);
      CmpIsAntisymmetric(Read(v), Read(v), order);
      OwnTerm(v, order);
      PositionQueries(v, Term(v), order);
    }
    var zero: Bytes := [0];
    assert CmpBytes([], []) == Equal && CmpBytes(zero, []) == Greater by { SomeKeys(); }
    assert KeysetAfter(Hit([v], []), Hit([v], []), [order]) || !KeysetAfter(Hit([v], []), Hit([v], []), [order]);
    assert KeysetAfter(Hit([v], zero), Hit([v], []), [order]) || !KeysetAfter(Hit([v], zero), Hit([v], []), [order]);
  }

  lemma SomeKeys()
    ensures CmpBytes([], []) == Equal && CmpBytes([0], []) == Greater
  {
  }
}
