/**
 The canonical byte encoding of composite document keys and its strict decoder.
 The decoder inverts the encoder exactly on the keys whose components fit the
 four-byte length prefix and hold no vector, and accepts nothing but encodings.
 */
module KeyCodec {
  import opened Wrappers
  import opened ObjectPrefix
  import opened LittleEndian

  /** A key field's value; floats are their bit patterns. */
  datatype Value =
    | Str(text: Text)
    | Int(int64: i64)
    | Float(bits: u64)
    | Bool(flag: bool)
    | Ts(micros: i64)
    | Vector(floats: seq<nat>)

  datatype Field = Field(name: Text, value: Value)

  datatype Key = Key(partition: seq<Field>, identifier: seq<Field>)

  datatype Error =
    | Truncated(at: nat)
    | UnknownRole(role: byte, at: nat)
    | UnknownTag(tag: byte, at: nat)
    | BadWidth(tag: byte, expected: nat, got: nat)
    | BadName(at: nat)
    | BadStr(at: nat)
    | BadBool(flagByte: byte, at: nat)
    | RoleOrder(at: nat)

  // ---------------------------------------------------------------- encoding

  function Tag(v: Value): byte {
    match v
    case Str(_) => 1
    case Int(_) => 2
    case Float(_) => 3
    case Bool(_) => 4
    case Ts(_) => 5
    case Vector(_) => 6
  }

  function Floats(xs: seq<nat>): Bytes {
    if xs == [] then [] else Floats(xs[..|xs| - 1]) + ToLe(xs[|xs| - 1], 4)
  }

  function Payload(v: Value): Bytes {
    match v
    case Str(s) => s
    case Int(i) => ToLe(Unsigned(i), 8)
    case Float(f) => ToLe(f, 8)
    case Bool(b) => [if b then 1 else 0]
    case Ts(t) => ToLe(Unsigned(t), 8)
    case Vector(xs) => ToLe(|xs| % TWO_32, 4) + Floats(xs)
  }

  /** A length prefix of four bytes, the length wrapping at 2^32, then the bytes. */
  function Prefixed(b: Bytes): Bytes {
    ToLe(|b| % TWO_32, 4) + b
  }

  /** A field together with its role: 0 partition, 1 identifier. */
  datatype Item = Item(role: byte, field: Field)

  function EncodeItem(item: Item): Bytes {
    [item.role] + (Prefixed(item.field.name) + ([Tag(item.field.value)] + Prefixed(Payload(item.field.value))))
  }

  function EncodeItems(items: seq<Item>): Bytes {
    if items == [] then [] else EncodeItem(items[0]) + EncodeItems(items[1..])
  }

  function WithRole(role: byte, fields: seq<Field>): (items: seq<Item>)
    ensures |items| == |fields| && forall i :: 0 <= i < |fields| ==> items[i] == Item(role, fields[i])
  {
    seq(|fields|, i requires 0 <= i < |fields| => Item(role, fields[i]))
  }

  /** The fields of a key in encoding order: partition first, then identifier. */
  function Items(k: Key): seq<Item> {
    WithRole(0, k.partition) + WithRole(1, k.identifier)
  }

  function Encode(k: Key): Bytes {
    EncodeItems(Items(k))
  }

  // ---------------------------------------------------------------- decoding

  /** The length-prefixed component at the front of `rest`, which stands at byte `at`, and what follows it. */
  function Take(rest: Bytes, at: nat): (r: Result<(Bytes, Bytes), Error>)
    ensures r.Success? ==> |r.value.0| + |r.value.1| + 4 == |rest|
  {
    if |rest| < 4 then Failure(Truncated(at))
    else
      var len := FromLe(rest[..4]);
      if |rest| < 4 + len then Failure(Truncated(at + 4)) else Success((rest[4..4 + len], rest[4 + len..]))
  }

  function DecodeValue(tag: byte, payload: Bytes, tagAt: nat, valAt: nat): Result<Value, Error> {
    if tag == 1 then
      if Utf8(payload) then Success(Str(payload)) else Failure(BadStr(valAt))
    else if tag == 2 || tag == 3 || tag == 5 then
      if |payload| != 8 then Failure(BadWidth(tag, 8, |payload|))
      else
        Powers();
        var u: u64 := FromLe(payload);
        Success(if tag == 2 then Int(Signed(u)) else if tag == 3 then Float(u) else Ts(Signed(u)))
    else if tag == 4 then
      if |payload| != 1 then Failure(BadWidth(tag, 1, |payload|))
      else if payload[0] == 0 then Success(Bool(false))
      else if payload[0] == 1 then Success(Bool(true))
      else Failure(BadBool(payload[0], valAt))
    else Failure(UnknownTag(tag, tagAt))
  }

  /** A decoded item and the bytes after it. */
  datatype Parsed = Parsed(item: Item, rest: Bytes)

  function DecodeItem(rest: Bytes, at: nat, seen: bool): (r: Result<Parsed, Error>)
    requires rest != []
    ensures r.Success? ==> |r.value.rest| < |rest|
  {
    var role := rest[0];
    if role == 0 && seen then Failure(RoleOrder(at))
    else if role != 0 && role != 1 then Failure(UnknownRole(role, at))
    else
      match Take(rest[1..], at + 1)
      case Failure(e) => Failure(e)
      case Success((name, tagged)) =>
        var tagAt := at + 5 + |name|;
        if !Utf8(name) then Failure(BadName(at + 1))
        else if tagged == [] then Failure(Truncated(tagAt))
        else
          match Take(tagged[1..], tagAt + 1)
          case Failure(e) => Failure(e)
          case Success((payload, after)) =>
            match DecodeValue(tagged[0], payload, tagAt, tagAt + 1)
            case Failure(e) => Failure(e)
            case Success(value) => Success(Parsed(Item(role, Field(name, value)), after))
  }

  function Push(k: Key, item: Item): Key {
    if item.role == 0 then k.(partition := k.partition + [item.field]) else k.(identifier := k.identifier + [item.field])
  }

  /** The rest of the decoding, `at` bytes in, given what was decoded before it. */
  function DecodeRest(rest: Bytes, at: nat, seen: bool, k: Key): Result<Key, Error>
    decreases |rest|
  {
    if rest == [] then Success(k)
    else
      match DecodeItem(rest, at, seen)
      case Failure(e) => Failure(e)
      case Success(p) => DecodeRest(p.rest, at + |rest| - |p.rest|, seen || p.item.role == 1, Push(k, p.item))
  }

  function Decode(b: Bytes): Result<Key, Error> {
    DecodeRest(b, 0, false, Key([], []))
  }

  // ---------------------------------------------------------- one item, both ways

  /** Fits the length prefix and holds no vector. */
  predicate CleanField(f: Field) {
    |f.name| < TWO_32 && !f.value.Vector? && |Payload(f.value)| < TWO_32
  }

  predicate Clean(k: Key) {
    && (forall i :: 0 <= i < |k.partition| ==> CleanField(k.partition[i]))
    && (forall i :: 0 <= i < |k.identifier| ==> CleanField(k.identifier[i]))
  }

  lemma TakeBack(x: Bytes, tail: Bytes, at: nat)
    requires |x| < TWO_32
    ensures Take(Prefixed(x) + tail, at) == Success((x, tail))
  {
    hide ToLe, FromLe;
    Powers();
    FromTo(|x|, 4);
    var all := Prefixed(x) + tail;
    assert all[..4] == ToLe(|x|, 4);
    assert all[4..4 + |x|] == x && all[4 + |x|..] == tail;
  }

  lemma TakeIsPrefixed(rest: Bytes, at: nat)
    requires Take(rest, at).Success?
    ensures var (x, tail) := Take(rest, at).value; |x| < TWO_32 && rest == Prefixed(x) + tail
  {
    hide ToLe, FromLe;
    Powers();
    ToFrom(rest[..4]);
    var (x, tail) := Take(rest, at).value;
    assert rest == rest[..4] + x + tail;
  }

  lemma TakeCut(x: Bytes, n: nat, at: nat)
    requires |x| < TWO_32 && n < |Prefixed(x)|
    ensures Take(Prefixed(x)[..n], at).Failure? && Take(Prefixed(x)[..n], at).error.Truncated?
  {
    hide ToLe, FromLe;
    Powers();
    FromTo(|x|, 4);
    if n >= 4 { assert Prefixed(x)[..n][..4] == ToLe(|x|, 4); }
  }

  lemma ValueBack(v: Value, tagAt: nat, valAt: nat)
    requires !v.Vector?
    ensures DecodeValue(Tag(v), Payload(v), tagAt, valAt) == Success(v)
  {
    hide ToLe, FromLe, CharLen;
    Powers();
    match v
    case Int(i) => FromTo(Unsigned(i), 8);
    case Ts(t) => FromTo(Unsigned(t), 8);
    case Float(f) => FromTo(f, 8);
    case Str(_) =>
    case Bool(_) =>
  }

  lemma PayloadBack(tag: byte, payload: Bytes, tagAt: nat, valAt: nat)
    requires DecodeValue(tag, payload, tagAt, valAt).Success?
    ensures var v := DecodeValue(tag, payload, tagAt, valAt).value;
            !v.Vector? && Tag(v) == tag && Payload(v) == payload
  {
    hide ToLe, FromLe, CharLen;
    Powers();
    ToFrom(payload);
  }

  /** A clean item is decoded from the front of whatever it was written before, unless its role comes too late. */
  lemma ItemBack(item: Item, tail: Bytes, at: nat, seen: bool)
    requires CleanField(item.field) && item.role <= 1 && (item.role == 0 ==> !seen)
    ensures DecodeItem(EncodeItem(item) + tail, at, seen) == Success(Parsed(item, tail))
  {
    hide Prefixed, Payload, Take, DecodeValue, Utf8, Tag;
    var f := item.field;
    var n, t, v := Prefixed(f.name), Tag(f.value), Prefixed(Payload(f.value));
    var rest := EncodeItem(item) + tail;
    assert rest == [item.role] + (n + ([t] + (v + tail)));
    assert rest[1..] == n + ([t] + (v + tail));
    TakeBack(f.name, [t] + (v + tail), at + 1);
    assert ([t] + (v + tail))[1..] == v + tail;
    TakeBack(Payload(f.value), tail, at + 6 + |f.name|);
    ValueBack(f.value, at + 5 + |f.name|, at + 6 + |f.name|);
  }

  /** A decoded item is clean and is, byte for byte, the encoding at the front. */
  lemma ItemIsEncoded(rest: Bytes, at: nat, seen: bool)
    requires rest != [] && DecodeItem(rest, at, seen).Success?
    ensures var p := DecodeItem(rest, at, seen).value;
            p.item.role <= 1 && (p.item.role == 0 ==> !seen) && CleanField(p.item.field) && rest == EncodeItem(p.item) + p.rest
  {
    hide Prefixed, Payload, Take, DecodeValue, Utf8, Tag;
    var (name, tagged) := Take(rest[1..], at + 1).value;
    var tagAt := at + 5 + |name|;
    var (payload, after) := Take(tagged[1..], tagAt + 1).value;
    TakeIsPrefixed(rest[1..], at + 1);
    TakeIsPrefixed(tagged[1..], tagAt + 1);
    PayloadBack(tagged[0], payload, tagAt, tagAt + 1);
    assert tagged == [tagged[0]] + (Prefixed(payload) + after);
    assert rest == [rest[0]] + (Prefixed(name) + tagged);
    assert rest == EncodeItem(DecodeItem(rest, at, seen).value.item) + after;
  }

  /** An item cut short anywhere inside is reported truncated. */
  lemma ItemCut(item: Item, n: nat, at: nat, seen: bool)
    requires CleanField(item.field) && item.role <= 1 && (item.role == 0 ==> !seen) && 0 < n < |EncodeItem(item)|
    ensures var r := DecodeItem(EncodeItem(item)[..n], at, seen); r.Failure? && r.error.Truncated?
  {
    hide Prefixed, Payload, Take, DecodeValue, Utf8, Tag;
    var f := item.field;
    var name, t, v := Prefixed(f.name), Tag(f.value), Prefixed(Payload(f.value));
    var cut, body := EncodeItem(item)[..n], name + ([t] + v);
    assert EncodeItem(item) == [item.role] + body;
    assert cut[1..] == body[..n - 1];
    if n <= |name| {
      assert body[..n - 1] == name[..n - 1];
      TakeCut(f.name, n - 1, at + 1);
    } else if n == 1 + |name| {
      assert body[..n - 1] == name == name + [];
      TakeBack(f.name, [], at + 1);
    } else {
      var m := n - 2 - |name|;
      assert body[..n - 1] == name + ([t] + v[..m]);
      TakeBack(f.name, [t] + v[..m], at + 1);
      assert ([t] + v[..m])[1..] == v[..m];
      TakeCut(Payload(f.value), m, at + 6 + |f.name|);
    }
  }

  // ------------------------------------------------------------ whole lists of items

  /** Roles are known and no partition item follows an identifier. */
  predicate Ordered(items: seq<Item>, seen: bool) {
    items == [] || (items[0].role <= 1 && (seen ==> items[0].role == 1) && Ordered(items[1..], seen || items[0].role == 1))
  }

  predicate CleanItems(items: seq<Item>) {
    forall i :: 0 <= i < |items| ==> CleanField(items[i].field)
  }

  function PushAll(k: Key, items: seq<Item>): Key
    decreases |items|
  {
    if items == [] then k else PushAll(Push(k, items[0]), items[1..])
  }

  lemma {:induction false} ItemsBack(items: seq<Item>, at: nat, seen: bool, k: Key)
    requires Ordered(items, seen) && CleanItems(items)
    ensures DecodeRest(EncodeItems(items), at, seen, k) == Success(PushAll(k, items))
    decreases |items|
  {
    hide EncodeItem, DecodeItem, CleanField;
    if items != [] {
      var e, tail := EncodeItem(items[0]), EncodeItems(items[1..]);
      ItemBack(items[0], tail, at, seen);
      ItemsBack(items[1..], at + |e|, seen || items[0].role == 1, Push(k, items[0]));
      ItemIsNotEmpty(items[0]);
    }
  }

  lemma ItemIsNotEmpty(item: Item)
    ensures EncodeItem(item) != []
  {
    assert |EncodeItem(item)| >= 1;
  }

  /** What the decoder found, item by item. */
  ghost function Found(rest: Bytes, at: nat, seen: bool): seq<Item>
    decreases |rest|
  {
    if rest == [] || DecodeItem(rest, at, seen).Failure? then []
    else
      var p := DecodeItem(rest, at, seen).value;
      [p.item] + Found(p.rest, at + |rest| - |p.rest|, seen || p.item.role == 1)
  }

  lemma {:induction false} AcceptedIsEncoded(rest: Bytes, at: nat, seen: bool, k: Key)
    requires DecodeRest(rest, at, seen, k).Success?
    ensures var items := Found(rest, at, seen);
            && Ordered(items, seen) && CleanItems(items)
            && EncodeItems(items) == rest && DecodeRest(rest, at, seen, k).value == PushAll(k, items)
    decreases |rest|
  {
    hide EncodeItem, DecodeItem, CleanField;
    if rest != [] {
      var p := DecodeItem(rest, at, seen).value;
      ItemIsEncoded(rest, at, seen);
      AcceptedIsEncoded(p.rest, at + |rest| - |p.rest|, seen || p.item.role == 1, Push(k, p.item));
      var more := Found(p.rest, at + |rest| - |p.rest|, seen || p.item.role == 1);
      assert ([p.item] + more)[1..] == more;
    }
  }

  /** Cutting an encoding: accepted exactly on an item boundary, truncated everywhere else. */
  lemma {:induction false} CutItems(items: seq<Item>, n: nat, at: nat, seen: bool, k: Key)
    requires Ordered(items, seen) && CleanItems(items) && n <= |EncodeItems(items)|
    ensures var r := DecodeRest(EncodeItems(items)[..n], at, seen, k);
            && (r.Success? ==> exists m: nat :: m <= |items| && |EncodeItems(items[..m])| == n)
            && (r.Failure? ==> r.error.Truncated?)
    decreases |items|
  {
    hide EncodeItem, DecodeItem, CleanField;
    var b := EncodeItems(items);
    if n == 0 {
      assert items[..0] == [];
    } else {
      var e, tail := EncodeItem(items[0]), EncodeItems(items[1..]);
      if n < |e| {
        assert b[..n] == e[..n];
        ItemCut(items[0], n, at, seen);
      } else {
        assert b[..n] == e + tail[..n - |e|];
        ItemBack(items[0], tail[..n - |e|], at, seen);
        CutItems(items[1..], n - |e|, at + |e|, seen || items[0].role == 1, Push(k, items[0]));
        if DecodeRest(b[..n], at, seen, k).Success? {
          var m: nat :| m <= |items[1..]| && |EncodeItems(items[1..][..m])| == n - |e|;
          assert items[..m + 1][1..] == items[1..][..m];
        }
      }
    }
  }

  // ------------------------------------------------------------------ whole keys

  lemma {:induction false} PushedPartition(k: Key, fields: seq<Field>)
    ensures PushAll(k, WithRole(0, fields)) == k.(partition := k.partition + fields)
    decreases |fields|
  {
    if fields == [] {
      assert k.partition + fields == k.partition;
    } else {
      assert WithRole(0, fields)[1..] == WithRole(0, fields[1..]);
      PushedPartition(Push(k, Item(0, fields[0])), fields[1..]);
      assert k.partition + [fields[0]] + fields[1..] == k.partition + fields;
    }
  }

  lemma {:induction false} PushedIdentifier(k: Key, fields: seq<Field>)
    ensures PushAll(k, WithRole(1, fields)) == k.(identifier := k.identifier + fields)
    decreases |fields|
  {
    if fields == [] {
      assert k.identifier + fields == k.identifier;
    } else {
      assert WithRole(1, fields)[1..] == WithRole(1, fields[1..]);
      PushedIdentifier(Push(k, Item(1, fields[0])), fields[1..]);
      assert k.identifier + [fields[0]] + fields[1..] == k.identifier + fields;
    }
  }

  lemma {:induction false} PushedTwice(k: Key, a: seq<Item>, b: seq<Item>)
    ensures PushAll(k, a + b) == PushAll(PushAll(k, a), b)
    decreases |a|
  {
    if a == [] {
      assert a + b == b;
    } else {
      assert (a + b)[1..] == a[1..] + b;
      PushedTwice(Push(k, a[0]), a[1..], b);
    }
  }

  const NO_FIELDS := Key([], [])

  /** The items of a key, pushed in order, make the key. */
  lemma ItemsMakeTheKey(k: Key)
    ensures PushAll(NO_FIELDS, Items(k)) == k
  {
    PushedTwice(NO_FIELDS, WithRole(0, k.partition), WithRole(1, k.identifier));
    PushedPartition(NO_FIELDS, k.partition);
    PushedIdentifier(Key(k.partition, []), k.identifier);
    assert [] + k.partition == k.partition && [] + k.identifier == k.identifier;
  }

  lemma {:induction false} SplitIsOrdered(items: seq<Item>, split: nat, seen: bool)
    requires split <= |items| && (seen ==> split == 0)
    requires forall i :: 0 <= i < |items| ==> items[i].role == if i < split then 0 else 1
    ensures Ordered(items, seen)
    decreases |items|
  {
    if items != [] {
      SplitIsOrdered(items[1..], if split > 0 then split - 1 else 0, seen || items[0].role == 1);
    }
  }

  lemma CleanKeyItems(k: Key)
    ensures Ordered(Items(k), false) && (Clean(k) <==> CleanItems(Items(k)))
  {
    hide CleanField;
    var items := Items(k);
    SplitIsOrdered(items, |k.partition|, false);
    if CleanItems(items) {
      forall i | 0 <= i < |k.partition| ensures CleanField(k.partition[i]) {
        assert items[i].field == k.partition[i];
      }
      forall i | 0 <= i < |k.identifier| ensures CleanField(k.identifier[i]) {
        assert items[|k.partition| + i].field == k.identifier[i];
      }
    }
  }

  /** Items with roles in order are the items of the key they make. */
  lemma {:induction false} OrderedItemsAreTheKeys(k: Key, items: seq<Item>, seen: bool)
    requires Ordered(items, seen) && (k.identifier != [] ==> seen)
    ensures Items(PushAll(k, items)) == Items(k) + items
    decreases |items|
  {
    if items == [] {
      assert Items(k) + items == Items(k);
    } else {
      var k' := Push(k, items[0]);
      assert Items(k') == Items(k) + [items[0]];
      OrderedItemsAreTheKeys(k', items[1..], seen || items[0].role == 1);
      assert Items(k) + [items[0]] + items[1..] == Items(k) + items;
    }
  }

  // --------------------------------------------------------------- the theorems

  /** An accepted byte string is the encoding of the clean key it decodes to. */
  lemma DecodeIsStrict(b: Bytes, k: Key)
    requires Decode(b) == Success(k)
    ensures Clean(k) && Encode(k) == b
  {
    hide DecodeItem, EncodeItem, CleanField, Clean;
    AcceptedIsEncoded(b, 0, false, NO_FIELDS);
    var items := Found(b, 0, false);
    OrderedItemsAreTheKeys(NO_FIELDS, items, false);
    assert Items(NO_FIELDS) + items == items;
    CleanKeyItems(k);
  }

  /** The round trip holds exactly for keys that fit the length prefix and hold no vector. */
  lemma RoundTripIff(k: Key)
    ensures Decode(Encode(k)) == Success(k) <==> Clean(k)
  {
    hide DecodeItem, EncodeItem, CleanField, Clean, DecodeRest, EncodeItems, PushAll;
    if Clean(k) {
      CleanKeyItems(k);
      ItemsBack(Items(k), 0, false, NO_FIELDS);
      ItemsMakeTheKey(k);
    }
    if Decode(Encode(k)) == Success(k) {
      DecodeIsStrict(Encode(k), k);
    }
  }

  /** No two clean keys share an encoding. */
  lemma EncodeIsInjective(j: Key, k: Key)
    requires Clean(j) && Clean(k) && Encode(j) == Encode(k)
    ensures j == k
  {
    RoundTripIff(j);
    RoundTripIff(k);
  }

  /** Where the `m`-th field of a key ends in its encoding. */
  function Boundary(k: Key, m: nat): nat
    requires m <= |Items(k)|
  {
    |EncodeItems(Items(k)[..m])|
  }

  lemma {:induction false} EncodeSplit(items: seq<Item>, m: nat)
    requires m <= |items|
    ensures EncodeItems(items) == EncodeItems(items[..m]) + EncodeItems(items[m..])
    decreases m
  {
    hide EncodeItem;
    if m == 0 {
      assert items[..0] == [] && items[0..] == items;
    } else {
      EncodeSplit(items[1..], m - 1);
      assert items[1..][..m - 1] == items[..m][1..] && items[1..][m - 1..] == items[m..];
    }
  }

  lemma {:induction false} OrderedPrefix(items: seq<Item>, m: nat, seen: bool)
    requires m <= |items| && Ordered(items, seen)
    ensures Ordered(items[..m], seen)
    decreases m
  {
    if m > 0 {
      assert items[..m][1..] == items[1..][..m - 1];
      OrderedPrefix(items[1..], m - 1, seen || items[0].role == 1);
    }
  }

  /**
   A prefix of an encoding is accepted exactly when it ends on a field boundary,
   and then decodes to the key of the fields before it; cut anywhere else it is
   reported truncated.
   */
  lemma PrefixAcceptedIff(k: Key, n: nat)
    requires Clean(k) && n <= |Encode(k)|
    ensures var r := Decode(Encode(k)[..n]);
            && (r.Success? <==> exists m: nat :: m <= |Items(k)| && Boundary(k, m) == n)
            && (r.Failure? ==> r.error.Truncated?)
            && (forall m: nat :: m <= |Items(k)| && Boundary(k, m) == n ==> r == Success(PushAll(NO_FIELDS, Items(k)[..m])))
  {
    hide DecodeItem, EncodeItem, CleanField, Clean, DecodeRest, EncodeItems, PushAll;
    CleanKeyItems(k);
    CutItems(Items(k), n, 0, false, NO_FIELDS);
    if Decode(Encode(k)[..n]).Success? {
      var m: nat :| m <= |Items(k)| && |EncodeItems(Items(k)[..m])| == n;
      assert Boundary(k, m) == n;
    }
    forall m: nat | m <= |Items(k)| && Boundary(k, m) == n
      ensures Decode(Encode(k)[..n]) == Success(PushAll(NO_FIELDS, Items(k)[..m]))
    {
      BoundaryAccepted(Items(k), m);
    }
  }

  lemma BoundaryAccepted(items: seq<Item>, m: nat)
    requires m <= |items| && Ordered(items, false) && CleanItems(items)
    ensures var n := |EncodeItems(items[..m])|;
            n <= |EncodeItems(items)| && Decode(EncodeItems(items)[..n]) == Success(PushAll(NO_FIELDS, items[..m]))
  {
    hide DecodeItem, EncodeItem, CleanField, DecodeRest, EncodeItems, PushAll;
    EncodeSplit(items, m);
    OrderedPrefix(items, m, false);
    assert CleanItems(items[..m]) by {
      forall i | 0 <= i < m ensures CleanField(items[..m][i].field) {
        assert items[..m][i] == items[i];
      }
    }
    ItemsBack(items[..m], 0, false, NO_FIELDS);
    assert EncodeItems(items)[..|EncodeItems(items[..m])|] == EncodeItems(items[..m]);
  }

  // ------------------------------------------------------------ what errors report

  /** The component whose length prefix stands at `at` does not fit: the prefix itself, or what it promises. */
  ghost predicate CutShort(b: Bytes, at: nat) {
    at <= |b| && (|b| - at < 4 || (at >= 4 && FromLe(b[at - 4..at]) > |b| - at))
  }

  /** The component after the length prefix at `at`. */
  function Component(b: Bytes, at: nat): Bytes
    requires at + 4 <= |b| && at + 4 + FromLe(b[at..at + 4]) <= |b|
  {
    b[at + 4..at + 4 + FromLe(b[at..at + 4])]
  }

  ghost predicate HasComponent(b: Bytes, at: nat) {
    at + 4 <= |b| && at + 4 + FromLe(b[at..at + 4]) <= |b|
  }

  /** What each error says of the bytes. */
  ghost predicate ErrorMeans(b: Bytes, e: Error) {
    match e
    case Truncated(at) => CutShort(b, at)
    case UnknownRole(role, at) => at < |b| && b[at] == role && role > 1
    case RoleOrder(at) => at < |b| && b[at] == 0
    case UnknownTag(tag, at) => at < |b| && b[at] == tag && (tag == 0 || tag > 5)
    case BadWidth(tag, expected, got) => 2 <= tag <= 5 && expected == (if tag == 4 then 1 else 8) && got != expected
    case BadName(at) => HasComponent(b, at) && !Utf8(Component(b, at))
    case BadStr(at) => HasComponent(b, at) && !Utf8(Component(b, at))
    case BadBool(flag, at) => HasComponent(b, at) && Component(b, at) == [flag] && flag > 1
  }

  lemma TakeMeans(b: Bytes, at: nat)
    requires at <= |b|
    ensures var r := Take(b[at..], at);
            && (r.Failure? ==> r.error.Truncated? && CutShort(b, r.error.at))
            && (r.Success? ==> && HasComponent(b, at) && r.value.0 == Component(b, at)
                               && r.value.1 == b[at + 4 + |r.value.0|..] && at + 4 + |r.value.0| <= |b|)
  {
    hide FromLe;
    if |b| - at >= 4 { assert b[at..][..4] == b[at..at + 4]; }
  }

  lemma ValueErrorMeans(b: Bytes, tagAt: nat)
    requires tagAt < |b| && HasComponent(b, tagAt + 1)
    ensures var r := DecodeValue(b[tagAt], Component(b, tagAt + 1), tagAt, tagAt + 1); r.Failure? ==> ErrorMeans(b, r.error)
  {
    hide FromLe, Utf8;
  }

  lemma ItemErrorMeans(b: Bytes, at: nat, seen: bool)
    requires at < |b|
    ensures var r := DecodeItem(b[at..], at, seen);
            && (r.Failure? ==> ErrorMeans(b, r.error))
            && (r.Success? ==> exists next :: at < next <= |b| && r.value.rest == b[next..])
  {
    hide Take, DecodeValue, Utf8, FromLe, Component;
    assert b[at..][1..] == b[at + 1..];
    TakeMeans(b, at + 1);
    var named := Take(b[at + 1..], at + 1);
    if named.Success? {
      var tagAt := at + 5 + |named.value.0|;
      if tagAt < |b| {
        assert named.value.1 == b[tagAt..] && b[tagAt..][1..] == b[tagAt + 1..];
        TakeMeans(b, tagAt + 1);
        if Take(b[tagAt + 1..], tagAt + 1).Success? { ValueErrorMeans(b, tagAt); }
      }
    }
  }

  lemma {:induction false} RestErrorMeans(b: Bytes, at: nat, seen: bool, k: Key)
    requires at <= |b|
    ensures var r := DecodeRest(b[at..], at, seen, k); r.Failure? ==> ErrorMeans(b, r.error)
    decreases |b| - at
  {
    hide DecodeItem, ErrorMeans;
    if at < |b| {
      ItemErrorMeans(b, at, seen);
      var p := DecodeItem(b[at..], at, seen);
      if p.Success? {
        var next :| at < next <= |b| && p.value.rest == b[next..];
        RestErrorMeans(b, next, seen || p.value.item.role == 1, Push(k, p.value.item));
      }
    }
  }

  /** A rejected byte string has, where the error says, what the error says. */
  lemma DecodeErrorMeans(b: Bytes)
    ensures Decode(b).Failure? ==> ErrorMeans(b, Decode(b).error)
  {
    hide ErrorMeans, DecodeRest;
    assert b[0..] == b;
    RestErrorMeans(b, 0, false, Key([], []));
  }

  // ------------------------------------------------------------ the wire format

  /** The first bytes of `b` are the bytes of `n`, least significant first; negative numbers in two's complement. */
  ghost predicate BytesOf(b: Bytes, n: int) {
    forall j :: 0 <= j < |b| ==> b[j] as int == ByteOf(n, j)
  }

  /** The tag and the value bytes of every type, spelled out. */
  ghost predicate WireValue(tag: byte, payload: Bytes, v: Value) {
    match v
    case Str(s) => tag == 1 && payload == s
    case Int(i) => tag == 2 && |payload| == 8 && BytesOf(payload, i)
    case Float(bits) => tag == 3 && |payload| == 8 && BytesOf(payload, bits)
    case Bool(flag) => tag == 4 && payload == [if flag then 1 else 0]
    case Ts(micros) => tag == 5 && |payload| == 8 && BytesOf(payload, micros)
    case Vector(xs) =>
      && tag == 6 && |payload| == 4 + 4 * |xs| && BytesOf(payload[..4], |xs|)
      && forall i :: 0 <= i < |xs| ==> BytesOf(payload[4 + 4 * i..8 + 4 * i], xs[i])
  }

  /** One field: role, name length, name, tag, value length, value; each length in four bytes. */
  ghost predicate WireField(b: Bytes, role: byte, f: Field) {
    var n := |f.name|;
    && |b| >= 10 + n
    && b[0] == role && BytesOf(b[1..5], n) && b[5..5 + n] == f.name
    && BytesOf(b[6 + n..10 + n], |b| - 10 - n)
    && WireValue(b[5 + n], b[10 + n..], f.value)
  }

  function Concatenated(parts: seq<Bytes>): Bytes {
    if parts == [] then [] else parts[0] + Concatenated(parts[1..])
  }

  ghost predicate WireFields(parts: seq<Bytes>, role: byte, fields: seq<Field>) {
    |parts| == |fields| && forall i :: 0 <= i < |fields| ==> WireField(parts[i], role, fields[i])
  }

  /** The bytes are the frozen encoding of the key: the partition fields in role 0, then the identifier fields in role 1. */
  ghost predicate Wire(out: Bytes, k: Key) {
    exists a, b :: out == Concatenated(a) + Concatenated(b) && WireFields(a, 0, k.partition) && WireFields(b, 1, k.identifier)
  }

  lemma LeIs(n: nat, width: nat)
    ensures BytesOf(ToLe(n, width), n)
  {
    forall j | 0 <= j < width ensures ToLe(n, width)[j] as int == ByteOf(n, j) {
      ToLeBytes(n, n, 0, width, j);
    }
  }

  /** A length is written modulo 2^32, so its four bytes are those of the length. */
  lemma LengthIs(n: nat)
    ensures BytesOf(ToLe(n % TWO_32, 4), n)
  {
    Powers();
    forall j | 0 <= j < 4 ensures ToLe(n % TWO_32, 4)[j] as int == ByteOf(n, j) {
      ToLeBytes(n, n % TWO_32, -(n / TWO_32), 4, j);
    }
  }

  lemma SignedIs(i: i64)
    ensures BytesOf(ToLe(Unsigned(i), 8), i)
  {
    Powers();
    forall j | 0 <= j < 8 ensures ToLe(Unsigned(i), 8)[j] as int == ByteOf(i, j) {
      ToLeBytes(i, Unsigned(i), if i < 0 then 1 else 0, 8, j);
    }
  }

  lemma {:induction false} FloatsAre(xs: seq<nat>, i: nat)
    requires i < |xs|
    ensures |Floats(xs)| == 4 * |xs| && BytesOf(Floats(xs)[4 * i..4 * i + 4], xs[i])
    decreases |xs|
  {
    hide ToLe, ByteOf;
    var k := |xs| - 1;
    FloatsLength(xs[..k]);
    if i == k {
      LeIs(xs[k], 4);
      assert Floats(xs)[4 * k..4 * k + 4] == ToLe(xs[k], 4);
    } else {
      FloatsAre(xs[..k], i);
      assert Floats(xs)[4 * i..4 * i + 4] == Floats(xs[..k])[4 * i..4 * i + 4];
    }
  }

  lemma {:induction false} FloatsLength(xs: seq<nat>)
    ensures |Floats(xs)| == 4 * |xs|
    decreases |xs|
  {
    if xs != [] { FloatsLength(xs[..|xs| - 1]); }
  }

  lemma ValueIsWire(v: Value)
    ensures WireValue(Tag(v), Payload(v), v)
  {
    hide ToLe, ByteOf, Floats, Utf8, Unsigned;
    match v
    case Str(_) =>
    case Int(i) => SignedIs(i);
    case Float(bits) => LeIs(bits, 8);
    case Bool(_) =>
    case Ts(micros) => SignedIs(micros);
    case Vector(xs) =>
      var payload := Payload(v);
      LengthIs(|xs|);
      FloatsLength(xs);
      assert payload[..4] == ToLe(|xs| % TWO_32, 4) && payload[4..] == Floats(xs);
      forall i | 0 <= i < |xs| ensures BytesOf(payload[4 + 4 * i..8 + 4 * i], xs[i]) {
        FloatsAre(xs, i);
        assert payload[4 + 4 * i..8 + 4 * i] == Floats(xs)[4 * i..4 * i + 4];
      }
  }

  lemma FieldIsWire(item: Item)
    ensures WireField(EncodeItem(item), item.role, item.field)
  {
    hide ToLe, ByteOf, Payload, Tag, WireValue, Utf8, BytesOf;
    var b, name, value := EncodeItem(item), item.field.name, Payload(item.field.value);
    var n := |name|;
    LengthIs(n);
    LengthIs(|value|);
    ValueIsWire(item.field.value);
    assert b[1..5] == ToLe(n % TWO_32, 4) && b[5..5 + n] == name && b[5 + n] == Tag(item.field.value);
    assert b[6 + n..10 + n] == ToLe(|value| % TWO_32, 4) && b[10 + n..] == value;
  }

  function Parts(role: byte, fields: seq<Field>): seq<Bytes> {
    seq(|fields|, i requires 0 <= i < |fields| => EncodeItem(Item(role, fields[i])))
  }

  lemma {:induction false} PartsAre(role: byte, fields: seq<Field>)
    ensures EncodeItems(WithRole(role, fields)) == Concatenated(Parts(role, fields))
    ensures WireFields(Parts(role, fields), role, fields)
    decreases |fields|
  {
    hide EncodeItem, WireField, Utf8;
    forall i | 0 <= i < |fields| ensures WireField(Parts(role, fields)[i], role, fields[i]) {
      FieldIsWire(Item(role, fields[i]));
    }
    if fields != [] {
      PartsAre(role, fields[1..]);
      assert WithRole(role, fields)[1..] == WithRole(role, fields[1..]);
      assert Parts(role, fields)[1..] == Parts(role, fields[1..]);
    }
  }

  /** The encoding of every key is its wire format. */
  lemma EncodeIsWire(k: Key)
    ensures Wire(Encode(k), k)
  {
    hide EncodeItems, WireFields, Parts, Concatenated;
    PartsAre(0, k.partition);
    PartsAre(1, k.identifier);
    var a, b := WithRole(0, k.partition), WithRole(1, k.identifier);
    EncodeSplit(a + b, |a|);
    assert (a + b)[..|a|] == a && (a + b)[|a|..] == b;
  }

  // ------------------------------------------------------------ the frozen bytes

  /** The exact bytes that routing hashes, delete terms and the Java client rely on: a string field `region` = `eu`. */
  lemma FrozenString(region: Text, eu: Text)
    requires region == [114, 101, 103, 105, 111, 110] && eu == [101, 117]
    ensures EncodeItem(Item(0, Field(region, Str(eu)))) == [0, 6, 0, 0, 0, 114, 101, 103, 105, 111, 110, 1, 2, 0, 0, 0, 101, 117]
  {
    hide Utf8, ToLe, EncodeItem;
    Lengths();
    ItemBytes(Item(0, Field(region, Str(eu))), [6, 0, 0, 0], [2, 0, 0, 0]);
  }

  /** An integer field `id` = 7. */
  lemma FrozenInteger(id: Text)
    requires id == [105, 100]
    ensures EncodeItem(Item(1, Field(id, Int(7)))) == [1, 2, 0, 0, 0, 105, 100, 2, 8, 0, 0, 0, 7, 0, 0, 0, 0, 0, 0, 0]
  {
    hide Utf8, ToLe, EncodeItem;
    Lengths();
    Le8(7, 7, 0, 0, 0, 0, 0, 0, 0);
    ItemBytes(Item(1, Field(id, Int(7))), [2, 0, 0, 0], [8, 0, 0, 0]);
  }

  /** A timestamp field `day`, under its own tag. */
  lemma FrozenTimestamp(day: Text)
    requires day == [100, 97, 121]
    ensures EncodeItem(Item(1, Field(day, Ts(1_782_000_000_000_000))))
            == [1, 3, 0, 0, 0, 100, 97, 121, 5, 8, 0, 0, 0, 0x00, 0x60, 0xFD, 0x34, 0xB8, 0x54, 0x06, 0x00]
  {
    hide Utf8, ToLe, EncodeItem;
    Lengths();
    Le8(1_782_000_000_000_000, 0x00, 0x60, 0xFD, 0x34, 0xB8, 0x54, 0x06, 0x00);
    ItemBytes(Item(1, Field(day, Ts(1_782_000_000_000_000))), [3, 0, 0, 0], [8, 0, 0, 0]);
  }

  /** Two whole keys, byte for byte: partition before identifier, each field role, name, tag and value. */
  lemma GoldenKeys(region: Text, eu: Text, id: Text, day: Text)
    requires region == [114, 101, 103, 105, 111, 110] && eu == [101, 117] && id == [105, 100] && day == [100, 97, 121]
    ensures Encode(Key([Field(region, Str(eu))], [Field(id, Int(7))]))
            == [0, 6, 0, 0, 0, 114, 101, 103, 105, 111, 110, 1, 2, 0, 0, 0, 101, 117,
                1, 2, 0, 0, 0, 105, 100, 2, 8, 0, 0, 0, 7, 0, 0, 0, 0, 0, 0, 0]
    ensures Encode(Key([], [Field(day, Ts(1_782_000_000_000_000))]))
            == [1, 3, 0, 0, 0, 100, 97, 121, 5, 8, 0, 0, 0, 0x00, 0x60, 0xFD, 0x34, 0xB8, 0x54, 0x06, 0x00]
  {
    hide Utf8, EncodeItem, Encode;
    FrozenString(region, eu);
    FrozenInteger(id);
    FrozenTimestamp(day);
    SmallKeys(Field(region, Str(eu)), Field(id, Int(7)));
    SmallKeys(Field(region, Str(eu)), Field(day, Ts(1_782_000_000_000_000)));
  }

  lemma SmallKeys(partition: Field, identifier: Field)
    ensures Encode(Key([partition], [identifier])) == EncodeItem(Item(0, partition)) + EncodeItem(Item(1, identifier))
    ensures Encode(Key([], [identifier])) == EncodeItem(Item(1, identifier))
  {
    hide Utf8, EncodeItem, EncodeItems;
    var a, b := Item(0, partition), Item(1, identifier);
    assert Items(Key([partition], [identifier])) == [a] + [b] && Items(Key([], [identifier])) == [] + [b];
    EncodeLast([a], b);
    EncodeLast([], b);
    OneItem(a);
  }

  lemma OneItem(a: Item)
    ensures EncodeItems([]) == [] && EncodeItems([a]) == EncodeItem(a)
  {
    hide Utf8, EncodeItem;
    assert [a][1..] == [] && EncodeItem(a) + [] == EncodeItem(a);
  }

  /** An item's bytes, given its two length prefixes. */
  lemma ItemBytes(item: Item, nameLen: Bytes, valueLen: Bytes)
    requires ToLe(|item.field.name| % TWO_32, 4) == nameLen && ToLe(|Payload(item.field.value)| % TWO_32, 4) == valueLen
    ensures EncodeItem(item) == [item.role] + nameLen + item.field.name + [Tag(item.field.value)] + valueLen + Payload(item.field.value)
  {
    hide Utf8, ToLe, Payload, Tag;
  }

  lemma Lengths()
    ensures ToLe(2, 4) == [2, 0, 0, 0] && ToLe(3, 4) == [3, 0, 0, 0] && ToLe(6, 4) == [6, 0, 0, 0] && ToLe(8, 4) == [8, 0, 0, 0]
  {
  }

  /** Eight little-endian bytes are the number with those base-256 digits. */
  lemma Le8(n: nat, b0: byte, b1: byte, b2: byte, b3: byte, b4: byte, b5: byte, b6: byte, b7: byte)
    requires n == b0 as int + 256 * (b1 as int + 256 * (b2 as int + 256 * (b3 as int
                  + 256 * (b4 as int + 256 * (b5 as int + 256 * (b6 as int + 256 * b7 as int))))))
    ensures ToLe(n, 8) == [b0, b1, b2, b3, b4, b5, b6, b7]
  {
    hide ToLe, FromLe;
    var c7 := [b7] + [];
    var c6, c5 := [b6] + c7, [b5] + ([b6] + c7);
    var c4, c3 := [b4] + c5, [b3] + ([b4] + c5);
    var c2, c1 := [b2] + c3, [b1] + ([b2] + c3);
    FromCons(b7, []);
    FromCons(b6, c7);
    FromCons(b5, c6);
    FromCons(b4, c5);
    FromCons(b3, c4);
    FromCons(b2, c3);
    FromCons(b1, c2);
    FromCons(b0, c1);
    ToFrom([b0] + c1);
    assert [b0] + c1 == [b0, b1, b2, b3, b4, b5, b6, b7];
  }

  lemma FromCons(x: byte, rest: Bytes)
    ensures FromLe([x] + rest) == x as int + 256 * FromLe(rest) && FromLe([]) == 0
  {
    assert ([x] + rest)[1..] == rest;
  }

  // ------------------------------------------------------------- the programs

  method PushBytes(buffer: Bytes, bytes: Bytes) returns (out: Bytes)
    ensures out == buffer + Prefixed(bytes)
  {
    hide ToLe;
    out := buffer + ToLe(|bytes| % TWO_32, 4);
    out := out + bytes;
  }

  method VectorBytes(xs: seq<nat>) returns (bytes: Bytes)
    ensures bytes == Payload(Vector(xs))
  {
    hide ToLe;
    bytes := ToLe(|xs| % TWO_32, 4);
    for i := 0 to |xs|
      invariant bytes == ToLe(|xs| % TWO_32, 4) + Floats(xs[..i])
    {
      assert xs[..i + 1][..i] == xs[..i];
      bytes := bytes + ToLe(xs[i], 4);
    }
    assert xs[..|xs|] == xs;
  }

  method PayloadOf(v: Value) returns (payload: Bytes)
    ensures payload == Payload(v)
  {
    hide ToLe, Utf8;
    match v {
      case Str(s) => payload := s;
      case Int(i) => payload := ToLe(Unsigned(i), 8);
      case Float(f) => payload := ToLe(f, 8);
      case Bool(b) => payload := [if b then 1 else 0];
      case Ts(t) => payload := ToLe(Unsigned(t), 8);
      case Vector(xs) => payload := VectorBytes(xs);
    }
  }

  method PushValue(buffer: Bytes, v: Value) returns (out: Bytes)
    ensures out == buffer + ([Tag(v)] + Prefixed(Payload(v)))
  {
    hide Payload, Prefixed, Tag;
    var payload := PayloadOf(v);
    out := PushBytes(buffer + [Tag(v)], payload);
  }

  method PushFields(buffer: Bytes, role: byte, fields: seq<Field>) returns (out: Bytes)
    ensures out == buffer + EncodeItems(WithRole(role, fields))
  {
    hide Prefixed, Payload, Tag, Utf8;
    out := buffer;
    ghost var items := WithRole(role, fields);
    for i := 0 to |fields|
      invariant out == buffer + EncodeItems(items[..i])
    {
      ghost var before := out;
      out := out + [role];
      out := PushBytes(out, fields[i].name);
      out := PushValue(out, fields[i].value);
      assert out == before + EncodeItem(items[i]);
      EncodeLast(items[..i], items[i]);
      assert items[..i + 1] == items[..i] + [items[i]];
    }
    assert items[..|fields|] == items;
  }

  lemma EncodeLast(items: seq<Item>, item: Item)
    ensures EncodeItems(items + [item]) == EncodeItems(items) + EncodeItem(item)
  {
    hide EncodeItem;
    var all := items + [item];
    EncodeSplit(all, |items|);
    assert all[..|items|] == items && all[|items|..] == [item] && [item][1..] == [];
  }

  /** Encode by appending to one buffer: partition fields, then identifier fields. */
  method EncodeKey(k: Key) returns (out: Bytes)
    ensures out == Encode(k) && Wire(out, k)
    ensures Decode(out) == Success(k) <==> Clean(k)
  {
    hide EncodeItems, DecodeRest, WithRole, Clean, Wire;
    out := PushFields([], 0, k.partition);
    out := PushFields(out, 1, k.identifier);
    ghost var a, b := WithRole(0, k.partition), WithRole(1, k.identifier);
    EncodeSplit(a + b, |a|);
    assert (a + b)[..|a|] == a && (a + b)[|a|..] == b;
    assert out == EncodeItems(a) + EncodeItems(b);
    RoundTripIff(k);
    EncodeIsWire(k);
  }

  /** Decode by walking the bytes with a position and a flag, growing the key. */
  method DecodeKey(bytes: Bytes) returns (r: Result<Key, Error>)
    ensures r == Decode(bytes)
    ensures r.Success? ==> Clean(r.value) && Encode(r.value) == bytes
    ensures r.Failure? ==> ErrorMeans(bytes, r.error)
  {
    hide DecodeItem, Encode, Clean, ErrorMeans;
    DecodeErrorMeans(bytes);
    var key := Key([], []);
    var pos: nat := 0;
    var seen := false;
    assert bytes[0..] == bytes;
    while pos < |bytes|
      invariant pos <= |bytes|
      invariant Decode(bytes) == DecodeRest(bytes[pos..], pos, seen, key)
    {
      var p := DecodeItem(bytes[pos..], pos, seen);
      if p.Failure? {
        return Failure(p.error);
      }
      var next := |bytes| - |p.value.rest|;
      assert bytes[next..] == p.value.rest by { DecodedRestIsSuffix(bytes[pos..], pos, seen); }
      seen := seen || p.value.item.role == 1;
      key := Push(key, p.value.item);
      pos := next;
    }
    r := Success(key);
    DecodeIsStrict(bytes, key);
  }

  lemma DecodedRestIsSuffix(rest: Bytes, at: nat, seen: bool)
    requires rest != [] && DecodeItem(rest, at, seen).Success?
    ensures var after := DecodeItem(rest, at, seen).value.rest; |after| < |rest| && rest[|rest| - |after|..] == after
  {
    hide EncodeItem, DecodeItem;
    ItemIsEncoded(rest, at, seen);
  }
}
