/** Fixed-width little-endian integers, two's complement, and well-formed UTF-8. */
module LittleEndian {
  import opened ObjectPrefix

  function Pow256(width: nat): (p: nat)
    ensures p > 0
  {
    if width == 0 then 1 else 256 * Pow256(width - 1)
  }

  /** The low `width` bytes of `n`, least significant first. */
  function ToLe(n: nat, width: nat): (b: Bytes)
    ensures |b| == width
    decreases width
  {
    if width == 0 then [] else [(n % 256) as byte] + ToLe(n / 256, width - 1)
  }

  function FromLe(b: Bytes): (n: nat)
    ensures n < Pow256(|b|)
  {
    if b == [] then 0 else b[0] as int + 256 * FromLe(b[1..])
  }

  lemma {:induction false} FromTo(n: nat, width: nat)
    requires n < Pow256(width)
    ensures FromLe(ToLe(n, width)) == n
    decreases width
  {
    if width > 0 {
      assert ToLe(n, width)[1..] == ToLe(n / 256, width - 1);
      FromTo(n / 256, width - 1);
    }
  }

  lemma {:induction false} ToFrom(b: Bytes)
    ensures ToLe(FromLe(b), |b|) == b
    decreases |b|
  {
    if b != [] {
      ToFrom(b[1..]);
      var rest := FromLe(b[1..]);
      assert FromLe(b) % 256 == b[0] as int && FromLe(b) / 256 == rest;
      assert b == [b[0]] + b[1..];
    }
  }

  const TWO_32: nat := 0x1_0000_0000
  const TWO_63: int := 0x8000_0000_0000_0000
  const TWO_64: int := 0x1_0000_0000_0000_0000

  type i64 = x: int | -(TWO_63 as int) <= x < TWO_63
  type u64 = x: int | 0 <= x < TWO_64

  lemma Powers()
    ensures Pow256(4) == TWO_32 && Pow256(8) == TWO_64
  {
    assert Pow256(0) == 1 && Pow256(1) == 256 && Pow256(2) == 0x1_0000 && Pow256(3) == 0x100_0000;
    assert Pow256(5) == 256 * Pow256(4) && Pow256(6) == 256 * Pow256(5) && Pow256(7) == 256 * Pow256(6);
  }

  /** Byte `j` of a number in two's complement, least significant first. */
  function ByteOf(i: int, j: nat): int {
    i / Pow256(j) % 256
  }

  lemma DivisionIs(n: int, d: nat, q: int, r: nat)
    requires n == q * d + r && r < d
    ensures n / d == q
  {
    var q', r' := n / d, n % d;
    assert n == q' * d + r';
    if q' < q { Apart(q', q, d); }
    if q < q' { Apart(q, q', d); }
  }

  lemma Apart(a: int, b: int, d: nat)
    requires a < b
    ensures a * d + d <= b * d
  {
    var more: nat := b - a - 1;
    assert b == a + 1 + more;
    assert (a + 1 + more) * d == a * d + d + more * d;
    assert more * d >= 0;
  }

  /** Dividing twice is dividing by the product. */
  lemma DividedTwice(i: int, a: nat, b: nat)
    requires a > 0 && b > 0
    ensures a * b > 0 && i / a / b == i / (a * b)
  {
    var q, r := i / a / b, i / a % b;
    var s := i % a;
    assert i == i / a * a + s && i / a == q * b + r;
    assert i == (q * b + r) * a + s;
    assert (q * b + r) * a == q * (a * b) + r * a;
    Apart(r, b, a);
    assert b * a == a * b;
    DivisionIs(i, a * b, q, r * a + s);
  }

  lemma NextByte(i: int, j: nat)
    ensures ByteOf(i, j + 1) == ByteOf(i / 256, j)
  {
    DividedTwice(i, 256, Pow256(j));
  }

  /** Adding a multiple of the whole width changes no byte within it. */
  lemma LowByte(i: int, n: nat, c: int, width: nat)
    requires width > 0 && n == i + c * Pow256(width)
    ensures n % 256 == i % 256 && n / 256 == i / 256 + c * Pow256(width - 1)
  {
    var more := c * Pow256(width - 1);
    assert c * (256 * Pow256(width - 1)) == 256 * more;
    assert n == i + 256 * more;
    var q, r := i / 256, i % 256;
    assert n == (q + more) * 256 + r;
    DivisionIs(n, 256, q + more, r);
  }

  /** The bytes written for a number that is `i` up to whole multiples of the width are the bytes of `i`. */
  lemma {:induction false} ToLeBytes(i: int, n: nat, c: int, width: nat, j: nat)
    requires n == i + c * Pow256(width) && j < width
    ensures ToLe(n, width)[j] as int == ByteOf(i, j)
    decreases j
  {
    LowByte(i, n, c, width);
    if j == 0 {
      assert Pow256(0) == 1 && i / 1 == i;
    } else {
      NextByte(i, j - 1);
      ToLeBytes(i / 256, n / 256, c, width - 1, j - 1);
      assert ToLe(n, width)[j] == ToLe(n / 256, width - 1)[j - 1];
    }
  }

  function Unsigned(i: i64): u64 {
    if i < 0 then i + TWO_64 else i
  }

  function Signed(u: u64): i64 {
    if u < TWO_63 then u else u - TWO_64
  }

  /** The length of the well-formed UTF-8 character at the front, or 0 (section 4 of RFC 3629). */
  function CharLen(b: Bytes): (n: nat)
    ensures n <= |b|
  {
    if |b| >= 1 && b[0] < 0x80 then 1
    else if |b| >= 2 && 0xC2 <= b[0] <= 0xDF && Tail(b[1]) then 2
    else if |b| >= 3 && 0xE0 <= b[0] <= 0xEF && Tail(b[2])
            && (if b[0] == 0xE0 then 0xA0 <= b[1] <= 0xBF else if b[0] == 0xED then 0x80 <= b[1] <= 0x9F else Tail(b[1])) then 3
    else if |b| >= 4 && 0xF0 <= b[0] <= 0xF4 && Tail(b[2]) && Tail(b[3])
            && (if b[0] == 0xF0 then 0x90 <= b[1] <= 0xBF else if b[0] == 0xF4 then 0x80 <= b[1] <= 0x8F else Tail(b[1])) then 4
    else 0
  }

  predicate Tail(b: byte) {
    0x80 <= b <= 0xBF
  }

  predicate Utf8(b: Bytes)
    decreases |b|
  {
    b == [] || (CharLen(b) > 0 && Utf8(b[CharLen(b)..]))
  }

  /** A Unicode scalar value. */
  predicate Scalar(c: int) {
    0 <= c < 0xD800 || 0xE000 <= c < 0x110000
  }

  /** Its UTF-8 bytes (section 3 of RFC 3629). */
  function CharBytes(c: int): (b: Bytes)
    requires Scalar(c)
    ensures 1 <= |b| <= 4
  {
    if c < 0x80 then [c as byte]
    else if c < 0x800 then [(0xC0 + c / 64) as byte, (0x80 + c % 64) as byte]
    else if c < 0x1_0000 then [(0xE0 + c / 4096) as byte, (0x80 + c / 64 % 64) as byte, (0x80 + c % 64) as byte]
    else [(0xF0 + c / 262144) as byte, (0x80 + c / 4096 % 64) as byte, (0x80 + c / 64 % 64) as byte, (0x80 + c % 64) as byte]
  }

  function Chars(cs: seq<int>): Bytes
    requires forall i :: 0 <= i < |cs| ==> Scalar(cs[i])
  {
    if cs == [] then [] else CharBytes(cs[0]) + Chars(cs[1..])
  }

  lemma CharIsRead(c: int, rest: Bytes)
    requires Scalar(c)
    ensures CharLen(CharBytes(c) + rest) == |CharBytes(c)|
  {
  }

  /** The scalar value whose bytes are in front. */
  function CharOf(b: Bytes): (c: int)
    requires CharLen(b) > 0
    ensures Scalar(c)
  {
    if CharLen(b) == 1 then b[0] as int
    else if CharLen(b) == 2 then (b[0] as int - 0xC0) * 64 + (b[1] as int - 0x80)
    else if CharLen(b) == 3 then (b[0] as int - 0xE0) * 4096 + (b[1] as int - 0x80) * 64 + (b[2] as int - 0x80)
    else (b[0] as int - 0xF0) * 262144 + (b[1] as int - 0x80) * 4096 + (b[2] as int - 0x80) * 64 + (b[3] as int - 0x80)
  }

  lemma TwoDigits(x: int, y: int)
    requires 0 <= y < 64
    ensures (x * 64 + y) / 64 == x && (x * 64 + y) % 64 == y
  {
  }

  lemma ThreeDigits(x: int, y: int, z: int)
    requires 0 <= y < 64 && 0 <= z < 64
    ensures var c := x * 4096 + y * 64 + z; c / 4096 == x && c / 64 % 64 == y && c % 64 == z
  {
    TwoDigits(x * 64 + y, z);
    TwoDigits(x, y);
  }

  lemma FourDigits(w: int, x: int, y: int, z: int)
    requires 0 <= x < 64 && 0 <= y < 64 && 0 <= z < 64
    ensures var c := w * 262144 + x * 4096 + y * 64 + z;
            c / 262144 == w && c / 4096 % 64 == x && c / 64 % 64 == y && c % 64 == z
  {
    ThreeDigits(w * 64 + x, y, z);
    TwoDigits(w, x);
  }

  lemma CharIsWritten(b: Bytes)
    requires CharLen(b) > 0
    ensures b[..CharLen(b)] == CharBytes(CharOf(b))
  {
    match CharLen(b)
    case 1 =>
    case 2 => TwoDigits(b[0] as int - 0xC0, b[1] as int - 0x80);
    case 3 => ThreeDigits(b[0] as int - 0xE0, b[1] as int - 0x80, b[2] as int - 0x80);
    case _ => FourDigits(b[0] as int - 0xF0, b[1] as int - 0x80, b[2] as int - 0x80, b[3] as int - 0x80);
  }

  ghost predicate EncodesChars(b: Bytes, cs: seq<int>) {
    (forall i :: 0 <= i < |cs| ==> Scalar(cs[i])) && b == Chars(cs)
  }

  /** Accepted as UTF-8 are exactly the encodings of lists of scalar values. */
  lemma Utf8Iff(b: Bytes)
    ensures Utf8(b) <==> exists cs :: EncodesChars(b, cs)
  {
    if Utf8(b) {
      var cs := CharsOf(b);
    }
    forall cs | EncodesChars(b, cs) ensures Utf8(b) { CharsAreUtf8(cs); }
  }

  lemma {:induction false} CharsOf(b: Bytes) returns (cs: seq<int>)
    requires Utf8(b)
    ensures EncodesChars(b, cs)
    decreases |b|
  {
    hide CharLen, CharBytes, CharOf;
    if b == [] {
      cs := [];
    } else {
      CharIsWritten(b);
      var rest := CharsOf(b[CharLen(b)..]);
      cs := [CharOf(b)] + rest;
      assert cs[1..] == rest;
    }
  }

  lemma {:induction false} CharsAreUtf8(cs: seq<int>)
    requires forall i :: 0 <= i < |cs| ==> Scalar(cs[i])
    ensures Utf8(Chars(cs))
    decreases |cs|
  {
    hide CharLen, CharBytes;
    if cs != [] {
      var b, rest := Chars(cs), Chars(cs[1..]);
      CharsAreUtf8(cs[1..]);
      CharIsRead(cs[0], rest);
      assert b[|CharBytes(cs[0])|..] == rest;
    }
  }

  /** A string, as its UTF-8 bytes. */
  type Text = b: Bytes | Utf8(b) witness []
}
