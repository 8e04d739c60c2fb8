/**
 What happens to a 64-bit integer column on its way through a cursor: a hit's
 sort value is the integer read as a 64-bit float, rounded to the nearest, ties
 to even, and the cursor's float is cast back to an integer, saturating.
 */
module Rounding {
  import opened LittleEndian

  const TWO_52: int := 0x10_0000_0000_0000
  const TWO_53: int := 0x20_0000_0000_0000

  function Pow2(k: nat): (p: nat)
    ensures p >= 1
  {
    if k == 0 then 1 else 2 * Pow2(k - 1)
  }

  /** The spacing of floats around `n` is two to this power. */
  function Scale(n: nat): nat {
    if n <= TWO_53 then 0 else 1 + Scale((n + 1) / 2)
  }

  function Spacing(n: nat): (q: nat)
    ensures q >= 1
  {
    Pow2(Scale(n))
  }

  /** The multiple of `q` nearest to `n`, the even one of two. */
  function Nearest(n: nat, q: nat): nat
    requires q > 0
  {
    var lo := n / q * q;
    if 2 * (n % q) < q then lo
    else if 2 * (n % q) > q then lo + q
    else if n / q % 2 == 0 then lo
    else lo + q
  }

  function RoundNat(n: nat): nat {
    Nearest(n, Spacing(n))
  }

  /** The integer as a 64-bit float holds it. */
  function Round(i: int): int {
    if i >= 0 then RoundNat(i) else 0 - RoundNat(-i)
  }

  /** A float back as a 64-bit integer. */
  function Back(f: int): i64 {
    if f >= TWO_63 then TWO_63 - 1 else if f < -TWO_63 then -TWO_63 else f
  }

  /** A stored integer after its trip through a cursor. */
  function Trip(i: i64): i64 {
    Back(Round(i))
  }

  // ------------------------------------------------------------------ nearest

  lemma Divided(n: nat, q: nat)
    requires q > 0
    ensures n == n / q * q + n % q && 0 <= n % q < q
  {
  }

  lemma Scaled(a: nat, b: nat, q: nat)
    requires a <= b
    ensures a * q <= b * q
  {
  }

  /** A larger multiplier moves the product by a whole `q`. */
  lemma Stepped(a: nat, b: nat, q: nat)
    ensures a < b ==> a * q + q <= b * q
  {
    if a < b {
      Scaled(a + 1, b, q);
      assert (a + 1) * q == a * q + q;
    }
  }

  lemma QuotientsRise(n: nat, m: nat, q: nat)
    requires q > 0 && n <= m
    ensures n / q <= m / q
  {
    Divided(n, q);
    Divided(m, q);
    var a, b := n / q, m / q;
    Stepped(b, a, q);
  }

  lemma NearestRises(n: nat, m: nat, q: nat)
    requires q > 0 && n <= m
    ensures Nearest(n, q) <= Nearest(m, q)
  {
    Divided(n, q);
    Divided(m, q);
    QuotientsRise(n, m, q);
    Stepped(n / q, m / q, q);
  }

  lemma NearestOfMultiple(d: nat, q: nat)
    requires q > 0
    ensures Nearest(d * q, q) == d * q
  {
    Divided(d * q, q);
    Stepped(d * q / q, d, q);
    Stepped(d, d * q / q, q);
  }

  lemma NearestIsMultiple(n: nat, q: nat) returns (d: nat)
    requires q > 0
    ensures Nearest(n, q) == d * q
  {
    var lo := n / q;
    assert (lo + 1) * q == lo * q + q;
    d := if Nearest(n, q) == lo * q then lo else lo + 1;
  }

  // ------------------------------------------------------------------ spacing

  /** `n` lies in the stretch its spacing belongs to. */
  lemma {:induction false} InStretch(n: nat)
    ensures n <= TWO_53 * Spacing(n)
    ensures Scale(n) > 0 ==> TWO_52 * Spacing(n) < n
    decreases n
  {
    if n > TWO_53 {
      var h := (n + 1) / 2;
      InStretch(h);
      assert Spacing(n) == 2 * Spacing(h);
      if Scale(h) == 0 { assert Spacing(h) == 1; }
    }
  }

  lemma {:induction false} ScaleRises(n: nat, m: nat)
    requires n <= m
    ensures Scale(n) <= Scale(m)
    decreases m
  {
    if n > TWO_53 { ScaleRises((n + 1) / 2, (m + 1) / 2); }
  }

  lemma {:induction false} Pow2Rises(j: nat, k: nat)
    requires j <= k
    ensures Pow2(j) <= Pow2(k) && (j < k ==> 2 * Pow2(j) <= Pow2(k))
    decreases k
  {
    if j < k {
      Pow2Rises(j, k - 1);
    }
  }

  lemma {:induction false} Pow2Splits(j: nat, k: nat)
    ensures Pow2(j + k) == Pow2(j) * Pow2(k)
    decreases k
  {
    if k > 0 { Pow2Splits(j, k - 1); }
  }

  lemma {:induction false} ScaleOfTop(k: nat)
    ensures Scale(TWO_53 * Pow2(k)) == k
    decreases k
  {
    if k > 0 {
      var half := TWO_53 * Pow2(k - 1);
      assert TWO_53 * Pow2(k) == 2 * half && (2 * half + 1) / 2 == half;
      ScaleOfTop(k - 1);
    }
  }

  // ------------------------------------------------------------------ rounding

  lemma NatRises(n: nat, m: nat)
    requires n <= m
    ensures RoundNat(n) <= RoundNat(m)
  {
    hide Nearest, Spacing;
    var q, r := Spacing(n), Spacing(m);
    if q == r {
      NearestRises(n, m, q);
    } else {
      SpacingsRise(n, m);
      InStretch(n);
      InStretch(m);
      NearestRises(n, TWO_53 * q, q);
      NearestOfMultiple(TWO_53, q);
      NearestRises(TWO_52 * r, m, r);
      NearestOfMultiple(TWO_52, r);
    }
  }

  lemma SpacingsRise(n: nat, m: nat)
    requires n <= m && Spacing(n) != Spacing(m)
    ensures 2 * Spacing(n) <= Spacing(m) && Scale(m) > 0
  {
    ScaleRises(n, m);
    Pow2Rises(Scale(n), Scale(m));
  }

  /** Rounding never reverses the order of two integers. */
  lemma RoundRises(i: int, j: int)
    requires i <= j
    ensures Round(i) <= Round(j)
  {
    hide RoundNat;
    if i >= 0 { NatRises(i, j); } else if j < 0 { NatRises(-j, -i); }
  }

  /** Up to 2^53 every integer is a float. */
  lemma SmallIsExact(i: int)
    requires -TWO_53 <= i <= TWO_53
    ensures Round(i) == i
  {
    var n := if i >= 0 then i else -i;
    assert Spacing(n) == 1;
  }

  /** A rounded number is a float, so rounding it again changes nothing. */
  lemma NatIsStable(n: nat)
    ensures RoundNat(RoundNat(n)) == RoundNat(n)
  {
    hide Nearest, Scale;
    var f, k := RoundNat(n), Scale(n);
    RoundedScale(n);
    var d := NearestIsMultiple(n, Pow2(k));
    MultipleIsExact(d, k, f);
  }

  /** Rounding never takes a number out of the top of its stretch. */
  lemma RoundedScale(n: nat)
    ensures Scale(RoundNat(n)) <= Scale(n)
  {
    hide Nearest, Scale, Pow2;
    var f, k := RoundNat(n), Scale(n);
    InStretch(n);
    NearestRises(n, TWO_53 * Pow2(k), Pow2(k));
    NearestOfMultiple(TWO_53, Pow2(k));
    ScaleRises(f, TWO_53 * Pow2(k));
    ScaleOfTop(k);
  }

  /** A multiple of a coarser spacing than its own is a float. */
  lemma MultipleIsExact(d: nat, k: nat, f: nat)
    requires f == d * Pow2(k) && Scale(f) <= k
    ensures RoundNat(f) == f
  {
    hide Nearest, Scale, Pow2;
    var j := Scale(f);
    Pow2Splits(k - j, j);
    Regrouped(d, Pow2(k - j), Pow2(j));
    NearestOfMultiple(d * Pow2(k - j), Pow2(j));
  }

  lemma Regrouped(a: nat, b: nat, c: nat)
    ensures a * (b * c) == a * b * c
  {
  }

  // ---------------------------------------------------------- nearest among floats

  function FloatOf(digits: nat, exponent: nat): nat {
    digits * Pow2(exponent)
  }

  /** A whole number that a 64-bit float holds: at most 53 significant bits. */
  ghost predicate IsFloat(f: nat) {
    exists d: nat, k: nat :: d <= TWO_53 && f == FloatOf(d, k)
  }

  function Distance(a: int, b: int): nat {
    if a <= b then b - a else a - b
  }

  lemma NearestOfMultiples(n: nat, q: nat, d: nat)
    requires q > 0
    ensures Distance(n, Nearest(n, q)) <= Distance(n, d * q)
  {
    Divided(n, q);
    Stepped(d, n / q, q);
    Stepped(n / q, d, q);
  }

  /** A float below the stretch of `n` is no multiple of its spacing, but then the bottom of the stretch is nearer. */
  lemma OffGridIsBelow(n: nat, d: nat, k: nat)
    requires d <= TWO_53 && k < Scale(n)
    ensures d * Pow2(k) <= TWO_52 * Spacing(n) < n
  {
    hide Scale;
    InStretch(n);
    Pow2Rises(k, Scale(n));
    Scaled(d, TWO_53, Pow2(k));
  }

  /** No float is nearer to an integer than the one it reads as. */
  lemma RoundIsNearest(n: nat, f: nat)
    requires IsFloat(f)
    ensures Distance(n, RoundNat(n)) <= Distance(n, f)
  {
    hide Nearest, Scale;
    var d: nat, k: nat :| d <= TWO_53 && f == FloatOf(d, k);
    var s, q := Scale(n), Spacing(n);
    if k < s {
      OffGridIsBelow(n, d, k);
      NearestOfMultiples(n, q, TWO_52);
    } else {
      Pow2Splits(k - s, s);
      Regrouped(d, Pow2(k - s), q);
      NearestOfMultiples(n, q, d * Pow2(k - s));
    }
  }

  /** What it reads as is a float. */
  lemma RoundIsFloat(n: nat)
    ensures IsFloat(RoundNat(n))
  {
    hide Nearest, Scale, Pow2;
    var q := Spacing(n);
    InStretch(n);
    NearestRises(n, TWO_53 * q, q);
    NearestOfMultiple(TWO_53, q);
    var d := NearestIsMultiple(n, q);
    Stepped(TWO_53, d, q);
    assert RoundNat(n) == FloatOf(d, Scale(n));
  }

  /** Half way between two floats, the one with the even multiple of their spacing. */
  lemma TiesGoToEven(n: nat)
    requires 2 * (n % Spacing(n)) == Spacing(n)
    ensures exists e: nat :: RoundNat(n) == 2 * e * Spacing(n)
  {
    var q := Spacing(n);
    var d := n / q;
    var e := if d % 2 == 0 then d / 2 else (d + 1) / 2;
    assert 2 * e == if d % 2 == 0 then d else d + 1;
    assert (d + 1) * q == d * q + q;
    assert RoundNat(n) == 2 * e * q;
  }

  lemma TopRounds()
    ensures RoundNat(0x7fff_ffff_ffff_ffff) == TWO_63
  {
    hide Scale;
    var n: nat := 0x7fff_ffff_ffff_ffff;
    TopScale();
    assert Pow2(10) == 1024 by {
      assert Pow2(5) == 32;
      Pow2Splits(5, 5);
    }
    assert n / 1024 == 0x1f_ffff_ffff_ffff && n % 1024 == 1023;
  }

  lemma TopScale()
    ensures Scale(0x7fff_ffff_ffff_ffff) == 10
  {
    ScaleOfTop(10);
    ScaleOfTop(9);
    assert Pow2(5) == 32 && Pow2(4) == 16;
    Pow2Splits(5, 5);
    Pow2Splits(5, 4);
    InStretch(0x7fff_ffff_ffff_ffff);
    ScaleRises(0x7fff_ffff_ffff_ffff, TWO_53 * Pow2(10));
    ScaleRises(TWO_53 * Pow2(9), 0x7fff_ffff_ffff_ffff);
  }

  /** The trip through a cursor lands on an integer that reads the same. */
  lemma TripReadsTheSame(i: i64)
    ensures Round(Trip(i)) == Round(i)
  {
    hide RoundNat;
    var n: nat := if i >= 0 then i else 0 - i;
    NatIsStable(n);
    TopRounds();
    TopIsExact();
    NatRises(n, if i >= 0 then TWO_63 - 1 else TWO_63);
  }

  lemma TopIsExact()
    ensures RoundNat(TWO_63) == TWO_63
  {
    TopRounds();
    NatIsStable(0x7fff_ffff_ffff_ffff);
  }

  /** Integers a float cannot hold: one past 2^53 reads as 2^53, three past as four past. */
  lemma FirstRounded()
    ensures Trip(TWO_53 + 1) == TWO_53 && Trip(TWO_53 + 3) == TWO_53 + 4 && Trip(TWO_53 + 4) == TWO_53 + 4
  {
    assert Scale(TWO_53 + 1) == 1 + Scale((TWO_53 + 2) / 2);
    assert Scale(TWO_53 + 3) == 1 + Scale((TWO_53 + 4) / 2);
    assert Scale(TWO_53 + 4) == 1 + Scale((TWO_53 + 5) / 2);
    assert Pow2(1) == 2;
  }
}
