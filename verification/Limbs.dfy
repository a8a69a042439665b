/** Values of little-endian sequences of 32-bit limbs, and the bit operations on one limb
    (src/arith_uint256.h). */
module Limbs {

  const B: nat := 0x1_0000_0000
  const WIDTH: nat := 8

  function Pow(b: nat, n: nat): (p: nat)
    ensures b > 0 ==> p > 0
  {
    if n == 0 then 1 else b * Pow(b, n - 1)
  }

  lemma MulAssoc(x: int, y: int, z: int)
    ensures x * (y * z) == (x * y) * z
  {
  }

  lemma {:induction false} PowAdd(b: nat, m: nat, n: nat)
    ensures Pow(b, m + n) == Pow(b, m) * Pow(b, n)
  {
    if m > 0 {
      PowAdd(b, m - 1, n);
      MulAssoc(b, Pow(b, m - 1), Pow(b, n));
    }
  }

  lemma {:induction false} PowGrows(b: nat, m: nat, n: nat)
    requires b >= 1 && m <= n
    ensures Pow(b, m) <= Pow(b, n)
    decreases n
  {
    if m < n {
      PowGrows(b, m, n - 1);
      assert b * Pow(b, n - 1) >= 1 * Pow(b, n - 1);
    }
  }

  /** 2 to the 32 n is B to the n. */
  lemma {:induction false} PowLimbs(n: nat)
    ensures Pow(2, 32 * n) == Pow(B, n)
  {
    Pow2At32();
    if n > 0 {
      PowAdd(2, 32, 32 * (n - 1));
      PowLimbs(n - 1);
    }
  }

  lemma Pow2At32()
    ensures Pow(2, 8) == 256 && Pow(2, 16) == 0x1_0000 && Pow(2, 32) == B
  {
    assert Pow(2, 4) == 16;
    PowAdd(2, 4, 4);
    PowAdd(2, 8, 8);
    PowAdd(2, 16, 16);
  }

  ghost predicate IsLimbs(s: seq<nat>) {
    forall i :: 0 <= i < |s| ==> s[i] < B
  }

  ghost function Val(s: seq<nat>): nat {
    if s == [] then 0 else s[0] + B * Val(s[1..])
  }

  lemma {:induction false} ValConcat(a: seq<nat>, b: seq<nat>)
    ensures Val(a + b) == Val(a) + Pow(B, |a|) * Val(b)
  {
    if a == [] {
      assert a + b == b;
    } else {
      ValConcat(a[1..], b);
      assert (a + b)[1..] == a[1..] + b;
      assert B * (Pow(B, |a| - 1) * Val(b)) == Pow(B, |a|) * Val(b);
    }
  }

  lemma {:induction false} ValBound(s: seq<nat>)
    requires IsLimbs(s)
    ensures Val(s) < Pow(B, |s|)
  {
    if s != [] {
      ValBound(s[1..]);
      assert Val(s[1..]) <= Pow(B, |s| - 1) - 1;
      assert B * Val(s[1..]) <= B * (Pow(B, |s| - 1) - 1);
    }
  }

  lemma {:induction false} ValZero(s: seq<nat>)
    requires forall i :: 0 <= i < |s| ==> s[i] == 0
    ensures Val(s) == 0
  {
    if s != [] {
      ValZero(s[1..]);
    }
  }

  /** One limb more. */
  lemma ValNext(s: seq<nat>, i: nat)
    requires i < |s|
    ensures Val(s[..i + 1]) == Val(s[..i]) + Pow(B, i) * s[i]
  {
    assert s[..i + 1] == s[..i] + [s[i]];
    ValConcat(s[..i], [s[i]]);
    assert Val([s[i]]) == s[i];
  }

  /** Limb i replaced. */
  lemma ValSet(s: seq<nat>, i: nat, x: nat)
    requires i < |s|
    ensures Val(s[i := x]) == Val(s) - Pow(B, i) * s[i] + Pow(B, i) * x
  {
    var t := s[i := x];
    assert s == s[..i] + ([s[i]] + s[i + 1..]);
    assert t == s[..i] + ([x] + s[i + 1..]);
    ValConcat(s[..i], [s[i]] + s[i + 1..]);
    ValConcat(s[..i], [x] + s[i + 1..]);
    assert ([s[i]] + s[i + 1..])[1..] == s[i + 1..] == ([x] + s[i + 1..])[1..];
    assert Pow(B, i) * (s[i] + B * Val(s[i + 1..])) == Pow(B, i) * s[i] + Pow(B, i) * (B * Val(s[i + 1..]));
    assert Pow(B, i) * (x + B * Val(s[i + 1..])) == Pow(B, i) * x + Pow(B, i) * (B * Val(s[i + 1..]));
  }

  /** Equal values, equal limbs. */
  lemma {:induction false} ValInjective(a: seq<nat>, b: seq<nat>)
    requires IsLimbs(a) && IsLimbs(b) && |a| == |b| && Val(a) == Val(b)
    ensures a == b
  {
    if a != [] {
      assert (Val(a) - a[0]) % B == 0 && (Val(b) - b[0]) % B == 0;
      assert a[0] == Val(a) % B && b[0] == Val(b) % B;
      ValInjective(a[1..], b[1..]);
      assert a == [a[0]] + a[1..] && b == [b[0]] + b[1..];
    }
  }

  // ----- Bits of one limb -----

  /** Bitwise or. */
  function Or(x: nat, y: nat): nat
    decreases x
  {
    if x == 0 then y else 2 * Or(x / 2, y / 2) + (if x % 2 == 1 || y % 2 == 1 then 1 else 0)
  }

  /** With bits in different places it is a sum. */
  lemma {:induction false} OrDisjoint(x: nat, y: nat, s: nat)
    requires x < Pow(2, s) && y % Pow(2, s) == 0
    ensures Or(x, y) == x + y && Or(y, x) == x + y
    decreases s
  {
    if s == 0 {
      OrZero(y);
    } else {
      var p := Pow(2, s - 1);
      var q := y / (2 * p);
      assert y == (2 * p) * q;
      assert y / 2 == p * q;
      assert (p * q) % p == 0 by { MultipleMod(p, q); }
      OrDisjoint(x / 2, y / 2, s - 1);
      assert y % 2 == 0;
    }
  }

  lemma {:induction false} OrZero(y: nat)
    ensures Or(y, 0) == y
  {
    if y > 0 {
      OrZero(y / 2);
    }
  }

  lemma MultipleMod(p: nat, q: nat)
    requires p > 0
    ensures (p * q) % p == 0
  {
    DivUnique(p * q, p, q, 0);
  }

  /** Quotient and remainder are unique. */
  lemma DivUnique(x: nat, d: nat, q: nat, r: nat)
    requires d > 0 && x == d * q + r && r < d
    ensures x / d == q && x % d == r
  {
    EuclidUnique(d, x / d, x % d, q, r);
  }

  lemma EuclidUnique(d: int, q: int, r: int, q': int, r': int)
    requires d > 0 && d * q + r == d * q' + r' && 0 <= r < d && 0 <= r' < d
    ensures q == q' && r == r'
  {
    SmallMultiple(d, q - q', r' - r);
  }

  lemma SmallMultiple(d: int, e: int, x: int)
    requires d > 0 && d * e == x && -d < x < d
    ensures e == 0
  {
    assert e >= 1 ==> d * e >= d * 1;
    assert e <= -1 ==> d * e <= d * -1;
  }

  predicate BitSet(x: nat, j: nat) {
    (x / Pow(2, j)) % 2 == 1
  }

  lemma BitSetNext(x: nat, j: nat)
    requires j > 0
    ensures BitSet(x, j) <==> BitSet(x / 2, j - 1)
  {
    var p := Pow(2, j - 1);
    var y := x / 2;
    HalfOf(x, y / p, y % p, p);
  }

  lemma HalfOf(x: nat, q: nat, r: nat, p: nat)
    requires p > 0 && x / 2 == p * q + r && r < p
    ensures x / (2 * p) == q
  {
    assert x == (2 * p) * q + (2 * r + x % 2);
    DivUnique(x, 2 * p, q, 2 * r + x % 2);
  }

  lemma BitZero(x: nat)
    ensures BitSet(x, 0) <==> x % 2 == 1
  {
    assert Pow(2, 0) == 1;
  }

  lemma {:induction false} ZeroHasNone(k: nat)
    ensures !BitSet(0, k)
  {
    if k == 0 {
      BitZero(0);
    } else {
      BitSetNext(0, k);
      ZeroHasNone(k - 1);
    }
  }

  /** A number is determined by its bits. */
  lemma {:induction false} BitsDetermine(x: nat, y: nat)
    requires forall k {:trigger BitSet(x, k)} :: BitSet(x, k) <==> BitSet(y, k)
    ensures x == y
    decreases x + y
  {
    hide BitSet;
    if x != 0 || y != 0 {
      BitZero(x);
      BitZero(y);
      assert BitSet(x, 0) <==> BitSet(y, 0);
      forall k: nat ensures BitSet(x / 2, k) <==> BitSet(y / 2, k) {
        BitSetNext(x, k + 1);
        BitSetNext(y, k + 1);
        assert BitSet(x, k + 1) <==> BitSet(y, k + 1);
      }
      BitsDetermine(x / 2, y / 2);
    }
  }
}
