/** Big-endian digit sequences in any base, and the bounds behind Base58's buffer sizes
    (src/base58.cpp). */
module Digits {
  import opened Limbs

  ghost predicate IsDigits(s: seq<nat>, base: nat) {
    forall i :: 0 <= i < |s| ==> s[i] < base
  }

  ghost function Value(s: seq<nat>, base: nat): nat {
    if s == [] then 0 else s[0] * Pow(base, |s| - 1) + Value(s[1..], base)
  }

  lemma {:induction false} ValueBound(s: seq<nat>, base: nat)
    requires IsDigits(s, base) && base > 0
    ensures Value(s, base) < Pow(base, |s|)
  {
    if s != [] {
      ValueBound(s[1..], base);
      TopDigit(s[0], base, Pow(base, |s| - 1));
    }
  }

  lemma TopDigit(d: nat, base: nat, p: nat)
    requires d < base
    ensures d * p + p <= base * p
  {
    assert (d + 1) * p <= base * p;
    assert (d + 1) * p == d * p + p;
  }

  /** A digit at the end. */
  lemma {:induction false} ValueAppend(s: seq<nat>, d: nat, base: nat)
    ensures Value(s + [d], base) == Value(s, base) * base + d
  {
    if s == [] {
      assert ([d])[1..] == [];
    } else {
      ValueAppend(s[1..], d, base);
      assert (s + [d])[1..] == s[1..] + [d];
      AppendStep(s[0], Pow(base, |s| - 1), base, Value(s[1..], base));
    }
  }

  lemma AppendStep(x: nat, p: nat, base: nat, v: nat)
    ensures x * (base * p) + v * base == (x * p + v) * base
  {
    assert (x * p + v) * base == (x * p) * base + v * base;
  }

  /** Leading zeros do not matter. */
  lemma {:induction false} ValueZeros(s: seq<nat>, k: nat, base: nat)
    requires k <= |s| && forall i :: 0 <= i < k ==> s[i] == 0
    ensures Value(s, base) == Value(s[k..], base)
  {
    if k > 0 {
      ValueZeros(s[1..], k - 1, base);
      assert s[1..][k - 1..] == s[k..];
    }
  }

  predicate NoLeadingZero(s: seq<nat>) { s == [] || s[0] != 0 }

  /** Without leading zeros, digits are determined by their value. */
  lemma {:induction false} DigitsUnique(s: seq<nat>, t: seq<nat>, base: nat)
    requires base > 1 && IsDigits(s, base) && IsDigits(t, base) && NoLeadingZero(s) && NoLeadingZero(t)
    requires Value(s, base) == Value(t, base)
    ensures s == t
  {
    LongerIsMore(s, t, base);
    LongerIsMore(t, s, base);
    SameLength(s, t, base);
  }

  lemma LongerIsMore(s: seq<nat>, t: seq<nat>, base: nat)
    requires base > 1 && IsDigits(s, base) && IsDigits(t, base) && NoLeadingZero(t)
    ensures |s| < |t| ==> Value(s, base) < Value(t, base)
  {
    if |s| < |t| {
      ValueBound(s, base);
      PowGrows(base, |s|, |t| - 1);
      AtLeastOnce(t[0], Pow(base, |t| - 1));
    }
  }

  lemma AtLeastOnce(d: nat, p: nat)
    requires d >= 1
    ensures d * p >= p
  {
  }

  lemma {:induction false} SameLength(s: seq<nat>, t: seq<nat>, base: nat)
    requires base > 1 && IsDigits(s, base) && IsDigits(t, base) && |s| == |t| && Value(s, base) == Value(t, base)
    ensures s == t
  {
    hide Pow;
    if s != [] {
      ValueBound(s[1..], base);
      ValueBound(t[1..], base);
      SameTop(s[0], t[0], Pow(base, |s| - 1), Value(s[1..], base), Value(t[1..], base));
      SameLength(s[1..], t[1..], base);
      assert s == [s[0]] + s[1..] && t == [t[0]] + t[1..];
    }
  }

  lemma SameTop(d: nat, e: nat, p: nat, v: nat, w: nat)
    requires d * p + v == e * p + w && v < p && w < p
    ensures d == e && v == w
  {
    assert p * d == d * p && p * e == e * p;
    EuclidUnique(p, d, v, e, w);
  }

  // ----- Powers -----

  lemma {:induction false} PowMonotone(a: nat, b: nat, k: nat)
    requires a <= b
    ensures Pow(a, k) <= Pow(b, k)
    ensures a < b && k > 0 ==> Pow(a, k) < Pow(b, k)
  {
    if k > 0 {
      PowMonotone(a, b, k - 1);
      MonotoneStep(a, b, Pow(a, k - 1), Pow(b, k - 1));
    }
  }

  lemma MonotoneStep(a: nat, b: nat, x: nat, y: nat)
    requires a <= b && x <= y
    ensures a * x <= b * y
    ensures a < b && y > 0 ==> a * x < b * y
  {
    assert a * x <= a * y;
    assert a * y <= b * y;
    assert a < b ==> (a + 1) * y <= b * y;
    assert (a + 1) * y == a * y + y;
  }

  lemma {:induction false} PowPow(b: nat, n: nat, k: nat)
    ensures Pow(Pow(b, n), k) == Pow(b, n * k)
  {
    if k > 0 {
      PowPow(b, n, k - 1);
      PowAdd(b, n, n * (k - 1));
      assert n * k == n + n * (k - 1);
    }
  }

  /** If a^k <= b^m then a^n <= b^t whenever k*t >= m*n: digits of base a, counted in base b. */
  lemma DigitsNeeded(a: nat, k: nat, b: nat, m: nat, n: nat, t: nat)
    requires k > 0 && b > 0 && Pow(a, k) <= Pow(b, m) && k * t >= m * n
    ensures Pow(a, n) <= Pow(b, t)
  {
    hide Pow;
    PowersBelow(a, k, b, m, n);
    RootBelow(a, b, n, t, k, m * n, k * t);
  }

  lemma PowersBelow(a: nat, k: nat, b: nat, m: nat, n: nat)
    requires Pow(a, k) <= Pow(b, m)
    ensures Pow(a, k * n) <= Pow(b, m * n)
  {
    hide Pow;
    PowMonotone(Pow(a, k), Pow(b, m), n);
    PowPow(a, k, n);
    PowPow(b, m, n);
  }

  lemma RootBelow(a: nat, b: nat, n: nat, t: nat, k: nat, mn: nat, kt: nat)
    requires k > 0 && b > 0 && Pow(a, k * n) <= Pow(b, mn) && mn <= kt == k * t
    ensures Pow(a, n) <= Pow(b, t)
  {
    hide Pow;
    PowGrows(b, mn, kt);
    PowPow(a, n, k);
    PowPow(b, t, k);
    assert n * k == k * n && t * k == k * t;
    if Pow(a, n) > Pow(b, t) {
      PowMonotone(Pow(b, t), Pow(a, n), k);
    }
  }

  lemma PowOne(b: nat)
    ensures Pow(b, 1) == b
  {
    assert Pow(b, 0) == 1;
  }

  lemma Pow256By58()
    ensures Pow(256, 8) <= Pow(58, 11)
  {
    hide Pow;
    PowOne(58);
    PowAdd(58, 1, 1);
    PowAdd(58, 2, 2);
    PowAdd(58, 4, 4);
    PowAdd(58, 8, 2);
    PowAdd(58, 10, 1);
    PowOne(256);
    PowAdd(256, 1, 1);
    PowAdd(256, 2, 2);
    PowAdd(256, 4, 4);
  }

  lemma Pow58By256()
    ensures Pow(58, 71) <= Pow(256, 52)
  {
    hide Pow;
    PowOne(58);
    PowAdd(58, 1, 1);
    PowAdd(58, 2, 2);
    PowAdd(58, 4, 4);
    PowAdd(58, 8, 8);
    PowAdd(58, 16, 16);
    PowAdd(58, 32, 32);
    PowAdd(58, 64, 4);
    PowAdd(58, 68, 2);
    PowAdd(58, 70, 1);
    PowOne(256);
    PowAdd(256, 1, 1);
    PowAdd(256, 2, 2);
    PowAdd(256, 4, 4);
    PowAdd(256, 8, 8);
    PowAdd(256, 16, 16);
    PowAdd(256, 32, 16);
    PowAdd(256, 48, 4);
  }

  /** n bytes fit into n*138/100 + 1 base-58 digits. */
  lemma EncodeBufferSuffices(n: nat)
    ensures Pow(256, n) <= Pow(58, n * 138 / 100 + 1)
  {
    Pow256By58();
    var t := n * 138 / 100 + 1;
    assert 100 * t > 138 * n;
    DigitsNeeded(256, 8, 58, 11, n, t);
  }

  /** n base-58 digits fit into n*733/1000 + 1 bytes. */
  lemma DecodeBufferSuffices(n: nat)
    ensures Pow(58, n) <= Pow(256, n * 733 / 1000 + 1)
  {
    Pow58By256();
    var t := n * 733 / 1000 + 1;
    assert 1000 * t > 733 * n;
    DigitsNeeded(58, 71, 256, 52, n, t);
  }
}
