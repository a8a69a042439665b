/** The compact form of difficulty targets (src/arith_uint256.cpp: SetCompact, GetCompact). */
module CompactTarget {
  import opened Limbs
  import opened Arith256

  const SIGN: nat := 0x0080_0000
  const WORD: nat := 0x0100_0000

  function Size(nCompact: nat): nat { nCompact / WORD }

  function Mantissa(nCompact: nat): nat { nCompact % SIGN }

  predicate SignBit(nCompact: nat) { (nCompact / SIGN) % 2 == 1 }

  function DropBytes(x: nat, n: nat): nat {
    var p := Pow(256, n);
    x / p
  }

  /** The number a compact form stands for, sign aside: mantissa * 256^(size - 3), rounded down. */
  function Decoded(nCompact: nat): nat {
    if Size(nCompact) <= 3 then DropBytes(Mantissa(nCompact), 3 - Size(nCompact))
    else Mantissa(nCompact) * Pow(256, Size(nCompact) - 3)
  }

  lemma PowBytes(n: nat)
    ensures Pow(2, 8 * n) == Pow(256, n)
  {
    PowOfPow(n);
  }

  lemma {:induction false} PowOfPow(n: nat)
    ensures Pow(2, 8 * n) == Pow(256, n)
  {
    Pow2At32();
    if n > 0 {
      PowAdd(2, 8, 8 * (n - 1));
      PowOfPow(n - 1);
    }
  }

  lemma Pow256Values()
    ensures Pow(256, 0) == 1 && Pow(256, 1) == 256 && Pow(256, 2) == 0x1_0000 && Pow(256, 3) == 0x100_0000
  {
    assert Pow(256, 1) == 256;
  }

  lemma ModulusBytes()
    ensures Modulus() == Pow(256, 32)
  {
    PowLimbs(8);
    PowBytes(32);
  }

  /** The overflow flag is raised exactly when the number does not fit into 256 bits. */
  lemma OverflowIff(word: nat, size: nat)
    requires word < SIGN && size > 3
    ensures (word != 0 && (size > 34 || (word > 0xff && size > 33) || (word > 0xffff && size > 32))) <==>
            word * Pow(256, size - 3) >= Modulus()
  {
    ModulusBytes();
    Pow256Values();
    hide Pow;
    var k := size - 3;
    if k >= 32 {
      PowGrows(256, 32, k);
      TimesBounds(word, Pow(256, k), 1);
    } else {
      PowAdd(256, 32 - k, k);
      if k <= 29 {
        PowGrows(256, 3, 32 - k);
      }
      TimesCompare(word, Pow(256, k), Pow(256, 32 - k));
    }
  }

  lemma TimesBounds(w: nat, p: nat, a: nat)
    requires p > 0
    ensures w >= a ==> w * p >= a * p
    ensures w == 0 ==> w * p == 0
  {
    assert w >= a ==> (w - a) * p >= 0;
  }

  lemma TimesCompare(w: nat, p: nat, q: nat)
    requires p > 0
    ensures w * p >= q * p <==> w >= q
  {
    if w >= q {
      TimesAtMost(q, w, p);
    } else {
      TimesAtMost(w + 1, q, p);
      MulSum(p, w, 1);
    }
  }

  lemma TimesAtMost(a: nat, b: nat, p: nat)
    requires a <= b
    ensures a * p <= b * p && p * a <= p * b
  {
  }

  method SetCompact(x: ArithUint256, nCompact: nat) returns (fNegative: bool, fOverflow: bool)
    requires x.Valid() && nCompact < B
    modifies x.pn
    ensures x.Valid() && x.Value() == Reduced(Decoded(nCompact))
    ensures fNegative <==> SignBit(nCompact) && Decoded(nCompact) != 0
    ensures fOverflow <==> Decoded(nCompact) >= Modulus()
  {
    hide Pow, Val, Reduced;
    var nSize := nCompact / WORD;
    var nWord := nCompact % SIGN;
    if nSize <= 3 {
      PowBytes(3 - nSize);
      nWord := nWord / Pow(2, 8 * (3 - nSize));
      SmallWord(nCompact, nWord);
      Assign(x, nWord);
      ReducedFits(nWord);
    } else {
      Assign(x, nWord);
      x.ShiftLeftAssign(8 * (nSize - 3));
      PowBytes(nSize - 3);
      OverflowIff(nWord, nSize);
      TimesBounds(nWord, Pow(256, nSize - 3), 1);
    }
    fNegative := nWord != 0 && (nCompact / SIGN) % 2 == 1;
    fOverflow := nWord != 0 && (nSize > 34 || (nWord > 0xff && nSize > 33) || (nWord > 0xffff && nSize > 32));
  }

  /** operator=(uint64_t). */
  method Assign(x: ArithUint256, b: nat)
    requires x.Valid() && b < B
    modifies x.pn
    ensures x.Valid() && x.Value() == b
  {
    hide Val;
    x.Clear();
    ghost var s := x.pn[..];
    ValSet(s, 0, b);
    x.pn[0] := b;
    assert x.pn[..] == s[0 := b];
    assert Pow(B, 0) == 1;
  }

  lemma SmallWord(nCompact: nat, word: nat)
    requires Size(nCompact) <= 3 && word == Mantissa(nCompact) / Pow(256, 3 - Size(nCompact))
    ensures word == Decoded(nCompact) < SIGN < Modulus() && word < B
  {
    ModulusBytes();
    PowGrows(256, 4, 32);
    Pow256Values();
    assert Pow(256, 4) == B;
    hide Pow;
    QuotientSmaller(Mantissa(nCompact), Pow(256, 3 - Size(nCompact)));
  }

  lemma QuotientSmaller(x: nat, p: nat)
    requires p > 0
    ensures x / p <= x
  {
    DivMod(x, p);
    AtLeast(x / p, p);
    assert p * (x / p) == (x / p) * p;
  }

  // ----- Encoding -----

  /** The number of bytes of v. */
  ghost predicate IsBytes(v: nat, s: nat) {
    if v == 0 then s == 0 else s > 0 && Pow(256, s - 1) <= v < Pow(256, s)
  }

  lemma BytesOfBits(v: nat, n: nat)
    requires IsBits(v, n) && n <= 256
    ensures IsBytes(v, (n + 7) / 8) && (n + 7) / 8 <= 32
  {
    if v != 0 {
      var s := (n + 7) / 8;
      PowBytes(s);
      PowBytes(s - 1);
      PowGrows(2, n, 8 * s);
      PowGrows(2, 8 * (s - 1), n - 1);
    }
  }

  /** The three leading bytes of v. */
  function Leading(v: nat, s: nat): nat {
    if s <= 3 then v * Pow(256, 3 - s) else v / Pow(256, s - 3)
  }

  /** The mantissa and size that GetCompact arrives at for a number of s bytes. */
  function CompactOf(v: nat, s: nat): (nat, nat) {
    var m := Leading(v, s);
    if m >= SIGN then (m / 256, s + 1) else (m, s)
  }

  /** They fit: the two assertions of GetCompact. */
  lemma LeadingFits(v: nat, s: nat)
    requires IsBytes(v, s)
    ensures Leading(v, s) < WORD && CompactOf(v, s).0 < SIGN && (v > 0 ==> Leading(v, s) >= 0x1_0000)
  {
    Pow256Values();
    if v > 0 {
      if s <= 3 {
        PowAdd(256, s, 3 - s);
        PowAdd(256, s - 1, 3 - s);
        hide Pow;
        TimesBounds(v, Pow(256, 3 - s), Pow(256, s - 1));
        TimesCompare(v, Pow(256, 3 - s), Pow(256, s));
      } else {
        PowAdd(256, s - 3, 3);
        PowAdd(256, s - 3, 2);
        hide Pow;
        QuotientBound(v, Pow(256, s - 3), WORD);
        QuotientAtLeast(v, Pow(256, s - 3), 0x1_0000);
      }
    }
  }

  lemma QuotientAtLeast(v: nat, p: nat, q: nat)
    requires p > 0 && v >= p * q
    ensures v / p >= q
  {
    DivMod(v, p);
    DigitAtLeast(v, p, q, v / p, v % p);
  }

  lemma DigitAtLeast(v: nat, p: nat, q: nat, k: nat, r: nat)
    requires v == p * k + r && r < p && v >= p * q
    ensures k >= q
  {
    MulSum(p, k, 1);
    LessFactor(p, q, k + 1);
  }

  method GetCompact(x: ArithUint256, fNegative: bool) returns (nCompact: nat, ghost bytes: nat)
    requires x.Valid()
    ensures IsBytes(x.Value(), bytes) && bytes <= 32
    ensures var (m, size) := CompactOf(x.Value(), bytes);
            nCompact == size * WORD + (if fNegative && m != 0 then SIGN else 0) + m && m < SIGN && size <= 33
  {
    hide Pow, Val, IsBits, Leading;
    ghost var v := x.Value();
    var bits := x.Bits();
    var nSize := (bits + 7) / 8;
    bytes := nSize;
    BytesOfBits(v, bits);
    LeadingFits(v, nSize);
    var low: nat;
    if nSize <= 3 {
      low := x.GetLow64();
      LowIs(v, nSize, low);
      nCompact := low * Pow(2, 8 * (3 - nSize));
    } else {
      var bn := new ArithUint256.Copy(x);
      bn.ShiftRightAssign(8 * (nSize - 3));
      low := bn.GetLow64();
      HighIs(v, nSize, bn.Value(), low);
      nCompact := low;
    }
    assert nCompact == Leading(v, nSize);
    if nCompact >= SIGN {
      nCompact := nCompact / 256;
      nSize := nSize + 1;
    }
    assert nCompact < SIGN && nSize < 256;
    nCompact := nSize * WORD + (if fNegative && nCompact != 0 then SIGN else 0) + nCompact;
  }

  lemma LowIs(v: nat, s: nat, low: nat)
    requires IsBytes(v, s) && s <= 3 && low == v % (B * B)
    ensures low * Pow(2, 8 * (3 - s)) == Leading(v, s)
  {
    PowBytes(3 - s);
    Pow256Values();
    PowGrows(256, s, 3);
    DivUnique(v, B * B, 0, v);
  }

  lemma HighIs(v: nat, s: nat, w: nat, low: nat)
    requires IsBytes(v, s) && s > 3 && w == v / Pow(2, 8 * (s - 3)) && low == w % (B * B)
    ensures low == Leading(v, s)
  {
    PowBytes(s - 3);
    LeadingFits(v, s);
    DivUnique(w, B * B, 0, w);
  }

  // ----- What is lost -----

  /** The least exponent for which the mantissa has at most 23 bits. */
  function Exponent(v: nat): nat {
    if v < SIGN then 0 else 1 + Exponent(v / 256)
  }

  /** v rounded down to a multiple of 256^Exponent(v). */
  function Rounded(v: nat): nat {
    v / Pow(256, Exponent(v)) * Pow(256, Exponent(v))
  }

  lemma {:induction false} ExponentIs(v: nat, e: nat)
    requires v < SIGN * Pow(256, e) && (e > 0 ==> v >= SIGN * Pow(256, e - 1))
    ensures Exponent(v) == e
  {
    if e > 0 {
      AtLeast(SIGN, Pow(256, e - 1));
      QuotientBound(v, 256, SIGN * Pow(256, e - 1));
      if e > 1 {
        QuotientAtLeast(v, 256, SIGN * Pow(256, e - 2));
      }
      ExponentIs(v / 256, e - 1);
    }
  }

  /** Encoding and decoding rounds down to 23 bits of mantissa. */
  lemma DecodeEncode(v: nat, s: nat, nCompact: nat)
    requires IsBytes(v, s) && s <= 32
    requires nCompact == CompactOf(v, s).1 * WORD + CompactOf(v, s).0
    ensures Decoded(nCompact) == Rounded(v) && !SignBit(nCompact)
  {
    LeadingFits(v, s);
    var (m, size) := CompactOf(v, s);
    FieldsOf(nCompact, m, size);
    if s <= 3 {
      SmallRounded(v, s, m, size);
    } else {
      LargeRounded(v, s, m, size);
    }
  }

  lemma FieldsOf(nCompact: nat, m: nat, size: nat)
    requires m < SIGN && nCompact == size * WORD + m
    ensures Size(nCompact) == size && Mantissa(nCompact) == m && !SignBit(nCompact)
  {
  }

  lemma WithSign(nCompact: nat, m: nat, size: nat, negative: bool)
    requires m < SIGN && size <= 33
    requires nCompact == size * WORD + (if negative && m != 0 then SIGN else 0) + m
    ensures nCompact < B && Decoded(nCompact) == Decoded(size * WORD + m)
    ensures SignBit(nCompact) <==> negative && m != 0
  {
    FieldsOf(size * WORD + m, m, size);
    assert Size(nCompact) == size && Mantissa(nCompact) == m;
  }

  lemma SmallRounded(v: nat, s: nat, m: nat, size: nat)
    requires IsBytes(v, s) && s <= 3 && (m, size) == CompactOf(v, s)
    ensures (if size <= 3 then m / Pow(256, 3 - size) else m * Pow(256, size - 3)) == Rounded(v)
  {
    Pow256Values();
    PowGrows(256, s, 3);
    if v < SIGN {
      assert Exponent(v) == 0 && Rounded(v) == v;
    } else {
      assert Exponent(v / 256) == 0 && Exponent(v) == 1;
    }
    var p := Pow(256, 3 - s);
    assert s == 0 || p in {1, 256, 0x1_0000};
  }

  lemma LargeRounded(v: nat, s: nat, m: nat, size: nat)
    requires IsBytes(v, s) && s > 3 && (m, size) == CompactOf(v, s)
    ensures size > 3 && m * Pow(256, size - 3) == Rounded(v)
  {
    LeadingFits(v, s);
    var p := Pow(256, s - 3);
    var l := v / p;
    PowAdd(256, 1, s - 3);
    PowAdd(256, s - 4, 1);
    Pow256Values();
    assert Pow(256, s - 2) == 256 * p && p == Pow(256, s - 4) * 256;
    hide Pow;
    DivMod(v, p);
    if l >= SIGN {
      DivTwiceExact(v, p, 256);
      LargeExponentUp(v, p, l);
      ExponentIs(v, s - 2);
    } else {
      LargeExponent(v, p, l, Pow(256, s - 4));
      ExponentIs(v, s - 3);
    }
  }

  lemma DivTwiceExact(v: nat, p: nat, w: nat)
    requires p > 0 && w > 0
    ensures p * w > 0 && v / p / w == v / (w * p)
  {
    DivMod(v, p);
    DivTwice(v % p, p, v / p, w);
    assert v == v % p + p * (v / p);
    assert p * w == w * p;
    assert p * w > 0;
  }

  lemma LargeExponentUp(v: nat, p: nat, l: nat)
    requires p > 0 && l == v / p && l >= SIGN && l < WORD
    ensures v < SIGN * (256 * p) && v >= SIGN * p
  {
    DigitBounds(v, p, l, SIGN, WORD);
  }

  lemma LargeExponent(v: nat, p: nat, l: nat, p': nat)
    requires p > 0 && p == p' * 256 && l == v / p && 0x1_0000 <= l < SIGN
    ensures v < SIGN * p && v >= SIGN * p'
  {
    DigitBounds(v, p, l, 0x1_0000, SIGN);
  }

  lemma DigitBounds(v: nat, p: nat, l: nat, a: nat, b: nat)
    requires p > 0 && l == v / p && a <= l < b
    ensures p * a <= v < p * b
  {
    DivMod(v, p);
    TimesAtMost(a, l, p);
    TimesAtMost(l + 1, b, p);
    MulSum(p, l, 1);
  }

  /** What is lost is less than one part in 2^15. */
  lemma RoundingError(v: nat)
    requires v > 0
    ensures Rounded(v) <= v && (v - Rounded(v)) * 0x8000 < v
  {
    var e := Exponent(v);
    ExponentBounds(v);
    hide Exponent;
    DivMod(v, Pow(256, e));
    if e > 0 {
      assert Pow(256, e) == 256 * Pow(256, e - 1);
    }
    hide Pow;
    assert v / Pow(256, e) * Pow(256, e) == Pow(256, e) * (v / Pow(256, e));
  }

  lemma {:induction false} ExponentBounds(v: nat)
    ensures v < SIGN * Pow(256, Exponent(v)) && (Exponent(v) > 0 ==> v >= SIGN * Pow(256, Exponent(v) - 1))
    ensures Exponent(v) == 0 ==> Pow(256, Exponent(v)) == 1
  {
    if v >= SIGN {
      ExponentBounds(v / 256);
      DivMod(v, 256);
      assert Pow(256, Exponent(v)) == 256 * Pow(256, Exponent(v) - 1);
    }
  }

  lemma RoundedFits(v: nat)
    requires v < Modulus()
    ensures Rounded(v) < Modulus() && (Rounded(v) == 0 <==> v == 0)
  {
    if v > 0 {
      RoundingError(v);
    } else {
      assert Rounded(0) == 0 / Pow(256, 0) * Pow(256, 0);
    }
  }

  /** A target put into compact form and taken out of it again: rounded, with its sign, and never an overflow. */
  method ThroughCompact(x: ArithUint256, y: ArithUint256, negative: bool) returns (fNegative: bool, fOverflow: bool)
    requires x.Valid() && y.Valid()
    modifies y.pn
    ensures y.Valid() && y.Value() == Rounded(old(x.Value()))
    ensures fNegative <==> negative && old(x.Value()) != 0
    ensures !fOverflow
  {
    hide Decoded, Rounded, Leading, CompactOf, IsBytes, Val, Pow;
    ghost var v := x.Value();
    var nCompact, bytes := GetCompact(x, negative);
    ghost var (m, size) := CompactOf(v, bytes);
    WithSign(nCompact, m, size, negative);
    DecodeEncode(v, bytes, size * WORD + m);
    MantissaIsZero(v, bytes);
    ValBound(x.pn[..]);
    RoundedFits(v);
    ReducedFits(Rounded(v));
    fNegative, fOverflow := SetCompact(y, nCompact);
  }

  lemma MantissaIsZero(v: nat, s: nat)
    requires IsBytes(v, s)
    ensures CompactOf(v, s).0 == 0 <==> v == 0
  {
    LeadingFits(v, s);
  }

  /** Rounding keeps the order: a larger target never gets a smaller compact value. */
  lemma RoundedMonotone(x: nat, y: nat)
    requires x <= y
    ensures Rounded(x) <= Rounded(y)
  {
    var e, f := Exponent(x), Exponent(y);
    ExponentBounds(x);
    ExponentBounds(y);
    ExponentMonotone(x, y);
    if e == f {
      hide Exponent, Pow;
      QuotientMonotone(x, y, Pow(256, e));
    } else {
      PowGrows(256, e, f - 1);
      assert Pow(256, f) == 256 * Pow(256, f - 1);
      hide Exponent, Pow;
      BelowThreshold(x, y, Pow(256, e), Pow(256, f - 1));
    }
  }

  lemma {:induction false} ExponentMonotone(x: nat, y: nat)
    requires x <= y
    ensures Exponent(x) <= Exponent(y)
  {
    if x >= SIGN {
      ExponentMonotone(x / 256, y / 256);
    }
  }

  lemma QuotientMonotone(x: nat, y: nat, p: nat)
    requires p > 0 && x <= y
    ensures x / p <= y / p && x / p * p <= y / p * p
  {
    DivMod(x, p);
    DivMod(y, p);
    MulSum(p, y / p, 1);
    LessFactor(p, x / p, y / p + 1);
    TimesAtMost(x / p, y / p, p);
  }

  /** x is below the threshold from which the unit of y is used, and y is not. */
  lemma BelowThreshold(x: nat, y: nat, u: nat, w: nat)
    requires u > 0 && w >= u && x < SIGN * u && y >= SIGN * w
    ensures x / u * u <= y / (256 * w) * (256 * w)
  {
    DivMod(x, u);
    DivMod(y, 256 * w);
    assert x / u * u == u * (x / u);
    assert SIGN * w == (256 * w) * 0x8000;
    QuotientAtLeast(y, 256 * w, 0x8000);
    assert (256 * w) * (y / (256 * w)) >= (256 * w) * 0x8000;
  }

  /** Encoding what was decoded gives the same compact form again. */
  lemma ReencodeSame(v: nat, s: nat)
    requires IsBytes(v, s)
    ensures IsBytes(Rounded(v), s) && CompactOf(Rounded(v), s) == CompactOf(v, s)
  {
    LeadingFits(v, s);
    if s > 3 {
      LargeReencode(v, s);
    } else {
      SmallReencode(v, s);
    }
  }

  lemma SmallReencode(v: nat, s: nat)
    requires IsBytes(v, s) && s <= 3
    ensures IsBytes(Rounded(v), s) && CompactOf(Rounded(v), s) == CompactOf(v, s)
  {
    Pow256Values();
    PowGrows(256, s, 3);
    if v < SIGN {
      assert Exponent(v) == 0 && Rounded(v) == v;
    } else {
      assert Exponent(v / 256) == 0 && Exponent(v) == 1 && s == 3;
      assert Rounded(v) == v / 256 * 256;
    }
  }

  lemma LargeReencode(v: nat, s: nat)
    requires IsBytes(v, s) && s > 3
    ensures IsBytes(Rounded(v), s) && CompactOf(Rounded(v), s) == CompactOf(v, s)
  {
    var (m, size) := CompactOf(v, s);
    LargeRounded(v, s, m, size);
    RoundingError(v);
    LeadingFits(v, s);
    var p := Pow(256, s - 3);
    PowAdd(256, 1, s - 3);
    PowAdd(256, s - 3, 2);
    Pow256Values();
    var k := if size == s then m else m * 256;
    assert Pow(256, size - 3) == if size == s then p else 256 * p;
    hide Pow, Rounded;
    SameLeading(Rounded(v), p, m, size == s, k);
  }

  lemma SameLeading(r: nat, p: nat, m: nat, same: bool, k: nat)
    requires p > 0 && r == m * (if same then p else 256 * p) && k == (if same then m else m * 256) && k >= 0x1_0000
    ensures r / p == k && r >= p * 0x1_0000
  {
    MulAssoc(p, m, 256);
    assert m * (256 * p) == p * (m * 256);
    LeadingOfMultiple(r, p, k);
    TimesAtMost(0x1_0000, k, p);
  }

  lemma LeadingOfMultiple(r: nat, p: nat, k: nat)
    requires p > 0 && r == p * k
    ensures r / p == k
  {
    DivUnique(r, p, k, 0);
  }
}
