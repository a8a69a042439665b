/** base_uint<256> (src/arith_uint256.h, src/arith_uint256.cpp): each operation updates the limbs in
    place and is exact modulo 2^256. */
module Arith256 {
  import opened Limbs

  /** 2^256. */
  ghost function Modulus(): nat { Pow(B, WIDTH) }

  /** A number as it fits into 256 bits. */
  ghost function Reduced(x: int): nat { x % Modulus() }

  lemma ReducedFits(x: nat)
    requires x < Modulus()
    ensures Reduced(x) == x
  {
    DivUnique(x, Modulus(), 0, x);
  }

  class ArithUint256 {
    const pn: array<nat>

    ghost predicate Valid()
      reads pn
    {
      pn.Length == WIDTH && IsLimbs(pn[..])
    }

    ghost function Value(): nat
      reads pn
    {
      Val(pn[..])
    }

    constructor (b: nat)
      requires b < B * B
      ensures Valid() && fresh(pn) && Value() == b
    {
      pn := new nat[WIDTH](i => if i == 0 then b % B else if i == 1 then b / B else 0);
      new;
      ghost var s := pn[..];
      assert s == [b % B] + ([b / B] + seq(6, i => 0));
      ValZero(seq(6, i => 0));
      ValConcat([b % B], [b / B] + seq(6, i => 0));
      ValConcat([b / B], seq(6, i => 0));
      assert Val([b % B]) == b % B && Val([b / B]) == b / B;
    }

    constructor Copy(b: ArithUint256)
      requires b.Valid()
      ensures Valid() && fresh(pn) && pn[..] == b.pn[..]
    {
      pn := new nat[WIDTH](i requires 0 <= i < WIDTH && b.pn.Length == WIDTH reads b.pn => b.pn[i]);
      new;
      assert pn[..] == b.pn[..];
    }

    // ----- Addition and subtraction -----

    method AddAssign(b: ArithUint256)
      requires Valid() && b.Valid()
      modifies pn
      ensures Valid() && Value() == Reduced(old(Value()) + old(b.Value()))
    {
      hide Val, Pow, AddedTo;
      ghost var x, y := pn[..], b.pn[..];
      var carry: nat := 0;
      AddStart(x, y);
      for i := 0 to WIDTH
        invariant pn.Length == WIDTH && pn[i..] == x[i..] && b.pn[i..] == y[i..]
        invariant AddedTo(x, y, pn[..], i, carry)
      {
        assert pn[i] == pn[i..][0] == x[i..][0] == x[i] && b.pn[i] == b.pn[i..][0] == y[i..][0] == y[i];
        AddNext(x, y, pn[..], i, carry);
        var n: nat := carry + pn[i] + b.pn[i];
        assert n < B * B;
        ghost var before := pn[..];
        pn[i] := Low(n);
        carry := High(n);
        assert pn[..] == before[i := Low(n)];
        KeepRest(before, x, pn[..], i);
      }
      AddEnd(x, y, pn[..], carry);
    }

    /** The complement and one. */
    method Negate() returns (ret: ArithUint256)
      requires Valid()
      ensures ret.Valid() && fresh(ret) && fresh(ret.pn) && ret.Value() == Reduced(Modulus() - Value())
    {
      ret := new ArithUint256(0);
      for i := 0 to WIDTH
        invariant ret.Valid()
        invariant forall k :: 0 <= k < i ==> ret.pn[k] == B - 1 - pn[k]
      {
        ret.pn[i] := B - 1 - pn[i];
      }
      Complement(pn[..], ret.pn[..]);
      ret.Increment();
    }

    method SubAssign(b: ArithUint256)
      requires Valid() && b.Valid()
      modifies pn
      ensures Valid() && Value() == Reduced(old(Value()) - old(b.Value()))
    {
      hide Val, Pow;
      ghost var x, y := Value(), b.Value();
      ValBound(pn[..]);
      ValBound(b.pn[..]);
      var c := b.Negate();
      AddAssign(c);
      SubMod(x, y, Modulus());
    }

    method Increment()
      requires Valid()
      modifies pn
      ensures Valid() && Value() == Reduced(old(Value()) + 1)
    {
      hide Val, Pow, CarriedTo;
      ghost var x := pn[..];
      var i := 0;
      CarryStart(x, 1);
      pn[0] := Bump(pn[0], 1);
      assert pn[..] == x[0 := Bump(x[0], 1)];
      while pn[i] == 0 && i < WIDTH - 1
        invariant 0 <= i < WIDTH && pn.Length == WIDTH && CarriedTo(x, pn[..], i, 1)
        decreases WIDTH - i
      {
        ghost var before := pn[..];
        i := i + 1;
        CarryNext(x, before, i, 1);
        pn[i] := Bump(pn[i], 1);
        assert pn[..] == before[i := Bump(before[i], 1)];
      }
      CarryEnd(x, pn[..], i, 1);
    }

    method Decrement()
      requires Valid()
      modifies pn
      ensures Valid() && Value() == Reduced(old(Value()) - 1)
    {
      hide Val, Pow, CarriedTo;
      ghost var x := pn[..];
      var i := 0;
      CarryStart(x, -1);
      pn[0] := Bump(pn[0], -1);
      assert pn[..] == x[0 := Bump(x[0], -1)];
      while pn[i] == B - 1 && i < WIDTH - 1
        invariant 0 <= i < WIDTH && pn.Length == WIDTH && CarriedTo(x, pn[..], i, -1)
        decreases WIDTH - i
      {
        ghost var before := pn[..];
        i := i + 1;
        CarryNext(x, before, i, -1);
        pn[i] := Bump(pn[i], -1);
        assert pn[..] == before[i := Bump(before[i], -1)];
      }
      CarryEnd(x, pn[..], i, -1);
    }

    method CompareTo(b: ArithUint256) returns (r: int)
      requires Valid() && b.Valid()
      ensures r == if Value() < b.Value() then -1 else if Value() > b.Value() then 1 else 0
    {
      hide Val, Pow;
      ghost var x, y := pn[..], b.pn[..];
      var i := WIDTH;
      while i > 0
        invariant 0 <= i <= WIDTH && x[i..] == y[i..]
      {
        i := i - 1;
        assert x[i..] == [x[i]] + x[i + 1..] && y[i..] == [y[i]] + y[i + 1..];
        if pn[i] < b.pn[i] {
          HigherLimb(x, y, i);
          return -1;
        }
        if pn[i] > b.pn[i] {
          HigherLimb(y, x, i);
          return 1;
        }
      }
      assert x[0..] == x && y[0..] == y;
      r := 0;
    }

    // ----- Multiplication -----

    method MulAssign32(b32: nat)
      requires Valid() && b32 < B
      modifies pn
      ensures Valid() && Value() == Reduced(old(Value()) * b32)
    {
      hide Val, Pow, TimesTo;
      ghost var x := pn[..];
      var carry: nat := 0;
      TimesStart(x, b32);
      for i := 0 to WIDTH
        invariant pn.Length == WIDTH && pn[i..] == x[i..] && TimesTo(x, b32, pn[..], i, carry)
      {
        assert pn[i] == pn[i..][0] == x[i..][0] == x[i];
        TimesNext(x, b32, pn[..], i, carry);
        var n: nat := carry + b32 * pn[i];
        assert n < B * B;
        ghost var before := pn[..];
        pn[i] := Low(n);
        carry := High(n);
        assert pn[..] == before[i := Low(n)];
        KeepRest(before, x, pn[..], i);
      }
      TimesEnd(x, b32, pn[..], carry);
    }

    /** The product modulo 2^256; but the product of a number with itself, operated on in place, is 0,
        since clearing the result clears both operands. */
    method MulAssign(b: ArithUint256)
      requires Valid() && b.Valid()
      modifies pn
      ensures Valid()
      ensures Value() == if pn == b.pn then 0 else Reduced(old(Value()) * old(b.Value()))
    {
      hide Val, Pow;
      var a := new ArithUint256.Copy(this);
      ghost var x, y := pn[..], b.pn[..];
      Clear();
      MulZero(x, y);
      for j := 0 to WIDTH
        invariant Valid() && a.pn[..] == x && a.pn != pn && a.pn != b.pn
        invariant b.Valid() && (pn == b.pn ==> AllZero(pn[..]))
        invariant pn != b.pn ==> b.pn[..] == y && Value() == (Val(x[..j]) * Val(y)) % Modulus()
      {
        ghost var r := pn[..];
        MulRow(a.pn[j], j, b);
        if pn != b.pn {
          MulNext(x, y, r, pn[..], j);
        }
      }
      assert x[..WIDTH] == x;
      if pn == b.pn {
        ValZero(pn[..]);
      }
    }

    method Clear()
      requires pn.Length == WIDTH
      modifies pn
      ensures Valid() && AllZero(pn[..]) && Value() == 0
    {
      for i := 0 to WIDTH
        invariant forall k :: 0 <= k < i ==> pn[k] == 0
      {
        pn[i] := 0;
      }
      ValZero(pn[..]);
    }

    /** The inner loop of the multiplication: add limb * b, shifted by j limbs. */
    method MulRow(limb: nat, j: nat, b: ArithUint256)
      requires Valid() && b.Valid() && limb < B && j < WIDTH && (pn == b.pn ==> AllZero(pn[..]))
      modifies pn
      ensures Valid() && (pn == b.pn ==> AllZero(pn[..]))
      ensures pn != b.pn ==> RowAdded(old(pn[..]), limb, b.pn[..], pn[..], j)
    {
      hide Val, Pow, RowTo, RowAdded;
      ghost var r, y := pn[..], b.pn[..];
      var carry: nat := 0;
      RowStart(r, limb, y, j);
      for i := 0 to WIDTH - j
        invariant pn.Length == WIDTH && (pn != b.pn ==> b.pn[..] == y)
        invariant pn == b.pn ==> carry == 0 && AllZero(pn[..])
        invariant pn != b.pn ==> pn[i + j..] == r[i + j..] && RowTo(r, limb, y, pn[..], j, i, carry)
      {
        if pn != b.pn {
          assert pn[i + j] == pn[i + j..][0] == r[i + j..][0] == r[i + j];
          RowNext(r, limb, y, pn[..], j, i, carry);
        }
        var n: nat := carry + pn[i + j] + limb * b.pn[i];
        assert n < B * B;
        ghost var before := pn[..];
        pn[i + j] := Low(n);
        carry := High(n);
        assert pn[..] == before[i + j := Low(n)];
        if pn != b.pn {
          KeepRest(before, r, pn[..], i + j);
        }
      }
      if pn != b.pn {
        RowEnd(r, limb, y, pn[..], j, carry);
      }
    }

    // ----- Shifts -----

    method ShiftLeftAssign(shift: nat)
      requires Valid()
      modifies pn
      ensures Valid() && Value() == Reduced(old(Value()) * Pow(2, shift))
    {
      hide Val, Pow, ShiftedLeft, Or;
      var a := new ArithUint256.Copy(this);
      ghost var x := pn[..];
      Clear();
      var k, s := shift / 32, shift % 32;
      LeftStart(x, k, s, pn[..]);
      for i := 0 to WIDTH
        invariant Valid() && a.pn != pn && a.pn[..] == x && ShiftedLeft(x, k, s, pn[..], i)
      {
        ghost var before := pn[..];
        LeftNext(x, k, s, before, i);
        if i + k + 1 < WIDTH && s != 0 {
          pn[i + k + 1] := Or(pn[i + k + 1], a.pn[i] / Pow(2, 32 - s));
        }
        if i + k < WIDTH {
          pn[i + k] := Or(pn[i + k], Low(a.pn[i] * Pow(2, s)));
        }
        assert pn[..] == LeftStep(before, k, s, i, x[i]);
      }
      LeftEnd(x, k, s, pn[..], shift);
    }

    method ShiftRightAssign(shift: nat)
      requires Valid()
      modifies pn
      ensures Valid() && Value() == old(Value()) / Pow(2, shift)
    {
      hide Val, Pow, ShiftedRight, Or;
      var a := new ArithUint256.Copy(this);
      ghost var x := pn[..];
      Clear();
      var k, s := shift / 32, shift % 32;
      RightStart(x, k, s, pn[..]);
      for i := 0 to WIDTH
        invariant Valid() && a.pn != pn && a.pn[..] == x && ShiftedRight(x, k, s, pn[..], i)
      {
        ghost var before := pn[..];
        RightNext(x, k, s, before, i);
        if i - k - 1 >= 0 && s != 0 {
          pn[i - k - 1] := Or(pn[i - k - 1], Low(a.pn[i] * Pow(2, 32 - s)));
        }
        if i - k >= 0 {
          pn[i - k] := Or(pn[i - k], a.pn[i] / Pow(2, s));
        }
        assert pn[..] == RightStep(before, k, s, i, x[i]);
      }
      RightEnd(x, k, s, pn[..], shift);
    }

    // ----- Division -----

    /** The position of the highest bit set plus one, or 0. */
    method Bits() returns (n: nat)
      requires Valid()
      ensures n <= 256 && IsBits(Value(), n)
    {
      hide Val, Pow, IsBits, BitSet;
      var pos := WIDTH;
      while pos > 0
        invariant 0 <= pos <= WIDTH && AllZero(pn[..][pos..])
      {
        pos := pos - 1;
        if pn[pos] != 0 {
          var bits := 31;
          LimbBound(pn[pos]);
          while bits > 0
            invariant 0 <= bits <= 31 && pn[pos] < Pow(2, bits + 1)
          {
            HighestBit(pn[pos], bits);
            if BitSet(pn[pos], bits) {
              BitsOf(pn[..], pos, bits);
              return 32 * pos + bits + 1;
            }
            bits := bits - 1;
          }
          LowestBit(pn[pos]);
          BitsOf(pn[..], pos, 0);
          return 32 * pos + 1;
        }
        assert pn[..][pos..] == [pn[pos]] + pn[..][pos + 1..];
      }
      assert pn[..][0..] == pn[..];
      ZeroBits(pn[..]);
      n := 0;
    }

    /** Shift and subtract.  Division by zero fails, with this already cleared. */
    method DivAssign(b: ArithUint256) returns (ok: bool)
      requires Valid() && b.Valid()
      modifies pn
      ensures Valid() && ok == (old(b.Value()) != 0)
      ensures Value() == if ok then old(Value()) / old(b.Value()) else 0
    {
      hide Val, Pow, IsBits, Dividing, Reduced;
      var div: ArithUint256 := new ArithUint256.Copy(b);
      var num: ArithUint256 := new ArithUint256.Copy(this);
      ghost var x, y := Value(), b.Value();
      ValBound(pn[..]);
      Clear();
      var num_bits := num.Bits();
      var div_bits := div.Bits();
      BitsZero(y, div_bits);
      if div_bits == 0 {
        return false;
      }
      if div_bits > num_bits {
        QuotientZero(x, num_bits, y, div_bits);
        return true;
      }
      var shift: int := num_bits - div_bits;
      Aligned(x, num_bits, y, div_bits);
      div.ShiftLeftAssign(shift);
      DivideStart(x, y, pn[..], num.Value(), div.Value(), shift);
      while shift >= 0
        invariant -1 <= shift < 256
        invariant Valid() && div.Valid() && num.Valid() && fresh(div.pn) && fresh(num.pn)
        invariant pn != div.pn && pn != num.pn && div.pn != num.pn
        invariant Dividing(x, y, pn[..], num.Value(), div.Value(), shift)
      {
        DivideTurn(num, div, shift, x, y);
        shift := shift - 1;
      }
      DivideEnd(x, y, pn[..], num.Value(), div.Value());
      ok := true;
    }

    /** One turn of the loop of the division. */
    method DivideTurn(num: ArithUint256, div: ArithUint256, shift: nat, ghost x: nat, ghost y: nat)
      requires Valid() && div.Valid() && num.Valid() && pn != div.pn && pn != num.pn && div.pn != num.pn
      requires shift < 256 && Dividing(x, y, pn[..], num.Value(), div.Value(), shift)
      modifies pn, num.pn, div.pn
      ensures Valid() && div.Valid() && num.Valid()
      ensures Dividing(x, y, pn[..], num.Value(), div.Value(), shift - 1)
    {
      hide Val, Pow, Dividing, Or, Reduced, WithBit;
      ghost var q, n, d := pn[..], num.Value(), div.Value();
      DivideStep(x, y, q, n, d, shift);
      DivideNext(x, y, q, n, d, shift);
      var c := num.CompareTo(div);
      if c >= 0 {
        num.SubAssign(div);
        pn[shift / 32] := Or(pn[shift / 32], Pow(2, shift % 32));
        WithBitIs(q, shift, pn[..]);
      }
      div.ShiftRightAssign(1);
    }

    method GetLow64() returns (r: nat)
      requires Valid()
      ensures r == Value() % (B * B)
    {
      r := pn[0] + B * pn[1];
      ghost var s := pn[..];
      assert s == s[..2] + s[2..];
      ValConcat(s[..2], s[2..]);
      ValNext(s, 1);
      ValNext(s, 0);
      assert s[..0] == [];
      assert Pow(B, 2) == B * B && Pow(B, 1) == B;
      assert r < B * B;
      hide Val;
      DivUnique(Val(s), B * B, Val(s[2..]), r);
    }
  }

  // ----- Steps -----

  /** The halves of a 64-bit intermediate. */
  function Low(n: nat): nat { n % B }

  function High(n: nat): nat { n / B }

  /** The first i limbs have been added, with a carry. */
  ghost predicate AddedTo(x: seq<nat>, y: seq<nat>, now: seq<nat>, i: nat, carry: nat) {
    && |x| == |y| == |now| == WIDTH && i <= WIDTH && IsLimbs(x) && IsLimbs(y) && IsLimbs(now) && carry <= 1
    && Val(now[..i]) + Pow(B, i) * carry == Val(x[..i]) + Val(y[..i])
  }

  lemma AddStart(x: seq<nat>, y: seq<nat>)
    requires |x| == |y| == WIDTH && IsLimbs(x) && IsLimbs(y)
    ensures AddedTo(x, y, x, 0, 0)
  {
  }

  lemma AddNext(x: seq<nat>, y: seq<nat>, before: seq<nat>, i: nat, carry: nat)
    requires i < WIDTH && AddedTo(x, y, before, i, carry)
    ensures var n := carry + x[i] + y[i]; AddedTo(x, y, before[i := Low(n)], i + 1, High(n))
  {
    var n := carry + x[i] + y[i];
    var now := before[i := Low(n)];
    assert now[..i] == before[..i];
    ValNext(now, i);
    ValNext(x, i);
    ValNext(y, i);
    AddStep(Pow(B, i), carry, x[i], y[i], n);
  }

  lemma AddEnd(x: seq<nat>, y: seq<nat>, now: seq<nat>, carry: nat)
    requires AddedTo(x, y, now, WIDTH, carry)
    ensures IsLimbs(now) && Val(now) == (Val(x) + Val(y)) % Modulus()
  {
    hide Val, Pow;
    assert now[..WIDTH] == now && x[..WIDTH] == x && y[..WIDTH] == y;
    ValBound(now);
    DivUnique(Val(x) + Val(y), Modulus(), carry, Val(now));
  }

  lemma AddStep(p: nat, carry: nat, x: nat, y: nat, n: nat)
    requires n == carry + x + y && x < B && y < B && carry <= 1
    ensures n / B <= 1 && n % B < B
    ensures p * (n % B) + (B * p) * (n / B) == p * carry + p * x + p * y
  {
    Distribute(p, n);
    assert p * (carry + x + y) == p * carry + p * x + p * y;
  }

  lemma Distribute(p: nat, n: nat)
    ensures p * n == (B * p) * (n / B) + p * (n % B)
  {
    var q, r := n / B, n % B;
    assert n == B * q + r;
    assert p * (B * q + r) == (B * p) * q + p * r;
  }

  ghost predicate AllZero(s: seq<nat>) {
    forall i :: 0 <= i < |s| ==> s[i] == 0
  }

  /** The first i limbs have been multiplied, with a carry. */
  ghost predicate TimesTo(x: seq<nat>, b: nat, now: seq<nat>, i: nat, carry: nat) {
    && |x| == |now| == WIDTH && i <= WIDTH && IsLimbs(x) && IsLimbs(now) && carry < B && b < B
    && Val(now[..i]) + Pow(B, i) * carry == Val(x[..i]) * b
  }

  lemma TimesStart(x: seq<nat>, b: nat)
    requires |x| == WIDTH && IsLimbs(x) && b < B
    ensures TimesTo(x, b, x, 0, 0)
  {
  }

  lemma TimesNext(x: seq<nat>, b: nat, before: seq<nat>, i: nat, carry: nat)
    requires i < WIDTH && TimesTo(x, b, before, i, carry)
    ensures carry + b * x[i] < B * B
    ensures TimesTo(x, b, before[i := Low(carry + b * x[i])], i + 1, High(carry + b * x[i]))
  {
    hide Val;
    var n := carry + b * x[i];
    ProductFits(b, x[i], carry, 0);
    var now := before[i := Low(n)];
    assert now[..i] == before[..i];
    ValNext(now, i);
    ValNext(x, i);
    Distribute(Pow(B, i), n);
    TimesStep(Val(x[..i]), Pow(B, i), b, x[i], carry);
  }

  lemma TimesStep(v: nat, p: nat, b: nat, limb: nat, carry: nat)
    ensures (v + p * limb) * b + p * carry == v * b + p * (carry + b * limb)
  {
    assert (v + p * limb) * b == v * b + (p * limb) * b;
    assert (p * limb) * b == p * (b * limb);
    assert p * (carry + b * limb) == p * carry + p * (b * limb);
  }

  lemma TimesEnd(x: seq<nat>, b: nat, now: seq<nat>, carry: nat)
    requires TimesTo(x, b, now, WIDTH, carry)
    ensures IsLimbs(now) && Val(now) == (Val(x) * b) % Modulus()
  {
    hide Val, Pow;
    assert now[..WIDTH] == now && x[..WIDTH] == x;
    ValBound(now);
    DivUnique(Val(x) * b, Modulus(), carry, Val(now));
  }

  lemma ProductAtMost(x: nat, y: nat, m: nat)
    requires x <= m && y <= m
    ensures x * y <= m * m
  {
    assert x * y <= x * m;
    assert x * m <= m * m;
  }

  /** No 64-bit intermediate overflows. */
  lemma ProductFits(x: nat, y: nat, c: nat, d: nat)
    requires x < B && y < B && c < B && d < B
    ensures c + d + x * y < B * B && High(c + d + x * y) < B
  {
    ProductAtMost(x, y, B - 1);
    var n := c + d + x * y;
    assert n < B * B;
  }

  /** Limbs j to j + i have had limb times the first i limbs of y added, with a carry. */
  ghost predicate RowTo(r: seq<nat>, limb: nat, y: seq<nat>, now: seq<nat>, j: nat, i: nat, carry: nat) {
    && |r| == |y| == |now| == WIDTH && i + j <= WIDTH && IsLimbs(r) && IsLimbs(y) && IsLimbs(now)
    && limb < B && carry < B
    && Val(now[..i + j]) + Pow(B, i + j) * carry == Val(r[..i + j]) + Pow(B, j) * (limb * Val(y[..i]))
  }

  lemma RowStart(r: seq<nat>, limb: nat, y: seq<nat>, j: nat)
    requires |r| == |y| == WIDTH && j <= WIDTH && IsLimbs(r) && IsLimbs(y) && limb < B
    ensures RowTo(r, limb, y, r, j, 0, 0)
  {
  }

  lemma RowNext(r: seq<nat>, limb: nat, y: seq<nat>, before: seq<nat>, j: nat, i: nat, carry: nat)
    requires i + j < WIDTH && RowTo(r, limb, y, before, j, i, carry)
    ensures carry + r[i + j] + limb * y[i] < B * B
    ensures var n := carry + r[i + j] + limb * y[i]; RowTo(r, limb, y, before[i + j := Low(n)], j, i + 1, High(n))
  {
    hide Val;
    var n := carry + r[i + j] + limb * y[i];
    ProductFits(limb, y[i], carry, r[i + j]);
    var now := before[i + j := Low(n)];
    assert now[..i + j] == before[..i + j];
    ValNext(now, i + j);
    ValNext(r, i + j);
    ValNext(y, i);
    PowAdd(B, j, i);
    Distribute(Pow(B, i + j), n);
    RowStep(Pow(B, i), Pow(B, j), limb, Val(y[..i]), y[i], carry, r[i + j]);
  }

  lemma RowStep(pi: nat, pj: nat, limb: nat, v: nat, d: nat, carry: nat, old_: nat)
    ensures (pj * pi) * (carry + old_ + limb * d) ==
            (pj * pi) * carry + (pj * pi) * old_ + pj * (limb * (v + pi * d)) - pj * (limb * v)
  {
    var p := pj * pi;
    assert p * (carry + old_ + limb * d) == p * carry + p * old_ + p * (limb * d);
    assert limb * (v + pi * d) == limb * v + limb * (pi * d);
    assert pj * (limb * v + limb * (pi * d)) == pj * (limb * v) + pj * (limb * (pi * d));
    assert limb * (pi * d) == pi * (limb * d);
    assert pj * (pi * (limb * d)) == p * (limb * d);
  }

  /** limb * y, shifted by j limbs, has been added modulo 2^256. */
  ghost predicate RowAdded(r: seq<nat>, limb: nat, y: seq<nat>, now: seq<nat>, j: nat) {
    && IsLimbs(now) && |now| == WIDTH
    && exists z: int :: Val(now) == Val(r) + Pow(B, j) * (limb * Val(y)) + Modulus() * z
  }

  lemma RowEnd(r: seq<nat>, limb: nat, y: seq<nat>, now: seq<nat>, j: nat, carry: nat)
    requires j <= WIDTH && RowTo(r, limb, y, now, j, WIDTH - j, carry)
    ensures IsLimbs(now) && RowAdded(r, limb, y, now, j)
  {
    hide Val, Pow;
    assert now[..WIDTH] == now && r[..WIDTH] == r;
    var lo, hi := y[..WIDTH - j], y[WIDTH - j..];
    assert y == lo + hi;
    ValConcat(lo, hi);
    PowAdd(B, j, WIDTH - j);
    RowTop(Pow(B, j), Pow(B, WIDTH - j), limb, Val(lo), Val(hi));
    var c: int := carry;
    var z: int := -c - limb * Val(hi);
    assert Modulus() * z == -(Modulus() * carry) - Modulus() * (limb * Val(hi));
    assert Val(now) == Val(r) + Pow(B, j) * (limb * Val(y)) + Modulus() * z;
  }

  lemma RowTop(pj: nat, pi: nat, limb: nat, lo: nat, hi: nat)
    ensures pj * (limb * (lo + pi * hi)) == pj * (limb * lo) + (pj * pi) * (limb * hi)
  {
    assert limb * (lo + pi * hi) == limb * lo + limb * (pi * hi);
    assert limb * (pi * hi) == pi * (limb * hi);
    assert pj * (limb * lo + pi * (limb * hi)) == pj * (limb * lo) + pj * (pi * (limb * hi));
  }

  lemma MulZero(x: seq<nat>, y: seq<nat>)
    ensures 0 == (Val(x[..0]) * Val(y)) % Modulus()
  {
    assert x[..0] == [];
    DivUnique(0, Modulus(), 0, 0);
  }

  lemma MulNext(x: seq<nat>, y: seq<nat>, r: seq<nat>, now: seq<nat>, j: nat)
    requires j < |x| && IsLimbs(r) && |r| == WIDTH && Val(r) == (Val(x[..j]) * Val(y)) % Modulus()
    requires RowAdded(r, x[j], y, now, j)
    ensures Val(now) == (Val(x[..j + 1]) * Val(y)) % Modulus()
  {
    hide Val, Pow;
    ValNext(x, j);
    ValBound(now);
    var z: int :| Val(now) == Val(r) + Pow(B, j) * (x[j] * Val(y)) + Modulus() * z;
    MulNextValues(Val(x[..j]), Pow(B, j), x[j], Val(y), Val(x[..j + 1]), Modulus(), z, Val(now));
  }

  lemma MulNextValues(a: nat, p: nat, d: nat, y: nat, a': nat, m: nat, z: int, r: nat)
    requires m > 0 && a' == a + p * d && r < m && r == (a * y) % m + p * (d * y) + m * z
    ensures r == (a' * y) % m
  {
    MulDistribute(a, p, d, y);
    AddMultiple(a * y, p * (d * y), m, z, r);
  }

  lemma AddMultiple(v: nat, w: nat, m: nat, z: int, r: nat)
    requires m > 0 && r < m && r == v % m + w + m * z
    ensures (v + w) % m == r
  {
    assert v == m * (v / m) + v % m;
    assert m * (v / m - z) == m * (v / m) - m * z;
    ModUnique(v + w, m, v / m - z, r);
  }

  lemma MulDistribute(a: nat, p: nat, d: nat, y: nat)
    ensures (a + p * d) * y == a * y + p * (d * y)
  {
    assert (a + p * d) * y == a * y + (p * d) * y;
    assert (p * d) * y == p * (d * y);
  }

  /** One (d = 1) or minus one (d = -1) has been added, with a carry to come if limb i wrapped. */
  ghost predicate CarriedTo(x: seq<nat>, now: seq<nat>, i: nat, d: int) {
    && |x| == |now| == WIDTH && i < WIDTH && IsLimbs(x) && IsLimbs(now)
    && Val(now) == Val(x) + d - if now[i] == Wrapped(d) then d * Pow(B, i + 1) else 0
  }

  /** One limb after ++ or --, which wrap. */
  function Bump(limb: nat, d: int): nat { (limb + d) % B }

  function Wrapped(d: int): nat { if d == 1 then 0 else B - 1 }

  lemma CarryStart(x: seq<nat>, d: int)
    requires |x| == WIDTH && IsLimbs(x) && (d == 1 || d == -1)
    ensures CarriedTo(x, x[0 := Bump(x[0], d)], 0, d)
  {
    ValSet(x, 0, Bump(x[0], d));
  }

  lemma CarryNext(x: seq<nat>, before: seq<nat>, i: nat, d: int)
    requires 0 < i < WIDTH && CarriedTo(x, before, i - 1, d) && before[i - 1] == Wrapped(d) && (d == 1 || d == -1)
    ensures CarriedTo(x, before[i := Bump(before[i], d)], i, d)
  {
    hide Val;
    ValSet(before, i, Bump(before[i], d));
    CarryStep(Pow(B, i), before[i], d);
  }

  lemma CarryStep(p: nat, limb: nat, d: int)
    requires limb < B && (d == 1 || d == -1)
    ensures p * Bump(limb, d) - p * limb == d * p - if Bump(limb, d) == Wrapped(d) then d * (B * p) else 0
  {
    if d == 1 {
      assert limb == B - 1 ==> p * limb == B * p - p;
      assert limb < B - 1 ==> p * (limb + 1) == p * limb + p;
    } else {
      assert limb == 0 ==> p * (B - 1) == B * p - p;
      assert limb > 0 ==> (limb - 1) % B == limb - 1 && p * (limb - 1) == p * limb - p;
    }
  }

  lemma CarryEnd(x: seq<nat>, now: seq<nat>, i: nat, d: int)
    requires CarriedTo(x, now, i, d) && (d == 1 || d == -1) && (now[i] != Wrapped(d) || i == WIDTH - 1)
    ensures IsLimbs(now) && Val(now) == (Val(x) + d) % Modulus()
  {
    hide Val, Pow;
    ValBound(now);
    var c := if now[i] == Wrapped(d) then d else 0;
    assert Val(x) + d == Modulus() * c + Val(now);
    ModUnique(Val(x) + d, Modulus(), c, Val(now));
  }

  lemma ModUnique(x: int, m: nat, q: int, r: nat)
    requires m > 0 && x == m * q + r && r < m
    ensures x % m == r
  {
    assert x == m * (x / m) + x % m;
    EuclidUnique(m, x / m, x % m, q, r);
  }

  lemma KeepRest(before: seq<nat>, x: seq<nat>, after: seq<nat>, i: nat)
    requires |before| == |x| == |after| && i < |x| && before[i..] == x[i..] && after == before[i := after[i]]
    ensures after[i + 1..] == x[i + 1..]
  {
    assert after[i + 1..] == before[i..][1..] == x[i..][1..];
  }

  lemma {:induction false} Complement(s: seq<nat>, t: seq<nat>)
    requires |s| == |t| && IsLimbs(s) && forall i :: 0 <= i < |s| ==> t[i] == B - 1 - s[i]
    ensures Val(t) == Pow(B, |s|) - 1 - Val(s)
  {
    if s != [] {
      Complement(s[1..], t[1..]);
      assert B * (Pow(B, |s| - 1) - 1 - Val(s[1..])) == Pow(B, |s|) - B - B * Val(s[1..]);
    }
  }

  lemma SubMod(x: nat, y: nat, m: nat)
    requires m > 0 && x < m && y < m
    ensures (x + (m - y) % m) % m == (x - y) % m
  {
    if y == 0 {
      DivUnique(m, m, 1, 0);
    } else {
      DivUnique(m - y, m, 0, m - y);
      SameMod(x - y, m);
    }
  }

  lemma SameMod(x: int, m: nat)
    requires m > 0
    ensures (x + m) % m == x % m
  {
    var q, r := x / m, x % m;
    assert x == m * q + r;
    assert m * (q + 1) == m * q + m;
    EuclidUnique(m, (x + m) / m, (x + m) % m, q + 1, r);
  }

  /** The highest differing limb decides. */
  lemma HigherLimb(x: seq<nat>, y: seq<nat>, i: nat)
    requires IsLimbs(x) && IsLimbs(y) && |x| == |y| && i < |x| && x[i + 1..] == y[i + 1..] && x[i] < y[i]
    ensures Val(x) < Val(y)
  {
    hide Val, Pow;
    assert x == x[..i + 1] + x[i + 1..] && y == y[..i + 1] + y[i + 1..];
    ValConcat(x[..i + 1], x[i + 1..]);
    ValConcat(y[..i + 1], y[i + 1..]);
    ValNext(x, i);
    ValNext(y, i);
    ValBound(x[..i]);
    LessDigit(Pow(B, i), x[i], y[i]);
  }

  lemma LessDigit(p: nat, a: nat, b: nat)
    requires a < b
    ensures p * a + p <= p * b
  {
    assert p * (a + 1) <= p * b;
  }

  // ----- Shifting -----

  /** The part of a limb that stays below and the part that is shifted out of it. */
  function LoPart(x: nat, s: nat): nat { Low(x * Pow(2, s)) }

  function HiPart(x: nat, s: nat): nat
    requires s < 32
  {
    x / Pow(2, 32 - s)
  }

  lemma Parts(x: nat, s: nat)
    requires x < B && s < 32
    ensures x * Pow(2, s) == B * HiPart(x, s) + LoPart(x, s)
    ensures HiPart(x, s) < Pow(2, s) && LoPart(x, s) % Pow(2, s) == 0 && LoPart(x, s) + Pow(2, s) <= B
    ensures LoPart(x, s) == Pow(2, s) * (x % Pow(2, 32 - s))
  {
    PowAdd(2, s, 32 - s);
    Pow2At32();
    hide Pow, Low;
    DivMod(x, Pow(2, 32 - s));
    PartsOf(x, Pow(2, s), Pow(2, 32 - s), HiPart(x, s), x % Pow(2, 32 - s));
  }

  lemma DivMod(x: nat, q: nat)
    requires q > 0
    ensures x == q * (x / q) + x % q && x % q < q
  {
  }

  lemma PartsOf(x: nat, p: nat, q: nat, h: nat, l: nat)
    requires p > 0 && p * q == B && x < B && x == q * h + l && l < q
    ensures h < p && x * p == B * h + p * l && p * l + p <= B
    ensures Low(x * p) == p * l && (p * l) % p == 0
  {
    PartsProduct(p, q, h, l);
    LessFactor(q, h, p);
    assert p * (l + 1) <= p * q;
    assert p * (l + 1) == p * l + p;
    DivUnique(x * p, B, h, p * l);
    MultipleMod(p, l);
  }

  lemma LessFactor(q: nat, h: nat, p: nat)
    requires q * h < p * q
    ensures h < p
  {
    assert h >= p ==> q * h >= q * p;
  }

  lemma PartsProduct(p: nat, q: nat, h: nat, l: nat)
    requires p * q == B
    ensures (q * h + l) * p == B * h + p * l
  {
    assert (q * h + l) * p == (q * h) * p + l * p;
    assert (q * h) * p == (p * q) * h;
  }

  /** What one turn of the loop of <<= does. */
  function LeftStep(now: seq<nat>, k: nat, s: nat, i: nat, x: nat): seq<nat>
    requires |now| == WIDTH && i < WIDTH && s < 32
  {
    var t := if i + k + 1 < WIDTH && s != 0 then now[i + k + 1 := Or(now[i + k + 1], HiPart(x, s))] else now;
    if i + k < WIDTH then t[i + k := Or(t[i + k], LoPart(x, s))] else t
  }

  /** Limb j of the result once the first i limbs have been moved. */
  function LeftLimb(x: seq<nat>, k: nat, s: nat, i: nat, j: nat): nat
    requires |x| == WIDTH && i <= WIDTH && s < 32
  {
    (if k <= j < k + i then LoPart(x[j - k], s) else 0) + (if k < j <= k + i then HiPart(x[j - k - 1], s) else 0)
  }

  ghost predicate ShiftedLeft(x: seq<nat>, k: nat, s: nat, now: seq<nat>, i: nat) {
    && |x| == |now| == WIDTH && IsLimbs(x) && i <= WIDTH && s < 32
    && forall j :: 0 <= j < WIDTH ==> now[j] == LeftLimb(x, k, s, i, j)
  }

  lemma LeftStart(x: seq<nat>, k: nat, s: nat, now: seq<nat>)
    requires |x| == |now| == WIDTH && IsLimbs(x) && s < 32 && AllZero(now)
    ensures ShiftedLeft(x, k, s, now, 0)
  {
  }

  lemma LeftNext(x: seq<nat>, k: nat, s: nat, before: seq<nat>, i: nat)
    requires i < WIDTH && ShiftedLeft(x, k, s, before, i)
    ensures ShiftedLeft(x, k, s, LeftStep(before, k, s, i, x[i]), i + 1) && IsLimbs(LeftStep(before, k, s, i, x[i]))
  {
    hide Pow, LoPart, HiPart;
    var now := LeftStep(before, k, s, i, x[i]);
    forall j | 0 <= j < WIDTH
      ensures now[j] == LeftLimb(x, k, s, i + 1, j) && now[j] < B
    {
      LeftLimbNext(x, k, s, before, i, j);
    }
  }

  lemma LeftLimbNext(x: seq<nat>, k: nat, s: nat, before: seq<nat>, i: nat, j: nat)
    requires i < WIDTH && j < WIDTH && ShiftedLeft(x, k, s, before, i)
    ensures LeftStep(before, k, s, i, x[i])[j] == LeftLimb(x, k, s, i + 1, j) < B
  {
    Parts(x[i], s);
    NoHiPart(x[i], s);
    assert before[j] == LeftLimb(x, k, s, i, j);
    if k <= j < k + i {
      Parts(x[j - k], s);
    }
    if k < j <= k + i {
      Parts(x[j - k - 1], s);
      NoHiPart(x[j - k - 1], s);
      OrDisjoint(HiPart(x[j - k - 1], s), LoPart(x[i], s), s);
    }
    hide Pow, LoPart, HiPart;
  }

  lemma NoHiPart(x: nat, s: nat)
    requires x < B && s < 32
    ensures s == 0 ==> HiPart(x, s) == 0
  {
    Pow2At32();
  }

  /** The limbs moved so far, with what was shifted out of the last one, are the product. */
  lemma {:induction false} LeftValue(x: seq<nat>, s: nat, t: seq<nat>, n: nat)
    requires IsLimbs(x) && s < 32 && n <= |x| && n <= |t|
    requires forall m :: 0 <= m < n ==> t[m] == LoPart(x[m], s) + if m > 0 then HiPart(x[m - 1], s) else 0
    ensures Val(t[..n]) + Pow(B, n) * (if n > 0 then HiPart(x[n - 1], s) else 0) == Val(x[..n]) * Pow(2, s)
  {
    hide Val, HiPart, LoPart;
    if n > 0 {
      LeftValue(x, s, t, n - 1);
      ValNext(x, n - 1);
      ValNext(t, n - 1);
      Parts(x[n - 1], s);
      var c := if n > 1 then HiPart(x[n - 2], s) else 0;
      LeftValueStep(Pow(B, n - 1), Val(x[..n - 1]), x[n - 1], Pow(2, s), LoPart(x[n - 1], s), HiPart(x[n - 1], s), c);
    } else {
      EmptyValue(x, t);
    }
  }

  lemma EmptyValue(x: seq<nat>, t: seq<nat>)
    ensures Val(x[..0]) == 0 && Val(t[..0]) == 0
  {
    assert x[..0] == [] && t[..0] == [];
  }

  lemma LeftValueStep(p: nat, v: nat, d: nat, w: nat, lo: nat, hi: nat, c: nat)
    requires d * w == B * hi + lo
    ensures p * (lo + c) + (B * p) * hi - p * c == (v + p * d) * w - v * w
  {
    assert (v + p * d) * w == v * w + (p * d) * w;
    assert (p * d) * w == p * (d * w);
    assert p * (B * hi + lo) == (B * p) * hi + p * lo;
    assert p * (lo + c) == p * lo + p * c;
  }

  lemma LeftEnd(x: seq<nat>, k: nat, s: nat, now: seq<nat>, shift: nat)
    requires shift == 32 * k + s && ShiftedLeft(x, k, s, now, WIDTH)
    ensures Val(now) == (Val(x) * Pow(2, shift)) % Modulus()
  {
    PowAdd(2, 32 * k, s);
    PowLimbs(k);
    if k >= WIDTH {
      ValZero(now);
      PowAdd(B, WIDTH, k - WIDTH);
      LeftOut(Val(x), Pow(B, WIDTH), Pow(B, k - WIDTH), Pow(2, s));
    } else {
      LeftKept(x, k, s, now);
    }
  }

  lemma LeftOut(v: nat, m: nat, q: nat, w: nat)
    requires m > 0
    ensures (v * ((m * q) * w)) % m == 0
  {
    assert v * ((m * q) * w) == m * (v * (q * w));
    MultipleMod(m, v * (q * w));
  }

  lemma LeftKept(x: seq<nat>, k: nat, s: nat, now: seq<nat>)
    requires k < WIDTH && ShiftedLeft(x, k, s, now, WIDTH)
    ensures Val(now) == (Val(x) * (Pow(B, k) * Pow(2, s))) % Modulus()
  {
    var n := WIDTH - k;
    LeftBottom(x, k, s, now);
    LeftLimbs(x, k, s, now);
    hide Val, Pow, LoPart, HiPart, ShiftedLeft;
    assert now == now[..k] + now[k..] && x == x[..n] + x[n..];
    ValZero(now[..k]);
    ValConcat(now[..k], now[k..]);
    ValConcat(x[..n], x[n..]);
    LeftValue(x, s, now[k..], n);
    assert now[k..][..n] == now[k..];
    PowAdd(B, k, n);
    ValBound(now);
    LeftTotal(Pow(B, k), Pow(B, n), Pow(2, s), Val(x[..n]), Val(x[n..]), Val(now[k..]), HiPart(x[n - 1], s), Modulus(),
              Val(x), Val(now));
  }

  lemma LeftBottom(x: seq<nat>, k: nat, s: nat, now: seq<nat>)
    requires k < WIDTH && ShiftedLeft(x, k, s, now, WIDTH)
    ensures AllZero(now[..k])
    ensures forall m :: 0 <= m < WIDTH - k ==> now[k..][m] == LoPart(x[m], s) + if m > 0 then HiPart(x[m - 1], s) else 0
  {
    hide Pow, LoPart, HiPart;
    forall m | 0 <= m < WIDTH - k
      ensures now[k..][m] == LoPart(x[m], s) + if m > 0 then HiPart(x[m - 1], s) else 0
    {
      assert now[k + m] == LeftLimb(x, k, s, WIDTH, k + m);
    }
    forall j | 0 <= j < k
      ensures now[..k][j] == 0
    {
      assert now[j] == LeftLimb(x, k, s, WIDTH, j);
    }
  }

  lemma LeftLimbs(x: seq<nat>, k: nat, s: nat, now: seq<nat>)
    requires ShiftedLeft(x, k, s, now, WIDTH)
    ensures IsLimbs(now)
  {
    forall j | 0 <= j < WIDTH
      ensures now[j] < B
    {
      if k <= j {
        Parts(x[j - k], s);
        if k < j {
          Parts(x[j - k - 1], s);
        }
      }
    }
  }

  lemma LeftTotal(pk: nat, pn: nat, w: nat, lo: nat, hi: nat, t: nat, c: nat, m: nat, v: nat, r: nat)
    requires m == pk * pn && m > 0 && t + pn * c == lo * w && v == lo + pn * hi && r == pk * t < m
    ensures r == (v * (pk * w)) % m
  {
    LeftProduct(pk, pn, w, lo, hi, t, c);
    assert m * (c + hi * w) == m * c + m * (hi * w);
    ModUnique(v * (pk * w), m, c + hi * w, r);
  }

  lemma LeftProduct(pk: nat, pn: nat, w: nat, lo: nat, hi: nat, t: nat, c: nat)
    requires t + pn * c == lo * w
    ensures (lo + pn * hi) * (pk * w) == pk * t + (pk * pn) * c + (pk * pn) * (hi * w)
  {
    assert (lo + pn * hi) * (pk * w) == pk * ((lo + pn * hi) * w);
    assert (lo + pn * hi) * w == lo * w + (pn * hi) * w;
    assert (pn * hi) * w == pn * (hi * w);
    assert pk * (t + pn * c + pn * (hi * w)) == pk * t + pk * (pn * c) + pk * (pn * (hi * w));
    MulAssoc(pk, pn, c);
    MulAssoc(pk, pn, hi * w);
  }

  // ----- Shifting right -----

  function RightStep(now: seq<nat>, k: nat, s: nat, i: nat, x: nat): seq<nat>
    requires |now| == WIDTH && i < WIDTH && s < 32
  {
    var t := if i >= k + 1 && s != 0 then now[i - k - 1 := Or(now[i - k - 1], LoPart(x, 32 - s))] else now;
    if i >= k then t[i - k := Or(t[i - k], x / Pow(2, s))] else t
  }

  function RightLimb(x: seq<nat>, k: nat, s: nat, i: nat, j: nat): nat
    requires |x| == WIDTH && i <= WIDTH && s < 32
  {
    (if j + k < i then x[j + k] / Pow(2, s) else 0)
    + (if j + k + 1 < i && s != 0 then LoPart(x[j + k + 1], 32 - s) else 0)
  }

  ghost predicate ShiftedRight(x: seq<nat>, k: nat, s: nat, now: seq<nat>, i: nat) {
    && |x| == |now| == WIDTH && IsLimbs(x) && i <= WIDTH && s < 32
    && forall j :: 0 <= j < WIDTH ==> now[j] == RightLimb(x, k, s, i, j)
  }

  lemma RightStart(x: seq<nat>, k: nat, s: nat, now: seq<nat>)
    requires |x| == |now| == WIDTH && IsLimbs(x) && s < 32 && AllZero(now)
    ensures ShiftedRight(x, k, s, now, 0)
  {
  }

  /** A limb is its upper bits, shifted down, and its lower bits, which come to the top of the next. */
  lemma RightParts(x: nat, s: nat)
    requires x < B && s < 32
    ensures x / Pow(2, s) < Pow(2, 32 - s) && B == Pow(2, s) * Pow(2, 32 - s)
    ensures s != 0 ==> LoPart(x, 32 - s) == Pow(2, 32 - s) * (x % Pow(2, s)) && LoPart(x, 32 - s) % Pow(2, 32 - s) == 0
    ensures s != 0 ==> LoPart(x, 32 - s) + Pow(2, 32 - s) <= B
  {
    PowAdd(2, s, 32 - s);
    Pow2At32();
    hide Pow, LoPart;
    QuotientBound(x, Pow(2, s), Pow(2, 32 - s));
    if s != 0 {
      Parts(x, 32 - s);
    }
  }

  lemma QuotientBound(x: nat, p: nat, q: nat)
    requires p > 0 && x < p * q
    ensures x / p < q
  {
    assert x == p * (x / p) + x % p;
    LessFactor(p, x / p, q);
  }

  lemma RightNext(x: seq<nat>, k: nat, s: nat, before: seq<nat>, i: nat)
    requires i < WIDTH && ShiftedRight(x, k, s, before, i)
    ensures ShiftedRight(x, k, s, RightStep(before, k, s, i, x[i]), i + 1) && IsLimbs(RightStep(before, k, s, i, x[i]))
  {
    hide Pow, LoPart;
    var now := RightStep(before, k, s, i, x[i]);
    forall j | 0 <= j < WIDTH
      ensures now[j] == RightLimb(x, k, s, i + 1, j) && now[j] < B
    {
      RightLimbNext(x, k, s, before, i, j);
    }
  }

  lemma RightLimbNext(x: seq<nat>, k: nat, s: nat, before: seq<nat>, i: nat, j: nat)
    requires i < WIDTH && j < WIDTH && ShiftedRight(x, k, s, before, i)
    ensures RightStep(before, k, s, i, x[i])[j] == RightLimb(x, k, s, i + 1, j) < B
  {
    hide Pow, LoPart, Or;
    RightParts(x[i], s);
    assert before[j] == RightLimb(x, k, s, i, j);
    OrNothing(x[i] / Pow(2, s));
    if j + k < i {
      RightParts(x[j + k], s);
      if s != 0 {
        OrDisjoint(x[j + k] / Pow(2, s), LoPart(x[i], 32 - s), 32 - s);
      }
    }
    if j + k + 1 < i {
      RightParts(x[j + k + 1], s);
    }
  }

  lemma OrNothing(y: nat)
    ensures Or(0, y) == y
  {
  }

  /** Shifting the limbs down by s bits divides the value. */
  lemma {:induction false} RightValue(x: seq<nat>, s: nat, t: seq<nat>)
    requires IsLimbs(x) && s < 32 && |t| == |x|
    requires forall m :: 0 <= m < |x| ==> t[m] == RightSlice(x, s, m)
    ensures Val(t) == Val(x) / Pow(2, s) && Val(x) % Pow(2, s) == if x == [] then 0 else x[0] % Pow(2, s)
  {
    if x == [] {
      DivUnique(0, Pow(2, s), 0, 0);
    } else {
      forall m | 0 <= m < |x| - 1
        ensures t[1..][m] == RightSlice(x[1..], s, m)
      {
        assert t[m + 1] == RightSlice(x, s, m + 1);
      }
      RightValue(x[1..], s, t[1..]);
      assert t[0] == RightSlice(x, s, 0);
      assert Val(t) == t[0] + B * Val(t[1..]) && Val(x) == x[0] + B * Val(x[1..]);
      hide LoPart, Pow, Val, RightSlice;
      RightHead(x, s, Val(x[1..]));
    }
  }

  lemma RightHead(x: seq<nat>, s: nat, v: nat)
    requires x != [] && IsLimbs(x) && s < 32 && v % Pow(2, s) == if |x| == 1 then 0 else x[1] % Pow(2, s)
    ensures (x[0] + B * v) / Pow(2, s) == RightSlice(x, s, 0) + B * (v / Pow(2, s))
    ensures (x[0] + B * v) % Pow(2, s) == x[0] % Pow(2, s)
  {
    hide LoPart, Pow, RightSlice;
    RightParts(x[0], s);
    RightSliceIs(x, s, v % Pow(2, s));
    DivMod(v, Pow(2, s));
    RightStepValue(Pow(2, s), Pow(2, 32 - s), x[0], v, v / Pow(2, s), v % Pow(2, s));
  }

  lemma RightSliceIs(x: seq<nat>, s: nat, r: nat)
    requires x != [] && IsLimbs(x) && s < 32 && r == if |x| == 1 then 0 else x[1] % Pow(2, s)
    ensures RightSlice(x, s, 0) == x[0] / Pow(2, s) + Pow(2, 32 - s) * r
  {
    if |x| > 1 {
      RightParts(x[1], s);
    }
    NoRemainder(s, if |x| == 1 then 0 else x[1]);
    hide LoPart, Pow;
  }

  /** Limb m of x shifted down by s bits. */
  function RightSlice(x: seq<nat>, s: nat, m: nat): nat
    requires m < |x| && s < 32
  {
    x[m] / Pow(2, s) + if m + 1 < |x| && s != 0 then LoPart(x[m + 1], 32 - s) else 0
  }

  lemma NoRemainder(s: nat, v: nat)
    ensures s == 0 ==> v % Pow(2, s) == 0
  {
  }

  lemma RightStepValue(p: nat, q: nat, x0: nat, v: nat, w: nat, r: nat)
    requires p > 0 && p * q == B && v == p * w + r && r < p
    ensures (x0 + B * v) / p == x0 / p + q * r + B * w && (x0 + B * v) % p == x0 % p
  {
    assert B * v == B * (p * w) + B * r;
    assert B * r == p * (q * r);
    assert B * (p * w) == p * (B * w);
    assert x0 == p * (x0 / p) + x0 % p;
    assert p * (x0 / p + q * r + B * w) == p * (x0 / p) + p * (q * r) + p * (B * w);
    DivUnique(x0 + B * v, p, x0 / p + q * r + B * w, x0 % p);
  }

  lemma RightEnd(x: seq<nat>, k: nat, s: nat, now: seq<nat>, shift: nat)
    requires shift == 32 * k + s && ShiftedRight(x, k, s, now, WIDTH)
    ensures Val(now) == Val(x) / Pow(2, shift)
  {
    PowAdd(2, 32 * k, s);
    PowLimbs(k);
    if k >= WIDTH {
      ValZero(now);
      ValBound(x);
      PowGrows(B, WIDTH, k);
      AtLeast(Pow(B, k), Pow(2, s));
      hide Pow, Val;
      DivUnique(Val(x), Pow(2, shift), 0, Val(x));
    } else {
      RightKept(x, k, s, now);
    }
  }

  lemma AtLeast(p: nat, w: nat)
    requires w >= 1
    ensures p * w >= p
  {
  }

  lemma RightKept(x: seq<nat>, k: nat, s: nat, now: seq<nat>)
    requires k < WIDTH && ShiftedRight(x, k, s, now, WIDTH)
    ensures Val(now) == Val(x) / (Pow(B, k) * Pow(2, s))
  {
    var n := WIDTH - k;
    RightTop(x, k, s, now);
    hide Val, Pow, LoPart, ShiftedRight;
    assert now == now[..n] + now[n..] && x == x[..k] + x[k..];
    ValZero(now[n..]);
    ValConcat(now[..n], now[n..]);
    ValConcat(x[..k], x[k..]);
    ValBound(x[..k]);
    RightValue(x[k..], s, now[..n]);
    DivTwice(Val(x[..k]), Pow(B, k), Val(x[k..]), Pow(2, s));
  }

  lemma RightTop(x: seq<nat>, k: nat, s: nat, now: seq<nat>)
    requires k < WIDTH && ShiftedRight(x, k, s, now, WIDTH)
    ensures AllZero(now[WIDTH - k..])
    ensures forall m :: 0 <= m < WIDTH - k ==> now[..WIDTH - k][m] == RightSlice(x[k..], s, m)
  {
    hide Pow, LoPart;
    forall m | 0 <= m < WIDTH - k
      ensures now[..WIDTH - k][m] == RightSlice(x[k..], s, m)
    {
      assert now[m] == RightLimb(x, k, s, WIDTH, m);
    }
    var top := now[WIDTH - k..];
    forall m | 0 <= m < k
      ensures top[m] == 0
    {
      assert now[WIDTH - k + m] == RightLimb(x, k, s, WIDTH, WIDTH - k + m);
    }
  }

  lemma DivTwice(lo: nat, p: nat, hi: nat, w: nat)
    requires p > 0 && w > 0 && lo < p
    ensures (lo + p * hi) / (p * w) == hi / w
  {
    var q, r := hi / w, hi % w;
    assert hi == w * q + r;
    assert p * (w * q + r) == (p * w) * q + p * r;
    assert p * r + p <= p * w by {
      assert p * (r + 1) <= p * w;
      assert p * (r + 1) == p * r + p;
    }
    DivUnique(lo + p * hi, p * w, q, lo + p * r);
  }

  // ----- Counting bits -----

  ghost predicate IsBits(v: nat, n: nat) {
    if v == 0 then n == 0 else n > 0 && Pow(2, n - 1) <= v < Pow(2, n)
  }

  lemma LimbBound(x: nat)
    requires x < B
    ensures x < Pow(2, 32)
  {
    Pow2At32();
  }

  lemma HighestBit(x: nat, bits: nat)
    requires x < Pow(2, bits + 1)
    ensures BitSet(x, bits) <==> x >= Pow(2, bits)
  {
    var p := Pow(2, bits);
    if x >= p {
      DivUnique(x, p, 1, x - p);
    } else {
      DivUnique(x, p, 0, x);
    }
  }

  lemma LowestBit(x: nat)
    requires 0 < x < Pow(2, 1)
    ensures Pow(2, 0) <= x
  {
  }

  lemma BitsOf(s: seq<nat>, pos: nat, bits: nat)
    requires |s| == WIDTH && IsLimbs(s) && pos < WIDTH && bits < 32 && AllZero(s[pos + 1..])
    requires Pow(2, bits) <= s[pos] < Pow(2, bits + 1)
    ensures IsBits(Val(s), 32 * pos + bits + 1)
  {
    hide Val, Pow;
    PowLimbs(pos);
    PowAdd(2, 32 * pos, bits);
    PowAdd(2, 32 * pos, bits + 1);
    assert s == s[..pos + 1] + s[pos + 1..];
    ValConcat(s[..pos + 1], s[pos + 1..]);
    ValZero(s[pos + 1..]);
    ValNext(s, pos);
    ValBound(s[..pos]);
    BitsProduct(Pow(B, pos), Val(s[..pos]), s[pos], Pow(2, bits), Pow(2, bits + 1), Val(s));
  }

  lemma BitsProduct(p: nat, lo: nat, d: nat, a: nat, b: nat, v: nat)
    requires lo < p && 1 <= a <= d < b && v == lo + p * d
    ensures 0 < p * a <= v < p * b
  {
    assert p * a <= p * d;
    assert p * (d + 1) <= p * b;
    MulSum(p, d, 1);
    AtLeast(p, a);
  }

  lemma ZeroBits(s: seq<nat>)
    requires AllZero(s)
    ensures IsBits(Val(s), 0)
  {
    ValZero(s);
  }

  lemma BitsZero(v: nat, n: nat)
    requires IsBits(v, n)
    ensures n == 0 <==> v == 0
  {
  }

  // ----- Dividing -----

  lemma QuotientZero(x: nat, n: nat, y: nat, d: nat)
    requires IsBits(x, n) && IsBits(y, d) && d > n
    ensures y > 0 && x / y == 0
  {
    if x > 0 {
      PowGrows(2, n, d - 1);
    }
    DivUnique(x, y, 0, x);
  }

  /** The divisor, shifted so that it and the number align, fits and is more than half the number. */
  lemma Aligned(x: nat, n: nat, y: nat, d: nat)
    requires IsBits(x, n) && IsBits(y, d) && 0 < d <= n <= 256
    ensures y > 0 && Reduced(y * Pow(2, n - d)) == y * Pow(2, n - d) < Modulus() && x < y * Pow(2, n - d + 1)
  {
    hide Pow;
    PowLimbs(8);
    PowAdd(2, d, n - d);
    PowAdd(2, d - 1, n - d + 1);
    PowGrows(2, n, 256);
    AlignedValues(y, Pow(2, d - 1), Pow(2, d), Pow(2, n - d), Pow(2, n - d + 1));
    ReducedFits(y * Pow(2, n - d));
  }

  lemma AlignedValues(y: nat, a: nat, b: nat, w: nat, w2: nat)
    requires a <= y < b && w >= 1
    ensures y * w < b * w && a * w2 <= y * w2
  {
    assert (y + 1) * w <= b * w;
    assert (y + 1) * w == y * w + w;
  }

  /** How many of the bits below t are in limb i. */
  function BitsIn(t: nat, i: nat): nat {
    if t <= 32 * i then 0 else if t >= 32 * i + 32 then 32 else t - 32 * i
  }

  /** Bits below t are clear. */
  ghost predicate LowZero(s: seq<nat>, t: nat) {
    && |s| == WIDTH && IsLimbs(s) && t <= 256
    && forall i :: 0 <= i < WIDTH ==> ClearBelow(s[i], BitsIn(t, i))
  }

  /** The low n bits of x are clear. */
  ghost predicate ClearBelow(x: nat, n: nat) { x % Pow(2, n) == 0 }

  function WithBit(s: seq<nat>, t: nat): seq<nat>
    requires |s| == WIDTH && t < 256
  {
    s[t / 32 := Or(s[t / 32], Pow(2, t % 32))]
  }

  lemma WithBitIs(s: seq<nat>, t: nat, now: seq<nat>)
    requires |s| == WIDTH && t < 256 && now == s[t / 32 := Or(s[t / 32], Pow(2, t % 32))]
    ensures now == WithBit(s, t)
  {
  }

  lemma SetBit(s: seq<nat>, t: nat)
    requires t < 256 && LowZero(s, t + 1)
    ensures LowZero(s, t) && LowZero(WithBit(s, t), t) && Val(WithBit(s, t)) == Val(s) + Pow(2, t)
  {
    hide Val, Pow, Or, ClearBelow, LowZero;
    TargetLimb(s, t);
    FreeBit(s[t / 32], t % 32);
    BitValue(s, t / 32, t % 32);
    LowerTarget(s, t, Or(s[t / 32], Pow(2, t % 32)));
  }

  lemma TargetLimb(s: seq<nat>, t: nat)
    requires t < 256 && LowZero(s, t + 1)
    ensures |s| == WIDTH && s[t / 32] < B && ClearBelow(s[t / 32], t % 32 + 1)
  {
    hide ClearBelow;
    assert BitsIn(t + 1, t / 32) == t % 32 + 1;
  }

  lemma LowerTarget(s: seq<nat>, t: nat, x: nat)
    requires t < 256 && LowZero(s, t + 1) && x < B && ClearBelow(x, t % 32) && ClearBelow(s[t / 32], t % 32)
    ensures LowZero(s, t) && LowZero(s[t / 32 := x], t)
  {
    hide ClearBelow;
    assert BitsIn(t, t / 32) == t % 32;
    forall k | 0 <= k < WIDTH && k != t / 32
      ensures ClearBelow(s[k], BitsIn(t, k))
    {
      assert ClearBelow(s[k], BitsIn(t + 1, k)) && BitsIn(t + 1, k) == BitsIn(t, k);
    }
  }

  lemma BitValue(s: seq<nat>, i: nat, j: nat)
    requires i < |s|
    ensures Val(s[i := s[i] + Pow(2, j)]) == Val(s) + Pow(2, 32 * i + j)
  {
    PowLimbs(i);
    PowAdd(2, 32 * i, j);
    hide Val, Pow;
    ValSet(s, i, s[i] + Pow(2, j));
    MulSum(Pow(B, i), s[i], Pow(2, j));
  }

  lemma MulSum(p: nat, x: nat, y: nat)
    ensures p * (x + y) == p * x + p * y
  {
  }

  /** Setting bit j of a limb whose bits up to j are clear adds 2^j. */
  lemma FreeBit(x: nat, j: nat)
    requires x < B && j < 32 && ClearBelow(x, j + 1)
    ensures Or(x, Pow(2, j)) == x + Pow(2, j) < B && ClearBelow(x, j) && ClearBelow(x + Pow(2, j), j)
  {
    hide Pow, Or;
    PowAdd(2, j + 1, 32 - j - 1);
    Pow2At32();
    PowTwice(j);
    OrDisjoint(Pow(2, j), x, j + 1);
    DivMod(x, Pow(2, j + 1));
    FreeBitValues(x, Pow(2, j), Pow(2, 32 - j - 1), x / Pow(2, j + 1), Pow(2, j + 1));
  }

  lemma PowTwice(j: nat)
    ensures Pow(2, j + 1) == 2 * Pow(2, j)
  {
  }

  lemma FreeBitValues(x: nat, p: nat, q: nat, m: nat, p2: nat)
    requires p >= 1 && p2 == 2 * p && x == p2 * m && x < B && p2 * q == B
    ensures x + p < B && x % p == 0 && (x + p) % p == 0
  {
    LessFactor(p2, m, q);
    assert p2 * (m + 1) <= p2 * q;
    MulSum(p2, m, 1);
    MulAssoc(p, 2, m);
    MulSum(p, 2 * m, 1);
    MultipleMod(p, 2 * m);
    MultipleMod(p, 2 * m + 1);
  }

  /** The state of the division: what has been subtracted so far is the quotient so far times y. */
  ghost predicate Dividing(x: nat, y: nat, q: seq<nat>, num: nat, div: nat, shift: int) {
    && y > 0 && -1 <= shift < 256 && num < Modulus() && LowZero(q, shift + 1)
    && Val(q) * y + num == x
    && num < y * Pow(2, shift + 1)
    && (shift >= 0 ==> div == y * Pow(2, shift) < Modulus())
  }

  lemma DivideStart(x: nat, y: nat, q: seq<nat>, num: nat, div: nat, shift: nat)
    requires y > 0 && shift < 256 && |q| == WIDTH && AllZero(q) && num == x < Modulus()
    requires num < y * Pow(2, shift + 1) && div == y * Pow(2, shift) < Modulus()
    ensures Dividing(x, y, q, num, div, shift)
  {
    ValZero(q);
    hide Pow, Val;
    forall i | 0 <= i < WIDTH
      ensures ClearBelow(q[i], BitsIn(shift + 1, i))
    {
      DivUnique(0, Pow(2, BitsIn(shift + 1, i)), 0, 0);
    }
  }

  lemma DivideStep(x: nat, y: nat, q: seq<nat>, num: nat, div: nat, shift: nat)
    requires Dividing(x, y, q, num, div, shift)
    ensures num < Modulus() && div < Modulus() && |q| == WIDTH && IsLimbs(q) && shift < 256
    ensures IsLimbs(WithBit(q, shift)) && (div <= num ==> Reduced(num - div) == num - div)
  {
    SetBit(q, shift);
    if div <= num {
      ReducedFits(num - div);
    }
  }

  lemma DivideNext(x: nat, y: nat, q: seq<nat>, num: nat, div: nat, shift: nat)
    requires Dividing(x, y, q, num, div, shift)
    ensures if num >= div then Dividing(x, y, WithBit(q, shift), num - div, div / Pow(2, 1), shift - 1)
            else Dividing(x, y, q, num, div / Pow(2, 1), shift - 1)
  {
    SetBit(q, shift);
    PowTwice(shift);
    assert Pow(2, 1) == 2;
    if shift > 0 {
      PowTwice(shift - 1);
      HalfOf(y, Pow(2, shift - 1));
    }
    hide Val, Pow, LowZero, WithBit;
    DivideValues(y, Pow(2, shift), Val(q));
  }

  lemma DivideValues(y: nat, p: nat, q: nat)
    ensures y * (2 * p) == 2 * (y * p) && (q + p) * y == q * y + y * p
  {
    MulAssoc(y, 2, p);
    MulSum(y, q, p);
  }

  lemma HalfOf(y: nat, p: nat)
    ensures (y * (2 * p)) / 2 == y * p
  {
    assert y * (2 * p) == 2 * (y * p);
  }

  lemma DivideEnd(x: nat, y: nat, q: seq<nat>, num: nat, div: nat)
    requires Dividing(x, y, q, num, div, -1)
    ensures IsLimbs(q) && Val(q) == x / y && y > 0
  {
    assert Pow(2, 0) == 1;
    DivUnique(x, y, Val(q), num);
  }
}
