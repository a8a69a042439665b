/** The stream form of CCoins (src/coins.h:17-71, 154-238, src/coins.cpp:17-33): a header code, a mask
    of available outputs delimited by its number of nonzero bytes, the outputs, the height. */
module CoinsCodec {
  import opened Options
  import opened Limbs
  import opened VarInts
  import opened Amounts
  import opened Coins
  import opened ScriptCodec

  const INT_MAX := 0x7fff_ffff

  predicate Avail(vout: seq<TxOut>, i: nat) {
    i < |vout| && !vout[i].IsNull()
  }

  // ----- Eight flags in a byte -----

  function ByteOf(bits: seq<bool>): nat {
    if bits == [] then 0 else (if bits[0] then 1 else 0) + 2 * ByteOf(bits[1..])
  }

  lemma {:induction false} ByteOfAppend(bits: seq<bool>, b: bool)
    ensures ByteOf(bits + [b]) == ByteOf(bits) + (if b then Pow(2, |bits|) else 0)
    ensures ByteOf(bits) < Pow(2, |bits|)
  {
    if bits == [] {
      assert ([b])[1..] == [];
    } else {
      ByteOfAppend(bits[1..], b);
      assert (bits + [b])[1..] == bits[1..] + [b];
    }
  }

  /** Every flag is read back from its bit. */
  lemma {:induction false} BitOfByte(bits: seq<bool>, j: nat)
    requires j < |bits|
    ensures BitSet(ByteOf(bits), j) <==> bits[j]
  {
    hide BitSet, Pow;
    if j == 0 {
      BitZero(ByteOf(bits));
    } else {
      BitSetNext(ByteOf(bits), j);
      BitOfByte(bits[1..], j - 1);
    }
  }

  lemma {:induction false} ByteZero(bits: seq<bool>)
    ensures ByteOf(bits) == 0 <==> forall i :: 0 <= i < |bits| ==> !bits[i]
  {
    if bits != [] {
      ByteZero(bits[1..]);
      assert bits == [bits[0]] + bits[1..];
    }
  }

  function BitsOf(b: nat): (bits: seq<bool>)
    ensures |bits| == 8
  {
    seq(8, j requires 0 <= j < 8 => BitSet(b, j))
  }

  lemma BitsOfByte(bits: seq<bool>)
    requires |bits| == 8
    ensures BitsOf(ByteOf(bits)) == bits
  {
    forall j | 0 <= j < 8 ensures BitsOf(ByteOf(bits))[j] == bits[j] {
      BitOfByte(bits, j);
    }
  }

  // ----- The mask -----

  function Flags(vout: seq<TxOut>, b: nat): (f: seq<bool>)
    ensures |f| == 8 && forall i :: 0 <= i < 8 ==> f[i] == Avail(vout, 2 + b * 8 + i)
  {
    seq(8, i requires 0 <= i < 8 => Avail(vout, 2 + b * 8 + i))
  }

  function MaskByte(vout: seq<TxOut>, b: nat): nat { ByteOf(Flags(vout, b)) }

  function Mask(vout: seq<TxOut>, n: nat): (m: Bytes)
    ensures |m| == n && forall b :: 0 <= b < n ==> m[b] == MaskByte(vout, b)
  {
    seq(n, b requires 0 <= b < n => MaskByte(vout, b))
  }

  /** Nothing is available from byte n of the mask on, and byte n - 1 is not zero: n bytes are used. */
  ghost predicate IsMaskSize(vout: seq<TxOut>, n: nat) {
    && (n > 0 ==> MaskByte(vout, n - 1) != 0)
    && (forall b :: n <= b ==> MaskByte(vout, b) == 0)
  }

  function Nonzero(m: Bytes): nat {
    if m == [] then 0 else (if m[0] != 0 then 1 else 0) + Nonzero(m[1..])
  }

  lemma {:induction false} NonzeroAppend(m: Bytes, b: nat)
    ensures Nonzero(m + [b]) == Nonzero(m) + (if b != 0 then 1 else 0)
    ensures Nonzero(m) <= |m|
  {
    if m == [] {
      assert ([b])[1..] == [];
    } else {
      NonzeroAppend(m[1..], b);
      assert (m + [b])[1..] == m[1..] + [b];
    }
  }

  lemma NoByteBeyond(vout: seq<TxOut>, b: nat)
    requires 2 + b * 8 >= |vout|
    ensures MaskByte(vout, b) == 0
  {
    ByteZero(Flags(vout, b));
  }

  lemma NoOutputBeyond(vout: seq<TxOut>, n: nat, i: nat)
    requires IsMaskSize(vout, n) && i >= 2 + 8 * n
    ensures !Avail(vout, i)
  {
    var b := (i - 2) / 8;
    ByteZero(Flags(vout, b));
    assert MaskByte(vout, b) == 0;
    assert Flags(vout, b)[(i - 2) % 8] == Avail(vout, 2 + b * 8 + (i - 2) % 8);
  }

  lemma MaskSizeUnique(vout: seq<TxOut>, n: nat, n': nat)
    requires IsMaskSize(vout, n) && IsMaskSize(vout, n')
    ensures n == n'
  {
    if n > 0 {
      assert MaskByte(vout, n - 1) != 0;
    }
    if n' > 0 {
      assert MaskByte(vout, n' - 1) != 0;
    }
  }

  /** The number of bytes used. */
  function MaskSize(vout: seq<TxOut>): (n: nat)
    ensures IsMaskSize(vout, n)
  {
    assert forall b: nat :: |vout| <= b ==> MaskByte(vout, b) == 0 by {
      forall b: nat | |vout| <= b ensures MaskByte(vout, b) == 0 {
        NoByteBeyond(vout, b);
      }
    }
    LastUsed(vout, |vout|)
  }

  function LastUsed(vout: seq<TxOut>, k: nat): (n: nat)
    requires forall b: nat :: k <= b ==> MaskByte(vout, b) == 0
    ensures IsMaskSize(vout, n)
  {
    if k > 0 && MaskByte(vout, k - 1) == 0 then LastUsed(vout, k - 1) else k
  }

  method CalcMaskSize(vout: seq<TxOut>) returns (nBytes: nat, nNonzeroBytes: nat)
    ensures nBytes == MaskSize(vout) && nNonzeroBytes == Nonzero(Mask(vout, nBytes))
    ensures 8 * nBytes <= |vout| + 7
  {
    hide MaskByte;
    nBytes, nNonzeroBytes := 0, 0;
    var b := 0;
    while 2 + b * 8 < |vout|
      invariant nBytes <= b && 8 * b <= |vout| + 7 && nNonzeroBytes == Nonzero(Mask(vout, nBytes))
      invariant nBytes > 0 ==> MaskByte(vout, nBytes - 1) != 0
      invariant forall k :: nBytes <= k < b ==> MaskByte(vout, k) == 0
    {
      var zero := ByteIsZero(vout, b);
      if !zero {
        MaskExtended(vout, nBytes, b);
        nBytes := b + 1;
        nNonzeroBytes := nNonzeroBytes + 1;
      }
      b := b + 1;
    }
    forall k: nat | b <= k ensures MaskByte(vout, k) == 0 {
      NoByteBeyond(vout, k);
    }
    MaskSizeUnique(vout, nBytes, MaskSize(vout));
  }

  method ByteIsZero(vout: seq<TxOut>, b: nat) returns (fZero: bool)
    ensures fZero == (MaskByte(vout, b) == 0)
  {
    ghost var flags := Flags(vout, b);
    fZero := true;
    var i := 0;
    while i < 8 && 2 + b * 8 + i < |vout|
      invariant i <= 8 && (fZero <==> forall k :: 0 <= k < i ==> !flags[k])
    {
      if !vout[2 + b * 8 + i].IsNull() {
        assert flags[i];
        fZero := false;
      }
      i := i + 1;
    }
    ByteZero(flags);
    assert forall k :: i <= k < 8 ==> !flags[k];
  }

  lemma {:induction false} MaskExtended(vout: seq<TxOut>, n: nat, b: nat)
    requires n <= b && forall k :: n <= k < b ==> MaskByte(vout, k) == 0
    ensures Nonzero(Mask(vout, b + 1)) == Nonzero(Mask(vout, n)) + (if MaskByte(vout, b) != 0 then 1 else 0)
  {
    hide MaskByte;
    NonzeroAppend(Mask(vout, b), MaskByte(vout, b));
    assert Mask(vout, b + 1) == Mask(vout, b) + [MaskByte(vout, b)];
    if n < b {
      MaskExtended(vout, n, b - 1);
    }
  }

  // ----- Reading the mask -----

  function ReadMask(s: Bytes, nMaskCode: nat): Option<Read<seq<bool>>>
    decreases |s|
  {
    if nMaskCode == 0 then Some(Read([], s))
    else if s == [] then None
    else
      match ReadMask(s[1..], if s[0] != 0 then nMaskCode - 1 else nMaskCode)
      case None => None
      case Some(r) => Some(Read(BitsOf(s[0]) + r.value, r.rest))
  }

  function AllBits(m: Bytes): (bits: seq<bool>)
    ensures |bits| == 8 * |m|
  {
    if m == [] then [] else BitsOf(m[0]) + AllBits(m[1..])
  }

  /** The count of nonzero bytes makes the reader stop at the last used byte. */
  lemma {:induction false} MaskRead(m: Bytes, rest: Bytes)
    requires m == [] || m[|m| - 1] != 0
    ensures ReadMask(m + rest, Nonzero(m)) == Some(Read(AllBits(m), rest))
  {
    if m == [] {
      assert m + rest == rest;
    } else {
      assert (m + rest)[1..] == m[1..] + rest;
      assert |m| > 1 ==> m[1..][|m| - 2] == m[|m| - 1];
      MaskRead(m[1..], rest);
      LastNonzero(m);
    }
  }

  lemma {:induction false} LastNonzero(m: Bytes)
    requires m != [] && m[|m| - 1] != 0
    ensures Nonzero(m) > 0
  {
    if |m| > 1 {
      assert m[1..][|m| - 2] == m[|m| - 1];
      LastNonzero(m[1..]);
    }
  }

  /** Which of the first n outputs are available. */
  function Available(vout: seq<TxOut>, n: nat): (f: seq<bool>)
    ensures |f| == n && forall i :: 0 <= i < n ==> f[i] == Avail(vout, i)
  {
    seq(n, i requires 0 <= i < n => Avail(vout, i))
  }

  ghost function ReadBits(vout: seq<TxOut>, n: nat): seq<bool> {
    [Avail(vout, 0), Avail(vout, 1)] + AllBits(Mask(vout, n))
  }

  lemma {:induction false} MaskBits(vout: seq<TxOut>, n: nat)
    ensures ReadBits(vout, n) == Available(vout, 2 + 8 * n)
  {
    hide *;
    if n == 0 {
      NoBits(vout);
    } else {
      MaskBits(vout, n - 1);
      ReadBitsGrow(vout, n - 1);
      AvailableGrows(vout, n - 1);
    }
  }

  lemma ReadBitsGrow(vout: seq<TxOut>, n: nat)
    ensures ReadBits(vout, n + 1) == ReadBits(vout, n) + Flags(vout, n)
  {
    MaskBitsGrow(vout, n);
    Regroup([Avail(vout, 0), Avail(vout, 1)], AllBits(Mask(vout, n)), Flags(vout, n));
  }

  lemma Regroup(a: seq<bool>, b: seq<bool>, c: seq<bool>)
    ensures a + (b + c) == (a + b) + c
  {
  }

  lemma MaskBitsGrow(vout: seq<TxOut>, n: nat)
    ensures AllBits(Mask(vout, n + 1)) == AllBits(Mask(vout, n)) + Flags(vout, n)
  {
    hide *;
    assert Mask(vout, n + 1) == Mask(vout, n) + [MaskByte(vout, n)];
    AllBitsAppend(Mask(vout, n), MaskByte(vout, n));
    MaskByteBits(vout, n);
  }

  lemma AvailableGrows(vout: seq<TxOut>, n: nat)
    ensures Available(vout, 2 + 8 * (n + 1)) == Available(vout, 2 + 8 * n) + Flags(vout, n)
  {
    hide *;
    forall i | 0 <= i < 8 ensures Flags(vout, n)[i] == Avail(vout, 2 + 8 * n + i) {
      assert 2 + n * 8 + i == 2 + 8 * n + i;
    }
  }

  lemma NoBits(vout: seq<TxOut>)
    ensures ReadBits(vout, 0) == Available(vout, 2)
  {
    hide Avail;
  }

  lemma MaskByteBits(vout: seq<TxOut>, b: nat)
    ensures BitsOf(MaskByte(vout, b)) == Flags(vout, b)
  {
    BitsOfByte(Flags(vout, b));
  }

  lemma {:induction false} AllBitsAppend(m: Bytes, b: nat)
    ensures AllBits(m + [b]) == AllBits(m) + BitsOf(b)
  {
    if m == [] {
      assert ([b])[1..] == [];
    } else {
      AllBitsAppend(m[1..], b);
      assert (m + [b])[1..] == m[1..] + [b];
    }
  }

  // ----- The outputs -----

  ghost function Outs(vout: seq<TxOut>, curve: Curve): Bytes {
    if vout == [] then []
    else (if vout[0].IsNull() then [] else TxOutBytes(vout[0], curve)) + Outs(vout[1..], curve)
  }

  function ReadOuts(s: Bytes, avail: seq<bool>, curve: Curve): Option<Read<seq<TxOut>>>
    decreases |avail|
  {
    if avail == [] then Some(Read([], s))
    else if !avail[0] then
      match ReadOuts(s, avail[1..], curve)
      case None => None
      case Some(r) => Some(Read([NULL_OUT] + r.value, r.rest))
    else
      match ReadTxOut(s, curve)
      case None => None
      case Some(o) =>
        match ReadOuts(o.rest, avail[1..], curve)
        case None => None
        case Some(r) => Some(Read([o.value] + r.value, r.rest))
  }

  /** The first n outputs, null where there is none. */
  function Slots(vout: seq<TxOut>, n: nat): (r: seq<TxOut>)
    ensures |r| == n && forall i :: 0 <= i < n ==> r[i] == if Avail(vout, i) then vout[i] else NULL_OUT
  {
    seq(n, i requires 0 <= i < n => if Avail(vout, i) then vout[i] else NULL_OUT)
  }

  ghost predicate AllInRange(vout: seq<TxOut>) {
    forall i :: 0 <= i < |vout| && !vout[i].IsNull() ==> InRange(vout[i])
  }

  lemma {:induction false} OutsRead(vout: seq<TxOut>, n: nat, rest: Bytes, curve: Curve)
    requires CurveOk(curve) && AllInRange(vout)
    requires forall i :: n <= i ==> !Avail(vout, i)
    ensures ReadOuts(Outs(vout, curve) + rest, Available(vout, n), curve) == Some(Read(Slots(vout, n), rest))
    decreases n
  {
    hide *;
    if n == 0 {
      NoOuts(vout, curve);
      NothingRead(rest, Available(vout, 0), curve);
      assert Slots(vout, 0) == [] && [] + rest == rest;
    } else {
      var tail := if vout == [] then [] else vout[1..];
      FirstSlot(vout, tail, n);
      FirstOut(vout, tail, curve);
      OutsRead(tail, n - 1, rest, curve);
      if Avail(vout, 0) {
        IsAvail(vout, 0);
        RangeOf(vout, 0);
        TxOutRead(vout[0], Outs(tail, curve) + rest, curve);
        assert Outs(vout, curve) + rest == TxOutBytes(vout[0], curve) + (Outs(tail, curve) + rest);
        OneRead(Outs(vout, curve) + rest, Available(tail, n - 1), curve);
      } else {
        NullRead(Outs(vout, curve) + rest, Available(tail, n - 1), curve);
      }
    }
  }

  lemma IsAvail(vout: seq<TxOut>, i: nat)
    ensures Avail(vout, i) ==> i < |vout| && !vout[i].IsNull()
  {
  }

  lemma RangeOf(vout: seq<TxOut>, i: nat)
    requires AllInRange(vout) && Avail(vout, i)
    ensures i < |vout| && InRange(vout[i])
  {
  }

  lemma NothingRead(s: Bytes, avail: seq<bool>, curve: Curve)
    requires avail == []
    ensures ReadOuts(s, avail, curve) == Some(Read([], s))
  {
  }

  lemma NullRead(s: Bytes, avail: seq<bool>, curve: Curve)
    ensures var r := ReadOuts(s, avail, curve);
            ReadOuts(s, [false] + avail, curve) ==
              if r.None? then None else Some(Read([NULL_OUT] + r.value.value, r.value.rest))
  {
    assert ([false] + avail)[1..] == avail;
  }

  lemma OneRead(s: Bytes, avail: seq<bool>, curve: Curve)
    requires ReadTxOut(s, curve).Some?
    ensures var o := ReadTxOut(s, curve).value;
            var r := ReadOuts(o.rest, avail, curve);
            ReadOuts(s, [true] + avail, curve) ==
              if r.None? then None else Some(Read([o.value] + r.value.value, r.value.rest))
  {
    hide ReadTxOut;
    assert ([true] + avail)[1..] == avail;
  }

  /** The first slot, and the others over what is left. */
  lemma FirstSlot(vout: seq<TxOut>, tail: seq<TxOut>, n: nat)
    requires n > 0 && tail == if vout == [] then [] else vout[1..]
    requires forall i :: n <= i ==> !Avail(vout, i)
    ensures Available(vout, n) == [Avail(vout, 0)] + Available(tail, n - 1)
    ensures Slots(vout, n) == [if Avail(vout, 0) then vout[0] else NULL_OUT] + Slots(tail, n - 1)
    ensures forall i :: n - 1 <= i ==> !Avail(tail, i)
    ensures AllInRange(vout) ==> AllInRange(tail)
  {
    hide Available, Slots, AllInRange, Avail;
    forall i: nat
      ensures Avail(tail, i) <==> Avail(vout, i + 1)
      ensures Avail(tail, i) ==> i + 1 < |vout| && tail[i] == vout[i + 1]
    {
      NextSlot(vout, tail, i);
    }
    FirstOf(vout, 0);
    assert Available(vout, n) == [Avail(vout, 0)] + Available(tail, n - 1);
    assert Slots(vout, n) == [if Avail(vout, 0) then vout[0] else NULL_OUT] + Slots(tail, n - 1);
    TailInRange(vout, tail);
  }

  lemma NextSlot(vout: seq<TxOut>, tail: seq<TxOut>, i: nat)
    requires tail == if vout == [] then [] else vout[1..]
    ensures Avail(tail, i) <==> Avail(vout, i + 1)
    ensures Avail(tail, i) ==> i + 1 < |vout| && i < |tail| && tail[i] == vout[i + 1]
  {
  }

  lemma FirstOf(vout: seq<TxOut>, i: nat)
    ensures Avail(vout, i) ==> i < |vout|
  {
  }

  lemma TailInRange(vout: seq<TxOut>, tail: seq<TxOut>)
    requires tail == if vout == [] then [] else vout[1..]
    ensures AllInRange(vout) ==> AllInRange(tail)
  {
    hide InRange;
    assert forall i :: 0 <= i < |tail| ==> tail[i] == vout[i + 1];
  }

  lemma FirstOut(vout: seq<TxOut>, tail: seq<TxOut>, curve: Curve)
    requires tail == if vout == [] then [] else vout[1..]
    ensures Avail(vout, 0) ==> Outs(vout, curve) == TxOutBytes(vout[0], curve) + Outs(tail, curve)
    ensures !Avail(vout, 0) ==> Outs(vout, curve) == Outs(tail, curve)
  {
    hide TxOutBytes;
  }

  lemma {:induction false} NoOuts(vout: seq<TxOut>, curve: Curve)
    requires forall i :: 0 <= i ==> !Avail(vout, i)
    ensures Outs(vout, curve) == []
  {
    if vout != [] {
      assert !Avail(vout, 0);
      forall i | 0 <= i ensures !Avail(vout[1..], i) {
        assert Avail(vout[1..], i) <==> Avail(vout, i + 1);
      }
      NoOuts(vout[1..], curve);
    }
  }

  /** Cleanup makes the number of slots irrelevant, as long as none is missing. */
  lemma {:induction false} SlotsTrimmed(vout: seq<TxOut>, n: nat, m: nat)
    requires n <= m && forall i :: n <= i < m ==> !Avail(vout, i)
    ensures Trim(Slots(vout, m)) == Trim(Slots(vout, n))
  {
    if n < m {
      SlotsTrimmed(vout, n, m - 1);
      assert Slots(vout, m)[..m - 1] == Slots(vout, m - 1);
    }
  }

  // ----- The whole -----

  function Code(nonzero: nat, coinBase: bool, first: bool, second: bool): nat
    requires first || second || nonzero > 0
  {
    8 * (nonzero - (if first || second then 0 else 1)) + (if coinBase then 1 else 0)
      + (if first then 2 else 0) + (if second then 4 else 0)
  }

  function MaskCode(nCode: nat): nat {
    nCode / 8 + if First(nCode) || Second(nCode) then 0 else 1
  }

  predicate CoinBase(nCode: nat) { nCode % 2 == 1 }

  predicate First(nCode: nat) { nCode / 2 % 2 == 1 }

  predicate Second(nCode: nat) { nCode / 4 % 2 == 1 }

  lemma LowBits(a: nat, k: nat)
    requires k < 8
    ensures var x := 8 * a + k;
            x / 8 == a && (CoinBase(x) <==> CoinBase(k)) && (First(x) <==> First(k)) && (Second(x) <==> Second(k))
  {
    var x := 8 * a + k;
    assert x / 2 == 4 * a + k / 2 && x / 4 == 2 * a + k / 4;
  }

  lemma CodeTakenApart(nonzero: nat, coinBase: bool, first: bool, second: bool)
    requires first || second || nonzero > 0
    ensures var nCode := Code(nonzero, coinBase, first, second);
            && (CoinBase(nCode) <==> coinBase) && (First(nCode) <==> first) && (Second(nCode) <==> second)
            && MaskCode(nCode) == nonzero
  {
    var a := nonzero - (if first || second then 0 else 1);
    var k := (if coinBase then 1 else 0) + (if first then 2 else 0) + (if second then 4 else 0);
    LowBits(a, k);
    assert (CoinBase(k) <==> coinBase) && (First(k) <==> first) && (Second(k) <==> second);
  }

  function UsedMask(vout: seq<TxOut>): Bytes { Mask(vout, MaskSize(vout)) }

  ghost function CoinsBytes(c: CCoins, curve: Curve): Bytes
    requires !IsPruned(c)
  {
    CodeMakesSense(c, MaskSize(c.vout));
    var m := UsedMask(c.vout);
    VarInt(c.nVersion) + (VarInt(Code(Nonzero(m), c.fCoinBase, Avail(c.vout, 0), Avail(c.vout, 1)))
                          + (m + (Outs(c.vout, curve) + VarInt(c.nHeight))))
  }

  /** The assertion of Serialize. */
  lemma CodeMakesSense(c: CCoins, n: nat)
    requires !IsPruned(c) && IsMaskSize(c.vout, n)
    ensures Avail(c.vout, 0) || Avail(c.vout, 1) || Nonzero(Mask(c.vout, n)) > 0
  {
    var i :| 0 <= i < |c.vout| && !c.vout[i].IsNull();
    assert Avail(c.vout, i);
    if n == 0 && i >= 2 {
      NoOutputBeyond(c.vout, n, i);
    }
    if n > 0 {
      LastNonzero(Mask(c.vout, n));
    }
  }

  /** A number read into a signed int. */
  function ReadInt(s: Bytes): Option<Read<nat>> { ReadVar(s, 0, INT_MAX + 1) }

  function ReadCoins(s: Bytes, curve: Curve): Option<Read<CCoins>> {
    match ReadInt(s)
    case None => None
    case Some(version) =>
      match ReadVar(version.rest, 0, U32)
      case None => None
      case Some(code) => ReadBody(code.rest, version.value, code.value, curve)
  }

  function ReadBody(s: Bytes, nVersion: nat, nCode: nat, curve: Curve): Option<Read<CCoins>> {
    match ReadMask(s, MaskCode(nCode))
    case None => None
    case Some(mask) =>
      match ReadOuts(mask.rest, [First(nCode), Second(nCode)] + mask.value, curve)
      case None => None
      case Some(outs) =>
        match ReadInt(outs.rest)
        case None => None
        case Some(height) =>
          Some(Read(CCoins(CoinBase(nCode), Trim(outs.value), height.value, nVersion), height.rest))
  }

  /** A signed int as it comes back from its variable-length form: intact if and only if it is not
      negative. */
  function Kept(n: int): nat { if n >= 0 then n else n % 128 }

  lemma IntRead(n: int, rest: Bytes)
    requires -INT_MAX - 1 <= n <= INT_MAX
    ensures ReadInt(VarInt(n) + rest) == Some(Read(Kept(n), rest))
  {
    SignedRead(n, rest, INT_MAX + 1);
  }

  /** What comes back: null outputs as SetNull leaves them, none at the end. */
  function Restored(c: CCoins): CCoins {
    CCoins(c.fCoinBase, Trim(Slots(c.vout, |c.vout|)), Kept(c.nHeight), Kept(c.nVersion))
  }

  ghost predicate Storable(c: CCoins) {
    && !IsPruned(c) && AllInRange(c.vout) && |c.vout| < U32 - 16
    && -INT_MAX - 1 <= c.nVersion <= INT_MAX && -INT_MAX - 1 <= c.nHeight <= INT_MAX
  }

  lemma CodeFits(c: CCoins, n: nat)
    requires Storable(c) && IsMaskSize(c.vout, n)
    ensures Avail(c.vout, 0) || Avail(c.vout, 1) || Nonzero(Mask(c.vout, n)) > 0
    ensures Code(Nonzero(Mask(c.vout, n)), c.fCoinBase, Avail(c.vout, 0), Avail(c.vout, 1)) < U32
  {
    CodeMakesSense(c, n);
    NonzeroAppend(Mask(c.vout, n), 0);
    if n > 0 && 2 + (n - 1) * 8 >= |c.vout| {
      NoByteBeyond(c.vout, n - 1);
    }
  }

  lemma BodyRead(c: CCoins, n: nat, nVersion: nat, rest: Bytes, curve: Curve)
    requires CurveOk(curve) && Storable(c) && IsMaskSize(c.vout, n)
    requires Avail(c.vout, 0) || Avail(c.vout, 1) || Nonzero(Mask(c.vout, n)) > 0
    ensures var nCode := Code(Nonzero(Mask(c.vout, n)), c.fCoinBase, Avail(c.vout, 0), Avail(c.vout, 1));
            ReadBody(Mask(c.vout, n) + (Outs(c.vout, curve) + (VarInt(c.nHeight) + rest)), nVersion, nCode, curve)
            == Some(Read(CCoins(c.fCoinBase, Trim(Slots(c.vout, 2 + 8 * n)), Kept(c.nHeight), nVersion), rest))
  {
    hide CurveOk, AllInRange, MaskByte, ReadMask, ReadOuts, ReadInt, VarInt, Outs, Code, MaskCode, CoinBase, First,
      Second, AllBits, Nonzero, Avail, Mask, Slots, Trim;
    var m := Mask(c.vout, n);
    CodeTakenApart(Nonzero(m), c.fCoinBase, Avail(c.vout, 0), Avail(c.vout, 1));
    var tail := VarInt(c.nHeight) + rest;
    MaskRead(m, Outs(c.vout, curve) + tail);
    MaskBits(c.vout, n);
    forall i | 2 + 8 * n <= i ensures !Avail(c.vout, i) {
      NoOutputBeyond(c.vout, n, i);
    }
    OutsRead(c.vout, 2 + 8 * n, tail, curve);
    IntRead(c.nHeight, rest);
  }

  /** Reading what was written gives the coins, cleaned, and consumes exactly what was written. */
  lemma CoinsRead(c: CCoins, rest: Bytes, curve: Curve)
    requires CurveOk(curve) && Storable(c)
    ensures ReadCoins(CoinsBytes(c, curve) + rest, curve) == Some(Read(Restored(c), rest))
  {
    hide CurveOk, AllInRange, MaskByte, IsMaskSize, MaskSize, Mask, ReadBody, ReadInt, ReadVar, VarInt, Outs, Code,
      Nonzero, Avail;
    var n := MaskSize(c.vout);
    CodeFits(c, n);
    var m := Mask(c.vout, n);
    var nCode := Code(Nonzero(m), c.fCoinBase, Avail(c.vout, 0), Avail(c.vout, 1));
    var tail := VarInt(c.nHeight) + rest;
    var body := m + (Outs(c.vout, curve) + tail);
    assert CoinsBytes(c, curve) + rest == VarInt(c.nVersion) + (VarInt(nCode) + body) by {
      assert (Outs(c.vout, curve) + VarInt(c.nHeight)) + rest == Outs(c.vout, curve) + tail;
      assert (m + (Outs(c.vout, curve) + VarInt(c.nHeight))) + rest == body;
    }
    IntRead(c.nVersion, VarInt(nCode) + body);
    VarIntRead(nCode, body, U32);
    BodyRead(c, n, Kept(c.nVersion), rest, curve);
    BothSlots(c.vout, n);
  }

  lemma BothSlots(vout: seq<TxOut>, n: nat)
    requires IsMaskSize(vout, n)
    ensures Trim(Slots(vout, 2 + 8 * n)) == Trim(Slots(vout, |vout|))
  {
    hide MaskByte;
    forall i | 2 + 8 * n <= i ensures !Avail(vout, i) {
      NoOutputBeyond(vout, n, i);
    }
    if 2 + 8 * n <= |vout| {
      SlotsTrimmed(vout, 2 + 8 * n, |vout|);
    } else {
      SlotsTrimmed(vout, |vout|, 2 + 8 * n);
    }
  }

  /** Stored coins come back as they were if and only if version and height are not negative. */
  lemma StoredCoinsRead(c: CCoins, rest: Bytes, curve: Curve)
    requires CurveOk(curve) && Storable(c)
    requires !c.vout[|c.vout| - 1].IsNull() && forall i :: 0 <= i < |c.vout| ==> OutOk(c.vout[i])
    ensures ReadCoins(CoinsBytes(c, curve) + rest, curve) == Some(Read(c, rest)) <==> c.nVersion >= 0 && c.nHeight >= 0
  {
    hide CurveOk, AllInRange, ReadCoins, CoinsBytes, MaskByte, Avail;
    CoinsRead(c, rest, curve);
    WholeSlots(c.vout);
    TrimOk(c.vout);
  }

  lemma WholeSlots(vout: seq<TxOut>)
    requires forall i :: 0 <= i < |vout| ==> OutOk(vout[i])
    ensures Slots(vout, |vout|) == vout
  {
  }

  // ----- The stream operations -----

  ghost predicate Writable(vout: seq<TxOut>) {
    && |vout| < U32 - 16
    && forall i :: 0 <= i < |vout| && !vout[i].IsNull() ==> |vout[i].scriptPubKey| + SPECIAL_SCRIPTS < U32
  }

  method MaskByteOf(vout: seq<TxOut>, b: nat) returns (chAvail: nat)
    ensures chAvail == MaskByte(vout, b)
  {
    ghost var flags := Flags(vout, b);
    chAvail := 0;
    var i := 0;
    while i < 8 && 2 + b * 8 + i < |vout|
      invariant i <= 8 && chAvail == ByteOf(flags[..i])
    {
      assert flags[..i + 1] == flags[..i] + [flags[i]];
      ByteOfAppend(flags[..i], flags[i]);
      if !vout[2 + b * 8 + i].IsNull() {
        SetOneBit(chAvail, i);
        chAvail := Or(chAvail, Pow(2, i));
      }
      i := i + 1;
    }
    NoFlagsBeyond(flags, i);
  }

  lemma SetOneBit(x: nat, i: nat)
    requires x < Pow(2, i)
    ensures Or(x, Pow(2, i)) == x + Pow(2, i)
  {
    assert Pow(2, i) % Pow(2, i) == 0;
    OrDisjoint(x, Pow(2, i), i);
  }

  lemma {:induction false} NoFlagsBeyond(flags: seq<bool>, i: nat)
    requires i <= |flags| && forall k :: i <= k < |flags| ==> !flags[k]
    ensures ByteOf(flags) == ByteOf(flags[..i])
    decreases |flags|
  {
    if i < |flags| {
      var most := flags[..|flags| - 1];
      assert flags == most + [flags[|flags| - 1]];
      ByteOfAppend(most, flags[|flags| - 1]);
      NoFlagsBeyond(most, i);
      assert most[..i] == flags[..i];
    } else {
      assert flags[..i] == flags;
    }
  }

  method WriteMask(s: Bytes, vout: seq<TxOut>, nMaskSize: nat) returns (r: Bytes)
    ensures r == s + Mask(vout, nMaskSize)
  {
    hide MaskByte;
    r := s;
    for b := 0 to nMaskSize
      invariant r == s + Mask(vout, b)
    {
      var chAvail := MaskByteOf(vout, b);
      r := r + [chAvail];
    }
  }

  method WriteOuts(s: Bytes, vout: seq<TxOut>, curve: Curve) returns (r: Bytes)
    requires Writable(vout)
    ensures r == s + Outs(vout, curve)
  {
    hide TxOutBytes;
    r := s;
    for i := 0 to |vout|
      invariant r + Outs(vout[i..], curve) == s + Outs(vout, curve)
    {
      assert vout[i..][1..] == vout[i + 1..];
      if !vout[i].IsNull() {
        ghost var before := r;
        r := SerializeTxOut(r, vout[i], curve);
        assert r + Outs(vout[i + 1..], curve) == before + (TxOutBytes(vout[i], curve) + Outs(vout[i + 1..], curve));
      } else {
        assert Outs(vout[i..], curve) == Outs(vout[i + 1..], curve);
      }
    }
  }

  /** The header code, the assertion of Serialize holding. */
  method HeaderCode(c: CCoins) returns (nMaskSize: nat, nCode: nat)
    requires !IsPruned(c) && |c.vout| < U32 - 16
    ensures nMaskSize == MaskSize(c.vout) && nCode < U32
    ensures Avail(c.vout, 0) || Avail(c.vout, 1) || Nonzero(UsedMask(c.vout)) > 0
    ensures nCode == Code(Nonzero(UsedMask(c.vout)), c.fCoinBase, Avail(c.vout, 0), Avail(c.vout, 1))
  {
    hide MaskSize, IsMaskSize;
    var nMaskCode;
    nMaskSize, nMaskCode := CalcMaskSize(c.vout);
    CodeMakesSense(c, nMaskSize);
    NonzeroAppend(UsedMask(c.vout), 0);
    var fFirst := |c.vout| > 0 && !c.vout[0].IsNull();
    var fSecond := |c.vout| > 1 && !c.vout[1].IsNull();
    assert fFirst || fSecond || nMaskCode > 0;
    nCode := 8 * (nMaskCode - (if fFirst || fSecond then 0 else 1)) + (if c.fCoinBase then 1 else 0)
      + (if fFirst then 2 else 0) + (if fSecond then 4 else 0);
  }

  method Serialize(s: Bytes, c: CCoins, curve: Curve) returns (r: Bytes)
    requires !IsPruned(c) && Writable(c.vout)
    requires -INT_MAX - 1 <= c.nVersion <= INT_MAX && -INT_MAX - 1 <= c.nHeight <= INT_MAX
    ensures r == s + CoinsBytes(c, curve)
  {
    hide MaskSize, Mask, VarInt, Outs, Code, Nonzero, Avail, Pow;
    var nMaskSize, nCode := HeaderCode(c);
    Pow2At32();
    r := WriteVarInt(s, c.nVersion, 32);
    r := WriteVarInt(r, nCode, 32);
    r := WriteMask(r, c.vout, nMaskSize);
    r := WriteOuts(r, c.vout, curve);
    r := WriteVarInt(r, c.nHeight, 32);
  }

  method GetSerializeSize(c: CCoins, curve: Curve) returns (nSize: nat)
    requires !IsPruned(c) && |c.vout| < U32 - 16
    ensures nSize == |CoinsBytes(c, curve)|
  {
    hide MaskSize, VarInt, Outs, Code, Nonzero, Avail, TxOutBytes;
    var nMaskSize, nCode := HeaderCode(c);
    nSize := GetSizeOfVarInt(c.nVersion);
    var size := GetSizeOfVarInt(nCode);
    nSize := nSize + size + nMaskSize;
    size := GetOutsSize(c.vout, curve);
    nSize := nSize + size;
    size := GetSizeOfVarInt(c.nHeight);
    nSize := nSize + size;
  }

  method GetOutsSize(vout: seq<TxOut>, curve: Curve) returns (nSize: nat)
    ensures nSize == |Outs(vout, curve)|
  {
    hide TxOutBytes;
    nSize := 0;
    for i := 0 to |vout|
      invariant nSize + |Outs(vout[i..], curve)| == |Outs(vout, curve)|
    {
      assert vout[i..][1..] == vout[i + 1..];
      if !vout[i].IsNull() {
        var size := GetTxOutSize(vout[i], curve);
        nSize := nSize + size;
      }
    }
  }

  /** A mask read on from what was read so far. */
  ghost predicate MaskReadOn(s: Bytes, n: nat, sofar: seq<bool>, s': Bytes, n': nat) {
    var r, r' := ReadMask(s, n), ReadMask(s', n');
    (r.None? <==> r'.None?) && (r.Some? ==> r.value.rest == r'.value.rest && r.value.value == sofar + r'.value.value)
  }

  method UnserializeMask(s: Bytes, nMaskCodeIn: nat) returns (r: Option<Read<seq<bool>>>)
    ensures r == ReadMask(s, nMaskCodeIn)
  {
    hide BitsOf;
    var rest, nMaskCode := s, nMaskCodeIn;
    var vAvail: seq<bool> := [];
    while nMaskCode > 0
      invariant MaskReadOn(s, nMaskCodeIn, vAvail, rest, nMaskCode)
      decreases |rest|
    {
      if rest == [] {
        return None;
      }
      var chAvail := rest[0];
      var bits := EightBits(chAvail);
      vAvail := vAvail + bits;
      if chAvail != 0 {
        nMaskCode := nMaskCode - 1;
      }
      rest := rest[1..];
    }
    assert vAvail + [] == vAvail;
    r := Some(Read(vAvail, rest));
  }

  method EightBits(chAvail: nat) returns (bits: seq<bool>)
    ensures bits == BitsOf(chAvail)
  {
    bits := [];
    for p := 0 to 8
      invariant bits == BitsOf(chAvail)[..p]
    {
      bits := bits + [BitSet(chAvail, p)];
    }
  }

  /** Outputs read on from the first i. */
  ghost predicate OutsReadOn(s: Bytes, avail: seq<bool>, sofar: seq<TxOut>, s': Bytes, i: nat, curve: Curve)
    requires i <= |avail|
  {
    var r, r' := ReadOuts(s, avail, curve), ReadOuts(s', avail[i..], curve);
    (r.None? <==> r'.None?) && (r.Some? ==> r.value.rest == r'.value.rest && r.value.value == sofar + r'.value.value)
  }

  lemma ReadOutNext(s: Bytes, avail: seq<bool>, i: nat, curve: Curve)
    requires i < |avail|
    ensures ReadOuts(s, avail[i..], curve) ==
            if !avail[i] then
              var r := ReadOuts(s, avail[i + 1..], curve);
              if r.None? then None else Some(Read([NULL_OUT] + r.value.value, r.value.rest))
            else
              var o := ReadTxOut(s, curve);
              if o.None? then None
              else
                var r := ReadOuts(o.value.rest, avail[i + 1..], curve);
                if r.None? then None else Some(Read([o.value.value] + r.value.value, r.value.rest))
  {
    hide ReadTxOut;
    assert avail[i..][1..] == avail[i + 1..] && avail[i..][0] == avail[i];
  }

  method UnserializeOuts(s: Bytes, vAvail: seq<bool>, curve: Curve) returns (r: Option<Read<seq<TxOut>>>)
    ensures r == ReadOuts(s, vAvail, curve)
  {
    hide ReadTxOut;
    var rest := s;
    var vout := seq(|vAvail|, i => NULL_OUT);
    var i := 0;
    assert vAvail[0..] == vAvail;
    while i < |vAvail|
      invariant i <= |vAvail| == |vout| && forall k :: i <= k < |vout| ==> vout[k] == NULL_OUT
      invariant OutsReadOn(s, vAvail, vout[..i], rest, i, curve)
    {
      ghost var was, from := vout[..i], rest;
      ReadOutNext(from, vAvail, i, curve);
      if vAvail[i] {
        var o := UnserializeTxOut(rest, curve);
        if o.None? {
          return None;
        }
        vout := vout[i := o.value.value];
        rest := o.value.rest;
      }
      assert vout[..i + 1] == was + [vout[i]];
      i := i + 1;
    }
    assert vout[..i] + [] == vout && vAvail[i..] == [];
    assert ReadOuts(rest, [], curve) == Some(Read([], rest));
    r := Some(Read(vout, rest));
  }

  method Unserialize(s: Bytes, curve: Curve) returns (r: Option<Read<CCoins>>)
    ensures r == ReadCoins(s, curve)
  {
    hide ReadVar, ReadMask, ReadOuts, MaskCode, CoinBase, First, Second, Trim;
    var version := ReadVarInt(s, INT_MAX + 1);
    if version.None? {
      return None;
    }
    var code := ReadVarInt(version.value.rest, U32);
    if code.None? {
      return None;
    }
    var nCode := code.value.value;
    var mask := UnserializeMask(code.value.rest, MaskCode(nCode));
    if mask.None? {
      return None;
    }
    var outs := UnserializeOuts(mask.value.rest, [First(nCode), Second(nCode)] + mask.value.value, curve);
    if outs.None? {
      return None;
    }
    var height := ReadVarInt(outs.value.rest, INT_MAX + 1);
    if height.None? {
      return None;
    }
    var c := Cleanup(CCoins(CoinBase(nCode), outs.value.value, height.value.value, version.value.value));
    r := Some(Read(c, height.value.rest));
  }
}
