/** Values that tests and comments of the repository state for its encodings: what is written, not only
    that it can be read again. */
module KnownValues {
  import opened Options
  import opened Limbs
  import opened VarInts
  import opened Amounts
  import opened Coins
  import opened ScriptCodec
  import opened CoinsCodec
  import Base58
  import CompactTarget
  import Digits

  // ----- Amounts (src/test/compress_tests.cpp) -----

  const COIN: nat := 100_000_000
  const CENT: nat := 1_000_000

  lemma CodeIs(n: nat, m: nat, e: nat)
    requires Scaled(n, m, e)
    ensures CodeOf(n) == Amounts.Code(m, e) && Decompressed(Amounts.Code(m, e)) == n
  {
    CodesAreUnique(n, CodeOf(n), n, Amounts.Code(m, e));
    DecompressCode(n, Amounts.Code(m, e));
  }

  lemma PowersOfTen()
    ensures Pow(10, 0) == 1 && Pow(10, 6) == 1_000_000 && Pow(10, 8) == 100_000_000 && Pow(10, 9) == 1_000_000_000
  {
    assert Pow(10, 4) == 10_000;
    PowAdd(10, 4, 2);
    PowAdd(10, 4, 4);
    PowAdd(10, 8, 1);
  }

  /** The pairs of amount and code that the tests compare with. */
  lemma AmountCodes()
    ensures CodeOf(0) == 0 && CodeOf(1) == 1 && CodeOf(CENT) == 7 && CodeOf(COIN) == 9
    ensures CodeOf(50 * COIN) == 0x32 && CodeOf(21_000_000 * COIN) == 0x140_6f40
    ensures Decompressed(7) == CENT && Decompressed(9) == COIN && Decompressed(0x32) == 50 * COIN
    ensures Decompressed(0x140_6f40) == 21_000_000 * COIN
  {
    hide Pow, CodeOf, Decompressed;
    PowersOfTen();
    CodeIs(1, 1, 0);
    CodeIs(CENT, 1, 6);
    CodeIs(COIN, 1, 8);
    CodeIs(50 * COIN, 5, 9);
    CodeIs(21_000_000 * COIN, 2_100_000, 9);
  }

  // ----- Stored coins (src/coins.h:44-77) -----

  function PayToKeyHash(a: Bytes): Script {
    [OP_DUP, OP_HASH160, 20] + a + [OP_EQUALVERIFY, OP_CHECKSIG]
  }

  lemma KeyHashScript(a: Bytes, curve: Curve)
    requires |a| == 20
    ensures ScriptBytes(PayToKeyHash(a), curve) == [0] + a
  {
    var s := PayToKeyHash(a);
    assert s[3..23] == a;
    assert IsToKeyID(s);
  }

  lemma KeyHashBytes(n: nat, m: nat, e: nat, a: Bytes, curve: Curve)
    requires Scaled(n, m, e) && |a| == 20 && n < U64 && Amounts.Code(m, e) < U64
    ensures TxOutBytes(TxOut(n, PayToKeyHash(a)), curve) == VarInt(Amounts.Code(m, e)) + ([0] + a)
  {
    hide VarInt, CodeOf, ScriptBytes, PayToKeyHash, Decompressed, Pow;
    CodeIs(n, m, e);
    KeyHashScript(a, curve);
    Wrap64Small(n);
    Wrap64Small(Amounts.Code(m, e));
  }

  lemma {:induction false} OutsAppend(vout: seq<TxOut>, o: TxOut, curve: Curve)
    ensures Outs(vout + [o], curve) == Outs(vout, curve) + if o.IsNull() then [] else TxOutBytes(o, curve)
  {
    hide TxOutBytes;
    if vout == [] {
      assert [o][1..] == [];
    } else {
      assert (vout + [o])[1..] == vout[1..] + [o];
      OutsAppend(vout[1..], o, curve);
    }
  }

  function Nulls(n: nat): seq<TxOut> { seq(n, i => NULL_OUT) }

  lemma {:induction false} MoreNulls(vout: seq<TxOut>, n: nat, curve: Curve)
    ensures Outs(vout + Nulls(n), curve) == Outs(vout, curve) && Outs([], curve) == []
  {
    if n == 0 {
      assert vout + Nulls(0) == vout;
    } else {
      MoreNulls(vout, n - 1, curve);
      assert vout + Nulls(n) == vout + Nulls(n - 1) + [NULL_OUT];
      OutsAppend(vout + Nulls(n - 1), NULL_OUT, curve);
    }
  }

  /** The first two outputs need no mask. */
  lemma TwoOutputs(vout: seq<TxOut>)
    requires |vout| <= 2
    ensures MaskSize(vout) == 0 && UsedMask(vout) == []
  {
    forall b: nat ensures MaskByte(vout, b) == 0 {
      NoByteBeyond(vout, b);
    }
    MaskSizeUnique(vout, MaskSize(vout), 0);
  }

  lemma FirstNumbers()
    ensures VarInt(600) == [0x83, 0x58] && VarInt(203998) == [0x8b, 0xb8, 0x5e] && VarInt(1) == [1] && VarInt(4) == [4]
  {
  }

  /** The first example: version 1, output 1 unspent with 600 coins, height 203998. */
  lemma FirstExample(a: Bytes, curve: Curve)
    requires |a| == 20
    ensures var c := CCoins(false, [NULL_OUT, TxOut(600 * COIN, PayToKeyHash(a))], 203998, 1);
            !IsPruned(c) && CoinsBytes(c, curve) == [0x01, 0x04, 0x83, 0x58, 0x00] + a + [0x8b, 0xb8, 0x5e]
  {
    hide VarInt, Outs, MaskSize, UsedMask, PayToKeyHash, TxOutBytes, Pow;
    var o := TxOut(600 * COIN, PayToKeyHash(a));
    var c := CCoins(false, [NULL_OUT, o], 203998, 1);
    assert !c.vout[1].IsNull();
    PowersOfTen();
    KeyHashBytes(600 * COIN, 60, 9, a, curve);
    FirstNumbers();
    TwoOutputs(c.vout);
    MoreNulls([], 1, curve);
    assert [] + Nulls(1) == [NULL_OUT];
    OutsAppend([NULL_OUT], o, curve);
    assert [NULL_OUT] + [o] == c.vout;
  }

  /** The outputs of the second example: 4 and 16 are unspent. */
  function SecondOuts(a: Bytes, b: Bytes): seq<TxOut> {
    Nulls(4) + [TxOut(234925952, PayToKeyHash(a))] + Nulls(11) + [TxOut(110397, PayToKeyHash(b))]
  }

  lemma SecondMask(a: Bytes, b: Bytes)
    ensures MaskByte(SecondOuts(a, b), 0) == 0x04 && MaskByte(SecondOuts(a, b), 1) == 0x40
  {
    hide PayToKeyHash;
    var vout := SecondOuts(a, b);
    assert Flags(vout, 0) == [false, false, true, false, false, false, false, false];
    assert Flags(vout, 1) == [false, false, false, false, false, false, true, false];
    TwoBytes();
  }

  lemma TwoBytes()
    ensures ByteOf([false, false, true, false, false, false, false, false]) == 4
    ensures ByteOf([false, false, false, false, false, false, true, false]) == 64
  {
    assert ByteOf([true, false]) == 1;
    assert ByteOf([false, false, true, false]) == 4;
    assert ByteOf([false, false, false, false, true, false]) == 16;
  }

  lemma SecondSize(a: Bytes, b: Bytes)
    ensures MaskSize(SecondOuts(a, b)) == 2 && UsedMask(SecondOuts(a, b)) == [0x04, 0x40]
    ensures Nonzero([0x04, 0x40]) == 2
  {
    hide PayToKeyHash, MaskByte;
    SecondMask(a, b);
    var vout := SecondOuts(a, b);
    forall k: nat | k >= 2 ensures MaskByte(vout, k) == 0 {
      NoByteBeyond(vout, k);
    }
    MaskSizeUnique(vout, MaskSize(vout), 2);
    assert [0x04, 0x40][1..] == [0x40] && [0x40][1..] == [];
  }

  lemma SecondCodes()
    ensures Amounts.Code(234925952, 0) == 2114333561 && Amounts.Code(110397, 0) == 993571
  {
  }

  lemma SecondNumbers()
    ensures VarInt(2114333561) == [0x86, 0xef, 0x97, 0xd5, 0x79] && VarInt(993571) == [0xbb, 0xd1, 0x23]
    ensures VarInt(120891) == [0x86, 0xaf, 0x3b] && VarInt(9) == [9]
  {
    assert Continued(1006) == [0x86, 0xee];
  }

  lemma SecondOutsBytes(a: Bytes, b: Bytes, curve: Curve)
    requires |a| == |b| == 20
    ensures Outs(SecondOuts(a, b), curve) ==
            [0x86, 0xef, 0x97, 0xd5, 0x79, 0x00] + a + ([0xbb, 0xd1, 0x23, 0x00] + b)
  {
    hide VarInt, Outs, PayToKeyHash, TxOutBytes, Pow, Amounts.Code;
    PowersOfTen();
    SecondCodes();
    SecondNumbers();
    KeyHashBytes(234925952, 234925952, 0, a, curve);
    KeyHashBytes(110397, 110397, 0, b, curve);
    MoreNulls([], 4, curve);
    assert [] + Nulls(4) == Nulls(4);
    OutsAppend(Nulls(4), TxOut(234925952, PayToKeyHash(a)), curve);
    MoreNulls(Nulls(4) + [TxOut(234925952, PayToKeyHash(a))], 11, curve);
    OutsAppend(Nulls(4) + [TxOut(234925952, PayToKeyHash(a))] + Nulls(11), TxOut(110397, PayToKeyHash(b)), curve);
  }

  /** The second example: version 1, a coinbase, outputs 4 and 16 unspent, height 120891. */
  lemma SecondExample(a: Bytes, b: Bytes, curve: Curve)
    requires |a| == |b| == 20
    ensures var c := CCoins(true, SecondOuts(a, b), 120891, 1);
            !IsPruned(c) &&
            CoinsBytes(c, curve) ==
            [0x01, 0x09, 0x04, 0x40] + ([0x86, 0xef, 0x97, 0xd5, 0x79, 0x00] + a + ([0xbb, 0xd1, 0x23, 0x00] + b))
            + [0x86, 0xaf, 0x3b]
  {
    hide VarInt, Outs, MaskSize, UsedMask, PayToKeyHash, Amounts.Code;
    var c := CCoins(true, SecondOuts(a, b), 120891, 1);
    assert c.vout[16] == TxOut(110397, PayToKeyHash(b));
    assert !c.vout[16].IsNull();
    FirstNumbers();
    SecondNumbers();
    SecondSize(a, b);
    SecondOutsBytes(a, b, curve);
    assert c.vout[0] == NULL_OUT && c.vout[1] == NULL_OUT;
  }

  // ----- Compact targets (src/test/arith_uint256_tests.cpp:412-538) -----

  /** Compact numbers and what they stand for, and the compact form of that. */
  lemma CompactNumbers()
    ensures CompactTarget.Decoded(0x0012_3456) == 0 && CompactTarget.Decoded(0x0100_3456) == 0
    ensures CompactTarget.Decoded(0x0112_3456) == 0x12 && CompactTarget.Decoded(0x0212_3456) == 0x1234
    ensures CompactTarget.Decoded(0x0312_3456) == 0x12_3456 && CompactTarget.Decoded(0x0412_3456) == 0x1234_5600
    ensures CompactTarget.Decoded(0x0492_3456) == 0x1234_5600 && CompactTarget.SignBit(0x0492_3456)
    ensures CompactTarget.Decoded(0x0500_9234) == 0x9234_0000 && !CompactTarget.SignBit(0x0500_9234)
    ensures CompactTarget.CompactOf(0x12, 1) == (0x12_0000, 1) && CompactTarget.CompactOf(0x1234, 2) == (0x12_3400, 2)
    ensures CompactTarget.CompactOf(0x1234_5600, 4) == (0x12_3456, 4)
    ensures CompactTarget.CompactOf(0x9234_0000, 4) == (0x00_9234, 5)
  {
    CompactTarget.Pow256Values();
  }

  // ----- Base58 (src/test/data/base58_encode_decode.json) -----

  lemma EncodedIs(v: seq<nat>, d: seq<nat>)
    requires Digits.IsDigits(d, 58) && Base58.LeadingZeros(d) == Base58.LeadingZeros(v)
    requires Digits.Value(d, 58) == Digits.Value(v, 256)
    ensures Base58.Encode(v) == Base58.ToText(d)
  {
    Base58.ConvertUnique(d, Base58.LeadingZeros(v), Digits.Value(v, 256), 58);
  }

  lemma FourDigits(a: nat, b: nat, c: nat, d: nat, base: nat)
    ensures Digits.Value([a, b, c], base) == (a * base + b) * base + c
    ensures Digits.Value([a, b, c, d], base) == ((a * base + b) * base + c) * base + d
  {
    hide Digits.Value;
    Digits.ValueAppend([a], b, base);
    Digits.ValueAppend([a, b], c, base);
    Digits.ValueAppend([a, b, c], d, base);
    assert [a] + [b] == [a, b] && [a, b] + [c] == [a, b, c] && [a, b, c] + [d] == [a, b, c, d];
    OneDigit(a, base);
  }

  lemma OneDigit(a: nat, base: nat)
    ensures Digits.Value([a], base) == a
  {
    assert [a][1..] == [];
  }

  /** Three bytes as four letters. */
  lemma FourLetters(x: nat, y: nat, z: nat, a: nat, b: nat, c: nat, d: nat)
    requires 0 < x < 256 && 0 < a < 58 && b < 58 && c < 58 && d < 58
    requires (x * 256 + y) * 256 + z == ((a * 58 + b) * 58 + c) * 58 + d
    ensures |Base58.ALPHABET| == 58
    ensures Base58.Encode([x, y, z]) ==
            [Base58.ALPHABET[a], Base58.ALPHABET[b], Base58.ALPHABET[c], Base58.ALPHABET[d]]
  {
    hide Digits.Value, Base58.Encode, Base58.Convert;
    Base58.AlphabetAscends();
    FourDigits(x, y, z, 0, 256);
    FourDigits(a, b, c, d, 58);
    EncodedIs([x, y, z], [a, b, c, d]);
  }

  /** Some of the pairs of bytes and text stated. */
  lemma Base58Texts()
    ensures Base58.Encode([0x62, 0x62, 0x62]) == "a3gV" && Base58.Encode([0x63, 0x63, 0x63]) == "aPEr"
  {
    hide Base58.Encode;
    FourLetters(0x62, 0x62, 0x62, 33, 2, 39, 28);
    FourLetters(0x63, 0x63, 0x63, 33, 22, 13, 49);
    forall i | 0 <= i < 58 ensures |Base58.ALPHABET| == 58 && Base58.ALPHABET[i] as int == Base58.LetterAt(i) {
      Base58.LettersStand(i);
    }
  }

  /** Zero bytes are ones. */
  lemma Base58Zeros(n: nat)
    ensures Base58.Encode(Base58.Repeat(n, 0)) == seq(n, i => '1')
  {
    Base58.AlphabetAscends();
    var v := Base58.Repeat(n, 0);
    Base58.ZerosThen(n, [], 256);
    Base58.ZerosThen(n, [], 58);
    assert v + [] == v;
    EncodedIs(v, v);
  }
}
