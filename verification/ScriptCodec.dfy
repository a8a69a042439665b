/** Compact forms of output scripts and outputs (src/compressor.h, src/compressor.cpp:12-131). The curve
    arithmetic on public keys is a parameter. */
module ScriptCodec {
  import opened Options
  import opened Limbs
  import opened VarInts
  import opened Amounts
  import opened Coins

  const OP_DUP := 0x76
  const OP_EQUAL := 0x87
  const OP_EQUALVERIFY := 0x88
  const OP_HASH160 := 0xa9
  const OP_CHECKSIG := 0xac
  const SPECIAL_SCRIPTS := 6
  const U32: nat := 0x1_0000_0000

  /** IsFullyValid of a public key of 65 bytes, Decompress of one of 33. */
  datatype Curve = Curve(fullyValid: Bytes -> bool, decompress: Bytes -> Option<Bytes>)

  /** A valid key is found again from its x coordinate and the parity of y, and a key that was
      decompressed has 65 bytes. */
  ghost predicate CurveOk(curve: Curve) {
    && (forall key :: |key| == 65 && key[0] == 4 && curve.fullyValid(key) ==>
         curve.decompress([2 + key[64] % 2] + key[1..33]) == Some(key))
    && (forall key :: curve.decompress(key).Some? ==> |curve.decompress(key).value| == 65)
  }

  predicate IsToKeyID(script: Script) {
    |script| == 25 && script[0] == OP_DUP && script[1] == OP_HASH160 && script[2] == 20
    && script[23] == OP_EQUALVERIFY && script[24] == OP_CHECKSIG
  }

  predicate IsToScriptID(script: Script) {
    |script| == 23 && script[0] == OP_HASH160 && script[1] == 20 && script[22] == OP_EQUAL
  }

  predicate IsToShortKey(script: Script) {
    |script| == 35 && script[0] == 33 && script[34] == OP_CHECKSIG && (script[1] == 2 || script[1] == 3)
  }

  predicate IsToLongKey(script: Script, curve: Curve) {
    |script| == 67 && script[0] == 65 && script[66] == OP_CHECKSIG && script[1] == 4
    && curve.fullyValid(script[1..66])
  }

  function Compress(script: Script, curve: Curve): Option<Bytes> {
    if IsToKeyID(script) then Some([0] + script[3..23])
    else if IsToScriptID(script) then Some([1] + script[2..22])
    else if IsToShortKey(script) then Some([script[1]] + script[2..34])
    else if IsToLongKey(script, curve) then Some([4 + script[65] % 2] + script[2..34])
    else None
  }

  function GetSpecialSize(nSize: nat): nat {
    if nSize <= 1 then 20 else if nSize <= 5 then 32 else 0
  }

  /** The script, which stays as it was when the key cannot be decompressed. */
  function Decompress(nSize: nat, data: Bytes, was: Script, curve: Curve): Script
    requires |data| == GetSpecialSize(nSize)
  {
    if nSize == 0 then [OP_DUP, OP_HASH160, 20] + data + [OP_EQUALVERIFY, OP_CHECKSIG]
    else if nSize == 1 then [OP_HASH160, 20] + data + [OP_EQUAL]
    else if nSize <= 3 then [33, nSize] + data + [OP_CHECKSIG]
    else if nSize <= 5 then
      match curve.decompress([nSize - 2] + data)
      case Some(key) => [65] + key + [OP_CHECKSIG]
      case None => was
    else was
  }

  /** The scripts that are compressed, and to what: to a key hash, to a script hash, to a short public key,
      and to a long one that is valid, of which one coordinate and the parity of the other are kept. */
  lemma SpecialForms(a: Bytes, x: Bytes, y: Bytes, curve: Curve)
    requires |a| == 20 && |x| == 32 && |y| == 32
    ensures Compress([0x76, 0xa9, 20] + a + [0x88, 0xac], curve) == Some([0] + a)
    ensures Compress([0xa9, 20] + a + [0x87], curve) == Some([1] + a)
    ensures Compress([33, 2] + x + [0xac], curve) == Some([2] + x)
    ensures Compress([33, 3] + x + [0xac], curve) == Some([3] + x)
    ensures Compress([65, 4] + (x + y) + [0xac], curve) ==
            if curve.fullyValid([4] + (x + y)) then Some([4 + y[31] % 2] + x) else None
  {
    var keyID, scriptID := [0x76, 0xa9, 20] + a + [0x88, 0xac], [0xa9, 20] + a + [0x87];
    assert keyID[3..23] == a && scriptID[2..22] == a;
    var two, three := [33, 2] + x + [0xac], [33, 3] + x + [0xac];
    assert two[2..34] == x && three[2..34] == x;
    var long := [65, 4] + (x + y) + [0xac];
    assert long[1..66] == [4] + (x + y) && long[2..34] == x && long[65] == y[31];
  }

  /** And no others. */
  lemma OnlySpecialForms(script: Script, curve: Curve)
    requires Compress(script, curve).Some?
    ensures (|script| == 25 && script == [0x76, 0xa9, 20] + script[3..23] + [0x88, 0xac])
            || (|script| == 23 && script == [0xa9, 20] + script[2..22] + [0x87])
            || (|script| == 35 && script[1] in {2, 3} && script == [33, script[1]] + script[2..34] + [0xac])
            || (|script| == 67 && script == [65, 4] + script[2..66] + [0xac] && curve.fullyValid(script[1..66]))
  {
  }

  lemma CompressedForm(script: Script, curve: Curve)
    requires Compress(script, curve).Some?
    ensures var c := Compress(script, curve).value; |c| > 0 && c[0] < SPECIAL_SCRIPTS && |c| == 1 + GetSpecialSize(c[0])
  {
  }

  /** Whatever is compressed is restored. */
  lemma DecompressCompressed(script: Script, was: Script, curve: Curve)
    requires CurveOk(curve) && Compress(script, curve).Some?
    ensures var c := Compress(script, curve).value;
            |c| > 0 && |c| == 1 + GetSpecialSize(c[0]) && Decompress(c[0], c[1..], was, curve) == script
  {
    CompressedForm(script, curve);
    var c := Compress(script, curve).value;
    if IsToLongKey(script, curve) {
      var key := script[1..66];
      assert c[1..] == key[1..33] && [c[0] - 2] + c[1..] == [2 + key[64] % 2] + key[1..33];
      assert script == [65] + key + [OP_CHECKSIG];
    } else {
      assert Decompress(c[0], c[1..], was, curve) == script;
    }
  }

  // ----- On streams -----

  function ScriptBytes(script: Script, curve: Curve): Bytes {
    match Compress(script, curve)
    case Some(c) => c
    case None => VarInt(|script| + SPECIAL_SCRIPTS) + script
  }

  function Taken(s: Bytes, n: nat): Option<Read<Bytes>> {
    if n <= |s| then Some(Read(s[..n], s[n..])) else None
  }

  function ReadScript(s: Bytes, was: Script, curve: Curve): Option<Read<Script>> {
    match ReadVar(s, 0, U32)
    case None => None
    case Some(size) =>
      if size.value < SPECIAL_SCRIPTS then
        match Taken(size.rest, GetSpecialSize(size.value))
        case None => None
        case Some(r) => Some(Read(Decompress(size.value, r.value, was, curve), r.rest))
      else Taken(size.rest, size.value - SPECIAL_SCRIPTS)
  }

  lemma TakenAll(s: Bytes, rest: Bytes)
    ensures Taken(s + rest, |s|) == Some(Read(s, rest))
  {
    assert (s + rest)[..|s|] == s && (s + rest)[|s|..] == rest;
  }

  /** Every script survives, compressed or not. */
  lemma ScriptRead(script: Script, rest: Bytes, was: Script, curve: Curve)
    requires CurveOk(curve) && |script| + SPECIAL_SCRIPTS < U32
    ensures ReadScript(ScriptBytes(script, curve) + rest, was, curve) == Some(Read(script, rest))
  {
    hide Compress, Decompress, ReadVar, VarInt, Taken;
    match Compress(script, curve)
    case Some(c) =>
      CompressedForm(script, curve);
      DecompressCompressed(script, was, curve);
      SmallVarInt(c[0]);
      assert c + rest == VarInt(c[0]) + (c[1..] + rest);
      VarIntRead(c[0], c[1..] + rest, U32);
      TakenAll(c[1..], rest);
    case None =>
      var n := |script| + SPECIAL_SCRIPTS;
      assert ScriptBytes(script, curve) + rest == VarInt(n) + (script + rest);
      VarIntRead(n, script + rest, U32);
      TakenAll(script, rest);
  }

  lemma SmallVarInt(b: nat)
    requires b < 128
    ensures VarInt(b) == [b]
  {
  }

  ghost function TxOutBytes(o: TxOut, curve: Curve): Bytes {
    VarInt(Wrap64(CodeOf(Wrap64(o.nValue)))) + ScriptBytes(o.scriptPubKey, curve)
  }

  /** A 64-bit number as a signed one. */
  function Signed64(x: nat): int {
    if x < U64 / 2 then x else x - U64
  }

  /** It is the one in range that is the same modulo 2^64. */
  lemma Signed64Is(x: nat)
    requires x < U64
    ensures -0x8000_0000_0000_0000 <= Signed64(x) < 0x8000_0000_0000_0000 && Wrap64(Signed64(x)) == x
  {
  }

  /** Into a fresh, null output. */
  function ReadTxOut(s: Bytes, curve: Curve): Option<Read<TxOut>> {
    match ReadVar(s, 0, U64)
    case None => None
    case Some(code) =>
      match ReadScript(code.rest, [], curve)
      case None => None
      case Some(script) => Some(Read(TxOut(Signed64(Wrap64(Decompressed(code.value))), script.value), script.rest))
  }

  ghost predicate InRange(o: TxOut) {
    0 <= o.nValue <= MAX_MONEY && |o.scriptPubKey| + SPECIAL_SCRIPTS < U32
  }

  /** Every output with an amount in range survives. */
  lemma TxOutRead(o: TxOut, rest: Bytes, curve: Curve)
    requires CurveOk(curve) && InRange(o)
    ensures ReadTxOut(TxOutBytes(o, curve) + rest, curve) == Some(Read(o, rest))
  {
    hide CurveOk, ReadVar, ReadScript, ScriptBytes, VarInt, CodeOf, IsCode, Decompressed, Wrap64;
    Wrap64Small(o.nValue);
    var code := CodeOf(o.nValue);
    CodeBound(o.nValue, code);
    Wrap64Small(code);
    DecompressCode(o.nValue, code);
    var script := ScriptBytes(o.scriptPubKey, curve);
    assert TxOutBytes(o, curve) + rest == VarInt(code) + (script + rest);
    VarIntRead(code, script + rest, U64);
    ScriptRead(o.scriptPubKey, rest, [], curve);
  }

  // ----- The stream operations -----

  method SerializeScript(s: Bytes, script: Script, curve: Curve) returns (r: Bytes)
    requires |script| + SPECIAL_SCRIPTS < U32
    ensures r == s + ScriptBytes(script, curve)
  {
    hide Compress, VarInt;
    match Compress(script, curve)
    case Some(c) =>
      r := s + c;
    case None =>
      Pow2At32();
      r := WriteVarInt(s, |script| + SPECIAL_SCRIPTS, 32);
      r := r + script;
  }

  method ReadBytes(s: Bytes, n: nat) returns (r: Option<Read<Bytes>>)
    ensures r == Taken(s, n)
  {
    if n <= |s| {
      r := Some(Read(s[..n], s[n..]));
    } else {
      r := None;
    }
  }

  method UnserializeScript(s: Bytes, was: Script, curve: Curve) returns (r: Option<Read<Script>>)
    ensures r == ReadScript(s, was, curve)
  {
    hide ReadVar, Decompress, Taken;
    var size := ReadVarInt(s, U32);
    if size.None? {
      return None;
    }
    var nSize := size.value.value;
    if nSize < SPECIAL_SCRIPTS {
      var data := ReadBytes(size.value.rest, GetSpecialSize(nSize));
      if data.None? {
        return None;
      }
      TakenSize(size.value.rest, GetSpecialSize(nSize));
      return Some(Read(Decompress(nSize, data.value.value, was, curve), data.value.rest));
    }
    r := ReadBytes(size.value.rest, nSize - SPECIAL_SCRIPTS);
  }

  lemma TakenSize(s: Bytes, n: nat)
    ensures Taken(s, n).Some? ==> |Taken(s, n).value.value| == n
  {
  }

  method GetScriptSize(script: Script, curve: Curve) returns (n: nat)
    ensures n == |ScriptBytes(script, curve)|
  {
    hide Compress, VarInt;
    match Compress(script, curve)
    case Some(c) =>
      n := |c|;
    case None =>
      n := GetSizeOfVarInt(|script| + SPECIAL_SCRIPTS);
      n := |script| + n;
  }

  method SerializeTxOut(s: Bytes, o: TxOut, curve: Curve) returns (r: Bytes)
    requires |o.scriptPubKey| + SPECIAL_SCRIPTS < U32
    ensures r == s + TxOutBytes(o, curve)
  {
    hide ScriptBytes, VarInt, CodeOf, Wrap64;
    Wrap64Bound(o.nValue);
    var nVal := CompressAmount(Wrap64(o.nValue));
    Wrap64Bound(CodeOf(Wrap64(o.nValue)));
    Pow2At64();
    r := WriteVarInt(s, nVal, 64);
    r := SerializeScript(r, o.scriptPubKey, curve);
  }

  lemma Wrap64Bound(x: int)
    ensures Wrap64(x) < U64
  {
  }

  lemma Pow2At64()
    ensures Pow(2, 64) == U64
  {
    Pow2At32();
    PowAdd(2, 32, 32);
  }

  method UnserializeTxOut(s: Bytes, curve: Curve) returns (r: Option<Read<TxOut>>)
    ensures r == ReadTxOut(s, curve)
  {
    hide ReadVar, ReadScript, Decompressed, Wrap64;
    var code := ReadVarInt(s, U64);
    if code.None? {
      return None;
    }
    ReadBelow(s, 0, U64);
    var nValue := DecompressAmount(code.value.value);
    var script := UnserializeScript(code.value.rest, [], curve);
    if script.None? {
      return None;
    }
    r := Some(Read(TxOut(Signed64(nValue), script.value.value), script.value.rest));
  }

  lemma {:induction false} ReadBelow(s: Bytes, acc: nat, modulus: nat)
    requires modulus > 0
    ensures ReadVar(s, acc, modulus).Some? ==> ReadVar(s, acc, modulus).value.value < modulus
    decreases |s|
  {
    if s != [] {
      var n := Wrap(acc * 128 + s[0] % 128, modulus);
      ReadBelow(s[1..], Wrap(n + 1, modulus), modulus);
    }
  }

  method GetTxOutSize(o: TxOut, curve: Curve) returns (n: nat)
    ensures n == |TxOutBytes(o, curve)|
  {
    hide ScriptBytes, VarInt, CodeOf, Wrap64;
    Wrap64Bound(o.nValue);
    var nVal := CompressAmount(Wrap64(o.nValue));
    n := GetSizeOfVarInt(nVal);
    var m := GetScriptSize(o.scriptPubKey, curve);
    n := n + m;
  }
}
