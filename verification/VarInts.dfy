/** Variable-length integers of the serialization format (src/serialize.h:306-372) on byte
    streams. Bytes are numbers below 256. */
module VarInts {
  import opened Options
  import opened Limbs

  type Bytes = seq<nat>

  /** What comes before the last byte: every byte here has the high bit set. */
  function Continued(m: nat): Bytes {
    (if m <= 0x7f then [] else Continued(m / 128 - 1)) + [m % 128 + 128]
  }

  /** The bytes of n. The test n <= 0x7f is on a signed type where n is one, so a negative
      number, of which only seven bits are kept, takes one byte. */
  function VarInt(n: int): (s: Bytes)
    ensures |s| > 0
  {
    if n <= 0x7f then [n % 128] else Continued(n / 128 - 1) + [n % 128]
  }

  /** The last seven bits. */
  function Low7(n: int): nat { n % 128 }

  datatype Read<T> = Read(value: T, rest: Bytes)

  function Wrap(x: nat, modulus: nat): nat
    requires modulus > 0
  {
    x % modulus
  }

  /** Reading into a type of the given number of values, from acc on; nothing at the end of
      the stream. */
  function ReadVar(s: Bytes, acc: nat, modulus: nat): Option<Read<nat>>
    requires modulus > 0
    decreases |s|
  {
    if s == [] then None
    else
      var n := Wrap(acc * 128 + s[0] % 128, modulus);
      if s[0] >= 128 then ReadVar(s[1..], Wrap(n + 1, modulus), modulus)
      else Some(Read(n, s[1..]))
  }

  lemma NoWrap(x: nat, modulus: nat)
    requires x < modulus
    ensures Wrap(x, modulus) == x
  {
  }

  /** One byte. */
  lemma ReadByte(b: nat, rest: Bytes, acc: nat, modulus: nat)
    requires acc * 128 + b % 128 + (if b >= 128 then 1 else 0) < modulus
    ensures ReadVar([b] + rest, acc, modulus)
         == if b >= 128 then ReadVar(rest, acc * 128 + b % 128 + 1, modulus) else Some(Read(acc * 128 + b % 128, rest))
  {
    hide Wrap;
    assert ([b] + rest)[1..] == rest;
    NoWrap(acc * 128 + b % 128, modulus);
    NoWrap(acc * 128 + b % 128 + (if b >= 128 then 1 else 0), modulus);
  }

  /** The continued part brings the accumulator to m + 1. */
  lemma {:induction false} ContinuedRead(m: nat, rest: Bytes, modulus: nat)
    requires m + 1 < modulus
    ensures ReadVar(Continued(m) + rest, 0, modulus) == ReadVar(rest, m + 1, modulus)
  {
    hide ReadVar;
    var b := m % 128 + 128;
    if m <= 0x7f {
      assert Continued(m) + rest == [b] + rest;
      ReadByte(b, rest, 0, modulus);
    } else {
      ContinuedRead(m / 128 - 1, [b] + rest, modulus);
      assert Continued(m) + rest == Continued(m / 128 - 1) + ([b] + rest);
      ReadByte(b, rest, m / 128, modulus);
    }
  }

  /** Reading returns the number written and leaves what follows. */
  lemma VarIntRead(n: nat, rest: Bytes, modulus: nat)
    requires n < modulus
    ensures ReadVar(VarInt(n) + rest, 0, modulus) == Some(Read(n, rest))
  {
    hide ReadVar;
    var b := n % 128;
    if n <= 0x7f {
      assert VarInt(n) + rest == [b] + rest;
      ReadByte(b, rest, 0, modulus);
    } else {
      ContinuedRead(n / 128 - 1, [b] + rest, modulus);
      assert VarInt(n) + rest == Continued(n / 128 - 1) + ([b] + rest);
      ReadByte(b, rest, n / 128, modulus);
    }
  }

  /** A signed number comes back if and only if it is not negative. */
  lemma SignedRead(n: int, rest: Bytes, modulus: nat)
    requires -0x8000_0000 <= n < 0x8000_0000 == modulus
    ensures (exists r :: ReadVar(VarInt(n) + rest, 0, modulus) == Some(r) && r.value == n) <==> n >= 0
    ensures var kept: nat := if n >= 0 then n else n % 128;
            ReadVar(VarInt(n) + rest, 0, modulus) == Some(Read(kept, rest))
  {
    if n >= 0 {
      VarIntRead(n, rest, modulus);
    } else {
      VarIntRead(n % 128, rest, modulus);
      assert VarInt(n) == VarInt(n % 128);
    }
  }

  /** The buffer the bytes are collected in has a place for each seven bits of the type. */
  ghost predicate Collected(n: int, tmp: Bytes, m: int) {
    && tmp != [] && tmp[|tmp| - 1] == m % 128 + (if |tmp| == 1 then 0 else 128)
    && VarInt(n) == (if m <= 0x7f then [] else Continued(m / 128 - 1)) + Backwards(tmp)
  }

  function Backwards(tmp: Bytes): (r: Bytes)
    ensures |r| == |tmp|
  {
    if tmp == [] then [] else [tmp[|tmp| - 1]] + Backwards(tmp[..|tmp| - 1])
  }

  lemma OneBackwards(tmp: Bytes, b: nat)
    ensures Backwards(tmp + [b]) == [b] + Backwards(tmp)
  {
    assert (tmp + [b])[..|tmp|] == tmp;
  }

  lemma CollectedNext(n: int, tmp: Bytes, m: int)
    requires Collected(n, tmp, m) && m > 0x7f
    ensures var m' := m / 128 - 1; Collected(n, tmp + [Low7(m') + 128], m')
  {
    var m' := m / 128 - 1;
    OneBackwards(tmp, Low7(m') + 128);
    var head := if m' <= 0x7f then [] else Continued(m' / 128 - 1);
    assert Continued(m') + Backwards(tmp) == head + ([Low7(m') + 128] + Backwards(tmp));
  }

  /** bits is the width of the type; seven of them less for every byte so far. */
  lemma RoomLeft(m: nat, bits: nat, len: nat)
    requires bits > 7 * len && m < Pow(2, bits - 7 * len) && m > 0x7f
    ensures bits > 7 * (len + 1) && m / 128 - 1 < Pow(2, bits - 7 * (len + 1))
  {
    var k := bits - 7 * len;
    assert Pow(2, 7) == 128 by { assert Pow(2, 4) == 16; PowAdd(2, 4, 3); }
    if k <= 7 {
      PowGrows(2, k, 7);
    } else {
      PowAdd(2, 7, k - 7);
    }
  }

  method WriteVarInt(s: Bytes, n: int, bits: nat) returns (r: Bytes)
    requires n < Pow(2, bits) && bits > 0
    ensures r == s + VarInt(n)
  {
    hide Pow, VarInt, Collected;
    var tmp := new nat[(bits + 6) / 7](i => 0);
    var len, m := 0, n;
    tmp[0] := Low7(m);
    CollectedFirst(n, tmp[..1]);
    while m > 0x7f
      invariant len < tmp.Length && Collected(n, tmp[..len + 1], m)
      invariant bits > 7 * len && m < Pow(2, bits - 7 * len)
      decreases m
    {
      RoomLeft(m, bits, len);
      CollectedNext(n, tmp[..len + 1], m);
      ghost var held := tmp[..len + 1];
      m := m / 128 - 1;
      len := len + 1;
      tmp[len] := Low7(m) + 128;
      assert tmp[..len + 1] == held + [Low7(m) + 128];
    }
    CollectedAll(n, tmp[..len + 1], m);
    var out := Reverse(tmp, len);
    r := s + out;
  }

  lemma CollectedFirst(n: int, tmp: Bytes)
    requires tmp == [Low7(n)]
    ensures Collected(n, tmp, n)
  {
    OneBackwards([], tmp[0]);
  }

  lemma CollectedAll(n: int, tmp: Bytes, m: int)
    requires Collected(n, tmp, m) && m <= 0x7f
    ensures VarInt(n) == Backwards(tmp)
  {
  }

  /** The last loop: from the byte collected last to the first one. */
  method Reverse(tmp: array<nat>, last: nat) returns (r: Bytes)
    requires last < tmp.Length
    ensures r == Backwards(tmp[..last + 1])
  {
    r := [];
    var len := last;
    while true
      invariant 0 <= len <= last && r + Backwards(tmp[..len + 1]) == Backwards(tmp[..last + 1])
      decreases len
    {
      assert tmp[..len + 1][..len] == tmp[..len];
      assert r + Backwards(tmp[..len + 1]) == (r + [tmp[len]]) + Backwards(tmp[..len]);
      r := r + [tmp[len]];
      if len == 0 {
        break;
      }
      len := len - 1;
    }
  }

  method ReadVarInt(s: Bytes, modulus: nat) returns (r: Option<Read<nat>>)
    requires modulus > 0
    ensures r == ReadVar(s, 0, modulus)
  {
    hide Wrap;
    var n: nat, rest := 0, s;
    while rest != []
      invariant ReadVar(rest, n, modulus) == ReadVar(s, 0, modulus)
      decreases |rest|
    {
      var chData := rest[0];
      rest := rest[1..];
      n := Wrap(n * 128 + chData % 128, modulus);
      if chData >= 128 {
        n := Wrap(n + 1, modulus);
      } else {
        return Some(Read(n, rest));
      }
    }
    r := None;
  }

  method GetSizeOfVarInt(n: int) returns (nRet: nat)
    ensures nRet == |VarInt(n)|
  {
    hide VarInt, Collected;
    var m := n;
    nRet := 1;
    ghost var tmp: Bytes := [Low7(n)];
    CollectedFirst(n, tmp);
    while m > 0x7f
      invariant Collected(n, tmp, m) && nRet == |tmp|
      decreases m
    {
      CollectedNext(n, tmp, m);
      m := m / 128 - 1;
      tmp := tmp + [Low7(m) + 128];
      nRet := nRet + 1;
    }
    CollectedAll(n, tmp, m);
  }
}
