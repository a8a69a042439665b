/** The form of variable-length integers as the comment above their code describes it, and its examples
    (src/serialize.h:306-328). */
module VarIntForm {
  import opened Limbs
  import opened VarInts

  /** All bytes but the last have bit 128 set. */
  ghost predicate IsForm(s: Bytes) {
    && s != [] && s[|s| - 1] < 128
    && forall i :: 0 <= i < |s| - 1 ==> 128 <= s[i] < 256
  }

  /** (s[len-1] & 0x7F) + sum(i=1..len-1, 128^i * ((s[len-i-1] & 0x7F) + 1)), from the last byte on. */
  ghost function Denoted(s: Bytes): nat
    requires s != []
  {
    s[|s| - 1] % 128 + Sum(s, 1)
  }

  ghost function Sum(s: Bytes, i: nat): nat
    decreases |s| - i
  {
    if i >= |s| then 0 else Pow(128, i) * (s[|s| - i - 1] % 128 + 1) + Sum(s, i + 1)
  }

  /** The bytes before the last denote, 128 times, one more than they would alone. */
  ghost function Prefix(s: Bytes): nat {
    if s == [] then 0 else 128 * Prefix(s[..|s| - 1]) + s[|s| - 1] % 128 + 1
  }

  lemma {:induction false} SumIsPrefix(s: Bytes, i: nat)
    requires 1 <= i <= |s|
    ensures Sum(s, i) == Pow(128, i) * Prefix(s[..|s| - i])
    decreases |s| - i
  {
    if i < |s| {
      SumIsPrefix(s, i + 1);
      var t := s[..|s| - i];
      assert t[..|t| - 1] == s[..|s| - (i + 1)];
      assert t[|t| - 1] == s[|s| - i - 1];
      Distribute(Pow(128, i), Prefix(t[..|t| - 1]), s[|s| - i - 1] % 128 + 1);
    }
  }

  lemma Distribute(p: nat, a: nat, b: nat)
    ensures p * b + (128 * p) * a == p * (128 * a + b)
  {
  }

  lemma DenotedIs(s: Bytes)
    requires s != []
    ensures Denoted(s) == 128 * Prefix(s[..|s| - 1]) + s[|s| - 1] % 128
  {
    SumIsPrefix(s, 1);
    assert Pow(128, 1) == 128;
  }

  lemma ContinuedStep(m: nat)
    ensures Continued(m) == (if m <= 0x7f then [] else Continued(m / 128 - 1)) + [m % 128 + 128]
  {
  }

  lemma PrefixAppend(s: Bytes, b: nat)
    ensures Prefix([]) == 0 && Prefix(s + [b]) == 128 * Prefix(s) + b % 128 + 1
  {
    assert (s + [b])[..|s|] == s;
  }

  lemma {:induction false} ContinuedForm(m: nat)
    ensures Prefix(Continued(m)) == m + 1 && Continued(m) != []
    ensures forall i :: 0 <= i < |Continued(m)| ==> 128 <= Continued(m)[i] < 256
  {
    hide Continued, Prefix;
    ContinuedStep(m);
    if m <= 0x7f {
      PrefixAppend([], m % 128 + 128);
    } else {
      ContinuedForm(m / 128 - 1);
      PrefixAppend(Continued(m / 128 - 1), m % 128 + 128);
    }
  }

  /** What is written for a number is of that form and denotes it. */
  lemma WrittenForm(n: nat)
    ensures IsForm(VarInt(n)) && Denoted(VarInt(n)) == n
  {
    hide Continued, Sum, Pow;
    var s := VarInt(n);
    DenotedIs(s);
    if n <= 0x7f {
      assert s[..0] == [];
    } else {
      ContinuedForm(n / 128 - 1);
      assert s[..|s| - 1] == Continued(n / 128 - 1);
    }
  }

  lemma {:induction false} PrefixUnique(s: Bytes, t: Bytes)
    requires Prefix(s) == Prefix(t)
    requires forall i :: 0 <= i < |s| ==> 128 <= s[i] < 256
    requires forall i :: 0 <= i < |t| ==> 128 <= t[i] < 256
    ensures s == t
  {
    if s != [] && t != [] {
      PrefixUnique(s[..|s| - 1], t[..|t| - 1]);
      assert s == s[..|s| - 1] + [s[|s| - 1]] && t == t[..|t| - 1] + [t[|t| - 1]];
    }
  }

  lemma LastByte(p: nat, a: nat, q: nat, b: nat)
    requires a < 128 && b < 128 && 128 * p + a % 128 == 128 * q + b % 128
    ensures p == q && a == b
  {
  }

  /** Every number has exactly one encoding. */
  lemma FormUnique(s: Bytes, n: nat)
    requires IsForm(s)
    ensures Denoted(s) == n <==> s == VarInt(n)
  {
    hide VarInt, Sum, Pow, Denoted, Prefix;
    WrittenForm(n);
    if Denoted(s) == n {
      var t := VarInt(n);
      DenotedIs(s);
      DenotedIs(t);
      LastByte(Prefix(s[..|s| - 1]), s[|s| - 1], Prefix(t[..|t| - 1]), t[|t| - 1]);
      PrefixUnique(s[..|s| - 1], t[..|t| - 1]);
      assert s == s[..|s| - 1] + [s[|s| - 1]] && t == t[..|t| - 1] + [t[|t| - 1]];
    }
  }

  /** The sizes stated. */
  lemma Sizes(n: nat)
    ensures |VarInt(n)| == 1 <==> n <= 127
    ensures |VarInt(n)| == 2 <==> 128 <= n <= 16511
    ensures |VarInt(n)| == 3 <==> 16512 <= n <= 2113663
  {
    if n > 127 {
      ContinuedSize(n / 128 - 1);
    }
  }

  lemma ContinuedSize(m: int)
    requires m >= 0
    ensures |Continued(m)| == 1 <==> m <= 127
    ensures |Continued(m)| == 2 <==> 128 <= m <= 16511
  {
  }

  lemma LongExample()
    ensures VarInt(0x1_0000_0000) == [0x8e, 0xfe, 0xfe, 0xff, 0x00]
  {
    hide Continued;
    ContinuedStep(14);
    ContinuedStep(2046);
    ContinuedStep(262142);
    ContinuedStep(33554431);
  }

  /** The examples stated, but for two. */
  lemma Examples()
    ensures VarInt(0) == [0x00] && VarInt(1) == [0x01] && VarInt(127) == [0x7f]
    ensures VarInt(128) == [0x80, 0x00] && VarInt(255) == [0x80, 0x7f] && VarInt(256) == [0x81, 0x00]
    ensures VarInt(16383) == [0xfe, 0x7f] && VarInt(16384) == [0xff, 0x00]
    ensures VarInt(0x1_0000_0000) == [0x8e, 0xfe, 0xfe, 0xff, 0x00]
  {
    LongExample();
  }

  /** Those two: the bytes stated for 16511 and 65535 are read as other numbers, and these are written
      otherwise. */
  lemma WrongExamples()
    ensures VarInt(16511) == [0xff, 0x7f] && VarInt(65535) == [0x82, 0xfe, 0x7f]
    ensures VarInt(32895) == [0x80, 0xff, 0x7f] && VarInt(65407) == [0x82, 0xfd, 0x7f]
  {
  }
}
