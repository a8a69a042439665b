/** Base58 encoding and decoding (src/base58.cpp): digit buffers updated in place by carry
    loops, against conversion of the number they stand for. Bytes are digits of base 256. */
module Base58 {
  import opened Options
  import opened Limbs
  import opened Digits

  const ALPHABET: string :=
    "123456789" + "ABCDEFGH" + "JKLMN" + "PQRSTUVWXYZ" + "abcdefghijk" + "mnopqrstuvwxyz"

  // ----- The alphabet -----

  lemma AlphabetAscends()
    ensures |ALPHABET| == 58 && ALPHABET[0] == '1'
    ensures forall i :: 0 <= i < 57 ==> ALPHABET[i] < ALPHABET[i + 1]
  {
  }

  lemma {:induction false} AlphabetOrder(i: nat, j: nat)
    requires i < j < 58
    ensures |ALPHABET| == 58 && ALPHABET[i] < ALPHABET[j]
    decreases j
  {
    AlphabetAscends();
    if i < j - 1 {
      AlphabetOrder(i, j - 1);
    }
  }

  /** Digits, capital and small letters: all but 0, O, I and l. */
  predicate IsLetter(c: char) {
    ('1' <= c <= '9' || 'A' <= c <= 'Z' || 'a' <= c <= 'z') && c != 'O' && c != 'I' && c != 'l'
  }

  /** Where a letter stands: the letters left out before it are not counted. */
  function LetterAt(i: nat): (c: int)
  {
    if i < 9 then '1' as int + i
    else if i < 17 then 'A' as int + i - 9
    else if i < 22 then 'A' as int + i - 8
    else if i < 33 then 'A' as int + i - 7
    else if i < 44 then 'a' as int + i - 33
    else 'a' as int + i - 32
  }

  lemma LettersStand(i: nat)
    requires i < 58
    ensures |ALPHABET| == 58 && ALPHABET[i] as int == LetterAt(i)
  {
    AlphabetAscends();
  }

  /** The alphabet consists of exactly those letters, in the order of their codes. */
  lemma AlphabetIs(c: char)
    ensures c in ALPHABET <==> IsLetter(c)
  {
    AlphabetAscends();
    forall i | 0 <= i < 58 ensures ALPHABET[i] as int == LetterAt(i) {
      LettersStand(i);
    }
    if IsLetter(c) {
      var n := c as int;
      var i := if c <= '9' then n - '1' as int
        else if c < 'I' then n - 'A' as int + 9
        else if c < 'O' then n - 'A' as int + 8
        else if c <= 'Z' then n - 'A' as int + 7
        else if c < 'l' then n - 'a' as int + 33
        else n - 'a' as int + 32;
      assert ALPHABET[i] == c;
    }
  }

  /** The position of a character in the alphabet, 58 when it has none. */
  function IndexOf(c: char): (i: nat)
    ensures i <= 58 == |ALPHABET|
    ensures i < 58 ==> ALPHABET[i] == c
    ensures i == 58 ==> c !in ALPHABET
  {
    AlphabetAscends();
    IndexIn(c, ALPHABET)
  }

  function IndexIn(c: char, s: string): (i: nat)
    ensures i <= |s|
    ensures i < |s| ==> s[i] == c
    ensures i == |s| ==> c !in s
  {
    if s == [] || s[0] == c then 0 else 1 + IndexIn(c, s[1..])
  }

  /** Every letter is found where it stands. */
  lemma IndexOfLetter(i: nat)
    requires i < 58
    ensures |ALPHABET| == 58 && IndexOf(ALPHABET[i]) == i
  {
    AlphabetAscends();
    var j := IndexOf(ALPHABET[i]);
    if j < i {
      AlphabetOrder(j, i);
    } else if i < j < 58 {
      AlphabetOrder(i, j);
    }
  }

  predicate IsSpace(c: char) {
    c == ' ' || '\t' <= c <= '\r'
  }

  /** Spaces: blank, tabulators, line feed, form feed and carriage return. */
  lemma SpaceIs(c: char)
    ensures IsSpace(c) <==> c as int in {9, 10, 11, 12, 13, 32}
  {
  }

  // ----- What the functions compute -----

  ghost predicate AllLetters(t: string) {
    forall i :: 0 <= i < |t| ==> IndexOf(t[i]) < 58
  }

  ghost function ToDigits(t: string): (d: seq<nat>)
    requires AllLetters(t)
    ensures |d| == |t| && IsDigits(d, 58) && forall i :: 0 <= i < |d| ==> d[i] == IndexOf(t[i])
  {
    seq(|t|, i requires 0 <= i < |t| => IndexOf(t[i]))
  }

  ghost function ToText(d: seq<nat>): (t: string)
    requires IsDigits(d, 58)
    ensures |t| == |d|
  {
    AlphabetAscends();
    seq(|d|, i requires 0 <= i < |d| => ALPHABET[d[i]])
  }

  ghost function LeadingZeros(s: seq<nat>): (z: nat)
    ensures z <= |s|
    ensures forall i :: 0 <= i < z ==> s[i] == 0
    ensures z < |s| ==> s[z] != 0
  {
    if s == [] || s[0] != 0 then 0 else 1 + LeadingZeros(s[1..])
  }

  ghost function InBase(n: nat, base: nat): (s: seq<nat>)
    requires base > 1
    ensures IsDigits(s, base) && NoLeadingZero(s) && Value(s, base) == n
  {
    if n == 0 then []
    else
      DivStep(n, base);
      var high := InBase(n / base, base);
      ValueAppend(high, n % base, base);
      Extended(high, n / base, n % base, base);
      high + [n % base]
  }

  lemma DivStep(n: nat, base: nat)
    requires base > 1 && n > 0
    ensures n / base < n && n % base < base && n == (n / base) * base + n % base
  {
    var q := n / base;
    QuotientSmaller(q, base, n);
  }

  lemma QuotientSmaller(q: nat, base: nat, n: nat)
    requires base > 1 && q * base <= n && n > 0
    ensures q < n
  {
    assert q >= 1 ==> q * base >= q * 2;
  }

  lemma Extended(high: seq<nat>, q: nat, r: nat, base: nat)
    requires IsDigits(high, base) && NoLeadingZero(high) && r < base
    requires Value(high, base) == q && q * base + r > 0
    ensures IsDigits(high + [r], base) && NoLeadingZero(high + [r])
  {
  }

  function Repeat(k: nat, x: nat): (s: seq<nat>)
    ensures |s| == k && forall i :: 0 <= i < k ==> s[i] == x
  {
    seq(k, i => x)
  }

  /** The same number in another base, with as many leading zeros. */
  ghost function Convert(s: seq<nat>, from: nat, to: nat): (t: seq<nat>)
    requires to > 1
    ensures IsDigits(t, to)
  {
    Repeat(LeadingZeros(s), 0) + InBase(Value(s, from), to)
  }

  /** A sequence is determined by its leading zeros and its value. */
  lemma {:induction false} ConvertUnique(s: seq<nat>, z: nat, n: nat, base: nat)
    requires base > 1 && IsDigits(s, base) && LeadingZeros(s) == z && Value(s, base) == n
    ensures s == Repeat(z, 0) + InBase(n, base)
  {
    ValueZeros(s, z, base);
    DigitsUnique(s[z..], InBase(n, base), base);
    assert s == Repeat(z, 0) + s[z..];
  }

  lemma ZerosThen(z: nat, t: seq<nat>, base: nat)
    requires NoLeadingZero(t)
    ensures LeadingZeros(Repeat(z, 0) + t) == z && Value(Repeat(z, 0) + t, base) == Value(t, base)
  {
    var s := Repeat(z, 0) + t;
    assert forall i :: 0 <= i < z ==> s[i] == 0;
    assert t != [] ==> s[z] != 0;
    ValueZeros(s, z, base);
    assert s[z..] == t;
  }

  /** Converting there and back changes nothing. */
  lemma ConvertBack(s: seq<nat>, from: nat, to: nat)
    requires from > 1 && to > 1 && IsDigits(s, from)
    ensures Convert(Convert(s, from, to), to, from) == s
  {
    ZerosThen(LeadingZeros(s), InBase(Value(s, from), to), to);
    ConvertUnique(s, LeadingZeros(s), Value(s, from), from);
  }

  ghost function Encode(v: seq<nat>): string {
    ToText(Convert(v, 256, 58))
  }

  function SkipLeading(s: string): string {
    if s != [] && IsSpace(s[0]) then SkipLeading(s[1..]) else s
  }

  function SkipTrailing(s: string): string {
    if s != [] && IsSpace(s[|s| - 1]) then SkipTrailing(s[..|s| - 1]) else s
  }

  ghost function Decode(s: string): Option<seq<nat>> {
    var t := SkipTrailing(SkipLeading(s));
    if AllLetters(t) then Some(Convert(ToDigits(t), 58, 256)) else None
  }

  /** Letters are not spaces, so nothing is skipped. */
  lemma LettersStay(t: string)
    requires AllLetters(t)
    ensures SkipTrailing(SkipLeading(t)) == t
  {
    if t != [] {
      LetterNotSpace(IndexOf(t[0]));
      LetterNotSpace(IndexOf(t[|t| - 1]));
    }
  }

  lemma LetterNotSpace(i: nat)
    requires i < 58
    ensures |ALPHABET| == 58 && !IsSpace(ALPHABET[i])
  {
    AlphabetAscends();
    if i > 0 {
      AlphabetOrder(0, i);
    }
  }

  lemma TextDigits(d: seq<nat>)
    requires IsDigits(d, 58)
    ensures AllLetters(ToText(d)) && ToDigits(ToText(d)) == d
  {
    forall i | 0 <= i < |d| ensures IndexOf(ToText(d)[i]) == d[i] {
      IndexOfLetter(d[i]);
    }
  }

  lemma DigitsText(t: string)
    requires AllLetters(t)
    ensures ToText(ToDigits(t)) == t
  {
  }

  /** Bytes survive encoding and decoding. */
  lemma DecodeEncode(v: seq<nat>)
    requires IsDigits(v, 256)
    ensures Decode(Encode(v)) == Some(v)
  {
    var d := Convert(v, 256, 58);
    TextDigits(d);
    LettersStay(ToText(d));
    ConvertBack(v, 256, 58);
  }

  /** A string of letters without spaces survives decoding and encoding. */
  lemma EncodeDecode(t: string)
    requires AllLetters(t)
    ensures Decode(t).Some? && Encode(Decode(t).value) == t
  {
    LettersStay(t);
    ConvertBack(ToDigits(t), 58, 256);
    DigitsText(t);
  }

  /** Accepted strings with one meaning differ only in the spaces around them. */
  lemma DecodeInjective(s: string, t: string)
    requires Decode(s).Some? && Decode(s) == Decode(t)
    ensures SkipTrailing(SkipLeading(s)) == SkipTrailing(SkipLeading(t))
  {
    var a, b := SkipTrailing(SkipLeading(s)), SkipTrailing(SkipLeading(t));
    ConvertBack(ToDigits(a), 58, 256);
    ConvertBack(ToDigits(b), 58, 256);
    DigitsText(a);
    DigitsText(b);
  }

  // ----- The carry loop -----

  function Low(n: nat, base: nat): nat
    requires base > 0
  {
    n % base
  }

  function High(n: nat, base: nat): nat
    requires base > 0
  {
    n / base
  }

  /** One turn of the carry loop, in numbers. */
  lemma CarryTurn(mul: nat, base: nat, carry: nat, d: nat, p: nat, v: nat, w: nat)
    requires base > 0
    requires w + carry * p == v
    ensures Low(carry + mul * d, base) * p + w + High(carry + mul * d, base) * (base * p) == (d * p) * mul + v
  {
    var c := carry + mul * d;
    var q, r := High(c, base), Low(c, base);
    assert q * (base * p) == (q * base) * p;
    assert r * p + (q * base) * p == (r + q * base) * p;
    assert c == r + q * base;
    assert c * p == carry * p + (mul * d) * p;
    assert (mul * d) * p == (d * p) * mul;
  }

  lemma CarryStays(mul: nat, base: nat, carry: nat, d: nat)
    requires carry < mul && d < base
    ensures High(carry + mul * d, base) < mul && Low(carry + mul * d, base) < base
  {
    assert mul * d <= mul * (base - 1);
    assert mul * (base - 1) == mul * base - mul;
    QuotientBelow(carry + mul * d, base, mul);
  }

  lemma QuotientBelow(x: nat, d: nat, m: nat)
    requires d > 0 && x < m * d
    ensures x / d < m
  {
    ProductBelow(x / d, d, m);
  }

  lemma ProductBelow(q: nat, d: nat, m: nat)
    requires q * d < m * d
    ensures q < m
  {
    assert q >= m ==> q * d >= m * d;
  }

  lemma PowStep(b: nat, k: nat)
    ensures Pow(b, 0) == 1 && Pow(b, k + 1) == b * Pow(b, k)
  {
  }

  lemma TopCarry(carry: nat, p: nat, v: nat, w: nat)
    requires v + carry * p == w < p
    ensures carry == 0
  {
    assert carry >= 1 ==> carry * p >= p;
  }

  /** What is done of the carry loop: the digits from k on hold the low part of the result. */
  ghost predicate Carried(was: seq<nat>, b: seq<nat>, k: nat, base: nat, mul: nat, add: nat, carry: nat) {
    && k <= |b| == |was| && carry < mul
    && b[..k] == was[..k] && IsDigits(b, base)
    && Value(b[k..], base) + carry * Pow(base, |b| - k) == Value(was[k..], base) * mul + add
  }

  lemma CarryOn(was: seq<nat>, b: seq<nat>, k: nat, base: nat, mul: nat, add: nat, carry: nat)
    requires base > 1 && k > 0 && IsDigits(was, base) && Carried(was, b, k, base, mul, add, carry)
    ensures Carried(was, b[k - 1 := Low(carry + mul * b[k - 1], base)], k - 1, base, mul, add,
                    High(carry + mul * b[k - 1], base))
  {
    hide Pow, Value, Low, High;
    var low, d := b[k..], b[k - 1];
    var b' := b[k - 1 := Low(carry + mul * d, base)];
    CarryTurn(mul, base, carry, d, Pow(base, |b| - k), Value(was[k..], base) * mul + add, Value(low, base));
    PowStep(base, |b| - k);
    CarryStays(mul, base, carry, d);
    assert b'[k - 1..] == [b'[k - 1]] + low && was[k - 1..] == [d] + was[k..] by {
      assert was[..k][k - 1] == d;
    }
    FirstDigit(b'[k - 1], low, base);
    FirstDigit(d, was[k..], base);
    Distribute(d * Pow(base, |b| - k), Value(was[k..], base), mul);
    CarriedPrefix(was, b, k, b'[k - 1]);
  }

  lemma CarriedPrefix(was: seq<nat>, b: seq<nat>, k: nat, x: nat)
    requires 0 < k <= |b| == |was| && b[..k] == was[..k]
    ensures b[k - 1 := x][..k - 1] == was[..k - 1]
  {
    assert b[k - 1 := x][..k - 1] == b[..k][..k - 1] == was[..k][..k - 1];
  }

  lemma FirstDigit(d: nat, s: seq<nat>, base: nat)
    ensures Value([d] + s, base) == d * Pow(base, |s|) + Value(s, base)
  {
    assert ([d] + s)[1..] == s;
  }

  lemma Distribute(x: nat, y: nat, m: nat)
    ensures (x + y) * m == x * m + y * m
  {
  }

  lemma CarryDone(was: seq<nat>, b: seq<nat>, base: nat, mul: nat, add: nat, carry: nat)
    requires Carried(was, b, 0, base, mul, add, carry)
    requires Value(was, base) * mul + add < Pow(base, |was|)
    ensures carry == 0 && IsDigits(b, base) && Value(b, base) == Value(was, base) * mul + add
  {
    hide Pow, Value;
    assert b[0..] == b && was[0..] == was;
    TopCarry(carry, Pow(base, |b|), Value(b, base), Value(was, base) * mul + add);
  }

  lemma CarryStart(was: seq<nat>, base: nat, mul: nat, add: nat)
    requires IsDigits(was, base) && add < mul
    ensures Carried(was, was, |was|, base, mul, add, add)
  {
    PowStep(base, 0);
  }

  /** b := b * mul + add; nothing is carried out of the top digit. */
  method MultiplyAdd(b: array<nat>, base: nat, mul: nat, add: nat) returns (carry: nat)
    requires base > 1 && IsDigits(b[..], base) && add < mul
    requires Value(b[..], base) * mul + add < Pow(base, b.Length)
    modifies b
    ensures carry == 0
    ensures IsDigits(b[..], base) && Value(b[..], base) == Value(old(b[..]), base) * mul + add
  {
    hide Pow, Value, Carried, Low, High;
    ghost var was := b[..];
    carry := add;
    var k := b.Length;
    CarryStart(was, base, mul, add);
    while k > 0
      invariant 0 <= k <= b.Length
      invariant Carried(was, b[..], k, base, mul, add, carry)
    {
      CarryOn(was, b[..], k, base, mul, add, carry);
      ghost var held := b[..];
      k := k - 1;
      carry := carry + mul * b[k];
      b[k] := Low(carry, base);
      carry := High(carry, base);
      assert b[..] == held[k := b[k]];
    }
    CarryDone(was, b[..], base, mul, add, carry);
  }

  // ----- Encoding -----

  lemma {:induction false} ZerosCounted(s: seq<nat>, z: nat)
    requires z <= |s| && (forall i :: 0 <= i < z ==> s[i] == 0) && (z < |s| ==> s[z] != 0)
    ensures LeadingZeros(s) == z
  {
    assert forall i :: 0 <= i < LeadingZeros(s) ==> s[i] == 0;
  }

  /** One more digit read still fits the buffer. */
  lemma StillFits(s: seq<nat>, k: nat, from: nat, to: nat, size: nat)
    requires from > 0 && IsDigits(s, from) && k < |s| && Pow(from, |s|) <= Pow(to, size)
    ensures Value(s[..k], from) * from + s[k] == Value(s[..k + 1], from) < Pow(to, size)
  {
    hide Pow, Value;
    assert s[..k + 1] == s[..k] + [s[k]];
    ValueAppend(s[..k], s[k], from);
    ValueBound(s[..k + 1], from);
    PowGrows(from, k + 1, |s|);
  }

  /** What is left of the buffer after its zeros are the digits of its value. */
  lemma BufferDigits(b: seq<nat>, k: nat, s: seq<nat>, z: nat, from: nat, to: nat)
    requires to > 1 && IsDigits(b, to) && k <= |b| && (forall i :: 0 <= i < k ==> b[i] == 0)
    requires k < |b| ==> b[k] != 0
    requires LeadingZeros(s) == z && Value(b, to) == Value(s[z..], from)
    ensures Repeat(z, 0) + b[k..] == Convert(s, from, to)
  {
    hide Value;
    ValueZeros(b, k, to);
    ValueZeros(s, z, from);
    DigitsUnique(b[k..], InBase(Value(s, from), to), to);
  }

  lemma {:induction false} ValueOfZeros(s: seq<nat>, base: nat)
    requires forall i :: 0 <= i < |s| ==> s[i] == 0
    ensures Value(s, base) == 0
  {
    ValueZeros(s, |s|, base);
  }

  method CountZeros(s: seq<nat>) returns (zeroes: nat)
    ensures zeroes == LeadingZeros(s)
  {
    zeroes := 0;
    while zeroes != |s| && s[zeroes] == 0
      invariant zeroes <= |s| && forall i :: 0 <= i < zeroes ==> s[i] == 0
    {
      zeroes := zeroes + 1;
    }
    ZerosCounted(s, zeroes);
  }

  /** Read digits one by one into a buffer large enough for all of them. */
  method Accumulate(s: seq<nat>, from: nat, to: nat, size: nat) returns (b: array<nat>)
    requires from > 1 && to > 1 && IsDigits(s, from) && Pow(from, |s|) <= Pow(to, size)
    ensures fresh(b) && b.Length == size && IsDigits(b[..], to) && Value(b[..], to) == Value(s, from)
  {
    hide Pow, Value;
    b := new nat[size](i => 0);
    var p := 0;
    ValueOfZeros(b[..], to);
    ValueOfZeros([], from);
    assert s[..0] == [];
    while p != |s|
      invariant p <= |s| && fresh(b) && b.Length == size && IsDigits(b[..], to)
      invariant Value(b[..], to) == Value(s[..p], from)
    {
      StillFits(s, p, from, to, size);
      var carry := MultiplyAdd(b, to, from, s[p]);
      assert carry == 0;
      p := p + 1;
    }
    assert s[..p] == s;
  }

  method EncodeBase58(vch: seq<nat>) returns (str: string)
    requires IsDigits(vch, 256)
    ensures str == Encode(vch)
  {
    hide Pow, Value, InBase, Convert, LeadingZeros;
    var zeroes := CountZeros(vch);
    var rest := vch[zeroes..];
    EncodeBufferSuffices(|rest|);
    var b58 := Accumulate(rest, 256, 58, |rest| * 138 / 100 + 1);
    var it := 0;
    while it != b58.Length && b58[it] == 0
      invariant it <= b58.Length && forall i :: 0 <= i < it ==> b58[i] == 0
    {
      it := it + 1;
    }
    BufferDigits(b58[..], it, vch, zeroes, 256, 58);
    str := WriteLetters(b58, it, zeroes, Convert(vch, 256, 58));
  }

  /** The zeros as ones, then the digits of the buffer from `first` on as letters. */
  method WriteLetters(b58: array<nat>, first: nat, zeroes: nat, ghost d: seq<nat>) returns (str: string)
    requires first <= b58.Length && IsDigits(d, 58) && d == Repeat(zeroes, 0) + b58[first..]
    ensures str == ToText(d)
  {
    AlphabetAscends();
    str := seq(zeroes, i => '1');
    var it := first;
    while it != b58.Length
      invariant first <= it <= b58.Length && |str| == zeroes + (it - first)
      invariant forall i :: 0 <= i < |str| ==> str[i] == ALPHABET[d[i]]
    {
      assert d[|str|] == b58[..][it];
      str := str + [ALPHABET[b58[it]]];
      it := it + 1;
    }
  }

  // ----- Decoding -----

  ghost predicate AllSpaces(s: string) {
    forall i :: 0 <= i < |s| ==> IsSpace(s[i])
  }

  lemma {:induction false} LeadingSkipped(s: string, k: nat)
    requires k <= |s| && AllSpaces(s[..k]) && (k < |s| ==> !IsSpace(s[k]))
    ensures SkipLeading(s) == s[k..]
  {
    if k > 0 {
      assert s[..k][0] == s[0];
      assert s[1..][..k - 1] == s[..k][1..];
      LeadingSkipped(s[1..], k - 1);
      assert s[1..][k - 1..] == s[k..];
    }
  }

  lemma {:induction false} TrailingSkipped(s: string, k: nat)
    requires k <= |s| && AllSpaces(s[k..]) && (k > 0 ==> !IsSpace(s[k - 1]))
    ensures SkipTrailing(s) == s[..k]
    decreases |s|
  {
    if k < |s| {
      assert s[k..][|s| - 1 - k] == s[|s| - 1];
      var t := s[..|s| - 1];
      assert t[k..] == s[k..][..|s| - 1 - k];
      TrailingSkipped(t, k);
      assert t[..k] == s[..k];
    } else {
      assert s[..k] == s;
    }
  }

  /** What stands before a character that is no space is kept. */
  lemma {:induction false} TrailingKept(s: string, k: nat)
    requires k < |s| && !IsSpace(s[k])
    ensures k < |SkipTrailing(s)| <= |s| && SkipTrailing(s) == s[..|SkipTrailing(s)|]
    decreases |s|
  {
    if IsSpace(s[|s| - 1]) {
      TrailingKept(s[..|s| - 1], k);
    }
  }

  /** A character outside the alphabet, with no trailing space, spoils the text. */
  lemma Spoiled(s: string, t: string, i: nat, j: nat)
    requires t == SkipLeading(s) && i <= j < |t| && IndexOf(t[i]) == 58 && !IsSpace(t[j])
    ensures Decode(s) == None
  {
    TrailingKept(t, j);
    assert SkipTrailing(t)[i] == t[i];
  }

  ghost predicate LettersUpTo(t: string, q: nat) {
    q <= |t| && forall i :: 0 <= i < q ==> IndexOf(t[i]) < 58
  }

  /** The letters after the ones, as digits. */
  ghost function Body(t: string, z: nat, q: nat): (d: seq<nat>)
    requires z <= q && LettersUpTo(t, q)
    ensures |d| == q - z && IsDigits(d, 58)
  {
    ToDigits(t[z..q])
  }

  /** One more letter still fits the buffer. */
  lemma LetterFits(t: string, z: nat, q: nat, size: nat)
    requires z <= q < |t| && LettersUpTo(t, q + 1) && Pow(58, |t| - z) <= Pow(256, size)
    ensures Value(Body(t, z, q), 58) * 58 + IndexOf(t[q]) == Value(Body(t, z, q + 1), 58) < Pow(256, size)
  {
    hide Pow, Value;
    var d := Body(t, z, q + 1);
    assert Body(t, z, q) == d[..q - z] && d[..q - z + 1] == d && d[q - z] == IndexOf(t[q]);
    PowGrows(58, q + 1 - z, |t| - z);
    StillFits(d, q - z, 58, 256, size);
  }

  lemma OnesAreZeros(t: string, z: nat, q: nat)
    requires z <= q && LettersUpTo(t, q)
    requires forall i :: 0 <= i < z ==> t[i] == '1'
    requires z < q ==> t[z] != '1'
    ensures AllLetters(t[..q]) && LeadingZeros(ToDigits(t[..q])) == z && ToDigits(t[..q])[z..] == Body(t, z, q)
  {
    var d := ToDigits(t[..q]);
    IndexOfLetter(0);
    AlphabetAscends();
    assert forall i :: 0 <= i < z ==> d[i] == IndexOf('1') == 0;
    assert z < q ==> ALPHABET[d[z]] == t[z];
    ZerosCounted(d, z);
  }

  /** The string is letters with spaces around: it is accepted. */
  lemma Accepted(s: string, t: string, q: nat)
    requires t == SkipLeading(s) && LettersUpTo(t, q) && AllSpaces(t[q..])
    ensures AllLetters(t[..q]) && Decode(s) == Some(Convert(ToDigits(t[..q]), 58, 256))
  {
    hide Convert;
    if q > 0 {
      LetterNotSpace(IndexOf(t[q - 1]));
    }
    TrailingSkipped(t, q);
  }

  /** A null-terminated string: psz holds its characters, without the terminator. On failure
      vch is left as it was. */
  method DecodeBase58(psz: string, vchWas: seq<nat>) returns (ok: bool, vch: seq<nat>)
    requires '\0' !in psz
    ensures ok == Decode(psz).Some?
    ensures vch == if ok then Decode(psz).value else vchWas
  {
    hide Pow, Value, InBase, Convert, LeadingZeros, Decode, AllSpaces, Body, ToDigits;
    vch := vchWas;
    var start := SkipSpaces(psz, 0);
    LeadingSkipped(psz, start);
    var t := psz[start..];
    var zeroes := 0;
    while zeroes < |t| && t[zeroes] == '1'
      invariant zeroes <= |t| && forall i :: 0 <= i < zeroes ==> t[i] == '1'
    {
      zeroes := zeroes + 1;
    }
    DecodeBufferSuffices(|t| - zeroes);
    OnesAreLetters(t, zeroes);
    var b256, q := ReadLetters(t, zeroes, (|t| - zeroes) * 733 / 1000 + 1);
    if q < |t| && !IsSpace(t[q]) {
      Spoiled(psz, t, q, q);
      return false, vch;
    }
    var end := SkipSpaces(t, q);
    if end != |t| {
      NoSpaceIsLetter(t[q]);
      Spoiled(psz, t, q, end);
      return false, vch;
    }
    assert t[q..end] == t[q..];
    Accepted(psz, t, q);
    OnesAreZeros(t, zeroes, q);
    vch := WithoutPadding(b256, zeroes, ToDigits(t[..q]));
    ok := true;
  }

  /** The leading zeros counted, then the buffer from its first nonzero byte. */
  method WithoutPadding(b256: array<nat>, zeroes: nat, ghost digits: seq<nat>) returns (vch: seq<nat>)
    requires IsDigits(b256[..], 256) && LeadingZeros(digits) == zeroes
    requires Value(b256[..], 256) == Value(digits[zeroes..], 58)
    ensures vch == Convert(digits, 58, 256)
  {
    hide Pow, Value, InBase, Convert;
    var it := 0;
    while it != b256.Length && b256[it] == 0
      invariant it <= b256.Length && forall i :: 0 <= i < it ==> b256[i] == 0
    {
      it := it + 1;
    }
    BufferDigits(b256[..], it, digits, zeroes, 58, 256);
    vch := Repeat(zeroes, 0);
    ghost var first := it;
    while it != b256.Length
      invariant first <= it <= b256.Length && vch == Repeat(zeroes, 0) + b256[first..it]
    {
      vch := vch + [b256[it]];
      it := it + 1;
    }
    assert b256[first..it] == b256[..][first..];
  }

  lemma NoSpaceIsLetter(c: char)
    ensures IsSpace(c) ==> IndexOf(c) == 58
  {
    if IndexOf(c) < 58 {
      LetterNotSpace(IndexOf(c));
    }
  }

  method SkipSpaces(s: string, from: nat) returns (k: nat)
    requires from <= |s|
    ensures from <= k <= |s| && AllSpaces(s[from..k]) && (k < |s| ==> !IsSpace(s[k]))
  {
    k := from;
    while k < |s| && IsSpace(s[k])
      invariant from <= k <= |s| && AllSpaces(s[from..k])
    {
      assert s[from..k + 1] == s[from..k] + [s[k]];
      k := k + 1;
    }
  }

  /** The letters from z on, up to the first space or other character, into a buffer sized
      for all that is left. */
  method ReadLetters(t: string, z: nat, size: nat) returns (b256: array<nat>, q: nat)
    requires LettersUpTo(t, z) && Pow(58, |t| - z) <= Pow(256, size)
    ensures z <= q && LettersUpTo(t, q) && (q < |t| ==> IsSpace(t[q]) || IndexOf(t[q]) == 58)
    ensures IsDigits(b256[..], 256) && Value(b256[..], 256) == Value(Body(t, z, q), 58)
  {
    hide Pow, Value, Body, LettersUpTo, IsSpace;
    b256 := new nat[size](i => 0);
    q := z;
    ValueOfZeros(b256[..], 256);
    ValueOfZeros(Body(t, z, z), 58);
    LettersWithin(t, z);
    while q < |t| && !IsSpace(t[q])
      invariant z <= q <= |t| && LettersUpTo(t, q) && b256.Length == size && fresh(b256)
      invariant IsDigits(b256[..], 256) && Value(b256[..], 256) == Value(Body(t, z, q), 58)
    {
      var digit := IndexOf(t[q]);
      if digit == 58 {
        return;
      }
      OneMoreLetter(t, q);
      LetterFits(t, z, q, size);
      var carry := MultiplyAdd(b256, 256, 58, digit);
      assert carry == 0;
      q := q + 1;
    }
  }

  lemma LettersWithin(t: string, q: nat)
    requires LettersUpTo(t, q)
    ensures q <= |t|
  {
  }

  lemma OneMoreLetter(t: string, q: nat)
    requires q < |t| && LettersUpTo(t, q) && IndexOf(t[q]) < 58
    ensures LettersUpTo(t, q + 1)
  {
  }

  lemma OnesAreLetters(t: string, z: nat)
    requires z <= |t| && forall i :: 0 <= i < z ==> t[i] == '1'
    ensures LettersUpTo(t, z)
  {
    IndexOfLetter(0);
    AlphabetAscends();
  }

  /** What c_str() shows of a string object: the characters before the first null. */
  function CStr(s: string): (t: string)
    ensures '\0' !in t
  {
    if s == [] || s[0] == '\0' then [] else [s[0]] + CStr(s[1..])
  }

  method DecodeBase58String(str: string, vchWas: seq<nat>) returns (ok: bool, vch: seq<nat>)
    ensures ok == Decode(CStr(str)).Some?
    ensures vch == if ok then Decode(CStr(str)).value else vchWas
  {
    ok, vch := DecodeBase58(CStr(str), vchWas);
  }
}
