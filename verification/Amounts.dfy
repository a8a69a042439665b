/** The amount code of stored outputs (src/compressor.cpp:133-185): trailing decimal zeros are
    moved into one digit. */
module Amounts {
  import opened Limbs

  const MAX_MONEY: nat := 6_000_000_000 * 100_000_000
  const U64: nat := 0x1_0000_0000_0000_0000

  /** n is m times 10^e, where e is the number of trailing zeros, at most 9. */
  ghost predicate Scaled(n: nat, m: nat, e: nat) {
    m > 0 && e <= 9 && n == m * Pow(10, e) && (e < 9 ==> m % 10 != 0)
  }

  /** The code of m times 10^e, and what a code stands for. */
  function Code(m: nat, e: nat): nat
    requires m > 0
  {
    if e < 9 then 1 + (m / 10 * 9 + m % 10 - 1) * 10 + e else 1 + (m - 1) * 10 + 9
  }

  function CodeExponent(x: nat): nat
    requires x > 0
  {
    (x - 1) % 10
  }

  function CodeMantissa(x: nat): nat
    requires x > 0
  {
    var y := (x - 1) / 10;
    if CodeExponent(x) < 9 then y / 9 * 10 + y % 9 + 1 else y + 1
  }

  function Decompressed(x: nat): nat {
    if x == 0 then 0 else CodeMantissa(x) * Pow(10, CodeExponent(x))
  }

  /** x is the code of n. */
  ghost predicate IsCode(n: nat, x: nat) {
    if n == 0 then x == 0
    else exists m, e :: Scaled(n, m, e) && x == Code(m, e)
  }

  lemma CodeTakenApart(m: nat, e: nat)
    requires m > 0 && e <= 9 && (e < 9 ==> m % 10 != 0)
    ensures Code(m, e) > 0 && CodeExponent(Code(m, e)) == e && CodeMantissa(Code(m, e)) == m
  {
    if e < 9 {
      var y := m / 10 * 9 + m % 10 - 1;
      assert Code(m, e) - 1 == y * 10 + e;
      assert y / 9 == m / 10 && y % 9 == m % 10 - 1;
    } else {
      assert Code(m, e) - 1 == (m - 1) * 10 + 9;
    }
  }

  lemma CodePutTogether(x: nat)
    requires x > 0
    ensures var m, e := CodeMantissa(x), CodeExponent(x);
            m > 0 && e <= 9 && (e < 9 ==> m % 10 != 0) && Code(m, e) == x
  {
    var m, e := CodeMantissa(x), CodeExponent(x);
    if e < 9 {
      var y := (x - 1) / 10;
      assert m / 10 == y / 9 && m % 10 == y % 9 + 1;
    }
  }

  /** The zeros are counted in one way only. */
  lemma {:induction false} ScaledUnique(n: nat, m: nat, e: nat, m': nat, e': nat)
    requires Scaled(n, m, e) && Scaled(n, m', e')
    ensures m == m' && e == e'
  {
    hide Pow;
    if e < e' {
      ScaledOnce(m, e, m', e');
    } else if e' < e {
      ScaledOnce(m', e', m, e);
    } else {
      SameFactor(m, m', Pow(10, e));
    }
  }

  lemma SameFactor(m: nat, m': nat, p: nat)
    requires p > 0 && m * p == m' * p
    ensures m == m'
  {
    assert m < m' ==> (m + 1) * p <= m' * p;
    assert m' < m ==> (m' + 1) * p <= m * p;
    assert (m + 1) * p == m * p + p && (m' + 1) * p == m' * p + p;
  }

  lemma ScaledOnce(m: nat, e: nat, m': nat, e': nat)
    requires e < e' && m * Pow(10, e) == m' * Pow(10, e')
    ensures m % 10 == 0
  {
    hide Pow;
    var q := m' * Pow(10, e' - e - 1);
    PowAdd(10, e' - e - 1, e + 1);
    PowAdd(10, e, 1);
    PowTen();
    Regroup(m', Pow(10, e' - e - 1), Pow(10, e));
    SameFactor(m, q * 10, Pow(10, e));
  }

  lemma PowTen()
    ensures Pow(10, 0) == 1 && Pow(10, 1) == 10 && Pow(10, 9) == 1_000_000_000
  {
    assert Pow(10, 3) == 1000;
    PowAdd(10, 3, 3);
    PowAdd(10, 6, 3);
  }

  lemma Regroup(m: nat, a: nat, p: nat)
    ensures m * (a * (p * 10)) == (m * a * 10) * p
  {
    assert m * (a * (p * 10)) == (m * a) * (p * 10);
    assert (m * a) * (p * 10) == (m * a * 10) * p;
  }

  /** The two functions are inverse to each other on all numbers. */
  lemma DecompressCode(n: nat, x: nat)
    requires IsCode(n, x)
    ensures Decompressed(x) == n
  {
    if n > 0 {
      var m, e :| Scaled(n, m, e) && x == Code(m, e);
      CodeTakenApart(m, e);
    }
  }

  lemma CodeDecompressed(x: nat)
    ensures IsCode(Decompressed(x), x)
  {
    hide Pow;
    if x > 0 {
      CodePutTogether(x);
      var m, e := CodeMantissa(x), CodeExponent(x);
      PositiveProduct(m, Pow(10, e));
      assert Scaled(Decompressed(x), m, e);
    }
  }

  lemma PositiveProduct(a: nat, b: nat)
    requires a > 0 && b > 0
    ensures a * b > 0
  {
  }

  /** No two codes for one amount, no two amounts with one code. */
  lemma CodesAreUnique(n: nat, x: nat, n': nat, x': nat)
    requires IsCode(n, x) && IsCode(n', x')
    ensures n == n' <==> x == x'
  {
    DecompressCode(n, x);
    DecompressCode(n', x');
    if n == n' > 0 {
      var m, e :| Scaled(n, m, e) && x == Code(m, e);
      var m', e' :| Scaled(n, m', e') && x' == Code(m', e');
      ScaledUnique(n, m, e, m', e');
    }
  }

  /** Every amount has a code. */
  ghost function Unscaled(n: nat, e: nat): (r: (nat, nat))
    requires n > 0 && e <= 9
    ensures r.0 > 0 && e <= r.1 <= 9 && n == r.0 * Pow(10, r.1 - e) && (r.1 < 9 ==> r.0 % 10 != 0)
    decreases 9 - e
  {
    if n % 10 == 0 && e < 9 then
      var r := Unscaled(n / 10, e + 1);
      Unscale(n, n, 0);
      TenOut(r.0, Pow(10, r.1 - e - 1));
      r
    else (n, e)
  }

  ghost function CodeOf(n: nat): (x: nat)
    ensures IsCode(n, x)
  {
    if n == 0 then 0
    else
      var r := Unscaled(n, 0);
      assert Scaled(n, r.0, r.1);
      Code(r.0, r.1)
  }

  /** A code is at most nine times the amount, so up to MAX_MONEY it takes 63 bits. */
  lemma CodeBound(n: nat, x: nat)
    requires IsCode(n, x)
    ensures x <= 9 * n
    ensures n <= MAX_MONEY ==> x < U64 / 2
  {
    hide Pow;
    if n > 0 {
      var m, e :| Scaled(n, m, e) && x == Code(m, e);
      PowTen();
      if e < 9 {
        PowTenLarge(e);
        EnoughTimes(m, Pow(10, e), e);
      }
    }
  }

  lemma {:induction false} PowTenLarge(e: nat)
    ensures Pow(10, e) >= 1 + e
  {
    if e > 0 {
      PowTenLarge(e - 1);
    }
  }

  lemma EnoughTimes(m: nat, p: nat, e: nat)
    requires m > 0 && p >= 1 + e && e < 9 && m % 10 != 0
    ensures 1 + (m / 10 * 9 + m % 10 - 1) * 10 + e <= 9 * (m * p)
  {
    assert m * p >= m * (1 + e) && m * (1 + e) == m + m * e && m * e >= e;
    assert 1 + (m / 10 * 9 + m % 10 - 1) * 10 + e == 9 * m + m % 10 - 9 + e;
  }

  // ----- The loops, on 64-bit numbers -----

  function Wrap64(x: int): nat { x % U64 }

  lemma Wrap64Small(x: nat)
    ensures x < U64 ==> Wrap64(x) == x
    ensures Wrap64(Wrap64(x)) == Wrap64(x) < U64
  {
  }

  lemma Wrap64TimesTen(x: int, d: int)
    ensures Wrap64(Wrap64(x) * 10 + d) == Wrap64(x * 10 + d)
  {
    var q := x / U64;
    assert x * 10 + d == (Wrap64(x) * 10 + d) + U64 * (10 * q);
    WrapAgain(Wrap64(x) * 10 + d, 10 * q);
  }

  lemma WrapAgain(y: int, k: int)
    ensures Wrap64(y + U64 * k) == Wrap64(y)
  {
  }

  lemma Unscale(n: nat, m: nat, e: nat)
    requires m > 0 && m % 10 == 0 && n == m * Pow(10, e)
    ensures n == m / 10 * Pow(10, e + 1)
  {
    assert m == m / 10 * 10;
    var q, p := m / 10, Pow(10, e);
    assert (q * 10) * p == q * (10 * p);
  }

  /** For an amount in range nothing wraps around: the result is the code itself. */
  method CompressAmount(nAmount: nat) returns (x: nat)
    requires nAmount < U64
    ensures x == Wrap64(CodeOf(nAmount))
    ensures nAmount <= MAX_MONEY ==> x == CodeOf(nAmount)
  {
    hide Pow, Wrap64, CodeOf;
    var n := nAmount;
    Wrap64Small(0);
    CodeBound(nAmount, CodeOf(nAmount));
    if n == 0 {
      return 0;
    }
    var e := 0;
    PowTen();
    while n % 10 == 0 && e < 9
      invariant 0 < n <= nAmount && e <= 9 && nAmount == n * Pow(10, e)
    {
      Unscale(nAmount, n, e);
      n := n / 10;
      e := e + 1;
    }
    assert Scaled(nAmount, n, e) && IsCode(nAmount, Code(n, e));
    CodesAreUnique(nAmount, CodeOf(nAmount), nAmount, Code(n, e));
    Wrap64Small(Code(n, e));
    if e < 9 {
      var d := n % 10;
      assert 1 <= d <= 9;
      n := n / 10;
      Wrap64TimesTen(n * 9 + d - 1, 1 + e);
      x := Wrap64(1 + Wrap64(n * 9 + d - 1) * 10 + e);
    } else {
      x := Wrap64(1 + (n - 1) * 10 + 9);
    }
  }

  method DecompressAmount(code: nat) returns (n: nat)
    requires code < U64
    ensures n == Wrap64(Decompressed(code))
    ensures Decompressed(code) < U64 ==> n == Decompressed(code)
  {
    hide Pow, Wrap64;
    Wrap64Small(Decompressed(code));
    if code == 0 {
      assert Decompressed(code) == 0;
      return 0;
    }
    assert Decompressed(code) == CodeMantissa(code) * Pow(10, CodeExponent(code));
    var x := code - 1;
    var e := x % 10;
    x := x / 10;
    if e < 9 {
      var d := x % 9 + 1;
      x := x / 9;
      n := x * 10 + d;
    } else {
      n := x + 1;
    }
    PowTen();
    ghost var k := 0;
    assert n < U64;
    assert n == CodeMantissa(code) == CodeMantissa(code) * Pow(10, 0);
    Wrap64Small(n);
    while e > 0
      invariant e >= 0 && e + k == CodeExponent(code) && n == Wrap64(CodeMantissa(code) * Pow(10, k))
    {
      TimesTen(CodeMantissa(code), k, n);
      n := Wrap64(n * 10);
      e := e - 1;
      k := k + 1;
    }
  }

  lemma TimesTen(m: nat, k: nat, n: nat)
    requires n == Wrap64(m * Pow(10, k))
    ensures Wrap64(n * 10) == Wrap64(m * Pow(10, k + 1))
  {
    hide Wrap64;
    TenOut(m, Pow(10, k));
    Wrap64TimesTen(m * Pow(10, k), 0);
  }

  lemma TenOut(m: nat, p: nat)
    ensures m * (10 * p) == (m * p) * 10
  {
  }
}
