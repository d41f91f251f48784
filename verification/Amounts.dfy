/** The compact form of amounts: trailing decimal zeros become an exponent (compressor.cpp). */
module Amounts {
  import opened Bytes
  import opened Powers

  const COIN := 100_000_000
  const MAX_MONEY := 21_000_000 * COIN

  function Pow10(e: nat): (r: nat)
    ensures r >= 1
  {
    if e == 0 then 1 else 10 * Pow10(e - 1)
  }

  /** Takes off trailing zeros until e has grown to nine. */
  function Strip(n: nat, e: nat): (nat, nat) {
    if n > 0 && n % 10 == 0 && e < 9 then Strip(n / 10, e + 1) else (n, e)
  }

  function Pack(m: nat, e: nat): nat
    requires m > 0 && e <= 9 && (e < 9 ==> m % 10 != 0)
  {
    if e < 9 then 1 + (m / 10 * 9 + m % 10 - 1) * 10 + e else 1 + (m - 1) * 10 + 9
  }

  lemma {:induction false} StripNormal(n: nat, e: nat)
    requires n > 0 && e <= 9
    ensures var (m, f) := Strip(n, e);
            e <= f <= 9 && m > 0 && (f < 9 ==> m % 10 != 0) && n == m * Pow10(f - e)
    decreases n
  {
    if n % 10 == 0 && e < 9 {
      StripNormal(n / 10, e + 1);
      var (m, f) := Strip(n / 10, e + 1);
      assert m * Pow10(f - e) == 10 * (m * Pow10(f - e - 1));
    }
  }

  /** Stripping finds the one normal form. */
  lemma {:induction false} StripFinds(m: nat, k: nat, e: nat)
    requires m > 0 && e + k <= 9 && (e + k < 9 ==> m % 10 != 0)
    ensures Strip(m * Pow10(k), e) == (m, e + k)
    decreases k
  {
    if k > 0 {
      var n := m * Pow10(k - 1);
      assert m * Pow10(k) == 10 * n;
      StripFinds(m, k - 1, e + 1);
      assert n > 0;
    }
  }

  function Compress(n: nat): (x: nat)
  {
    if n == 0 then 0
    else
      StripNormal(n, 0);
      var (m, e) := Strip(n, 0);
      Pack(m, e)
  }

  function Mantissa(y: nat): nat {
    if y % 10 < 9 then y / 10 / 9 * 10 + y / 10 % 9 + 1 else y / 10 + 1
  }

  function Decompress(x: nat): (n: nat) {
    if x == 0 then 0 else Mantissa(x - 1) * Pow10((x - 1) % 10)
  }

  lemma {:induction false} PackInverse(m: nat, e: nat)
    requires m > 0 && e <= 9 && (e < 9 ==> m % 10 != 0)
    ensures Pack(m, e) > 0 && Mantissa(Pack(m, e) - 1) == m && (Pack(m, e) - 1) % 10 == e
  {
    var y := Pack(m, e) - 1;
    if e < 9 {
      DivUnique(y, 10, m / 10 * 9 + m % 10 - 1, e);
      DivUnique(y / 10, 9, m / 10, m % 10 - 1);
    } else {
      DivUnique(y, 10, m - 1, 9);
    }
  }

  lemma {:induction false} MantissaInverse(y: nat)
    ensures Mantissa(y) > 0 && (y % 10 < 9 ==> Mantissa(y) % 10 != 0) && Pack(Mantissa(y), y % 10) == y + 1
  {
    if y % 10 < 9 {
      DivUnique(Mantissa(y), 10, y / 10 / 9, y / 10 % 9 + 1);
    }
  }

  /** Every amount comes back. */
  lemma {:induction false} DecompressCompress(n: nat)
    ensures Decompress(Compress(n)) == n
  {
    if n > 0 {
      StripNormal(n, 0);
      var (m, e) := Strip(n, 0);
      PackInverse(m, e);
    }
  }

  /** Every number is the compact form of exactly one amount. */
  lemma {:induction false} CompressDecompress(x: nat)
    ensures Compress(Decompress(x)) == x
  {
    if x > 0 {
      var y := x - 1;
      MantissaInverse(y);
      StripFinds(Mantissa(y), y % 10, 0);
      assert Mantissa(y) * Pow10(y % 10) > 0;
    }
  }

  /** The compact form of an amount fits 64 bits with room to spare. */
  lemma {:induction false} CompressBound(n: nat)
    ensures Compress(n) <= 10 * n
    ensures n <= MAX_MONEY ==> Compress(n) < U64
  {
    hide Strip, Pow10, Pack;
    if n > 0 {
      StripNormal(n, 0);
      var (m, e) := Strip(n, 0);
      PackBound(m, e);
      MulMonotone(1, Pow10(e), m);
    }
  }

  lemma {:induction false} PackBound(m: nat, e: nat)
    requires m > 0 && e <= 9 && (e < 9 ==> m % 10 != 0)
    ensures Pack(m, e) <= 10 * m
  {
  }

  // ----- the loops of compressor.cpp, in 64-bit arithmetic -----

  function Wrap(x: nat): (r: nat)
    ensures r < U64
    ensures x < U64 ==> r == x
  {
    x % U64
  }

  lemma {:induction false} WrapEarly(a: nat, k: nat, d: nat)
    ensures Wrap(Wrap(a) * k + d) == Wrap(a * k + d)
  {
    ModUnder(a, k, d, U64);
  }

  lemma {:induction false} PackWraps(q: nat, d: nat, e: nat)
    requires d > 0
    ensures Wrap(Wrap(Wrap(Wrap(q * 9) + d - 1) * 10) + 1 + e) == Wrap(1 + (q * 9 + d - 1) * 10 + e)
  {
    hide Wrap;
    WrapEarly(q * 9, 1, d - 1);
    WrapEarly(q * 9 + d - 1, 10, 0);
    WrapEarly((q * 9 + d - 1) * 10, 1, 1 + e);
  }

  method CompressAmount(amount: nat) returns (x: nat)
    requires amount < U64
    ensures x == Wrap(Compress(amount))
    ensures amount <= MAX_MONEY ==> x == Compress(amount)
  {
    hide Wrap, Strip;
    CompressBound(amount);
    if amount == 0 {
      return 0;
    }
    StripNormal(amount, 0);
    var n, e := amount, 0;
    while n % 10 == 0 && e < 9
      invariant 0 < n <= amount && 0 <= e <= 9 && Strip(n, e) == Strip(amount, 0)
    {
      StripStep(n, e);
      n := n / 10;
      e := e + 1;
    }
    StripStep(n, e);
    if e < 9 {
      var d := n % 10;
      n := n / 10;
      PackWraps(n, d, e);
      x := Wrap(Wrap(Wrap(Wrap(n * 9) + d - 1) * 10) + 1 + e);
    } else {
      WrapEarly((n - 1) * 10, 1, 10);
      x := Wrap(Wrap((n - 1) * 10) + 1 + 9);
    }
  }

  lemma {:induction false} StripStep(n: nat, e: nat)
    requires n > 0
    ensures n % 10 == 0 && e < 9 ==> n / 10 > 0 && Strip(n, e) == Strip(n / 10, e + 1)
    ensures n % 10 != 0 || e >= 9 ==> Strip(n, e) == (n, e)
  {
  }

  lemma {:induction false} TenTimes(m: nat, k: nat, n: nat)
    requires n == Wrap(m * Pow10(k))
    ensures Wrap(n * 10) == Wrap(m * Pow10(k + 1))
  {
    WrapEarly(m * Pow10(k), 10, 0);
    assert m * Pow10(k) * 10 == m * Pow10(k + 1);
  }

  /** The number before its zeros are put back. */
  method ReadMantissa(y: nat) returns (n: nat, e: nat)
    requires y < U64
    ensures n == Wrap(Mantissa(y)) && e == y % 10
  {
    hide Wrap;
    e := y % 10;
    var x := y / 10;
    if e < 9 {
      var d := x % 9 + 1;
      x := x / 9;
      n := Wrap(x * 10 + d);
    } else {
      n := Wrap(x + 1);
    }
  }

  lemma {:induction false} NoZeros(m: nat)
    ensures m * Pow10(0) == m
  {
  }

  method DecompressAmount(compact: nat) returns (n: nat)
    requires compact < U64
    ensures n == Wrap(Decompress(compact))
  {
    hide Wrap, Pow10, Mantissa;
    if compact == 0 {
      return 0;
    }
    ghost var m := Mantissa(compact - 1);
    var e;
    n, e := ReadMantissa(compact - 1);
    ghost var zeros, k := e, 0;
    NoZeros(m);
    while e > 0
      invariant 0 <= e && 0 <= k && n == Wrap(m * Pow10(k)) && e + k == zeros
    {
      TenTimes(m, k, n);
      n := Wrap(n * 10);
      e := e - 1;
      k := k + 1;
    }
  }
}
