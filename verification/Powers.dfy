/** Powers of two, division and bitwise "or" on natural numbers. */
module Powers {
  function Pow2(n: nat): (r: nat)
    ensures r >= 1
  {
    if n == 0 then 1 else 2 * Pow2(n - 1)
  }

  lemma {:induction false} PowAdd(a: nat, b: nat)
    ensures Pow2(a + b) == Pow2(a) * Pow2(b)
    decreases b
  {
    if b > 0 {
      PowAdd(a, b - 1);
      assert Pow2(a) * Pow2(b) == 2 * (Pow2(a) * Pow2(b - 1));
    }
  }

  lemma {:induction false} PowMonotone(a: nat, b: nat)
    requires a <= b
    ensures Pow2(a) <= Pow2(b)
    decreases b
  {
    if a < b {
      PowMonotone(a, b - 1);
    }
  }

  /** The quotient and remainder are determined by the equation. */
  lemma {:induction false} DivUnique(x: int, m: int, q: int, r: int)
    requires m > 0 && x == q * m + r && 0 <= r < m
    ensures q == x / m && r == x % m
  {
    var d := x / m - q;
    assert x == (x / m) * m + x % m;
    assert d * m == r - x % m;
    Multiples(d, m);
  }

  lemma {:induction false} MulMonotone(a: int, b: int, c: nat)
    requires a <= b
    ensures a * c <= b * c
  {
    assert (b - a) * c >= 0;
  }

  lemma {:induction false} CancelLess(a: int, b: int, c: nat)
    requires a * c < b * c
    ensures a < b
  {
    if a >= b {
      MulMonotone(b, a, c);
    }
  }

  lemma {:induction false} DivBelow(x: nat, q: nat, p: nat)
    requires q > 0 && x < q * p
    ensures x / q < p
  {
    assert x == (x / q) * q + x % q;
    assert q * p == p * q;
    CancelLess(x / q, p, q);
  }

  lemma {:induction false} MultipleRoom(x: nat, p: nat, q: nat)
    requires p > 0 && x % p == 0 && x < q * p
    ensures x + p <= q * p
  {
    var d := x / p;
    assert x == d * p;
    CancelLess(d, q, p);
    MulMonotone(d + 1, q, p);
    assert (d + 1) * p == d * p + p;
  }

  /** Splitting a factor of the base off `x` before multiplying by the other. */
  lemma {:induction false} SplitTimes(x: nat, q: nat, p: nat, base: nat)
    requires q > 0 && p > 0 && q * p == base && x < base
    ensures x * p == (x % q) * p + (x / q) * base
    ensures (x % q) * p < base && x / q < p
    ensures x * p % base == (x % q) * p && x * p % base % p == 0
  {
    var hi, lo := x / q, x % q;
    assert x == hi * q + lo;
    assert x * p == (hi * q) * p + lo * p;
    assert (hi * q) * p == hi * (q * p);
    MulMonotone(lo, q - 1, p);
    assert (q - 1) * p == q * p - p;
    DivUnique(x * p, base, hi, lo * p);
    DivUnique(lo * p, p, lo, 0);
    DivBelow(x, q, p);
  }

  lemma {:induction false} Multiples(d: int, m: int)
    requires m > 0
    ensures d >= 1 ==> d * m >= m
    ensures d <= -1 ==> d * m <= -m
  {
    if d >= 1 {
      assert (d - 1) * m >= 0;
    } else if d <= -1 {
      assert (-1 - d) * m >= 0;
    }
  }

  /** Dividing twice is dividing by the product. */
  lemma {:induction false} DivDiv(x: nat, a: nat, b: nat)
    requires a > 0 && b > 0
    ensures a * b > 0 && x / a / b == x / (a * b)
  {
    var q, r := x / a / b, x % a + a * (x / a % b);
    assert x / a == q * b + x / a % b;
    assert x == (x / a) * a + x % a;
    assert (q * b) * a == q * (a * b);
    assert a * (x / a % b) <= a * (b - 1);
    assert a * (b - 1) == a * b - a;
    DivUnique(x, a * b, q, r);
  }

  // ---- Bitwise "or" ----

  function Or(x: nat, y: nat): nat
    decreases x + y
  {
    if x == 0 && y == 0 then 0
    else (if x % 2 == 1 || y % 2 == 1 then 1 else 0) + 2 * Or(x / 2, y / 2)
  }

  lemma {:induction false} OrZero(x: nat)
    ensures Or(0, x) == x && Or(x, 0) == x
  {
    if x > 0 {
      OrZero(x / 2);
    }
  }

  /** Without common bits "or" is a sum. */
  lemma {:induction false} OrDisjoint(x: nat, y: nat, s: nat)
    requires x < Pow2(s) && y % Pow2(s) == 0
    ensures Or(x, y) == x + y && Or(y, x) == x + y
    decreases s
  {
    if s == 0 {
      OrZero(y);
    } else {
      var p := Pow2(s - 1);
      var k := y / (2 * p);
      assert y == (2 * p) * k;
      assert y == 2 * (p * k);
      assert y / 2 == p * k && y % 2 == 0;
      DivUnique(p * k, p, k, 0);
      OrDisjoint(x / 2, y / 2, s - 1);
    }
  }

  /** Reducing early does not change the remainder. */
  lemma {:induction false} ModUnder(a: nat, k: nat, d: nat, m: nat)
    requires m > 0
    ensures (a % m * k + d) % m == (a * k + d) % m
  {
    var x, y, q := a % m * k + d, a * k + d, a / m * k;
    assert a == a / m * m + a % m;
    assert y == q * m + x by {
      assert a * k == a / m * m * k + a % m * k;
      assert a / m * m * k == q * m;
    }
    assert y == (q + x / m) * m + x % m;
    DivUnique(y, m, q + x / m, x % m);
  }
}
