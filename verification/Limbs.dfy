/** Numbers as sequences of 32-bit limbs, least significant first. */
module Limbs {
  import opened Powers

  const WIDTH: nat := 8
  const BASE: nat := 0x1_0000_0000
  const BASE64: nat := 0x1_0000_0000_0000_0000

  type Limb = x: nat | x < BASE

  /** The weight of limb `i`. */
  function Weight(i: nat): (w: nat)
    ensures w >= 1
  {
    if i == 0 then 1 else BASE * Weight(i - 1)
  }

  function Val(s: seq<Limb>, n: nat): nat
    requires n <= |s|
  {
    if n == 0 then 0 else Val(s, n - 1) + s[n - 1] * Weight(n - 1)
  }

  /** The value of a whole number. */
  function Value(s: seq<Limb>): nat
    requires |s| == WIDTH
  {
    Val(s, WIDTH)
  }

  const MODULUS: nat := Weight(WIDTH)

  lemma {:induction false} WeightIsPower(i: nat)
    ensures Weight(i) == Pow2(32 * i)
  {
    if i > 0 {
      WeightIsPower(i - 1);
      PowAdd(32, 32 * (i - 1));
      Pow32();
    }
  }

  lemma {:induction false} Pow32()
    ensures Pow2(32) == BASE && Pow2(8) == 0x100
  {
    assert Pow2(4) == 16;
    PowAdd(4, 4);
    PowAdd(8, 8);
    PowAdd(16, 16);
  }

  lemma {:induction false} WeightNext(i: nat)
    ensures Weight(0) == 1 && Weight(i + 1) == BASE * Weight(i)
  {
  }

  lemma {:induction false} WeightAdd(i: nat, j: nat)
    ensures Weight(i + j) == Weight(i) * Weight(j)
    decreases j
  {
    if j > 0 {
      WeightAdd(i, j - 1);
      assert Weight(i) * (BASE * Weight(j - 1)) == BASE * (Weight(i) * Weight(j - 1));
    }
  }

  lemma {:induction false} ValBound(s: seq<Limb>, n: nat)
    requires n <= |s|
    ensures 0 <= Val(s, n) < Weight(n)
  {
    if n > 0 {
      ValBound(s, n - 1);
      MulMonotone(s[n - 1], BASE - 1, Weight(n - 1));
      assert (BASE - 1) * Weight(n - 1) + Weight(n - 1) == BASE * Weight(n - 1);
    }
  }

  lemma {:induction false} ValSame(s: seq<Limb>, t: seq<Limb>, n: nat)
    requires n <= |s| && n <= |t| && forall i :: 0 <= i < n ==> s[i] == t[i]
    ensures Val(s, n) == Val(t, n)
  {
    if n > 0 {
      ValSame(s, t, n - 1);
    }
  }

  lemma {:induction false} ValZero(s: seq<Limb>, n: nat)
    requires n <= |s| && forall i :: 0 <= i < n ==> s[i] == 0
    ensures Val(s, n) == 0
  {
    if n > 0 {
      ValZero(s, n - 1);
    }
  }

  /** A carry that falls off the end is a reduction modulo 2^256. */
  lemma {:induction false} DropCarry(s: seq<Limb>, carry: nat, x: nat)
    requires |s| == WIDTH && Value(s) + carry * MODULUS == x
    ensures Value(s) == x % MODULUS
  {
    ValBound(s, WIDTH);
    DivUnique(x, MODULUS, carry, Value(s));
  }

  // ---- Addition ----

  lemma {:induction false} AddStep(x: nat, y: nat, w: nat, carry: nat, a: nat, b: nat, n: nat, v: nat)
    requires v + carry * w == x + y && n == carry + a + b
    ensures v + (n % BASE) * w + (n / BASE) * (BASE * w) == (x + a * w) + (y + b * w)
  {
    assert n == (n / BASE) * BASE + n % BASE;
    assert (n / BASE) * (BASE * w) == ((n / BASE) * BASE) * w;
    assert n * w == carry * w + a * w + b * w;
  }

  /** `operator+=`: the sum modulo 2^256; no intermediate exceeds 64 bits. */
  method Add(pn: array<Limb>, b: array<Limb>)
    requires pn.Length == WIDTH == b.Length
    modifies pn
    ensures Value(pn[..]) == (old(Value(pn[..])) + old(Value(b[..]))) % MODULUS
  {
    ghost var a, bs := pn[..], b[..];
    var carry := 0;
    for i := 0 to WIDTH
      invariant 0 <= carry <= 1
      invariant forall k :: i <= k < WIDTH ==> pn[k] == a[k] && b[k] == bs[k]
      invariant Val(pn[..], i) + carry * Weight(i) == Val(a, i) + Val(bs, i)
    {
      var n := carry + pn[i] + b[i];
      assert n < BASE64;
      AddStep(Val(a, i), Val(bs, i), Weight(i), carry, a[i], bs[i], n, Val(pn[..], i));
      ghost var before := pn[..];
      pn[i] := n % BASE;
      ValSame(before, pn[..], i);
      carry := n / BASE;
    }
    DropCarry(pn[..], carry, Value(a) + Value(bs));
  }

  // ---- Increment, decrement, complement, subtraction ----

  /** Setting one limb changes the value by the difference times its weight. */
  lemma {:induction false} ValSet(s: seq<Limb>, i: nat, x: Limb, n: nat)
    requires i < n <= |s|
    ensures Val(s[i := x], n) == Val(s, n) - s[i] * Weight(i) + x * Weight(i)
    decreases n
  {
    if i == n - 1 {
      ValSame(s, s[i := x], i);
    } else {
      ValSet(s, i, x, n - 1);
    }
  }

  lemma {:induction false} NextLimb(y: Limb, x: Limb, w: nat)
    requires x == (y + 1) % BASE
    ensures x != 0 ==> x * w == y * w + w
    ensures x == 0 ==> x * w == y * w + w - BASE * w
  {
    if x == 0 {
      assert (BASE - 1) * w + w == BASE * w;
    } else {
      assert (y + 1) * w == y * w + w;
    }
  }

  /** `operator++`. */
  method Increment(pn: array<Limb>)
    requires pn.Length == WIDTH
    modifies pn
    ensures Value(pn[..]) == (old(Value(pn[..])) + 1) % MODULUS
  {
    hide Val, Weight;
    ghost var a := pn[..];
    var i := 0;
    WeightNext(0);
    while true
      invariant 0 <= i < WIDTH
      invariant Value(pn[..]) + Weight(i) == Value(a) + 1
      decreases WIDTH - i
    {
      WeightNext(i);
      ghost var before := pn[..];
      var x := (pn[i] + 1) % BASE;
      ValSet(before, i, x, WIDTH);
      NextLimb(before[i], x, Weight(i));
      pn[i] := x;
      assert pn[..] == before[i := x];
      if x != 0 {
        DropCarry(pn[..], 0, Value(a) + 1);
        return;
      }
      if i == WIDTH - 1 {
        DropCarry(pn[..], 1, Value(a) + 1);
        return;
      }
      i := i + 1;
    }
  }

  /** `operator--`. */
  method Decrement(pn: array<Limb>)
    requires pn.Length == WIDTH
    modifies pn
    ensures Value(pn[..]) == (old(Value(pn[..])) + MODULUS - 1) % MODULUS
  {
    hide Val, Weight;
    ghost var a := pn[..];
    var i := 0;
    WeightNext(0);
    while true
      invariant 0 <= i < WIDTH
      invariant Value(pn[..]) - Weight(i) == Value(a) - 1
      decreases WIDTH - i
    {
      WeightNext(i);
      ghost var before := pn[..];
      var x := (pn[i] + BASE - 1) % BASE;
      ValSet(before, i, x, WIDTH);
      NextLimb(x, before[i], Weight(i));
      pn[i] := x;
      assert pn[..] == before[i := x];
      if x != BASE - 1 {
        ValBound(pn[..], WIDTH);
        DivUnique(Value(a) + MODULUS - 1, MODULUS, 1, Value(pn[..]));
        return;
      }
      if i == WIDTH - 1 {
        ValBound(pn[..], WIDTH);
        DivUnique(Value(a) + MODULUS - 1, MODULUS, 0, Value(pn[..]));
        return;
      }
      i := i + 1;
    }
  }

  lemma {:induction false} ComplementVal(s: seq<Limb>, t: seq<Limb>, n: nat)
    requires n <= |s| && n <= |t| && forall i :: 0 <= i < n ==> t[i] == BASE - 1 - s[i]
    ensures Val(s, n) + Val(t, n) == Weight(n) - 1
  {
    if n > 0 {
      ComplementVal(s, t, n - 1);
      var w := Weight(n - 1);
      assert s[n - 1] * w + (BASE - 1 - s[n - 1]) * w == BASE * w - w;
    }
  }

  /** Unary minus: the two's complement. */
  method Negate(b: array<Limb>) returns (r: array<Limb>)
    requires b.Length == WIDTH
    ensures fresh(r) && r.Length == WIDTH && Value(r[..]) == (MODULUS - Value(b[..])) % MODULUS
  {
    r := new Limb[WIDTH](_ => 0);
    for i := 0 to WIDTH
      invariant forall k :: 0 <= k < i ==> r[k] == BASE - 1 - b[k]
    {
      r[i] := BASE - 1 - b[i];
    }
    ComplementVal(b[..], r[..], WIDTH);
    Increment(r);
  }

  lemma {:induction false} AddNegative(a: nat, b: nat, m: nat)
    requires m > 0 && a < m && b < m
    ensures (a + (m - b) % m) % m == (a + m - b) % m
  {
    if b == 0 {
      DivUnique(m, m, 1, 0);
      DivUnique(a + m, m, 1, a);
      DivUnique(a, m, 0, a);
    } else {
      DivUnique(m - b, m, 0, m - b);
    }
  }

  /** `operator-=`. */
  method Subtract(pn: array<Limb>, b: array<Limb>)
    requires pn.Length == WIDTH == b.Length
    modifies pn
    ensures Value(pn[..]) == (old(Value(pn[..])) + MODULUS - old(Value(b[..]))) % MODULUS
  {
    hide Val, Weight;
    ValBound(pn[..], WIDTH);
    ValBound(b[..], WIDTH);
    AddNegative(Value(pn[..]), Value(b[..]), MODULUS);
    var minus := Negate(b);
    Add(pn, minus);
  }

  // ---- Comparison ----

  lemma {:induction false} TopDecides(s: seq<Limb>, t: seq<Limb>, i: nat, n: nat)
    requires i < n <= |s| && n <= |t| && s[i] < t[i] && forall k :: i < k < n ==> s[k] == t[k]
    ensures Val(s, n) < Val(t, n)
    decreases n
  {
    if i == n - 1 {
      ValBound(s, i);
      MulMonotone(s[i] + 1, t[i], Weight(i));
      assert (s[i] + 1) * Weight(i) == s[i] * Weight(i) + Weight(i);
    } else {
      TopDecides(s, t, i, n - 1);
    }
  }

  /** `CompareTo`. */
  method Compare(a: array<Limb>, b: array<Limb>) returns (r: int)
    requires a.Length == WIDTH == b.Length
    ensures r == if Value(a[..]) < Value(b[..]) then -1 else if Value(a[..]) > Value(b[..]) then 1 else 0
  {
    var i := WIDTH;
    while i > 0
      invariant 0 <= i <= WIDTH && forall k :: i <= k < WIDTH ==> a[k] == b[k]
    {
      i := i - 1;
      if a[i] < b[i] {
        TopDecides(a[..], b[..], i, WIDTH);
        return -1;
      }
      if a[i] > b[i] {
        TopDecides(b[..], a[..], i, WIDTH);
        return 1;
      }
    }
    ValSame(a[..], b[..], WIDTH);
    r := 0;
  }
}
