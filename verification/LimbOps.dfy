/** Multiplication of 256-bit numbers (src/arith_uint256.cpp). */
module LimbOps {
  import opened Powers
  import opened Limbs

  // ---- Multiplication ----

  lemma {:induction false} ScaleStep(x: nat, w: nat, carry: nat, a: nat, b: nat, n: nat, v: nat)
    requires v + carry * w == x * b && n == carry + b * a
    ensures v + (n % BASE) * w + (n / BASE) * (BASE * w) == (x + a * w) * b
  {
    assert n == (n / BASE) * BASE + n % BASE;
    assert (n / BASE) * (BASE * w) == ((n / BASE) * BASE) * w;
    assert n * w == carry * w + (b * a) * w;
    assert (x + a * w) * b == x * b + (b * a) * w;
  }

  lemma {:induction false} ProductFits(x: nat, a: Limb, b: Limb)
    requires x <= 2 * (BASE - 1)
    ensures x + a * b < BASE64 && (x + a * b) / BASE < BASE
  {
    MulMonotone(a, BASE - 1, b);
    MulMonotone(b, BASE - 1, BASE - 1);
    assert (BASE - 1) * (BASE - 1) + 2 * (BASE - 1) == BASE64 - 1;
    assert a * b <= (BASE - 1) * (BASE - 1);
  }

  /** `operator*=(uint32_t)`. */
  method MultiplySmall(pn: array<Limb>, b: Limb)
    requires pn.Length == WIDTH
    modifies pn
    ensures Value(pn[..]) == (old(Value(pn[..])) * b) % MODULUS
  {
    hide Val, Weight;
    ghost var a := pn[..];
    var carry := 0;
    ValNone(a);
    ValNone(pn[..]);
    for i := 0 to WIDTH
      invariant 0 <= carry < BASE
      invariant forall k :: i <= k < WIDTH ==> pn[k] == a[k]
      invariant Val(pn[..], i) + carry * Weight(i) == Val(a, i) * b
    {
      var n := carry + b * pn[i];
      ProductFits(carry, b, pn[i]);
      assert n < BASE64;
      ghost var before := pn[..];
      pn[i] := n % BASE;
      ScaledLimb(a, before, pn[..], i, carry, b, n);
      carry := n / BASE;
    }
    DropCarry(pn[..], carry, Value(a) * b);
  }

  lemma {:induction false} ScaledLimb(a: seq<Limb>, before: seq<Limb>, after: seq<Limb>, i: nat, carry: nat, b: Limb,
      n: nat)
    requires |a| == |before| == |after| && i < |a| && after == before[i := n % BASE]
    requires n == carry + b * a[i] && Val(before, i) + carry * Weight(i) == Val(a, i) * b
    ensures Val(after, i + 1) + n / BASE * Weight(i + 1) == Val(a, i + 1) * b
  {
    hide Val, Weight;
    ValSame(before, after, i);
    ValStep(a, i);
    ValStep(after, i);
    WeightNext(i);
    ScaleStep(Val(a, i), Weight(i), carry, a[i], b, n, Val(before, i));
  }

  lemma {:induction false} ProductStep(v: nat, w: nat, carry: nat, x: nat, t: nat, a: nat, b: nat, wj: nat, wi: nat,
      y: nat, n: nat)
    requires v + carry * w == x + a * wj * y && w == wi * wj && n == carry + t + a * b
    ensures v + (n % BASE) * w + (n / BASE) * (BASE * w) == (x + t * w) + a * wj * (y + b * wi)
  {
    assert n == (n / BASE) * BASE + n % BASE;
    assert (n / BASE) * (BASE * w) == ((n / BASE) * BASE) * w;
    assert n * w == carry * w + t * w + (a * b) * w;
    assert a * wj * (y + b * wi) == a * wj * y + (a * b) * (wi * wj);
  }

  lemma {:induction false} ProductLimb(t: seq<Limb>, b: seq<Limb>, before: seq<Limb>, after: seq<Limb>, i: nat,
      j: nat, carry: nat,
      a: Limb, n: nat)
    requires |t| == |before| == |after| && i + j < |t| && i < |b| && after == before[i + j := n % BASE]
    requires n == carry + t[i + j] + a * b[i]
    requires Val(before, i + j) + carry * Weight(i + j) == Val(t, i + j) + a * Weight(j) * Val(b, i)
    ensures Val(after, i + 1 + j) + n / BASE * Weight(i + 1 + j) == Val(t, i + 1 + j) + a * Weight(j) * Val(b, i + 1)
  {
    hide Val, Weight;
    WeightAdd(i, j);
    WeightNext(i + j);
    ValSame(before, after, i + j);
    ValStep(t, i + j);
    ValStep(b, i);
    ValStep(after, i + j);
    ProductStep(Val(before, i + j), Weight(i + j), carry, Val(t, i + j), t[i + j], a, b[i], Weight(j), Weight(i),
      Val(b, i), n);
  }

  /** The inner loop of `operator*=`: adds `a * b` at limb `j`, dropping what falls off. */
  method AddProduct(pn: array<Limb>, a: Limb, b: array<Limb>, j: nat) returns (ghost carried: nat)
    requires pn.Length == WIDTH == b.Length && j < WIDTH && pn != b
    modifies pn
    ensures Value(pn[..]) + carried * MODULUS == old(Value(pn[..])) + a * Weight(j) * Val(b[..], WIDTH - j)
  {
    hide Val, Weight;
    ghost var t := pn[..];
    var carry := 0;
    ValNone(b[..]);
    for i := 0 to WIDTH - j
      invariant 0 <= carry < BASE
      invariant forall k :: i + j <= k < WIDTH ==> pn[k] == t[k]
      invariant Val(pn[..], i + j) + carry * Weight(i + j) == Val(t, i + j) + a * Weight(j) * Val(b[..], i)
    {
      var n := carry + pn[i + j] + a * b[i];
      ProductFits(carry + pn[i + j], a, b[i]);
      assert n < BASE64;
      ghost var before := pn[..];
      pn[i + j] := n % BASE;
      ProductLimb(t, b[..], before, pn[..], i, j, carry, a, n);
      carry := n / BASE;
    }
    carried := carry;
  }

  /** What the limbs from `n` on contribute, in units of the weight of `n`. */
  function High(s: seq<Limb>, n: nat, m: nat): nat
    requires n <= m <= |s|
  {
    if m == n then 0 else High(s, n, m - 1) + s[m - 1] * Weight(m - 1 - n)
  }

  lemma {:induction false} HighSplits(s: seq<Limb>, n: nat, m: nat)
    requires n <= m <= |s|
    ensures Val(s, m) == Val(s, n) + High(s, n, m) * Weight(n)
    decreases m
  {
    if n < m {
      HighSplits(s, n, m - 1);
      WeightAdd(m - 1 - n, n);
      Distribute(High(s, n, m - 1), s[m - 1], Weight(m - 1 - n), Weight(n));
    }
  }

  lemma {:induction false} Distribute(h: nat, x: nat, a: nat, b: nat)
    ensures (h + x * a) * b == h * b + x * (a * b)
  {
    assert (h + x * a) * b == h * b + (x * a) * b;
    assert (x * a) * b == x * (a * b);
  }

  lemma {:induction false} ValNone(s: seq<Limb>)
    ensures Val(s, 0) == 0
  {
  }

  lemma {:induction false} ValStep(s: seq<Limb>, n: nat)
    requires n < |s|
    ensures Val(s, n + 1) == Val(s, n) + s[n] * Weight(n)
  {
  }

  lemma {:induction false} RowStep(v: nat, v1: nat, c: nat, carried: nat, x: nat, y: nat, low: nat, high: nat, a: nat,
      wj: nat, wr: nat, m: nat)
    requires v + c * m == x * y && v1 + carried * m == v + a * wj * low
    requires y == low + high * wr && m == wj * wr
    ensures v1 + (c + carried + a * high) * m == (x + a * wj) * y
  {
    assert (x + a * wj) * y == x * y + a * wj * y;
    assert a * wj * y == a * wj * low + (a * high) * (wj * wr);
    assert (c + carried + a * high) * m == c * m + carried * m + (a * high) * m;
  }

  /** `operator*=`: the product modulo 2^256, unless the operand is the number itself, which
      was set to zero before it is read. */
  method Multiply(pn: array<Limb>, b: array<Limb>)
    requires pn.Length == WIDTH == b.Length
    modifies pn
    ensures Value(pn[..]) == if pn == b then 0 else (old(Value(pn[..])) * old(Value(b[..]))) % MODULUS
  {
    var a := pn[..];
    ghost var bs := b[..];
    for i := 0 to WIDTH
      invariant forall k :: 0 <= k < i ==> pn[k] == 0
      invariant pn != b ==> b[..] == bs
    {
      pn[i] := 0;
    }
    ValZero(pn[..], WIDTH);
    if pn == b {
      MultiplyByItself(pn, a);
      return;
    }
    MultiplyRows(pn, a, b);
  }

  method MultiplyRows(pn: array<Limb>, a: seq<Limb>, b: array<Limb>)
    requires pn.Length == WIDTH == b.Length == |a| && pn != b && Value(pn[..]) == 0
    modifies pn
    ensures Value(pn[..]) == (Value(a) * Value(b[..])) % MODULUS
  {
    hide Val, High, Weight;
    ghost var bs := b[..];
    ghost var c: nat := 0;
    assert Val(a, 0) == 0 by { ValZero(a, 0); }
    for j := 0 to WIDTH
      invariant b[..] == bs
      invariant Value(pn[..]) + c * MODULUS == Val(a, j) * Value(bs)
    {
      ghost var v := Value(pn[..]);
      var carried := AddProduct(pn, a[j], b, j);
      HighSplits(bs, WIDTH - j, WIDTH);
      WeightAdd(j, WIDTH - j);
      ValStep(a, j);
      RowStep(v, Value(pn[..]), c, carried, Val(a, j), Value(bs), Val(bs, WIDTH - j), High(bs, WIDTH - j, WIDTH),
              a[j], Weight(j), Weight(WIDTH - j), MODULUS);
      MulMonotone(0, a[j], High(bs, WIDTH - j, WIDTH));
      c := c + carried + a[j] * High(bs, WIDTH - j, WIDTH);
    }
    DropCarry(pn[..], c, Value(a) * Value(bs));
  }

  /** The loops of `operator*=` when both operands are the same, zeroed number. */
  method MultiplyByItself(pn: array<Limb>, a: seq<Limb>)
    requires pn.Length == WIDTH == |a| && forall k :: 0 <= k < WIDTH ==> pn[k] == 0
    modifies pn
    ensures Value(pn[..]) == 0
  {
    for j := 0 to WIDTH
      invariant forall k :: 0 <= k < WIDTH ==> pn[k] == 0
    {
      var carry := 0;
      for i := 0 to WIDTH - j
        invariant carry == 0 && forall k :: 0 <= k < WIDTH ==> pn[k] == 0
      {
        var n := carry + pn[i + j] + a[j] * pn[i];
        assert n == 0;
        pn[i + j] := n % BASE;
        carry := n / BASE;
      }
    }
    ValZero(pn[..], WIDTH);
  }
}
