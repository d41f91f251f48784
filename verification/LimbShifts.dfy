/** Shifts of 256-bit numbers (src/arith_uint256.cpp:20-52). */
module LimbShifts {
  import opened Powers
  import opened Limbs
  import opened LimbOps

  /** `x << s` in 32 bits, and what moves to the next limb. */
  function Low(x: Limb, s: nat): Limb
    requires s < 32
  {
    x * Pow2(s) % BASE
  }

  function Over(x: Limb, s: nat): nat
    requires s < 32
  {
    if s == 0 then 0
    else
      QuotientLess(x, Pow2(32 - s));
      x / Pow2(32 - s)
  }

  lemma {:induction false} LimbShifted(x: Limb, s: nat)
    requires s < 32
    ensures x * Pow2(s) == Low(x, s) + Over(x, s) * BASE
    ensures Over(x, s) < Pow2(s) <= BASE && Low(x, s) % Pow2(s) == 0
  {
    Pow32();
    if s == 0 {
      DivUnique(x, BASE, 0, x);
    } else {
      hide Pow2;
      PowAdd(32 - s, s);
      PowMonotone(s, 32);
      SplitTimes(x, Pow2(32 - s), Pow2(s), BASE);
    }
  }

  /** Limb `m` of the number shifted left by `k` limbs and `s` bits. */
  function LeftLimb(a: seq<Limb>, k: nat, s: nat, m: nat): nat
    requires s < 32 && m <= |a| + k
  {
    (if k <= m < |a| + k then Low(a[m - k], s) else 0) + (if k < m then Over(a[m - k - 1], s) else 0)
  }

  lemma {:induction false} LeftLimbFits(a: seq<Limb>, k: nat, s: nat, m: nat)
    requires s < 32 && m < |a| + k
    ensures LeftLimb(a, k, s, m) < BASE
    ensures k < m ==> Or(Over(a[m - k - 1], s), Low(a[m - k], s)) == LeftLimb(a, k, s, m)
    ensures m == k ==> Or(0, Low(a[0], s)) == LeftLimb(a, k, s, m)
  {
    if k <= m {
      var lo := Low(a[m - k], s);
      LimbShifted(a[m - k], s);
      OrZero(lo);
      if k < m {
        LimbShifted(a[m - k - 1], s);
        OrDisjoint(Over(a[m - k - 1], s), lo, s);
        RoundRoom(lo, Pow2(s), s);
      }
    }
  }

  /** A multiple of 2^s below 2^32 leaves room for s bits. */
  lemma {:induction false} RoundRoom(lo: Limb, p: nat, s: nat)
    requires s < 32 && p == Pow2(s) && lo % p == 0
    ensures lo + p <= BASE
  {
    Pow32();
    PowAdd(32 - s, s);
    MultipleRoom(lo, p, Pow2(32 - s));
  }

  method SetZero(pn: array<Limb>)
    requires pn.Length == WIDTH
    modifies pn
    ensures forall m :: 0 <= m < WIDTH ==> pn[m] == 0
  {
    for i := 0 to WIDTH
      invariant forall m :: 0 <= m < i ==> pn[m] == 0
    {
      pn[i] := 0;
    }
  }

  /** The loop of `operator<<=`. */
  method ShiftLimbsLeft(pn: array<Limb>, a: seq<Limb>, k: nat, s: nat)
    requires pn.Length == WIDTH == |a| && s < 32 && forall m :: 0 <= m < WIDTH ==> pn[m] == 0
    modifies pn
    ensures forall m :: 0 <= m < WIDTH ==> pn[m] == LeftLimb(a, k, s, m)
  {
    assert forall m :: 0 <= m < k ==> LeftLimb(a, k, s, m) == 0;
    hide Low, Over, Or, LeftLimb;
    for i := 0 to WIDTH
      invariant forall m :: 0 <= m < WIDTH && m < i + k ==> pn[m] == LeftLimb(a, k, s, m)
      invariant i + k < WIDTH ==> pn[i + k] == if i > 0 then Over(a[i - 1], s) else 0
      invariant forall m :: i + k < m < WIDTH ==> pn[m] == 0
    {
      if i + k < WIDTH {
        LeftLimbFits(a, k, s, i + k);
      }
      LimbShifted(a[i], s);
      if i + k + 1 < WIDTH && s != 0 {
        OrZero(Over(a[i], s));
        pn[i + k + 1] := Or(pn[i + k + 1], Over(a[i], s));
      }
      if i + k < WIDTH {
        pn[i + k] := Or(pn[i + k], Low(a[i], s));
      }
      OverNone(a[i]);
    }
  }

  /** `operator<<=`. */
  method ShiftLeft(pn: array<Limb>, shift: nat)
    requires pn.Length == WIDTH
    modifies pn
    ensures Value(pn[..]) == old(Value(pn[..])) * Pow2(shift) % MODULUS
  {
    hide Low, Over, LeftLimb, Val;
    var a := pn[..];
    SetZero(pn);
    ShiftLimbsLeft(pn, a, shift / 32, shift % 32);
    LeftValue(a, shift / 32, shift % 32, pn[..]);
    ShiftSplit(shift / 32, shift % 32);
  }

  lemma {:induction false} OverNone(x: Limb)
    ensures Over(x, 0) == 0
  {
  }

  lemma {:induction false} LeftStep(v: nat, over: nat, w: nat, x: nat, lo: nat, hi: nat, a: nat, p: nat, wi: nat,
      wk: nat)
    requires v + over * w == x * (p * wk) && a * p == lo + hi * BASE && w == wi * wk
    ensures v + (lo + over) * w + hi * (BASE * w) == (x + a * wi) * (p * wk)
  {
    assert (lo + over) * w + hi * (BASE * w) == over * w + (lo + hi * BASE) * w;
    Distribute(x, a, wi, p * wk);
    assert (a * p) * (wi * wk) == a * (wi * (p * wk));
  }

  lemma {:induction false} LeftPrefix(a: seq<Limb>, k: nat, s: nat, r: seq<Limb>, i: nat)
    requires |a| == |r| && s < 32 && i + k <= |r|
    requires forall m :: 0 <= m < |r| ==> r[m] == LeftLimb(a, k, s, m)
    ensures Val(r, k + i) + (if i > 0 then Over(a[i - 1], s)
      else 0) * Weight(k + i) == Val(a, i) * (Pow2(s) * Weight(k))
    decreases i
  {
    hide Low, Over, Weight;
    if i == 0 {
      ValZero(r, k);
    } else {
      LeftPrefix(a, k, s, r, i - 1);
      LimbShifted(a[i - 1], s);
      ValStep(r, k + i - 1);
      ValStep(a, i - 1);
      WeightNext(k + i - 1);
      WeightAdd(i - 1, k);
      hide Val;
      var over := if i > 1 then Over(a[i - 2], s) else 0;
      assert r[k + i - 1] == Low(a[i - 1], s) + over;
      LeftStep(Val(r, k + i - 1), over, Weight(k + i - 1), Val(a, i - 1), Low(a[i - 1], s), Over(a[i - 1], s), a[i - 1],
               Pow2(s), Weight(i - 1), Weight(k));
    }
  }

  lemma {:induction false} HighPart(low: nat, high: nat, wr: nat, p: nat, wk: nat, m: nat)
    requires m == wr * wk
    ensures (low + high * wr) * (p * wk) == low * (p * wk) + (high * p) * m
  {
    Distribute(low, high, wr, p * wk);
    assert high * (wr * (p * wk)) == (high * p) * (wr * wk);
  }

  /** Shifting limb by limb multiplies by a power of two, modulo 2^256. */
  lemma {:induction false} LeftValue(a: seq<Limb>, k: nat, s: nat, r: seq<Limb>)
    requires |a| == |r| == WIDTH && s < 32
    requires forall m :: 0 <= m < WIDTH ==> r[m] == LeftLimb(a, k, s, m)
    ensures Value(r) == Value(a) * (Pow2(s) * Weight(k)) % MODULUS
  {
    hide Val, Weight, Low, Over, Pow2, High;
    var p := Pow2(s);
    if k >= WIDTH {
      ValZero(r, WIDTH);
      WeightAdd(k - WIDTH, WIDTH);
      Regroup(Value(a), p, Weight(k - WIDTH), MODULUS);
      MulNat(Value(a), p, Weight(k - WIDTH));
      DropCarry(r, Value(a) * p * Weight(k - WIDTH), Value(a) * (p * Weight(k)));
    } else {
      var n := WIDTH - k;
      LeftPrefix(a, k, s, r, n);
      HighSplits(a, n, WIDTH);
      WeightAdd(n, k);
      var over, high := Over(a[n - 1], s), High(a, n, WIDTH);
      HighPart(Val(a, n), high, Weight(n), p, Weight(k), MODULUS);
      assert over * MODULUS + (high * p) * MODULUS == (over + high * p) * MODULUS;
      MulNat(high, p, 1);
      DropCarry(r, over + high * p, Value(a) * (p * Weight(k)));
    }
  }

  lemma {:induction false} Regroup(v: nat, p: nat, w: nat, m: nat)
    ensures v * (p * (w * m)) == (v * p * w) * m
  {
    assert p * (w * m) == (p * w) * m;
    assert v * ((p * w) * m) == (v * (p * w)) * m;
    assert v * (p * w) == v * p * w;
  }

  lemma {:induction false} MulNat(a: nat, b: nat, c: nat)
    ensures a * b >= 0 && a * b * c >= 0
  {
    MulMonotone(0, a, b);
    MulMonotone(0, a * b, c);
  }

  lemma {:induction false} ShiftSplit(k: nat, s: nat)
    ensures Pow2(32 * k + s) == Pow2(s) * Weight(k)
  {
    PowAdd(32 * k, s);
    WeightIsPower(k);
  }

  // ---- To the right ----

  lemma {:induction false} QuotientLess(x: nat, p: nat)
    requires p > 0
    ensures 0 <= x / p <= x
  {
    assert x == x / p * p + x % p;
    MulMonotone(1, p, x / p);
  }

  /** `x >> s`, and what `x << (32 - s)` gives the limb below. */
  function Down(x: Limb, s: nat): Limb
    requires s < 32
  {
    QuotientLess(x, Pow2(s));
    x / Pow2(s)
  }

  function Under(x: Limb, s: nat): Limb
    requires s < 32
  {
    if s == 0 then 0 else x * Pow2(32 - s) % BASE
  }

  lemma {:induction false} LimbShiftedDown(x: Limb, s: nat)
    requires s < 32
    ensures x == Down(x, s) * Pow2(s) + x % Pow2(s)
    ensures Under(x, s) * Pow2(s) == (x % Pow2(s)) * BASE
    ensures s > 0 ==> Under(x, s) % Pow2(32 - s) == 0
    ensures Down(x, s) < Pow2(32 - s)
  {
    Pow32();
    PowAdd(s, 32 - s);
    if s > 0 {
      hide Pow2;
      DownParts(x, Pow2(s), Pow2(32 - s), BASE);
    } else {
      PowZero();
    }
  }

  lemma {:induction false} DownParts(x: nat, p: nat, q: nat, base: nat)
    requires p > 0 && q > 0 && p * q == base && x < base
    ensures x == (x / p) * p + x % p && x / p < q
    ensures (x * q % base) * p == (x % p) * base && x * q % base % q == 0
  {
    Divides(x, p);
    SplitTimes(x, p, q, base);
    assert ((x % p) * q) * p == (x % p) * (p * q);
  }

  lemma {:induction false} Divides(x: nat, p: nat)
    requires p > 0
    ensures x == (x / p) * p + x % p
  {
  }

  lemma {:induction false} PowZero()
    ensures Pow2(0) == 1 && forall x: nat :: x % 1 == 0
  {
  }

  /** Limb `m` of the number shifted right by `k` limbs and `s` bits. */
  function RightLimb(a: seq<Limb>, k: nat, s: nat, m: nat): nat
    requires s < 32
  {
    (if m + k < |a| then Down(a[m + k], s) else 0) + (if m + k + 1 < |a| then Under(a[m + k + 1], s) else 0)
  }

  lemma {:induction false} RightLimbFits(x: Limb, y: Limb, s: nat)
    requires s < 32
    ensures Or(Down(x, s), Under(y, s)) == Down(x, s) + Under(y, s) < BASE
  {
    LimbShiftedDown(x, s);
    LimbShiftedDown(y, s);
    Pow32();
    PowAdd(s, 32 - s);
    if s == 0 {
      OrZero(Down(x, s));
      assert Down(x, 0) == x;
    } else {
      OrDisjoint(Down(x, s), Under(y, s), 32 - s);
      MultipleRoom(Under(y, s), Pow2(32 - s), Pow2(s));
    }
  }

  /** The loop of `operator>>=`. */
  method ShiftLimbsRight(pn: array<Limb>, a: seq<Limb>, k: nat, s: nat)
    requires pn.Length == WIDTH == |a| && s < 32 && forall m :: 0 <= m < WIDTH ==> pn[m] == 0
    modifies pn
    ensures forall m :: 0 <= m < WIDTH ==> pn[m] == RightLimb(a, k, s, m)
  {
    UnderNone();
    hide Down, Under, Or;
    for i := 0 to WIDTH
      invariant forall m :: 0 <= m < WIDTH ==>
        pn[m] == (if m + k < i then Down(a[m + k], s) else 0) + (if m + k + 1 < i then Under(a[m + k + 1], s) else 0)
    {
      if i - k - 1 >= 0 {
        RightLimbFits(a[i - 1], a[i], s);
        if s != 0 {
          pn[i - k - 1] := Or(pn[i - k - 1], Under(a[i], s));
        }
      }
      if i - k >= 0 {
        OrZero(Down(a[i], s));
        pn[i - k] := Or(pn[i - k], Down(a[i], s));
      }
    }
  }

  lemma {:induction false} UnderNone()
    ensures forall x: Limb :: Under(x, 0) == 0
  {
  }

  lemma {:induction false} RightStep(v: nat, p: nat, wk: nat, wn: nat, c: nat, x: nat, rx: nat, ry: nat, down: nat,
      under: nat, w: nat, va: nat)
    requires v * (p * wk) + c == va + rx * w && w == wn * wk
    requires x == down * p + rx && under * p == ry * BASE
    ensures (v + (down + under) * wn) * (p * wk) + c == va + x * w + ry * (BASE * w)
  {
    Distribute(v, down + under, wn, p * wk);
    Rearrange(down + under, wn, p, wk);
    assert (down + under) * p == down * p + ry * BASE;
    assert (down * p + ry * BASE) * w == (down * p) * w + ry * (BASE * w);
    assert x * w == (down * p) * w + rx * w;
  }

  lemma {:induction false} Rearrange(d: nat, wn: nat, p: nat, wk: nat)
    ensures d * (wn * (p * wk)) == (d * p) * (wn * wk)
  {
    assert wn * (p * wk) == p * (wn * wk);
    assert d * (p * (wn * wk)) == (d * p) * (wn * wk);
  }

  lemma {:induction false} Quotient(v: nat, p: nat, wk: nat, low: nat, vk: nat, va: nat)
    requires v * (p * wk) + (low * wk + vk) == va && low < p && vk < wk
    ensures p * wk > 0 && v == va / (p * wk)
  {
    MulMonotone(low, p - 1, wk);
    assert (p - 1) * wk == p * wk - wk;
    MulMonotone(1, p, wk);
    MulMonotone(0, low, wk);
    DivUnique(va, p * wk, v, low * wk + vk);
  }

  /** The limb past the end is zero. */
  function At(a: seq<Limb>, i: nat): Limb {
    if i < |a| then a[i] else 0
  }

  lemma {:induction false} RightPrefix(a: seq<Limb>, k: nat, s: nat, r: seq<Limb>, n: nat)
    requires |a| == |r| && s < 32 && n + k <= |r|
    requires forall m :: 0 <= m < |r| ==> r[m] == RightLimb(a, k, s, m)
    ensures var p := Pow2(s);
      Val(r, n) * (p * Weight(k)) + (At(a, k) % p * Weight(k) + Val(a, k)) == Val(a, k + n) + At(a,
        k + n) % p * Weight(k + n)
    decreases n
  {
    hide Down, Under, Weight, Pow2, Val;
    var p := Pow2(s);
    if n > 0 {
      RightPrefix(a, k, s, r, n - 1);
      ValStep(r, n - 1);
      ValStep(a, k + n - 1);
      WeightNext(k + n - 1);
      WeightAdd(n - 1, k);
      var x, y := a[k + n - 1], At(a, k + n);
      LimbShiftedDown(x, s);
      LimbShiftedDown(y, s);
      UnderZero(s);
      assert r[n - 1] == Down(x, s) + Under(y, s);
      RightStep(Val(r, n - 1), p, Weight(k), Weight(n - 1), At(a, k) % p * Weight(k) + Val(a, k), x, x % p, y % p,
                Down(x, s), Under(y, s), Weight(k + n - 1), Val(a, k + n - 1));
    } else {
      ValNone(r);
      assert 0 * (p * Weight(k)) == 0;
    }
  }

  lemma {:induction false} UnderZero(s: nat)
    requires s < 32
    ensures Under(0, s) == 0
  {
  }

  /** Shifting limb by limb divides by a power of two. */
  lemma {:induction false} RightValue(a: seq<Limb>, k: nat, s: nat, r: seq<Limb>)
    requires |a| == |r| == WIDTH && s < 32
    requires forall m :: 0 <= m < WIDTH ==> r[m] == RightLimb(a, k, s, m)
    ensures Pow2(s) * Weight(k) > 0 && Value(r) == Value(a) / (Pow2(s) * Weight(k))
  {
    hide Val, Weight, Down, Under, Pow2, RightLimb;
    var n := if k < WIDTH then WIDTH - k else 0;
    forall m | n <= m < WIDTH
      ensures r[m] == 0
    {
      NothingAbove(a, k, s, m);
    }
    if k >= WIDTH {
      AllShiftedOut(a, Pow2(s), k, r);
    } else {
      RightPrefix(a, k, s, r, n);
      TopZero(r, n);
      RightQuotient(Value(r), Value(a), a, k, Pow2(s));
    }
  }

  /** The equation of RightPrefix for the whole number. */
  lemma {:induction false} RightQuotient(v: nat, x: nat, a: seq<Limb>, k: nat, p: nat)
    requires k < |a| == WIDTH && p > 0
    requires v * (p * Weight(k)) + (At(a, k) % p * Weight(k) + Val(a, k)) == x + At(a, WIDTH) % p * Weight(WIDTH)
    ensures p * Weight(k) > 0 && v == x / (p * Weight(k))
  {
    hide Val, Weight;
    ValBound(a, k);
    ModLess(a[k], p);
    ZeroTail(p, Weight(WIDTH));
    Quotient(v, p, Weight(k), a[k] % p, Val(a, k), x);
  }

  lemma {:induction false} ZeroTail(p: nat, w: nat)
    requires p > 0
    ensures 0 % p * w == 0
  {
    DivUnique(0, p, 0, 0);
  }

  lemma {:induction false} ModLess(x: nat, p: nat)
    requires p > 0
    ensures 0 <= x % p < p
  {
  }

  lemma {:induction false} NothingAbove(a: seq<Limb>, k: nat, s: nat, m: nat)
    requires s < 32 && m + k >= |a|
    ensures RightLimb(a, k, s, m) == 0
  {
  }

  lemma {:induction false} AllShiftedOut(a: seq<Limb>, p: nat, k: nat, r: seq<Limb>)
    requires |a| == |r| == WIDTH <= k && p > 0 && forall m :: 0 <= m < WIDTH ==> r[m] == 0
    ensures p * Weight(k) > 0 && Value(r) == Value(a) / (p * Weight(k))
  {
    hide Val, Weight;
    ValZero(r, WIDTH);
    ValBound(a, WIDTH);
    WeightGrows(WIDTH, k);
    MulMonotone(1, p, Weight(k));
    DivUnique(Value(a), p * Weight(k), 0, Value(a));
  }

  lemma {:induction false} WeightGrows(i: nat, j: nat)
    requires i <= j
    ensures Weight(i) <= Weight(j)
  {
    if i < j {
      WeightGrows(i, j - 1);
    }
  }

  lemma {:induction false} TopZero(r: seq<Limb>, n: nat)
    requires n <= |r| && forall m :: n <= m < |r| ==> r[m] == 0
    ensures Val(r, |r|) == Val(r, n)
    decreases |r|
  {
    HighSplits(r, n, |r|);
    HighZero(r, n, |r|);
  }

  lemma {:induction false} HighZero(r: seq<Limb>, n: nat, m: nat)
    requires n <= m <= |r| && forall i :: n <= i < m ==> r[i] == 0
    ensures High(r, n, m) == 0
    decreases m
  {
    if n < m {
      HighZero(r, n, m - 1);
    }
  }

  /** `operator>>=`. */
  method ShiftRight(pn: array<Limb>, shift: nat)
    requires pn.Length == WIDTH
    modifies pn
    ensures Value(pn[..]) == old(Value(pn[..])) / Pow2(shift)
  {
    hide Down, Under, RightLimb, Val;
    var a := pn[..];
    SetZero(pn);
    ShiftLimbsRight(pn, a, shift / 32, shift % 32);
    RightValue(a, shift / 32, shift % 32, pn[..]);
    ShiftSplit(shift / 32, shift % 32);
  }
}
