/** Bit length and division of 256-bit numbers (src/arith_uint256.cpp). */
module LimbDivide {
  import opened Powers
  import opened Limbs
  import opened LimbOps
  import opened LimbShifts

  // ---- Bit length ----

  /** `n` bits are needed to write `v`. */
  predicate HasBits(v: nat, n: nat) {
    v < Pow2(n) && (n > 0 ==> v >= Pow2(n - 1))
  }

  lemma {:induction false} TopLimbBits(s: seq<Limb>, pos: nat, b: nat)
    requires |s| == WIDTH && pos < WIDTH && Pow2(b) <= s[pos] < Pow2(b + 1) && forall k :: pos < k < WIDTH ==> s[k] == 0
    ensures HasBits(Value(s), 32 * pos + b + 1)
  {
    hide Pow2, Val, Weight;
    TopZero(s, pos + 1);
    ValStep(s, pos);
    ValBound(s, pos);
    WeightIsPower(pos);
    PowAdd(b, 32 * pos);
    PowAdd(b + 1, 32 * pos);
    Between(Val(s, pos), s[pos], Weight(pos), Pow2(b), Pow2(b + 1));
    assert 32 * pos + b + 1 == b + 1 + 32 * pos && b + 32 * pos == 32 * pos + b;
  }

  lemma {:induction false} Between(v: nat, x: nat, w: nat, lo: nat, hi: nat)
    requires v < w && lo <= x < hi
    ensures lo * w <= v + x * w < hi * w
  {
    MulMonotone(lo, x, w);
    MulMonotone(x + 1, hi, w);
    assert (x + 1) * w == x * w + w;
  }

  lemma {:induction false} BitTest(x: nat, b: nat)
    requires x < Pow2(b + 1)
    ensures x / Pow2(b) % 2 == 1 <==> x >= Pow2(b)
  {
    var p := Pow2(b);
    if x >= p {
      DivUnique(x, p, 1, x - p);
    } else {
      DivUnique(x, p, 0, x);
    }
  }

  /** The inner loop of `bits`. */
  method TopBit(x: Limb) returns (b: nat)
    requires x != 0
    ensures b <= 31 && Pow2(b) <= x < Pow2(b + 1)
  {
    Pow32();
    b := 31;
    while b > 0
      invariant 0 <= b <= 31 && x < Pow2(b + 1)
    {
      BitTest(x, b);
      if x / Pow2(b) % 2 == 1 {
        return;
      }
      b := b - 1;
    }
  }

  /** `bits`: the position of the highest bit, plus one. */
  method Bits(a: array<Limb>) returns (n: nat)
    requires a.Length == WIDTH
    ensures HasBits(Value(a[..]), n) && n <= 256
  {
    hide Val;
    var pos := WIDTH;
    while pos > 0
      invariant 0 <= pos <= WIDTH && forall k :: pos <= k < WIDTH ==> a[k] == 0
    {
      pos := pos - 1;
      if a[pos] != 0 {
        var b := TopBit(a[pos]);
        TopLimbBits(a[..], pos, b);
        return 32 * pos + b + 1;
      }
    }
    ValZero(a[..], WIDTH);
    n := 0;
  }

  // ---- Division ----

  /** Nothing is set at bit `shift` or below. */
  ghost predicate ClearBelow(s: seq<Limb>, shift: nat) {
    && |s| == WIDTH && shift < 256
    && (forall i :: 0 <= i < shift / 32 ==> s[i] == 0)
    && s[shift / 32] % Pow2(shift % 32 + 1) == 0
  }

  lemma {:induction false} BitSet(s: seq<Limb>, shift: nat)
    requires ClearBelow(s, shift)
    ensures Or(s[shift / 32], Pow2(shift % 32)) == s[shift / 32] + Pow2(shift % 32) < BASE
    ensures Value(s[shift / 32 := s[shift / 32] + Pow2(shift % 32)]) == Value(s) + Pow2(shift)
  {
    var j, b := shift / 32, shift % 32;
    BitAdd(s[j], b);
    hide Pow2, Or, Val, Weight;
    var x: Limb := s[j] + Pow2(b);
    ValSet(s, j, x, WIDTH);
    ShiftSplit(j, b);
    Added(s[j], Pow2(b), Weight(j));
  }

  lemma {:induction false} Added(x: nat, p: nat, w: nat)
    ensures (x + p) * w == x * w + p * w
  {
  }

  lemma {:induction false} BitAdd(x: nat, b: nat)
    requires b < 32 && x < BASE && x % Pow2(b + 1) == 0
    ensures Or(x, Pow2(b)) == x + Pow2(b) < BASE
  {
    Pow32();
    PowNext(b);
    PowAdd(32 - b - 1, b + 1);
    OrDisjoint(Pow2(b), x, b + 1);
    hide Pow2, Or;
    MultipleRoom(x, Pow2(b + 1), Pow2(32 - b - 1));
  }

  lemma {:induction false} PowNext(n: nat)
    ensures Pow2(n + 1) == 2 * Pow2(n)
  {
  }

  lemma {:induction false} ClearNext(s: seq<Limb>, shift: nat, x: Limb)
    requires ClearBelow(s, shift) && shift > 0 && (x == s[shift / 32] || x == s[shift / 32] + Pow2(shift % 32))
    ensures ClearBelow(s[shift / 32 := x], shift - 1)
  {
    hide Pow2;
    PowNext(shift % 32);
    HalfMultiple(s[shift / 32], Pow2(shift % 32));
    PowZero();
  }

  lemma {:induction false} HalfMultiple(x: nat, p: nat)
    requires p > 0 && x % (2 * p) == 0
    ensures x % p == 0 && (x + p) % p == 0
  {
    var d := x / (2 * p);
    assert x == d * (2 * p);
    assert d * (2 * p) == (2 * d) * p;
    assert (2 * d) * p + p == (2 * d + 1) * p;
    DivUnique(x, p, 2 * d, 0);
    DivUnique(x + p, p, 2 * d + 1, 0);
  }

  method Copy(b: array<Limb>) returns (r: array<Limb>)
    requires b.Length == WIDTH
    ensures fresh(r) && r[..] == b[..]
  {
    r := new Limb[WIDTH](_ => 0);
    for i := 0 to WIDTH
      invariant forall k :: 0 <= k < i ==> r[k] == b[k]
    {
      r[i] := b[i];
    }
  }

  lemma {:induction false} SubtractExact(a: nat, b: nat, m: nat)
    requires b <= a < m
    ensures (a + m - b) % m == a - b
  {
    DivUnique(a + m - b, m, 1, a - b);
  }

  /** One turn of the long division. */
  lemma {:induction false} DivisionStep(n: nat, q: nat, d: nat, num: nat, p: nat)
    requires n == q * d + num && d * p <= num < d * (2 * p)
    ensures n == (q + p) * d + (num - d * p) && num - d * p < d * p
  {
    assert (q + p) * d == q * d + d * p;
    assert d * (2 * p) == d * p + d * p;
  }

  lemma {:induction false} HalfStep(d: nat, p: nat)
    ensures (d * (2 * p)) / 2 == d * p
  {
    assert d * (2 * p) == 2 * (d * p);
  }

  /** Aligning the divisor does not overflow. */
  lemma {:induction false} Aligned(n: nat, d: nat, nBits: nat, dBits: nat)
    requires HasBits(n, nBits) && HasBits(d, dBits) && 0 < dBits <= nBits <= 256
    ensures d * Pow2(nBits - dBits) < Pow2(nBits) <= MODULUS
    ensures n < d * Pow2(nBits - dBits + 1)
  {
    hide Pow2, Weight;
    var shift := nBits - dBits;
    PowAdd(dBits, shift);
    PowAdd(dBits - 1, shift + 1);
    PowMonotone(nBits, 256);
    WeightIsPower(WIDTH);
    ProductBelow(d, Pow2(dBits), Pow2(shift));
    MulMonotone(Pow2(dBits - 1), d, Pow2(shift + 1));
  }

  lemma {:induction false} ProductBelow(d: nat, p: nat, q: nat)
    requires d < p && q > 0
    ensures d * q < p * q
  {
    MulMonotone(d + 1, p, q);
    assert (d + 1) * q == d * q + q;
  }

  lemma {:induction false} Smaller(n: nat, d: nat, nBits: nat, dBits: nat)
    requires HasBits(n, nBits) && HasBits(d, dBits) && nBits < dBits
    ensures n < d
  {
    PowMonotone(nBits, dBits - 1);
  }

  /** The loop of `operator/=`. */
  method DivideLoop(pn: array<Limb>, num: array<Limb>, div: array<Limb>, start: nat, ghost n: nat, ghost d: nat)
    requires pn.Length == num.Length == div.Length == WIDTH && pn != num && pn != div && num != div
    requires start < 256 && Value(num[..]) == n && Value(div[..]) == d * Pow2(start) && n < d * Pow2(start + 1)
    requires forall m :: 0 <= m < WIDTH ==> pn[m] == 0
    modifies pn, num, div
    ensures n == Value(pn[..]) * d + Value(num[..]) && Value(num[..]) < d
  {
    hide Val, Weight, Or, Pow2;
    ValZero(pn[..], WIDTH);
    var shift := start as int;
    assert ClearBelow(pn[..], start) by { ZeroClear(pn[..], start); }
    while shift >= 0
      invariant -1 <= shift < 256
      invariant n == Value(pn[..]) * d + Value(num[..])
      invariant shift >= 0 ==> Value(div[..]) == d * Pow2(shift) && ClearBelow(pn[..], shift)
      invariant Value(num[..]) < d * Pow2(shift + 1)
      decreases shift
    {
      DivideTurn(pn, num, div, shift, n, d);
      shift := shift - 1;
    }
    PowZero();
  }

  lemma {:induction false} ZeroClear(s: seq<Limb>, shift: nat)
    requires |s| == WIDTH && shift < 256 && forall m :: 0 <= m < WIDTH ==> s[m] == 0
    ensures ClearBelow(s, shift)
  {
    hide Pow2;
    ZeroMod(Pow2(shift % 32 + 1));
    assert shift / 32 < WIDTH;
  }

  lemma {:induction false} ZeroMod(p: nat)
    requires p > 0
    ensures 0 % p == 0
  {
    DivUnique(0, p, 0, 0);
  }

  method DivideTurn(pn: array<Limb>, num: array<Limb>, div: array<Limb>, shift: nat, ghost n: nat, ghost d: nat)
    requires pn.Length == num.Length == div.Length == WIDTH && pn != num && pn != div && num != div && shift < 256
    requires n == Value(pn[..]) * d + Value(num[..]) && ClearBelow(pn[..], shift)
    requires Value(div[..]) == d * Pow2(shift) && Value(num[..]) < d * Pow2(shift + 1)
    modifies pn, num, div
    ensures n == Value(pn[..]) * d + Value(num[..]) && Value(num[..]) < d * Pow2(shift)
    ensures shift > 0 ==> Value(div[..]) == d * Pow2(shift - 1) && ClearBelow(pn[..], shift - 1)
  {
    hide Val, Weight, Or, Pow2, ClearBelow;
    PowNext(shift);
    ghost var q := pn[..];
    ClearLength(q, shift);
    var order := Compare(num, div);
    if order >= 0 {
      ValBound(num[..], WIDTH);
      SubtractExact(Value(num[..]), Value(div[..]), MODULUS);
      DivisionStep(n, Value(q), d, Value(num[..]), Pow2(shift));
      Subtract(num, div);
      BitSet(q, shift);
      pn[shift / 32] := Or(pn[shift / 32], Pow2(shift % 32));
      assert pn[..] == q[shift / 32 := q[shift / 32] + Pow2(shift % 32)];
    } else {
      assert pn[..] == q[shift / 32 := q[shift / 32]];
    }
    if shift > 0 {
      ClearNext(q, shift, pn[shift / 32]);
      PowNext(shift - 1);
      HalfStep(d, Pow2(shift - 1));
    }
    PowOne();
    ShiftRight(div, 1);
  }

  lemma {:induction false} ClearLength(s: seq<Limb>, shift: nat)
    requires ClearBelow(s, shift)
    ensures |s| == WIDTH && shift / 32 < WIDTH
  {
  }

  lemma {:induction false} PowOne()
    ensures Pow2(1) == 2
  {
  }

  /** `operator/=`: the quotient, with the remainder left in `num`; dividing by zero is an
      error that leaves zero behind. */
  method Divide(pn: array<Limb>, b: array<Limb>) returns (ok: bool, num: array<Limb>)
    requires pn.Length == WIDTH == b.Length
    modifies pn
    ensures num.Length == WIDTH && fresh(num)
    ensures ok <==> old(Value(b[..])) != 0
    ensures ok ==>
      Value(pn[..]) == old(Value(pn[..])) / old(Value(b[..]))
      && Value(num[..]) == old(Value(pn[..])) % old(Value(b[..]))
    ensures !ok ==> Value(pn[..]) == 0
  {
    hide Val, Weight, Pow2;
    ghost var n, d := Value(pn[..]), Value(b[..]);
    var div := Copy(b);
    num := Copy(pn);
    SetZero(pn);
    ValZero(pn[..], WIDTH);
    var numBits := Bits(num);
    var divBits := Bits(div);
    PowZero();
    if divBits == 0 {
      return false, num;
    }
    DivisorPositive(d, divBits);
    ok := true;
    if divBits > numBits {
      Smaller(n, d, numBits, divBits);
      DivUnique(n, d, 0, n);
      return;
    }
    Aligned(n, d, numBits, divBits);
    DivUnique(d * Pow2(numBits - divBits), MODULUS, 0, d * Pow2(numBits - divBits));
    ShiftLeft(div, numBits - divBits);
    DivideLoop(pn, num, div, numBits - divBits, n, d);
    DivUnique(n, d, Value(pn[..]), Value(num[..]));
  }

  lemma {:induction false} DivisorPositive(d: nat, bits: nat)
    requires HasBits(d, bits) && bits > 0
    ensures d > 0
  {
  }
}
