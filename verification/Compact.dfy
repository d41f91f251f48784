/** The compact form of 256-bit numbers (src/arith_uint256.cpp:204-245). */
module Compact {
  import opened Powers
  import opened Limbs
  import opened LimbOps
  import opened LimbShifts
  import opened LimbDivide

  const BYTE: nat := 0x100
  const MANTISSA: nat := 0x80_0000
  const EXPONENT: nat := 0x100_0000

  /** Powers of 256. */
  function Bytes(n: nat): (r: nat)
    ensures r >= 1
  {
    if n == 0 then 1 else BYTE * Bytes(n - 1)
  }

  lemma {:induction false} BytesIsPower(n: nat)
    ensures Bytes(n) == Pow2(8 * n)
  {
    if n > 0 {
      BytesIsPower(n - 1);
      Pow32();
      PowAdd(8, 8 * (n - 1));
    }
  }

  lemma {:induction false} BytesAdd(a: nat, b: nat)
    ensures Bytes(a + b) == Bytes(a) * Bytes(b)
  {
    BytesIsPower(a);
    BytesIsPower(b);
    BytesIsPower(a + b);
    PowAdd(8 * a, 8 * b);
  }

  /** `n` bytes are needed to write `v`. */
  predicate HasBytes(v: nat, n: nat) {
    v < Bytes(n) && (n > 0 ==> v >= Bytes(n - 1))
  }

  lemma {:induction false} BytesFromBits(v: nat, bits: nat)
    requires HasBits(v, bits)
    ensures HasBytes(v, (bits + 7) / 8)
  {
    var n := (bits + 7) / 8;
    BytesIsPower(n);
    PowMonotone(bits, 8 * n);
    if n > 0 {
      BytesIsPower(n - 1);
      PowMonotone(8 * (n - 1), bits - 1);
    }
  }

  /** Mantissa and exponent of `v`, of `n` bytes, before the sign bit is avoided. */
  function Leading(v: nat, n: nat): nat {
    if n <= 3 then v * Bytes(3 - n) else v / Bytes(n - 3)
  }

  datatype Parts = Parts(word: nat, size: nat)

  function PartsOf(v: nat, n: nat): Parts {
    var word := Leading(v, n);
    if word >= MANTISSA then Parts(word / BYTE, n + 1) else Parts(word, n)
  }

  /** What a mantissa and an exponent stand for, modulo 2^256. */
  function Expanded(p: Parts): nat {
    if p.size <= 3 then p.word / Bytes(3 - p.size) else p.word * Bytes(p.size - 3) % MODULUS
  }

  function Split(compact: nat): Parts {
    Parts(compact % MANTISSA, compact / EXPONENT)
  }

  predicate Negative(compact: nat) {
    var p := Split(compact);
    var word := if p.size <= 3 then p.word / Bytes(3 - p.size) else p.word;
    word != 0 && compact / MANTISSA % 2 == 1
  }

  predicate Overflow(compact: nat) {
    var p := Split(compact);
    var word := if p.size <= 3 then p.word / Bytes(3 - p.size) else p.word;
    word != 0 && (p.size > 34 || (word > 0xff && p.size > 33) || (word > 0xffff && p.size > 32))
  }

  /** What a mantissa and an exponent stand for, before it is cut to 256 bits. */
  function Whole(p: Parts): nat {
    if p.size <= 3 then p.word / Bytes(3 - p.size) else p.word * Bytes(p.size - 3)
  }

  lemma {:induction false} ModulusBytes()
    ensures MODULUS == Bytes(32)
  {
    WeightIsPower(WIDTH);
    BytesIsPower(32);
  }

  /** A product of a word reaches a power of 256 exactly when the word reaches what is left of it. */
  lemma {:induction false} Reaches(word: nat, a: nat, n: nat)
    requires a <= n
    ensures word * Bytes(a) >= Bytes(n) <==> word >= Bytes(n - a)
  {
    hide Bytes;
    BytesAdd(n - a, a);
    if word >= Bytes(n - a) {
      MulMonotone(Bytes(n - a), word, Bytes(a));
    } else {
      MulMonotone(word, Bytes(n - a) - 1, Bytes(a));
      assert (Bytes(n - a) - 1) * Bytes(a) == Bytes(n - a) * Bytes(a) - Bytes(a);
    }
  }

  /** The overflow flag means that the number does not fit 256 bits; without it the number is read as a whole. */
  lemma {:induction false} OverflowMeans(compact: nat)
    ensures Overflow(compact) <==> Whole(Split(compact)) >= MODULUS
    ensures !Overflow(compact) ==> Expanded(Split(compact)) == Whole(Split(compact))
  {
    hide Bytes;
    var p := Split(compact);
    ModulusBytes();
    ThreeBytes();
    BytesZero();
    if p.size <= 3 {
      DivLess(p.word, Bytes(3 - p.size));
      BytesGrow(3, 32);
    } else if p.size >= 35 {
      BytesGrow(32, p.size - 3);
      if p.word > 0 {
        MulMonotone(1, p.word, Bytes(p.size - 3));
      } else {
        assert p.word * Bytes(p.size - 3) == 0;
      }
    } else {
      Reaches(p.word, p.size - 3, 32);
      if p.size <= 32 {
        BytesGrow(3, 35 - p.size);
      }
    }
    if Whole(p) < MODULUS {
      DivUnique(Whole(p), MODULUS, 0, Whole(p));
    }
  }

  lemma {:induction false} BytesGrow(a: nat, b: nat)
    requires a <= b
    ensures Bytes(a) <= Bytes(b)
  {
    BytesIsPower(a);
    BytesIsPower(b);
    PowMonotone(8 * a, 8 * b);
  }

  function Joined(p: Parts): nat {
    p.word + p.size * EXPONENT
  }

  /** `v` with the bytes below the mantissa cleared. */
  function Truncated(v: nat, size: nat): nat {
    if size <= 3 then v else v / Bytes(size - 3) * Bytes(size - 3)
  }

  lemma {:induction false} ThreeBytes()
    ensures Bytes(1) == BYTE && Bytes(2) == 0x1_0000 && Bytes(3) == EXPONENT == 2 * MANTISSA
  {
    assert Bytes(0) == 1;
  }

  lemma {:induction false} DivBetween(v: nat, m: nat, lo: nat, hi: nat)
    requires m > 0 && lo * m <= v < hi * m
    ensures lo <= v / m < hi
  {
    assert v == (v / m) * m + v % m;
    CancelLess(v / m, hi, m);
    assert (v / m + 1) * m == (v / m) * m + m;
    CancelLess(lo, v / m + 1, m);
  }

  lemma {:induction false} LeadingBound(v: nat, n: nat)
    requires HasBytes(v, n)
    ensures Leading(v, n) < EXPONENT && (n > 0 ==> Leading(v, n) >= 0x1_0000)
  {
    ThreeBytes();
    hide Bytes;
    if n == 0 {
      assert v == 0 by { BytesZero(); }
    } else if n <= 3 {
      BytesAdd(n, 3 - n);
      BytesAdd(n - 1, 3 - n);
      ProductBelow(v, Bytes(n), Bytes(3 - n));
      MulMonotone(Bytes(n - 1), v, Bytes(3 - n));
    } else {
      BytesAdd(3, n - 3);
      BytesAdd(2, n - 3);
      DivBetween(v, Bytes(n - 3), Bytes(2), Bytes(3));
    }
  }

  lemma {:induction false} BytesZero()
    ensures Bytes(0) == 1
  {
  }

  lemma {:induction false} PartsBound(v: nat, n: nat)
    requires HasBytes(v, n) && n <= 32
    ensures PartsOf(v, n).word < MANTISSA && PartsOf(v, n).size <= 33
    ensures PartsOf(v, n).size == 33 ==> PartsOf(v, n).word < 0x1_0000
  {
    LeadingBound(v, n);
  }

  lemma {:induction false} SplitJoined(p: Parts)
    requires p.word < MANTISSA
    ensures Split(Joined(p)) == p && Joined(p) / MANTISSA % 2 == 0
  {
    DivUnique(Joined(p), EXPONENT, p.size, p.word);
    DivUnique(Joined(p), MANTISSA, 2 * p.size, p.word);
  }

  lemma {:induction false} DivTimes(x: nat, m: nat)
    requires m > 0
    ensures x * m / m == x && x / m * m <= x && x / m * m / m == x / m
  {
    DivUnique(x * m, m, x, 0);
    DivUnique(x / m * m, m, x / m, 0);
  }

  /** Reading back what was written truncates to the bytes of the mantissa. */
  lemma {:induction false} ExpandedParts(v: nat, n: nat)
    requires HasBytes(v, n) && v < MODULUS
    ensures Expanded(PartsOf(v, n)) == Truncated(v, PartsOf(v, n).size)
  {
    ThreeBytes();
    hide Bytes, HasBytes;
    var word := Leading(v, n);
    if n > 3 {
      DivTimes(v, Bytes(n - 3));
      BytesAdd(n - 3, 1);
      DivDiv(v, Bytes(n - 3), BYTE);
      DivTimes(v, Bytes(n - 2));
      SmallMod(v / Bytes(n - 3) * Bytes(n - 3), v);
      SmallMod(v / Bytes(n - 2) * Bytes(n - 2), v);
    } else {
      DivTimes(v, Bytes(3 - n));
      if word >= MANTISSA {
        ShortSigned(v, n);
      }
    }
  }

  lemma {:induction false} SmallMod(x: nat, v: nat)
    requires x <= v < MODULUS
    ensures x % MODULUS == x
  {
    DivUnique(x, MODULUS, 0, x);
  }

  lemma {:induction false} ShortSigned(v: nat, n: nat)
    requires n <= 3 && v < MODULUS
    ensures Expanded(Parts(v * Bytes(3 - n) / BYTE, n + 1)) == Truncated(v, n + 1)
  {
    ThreeBytes();
    BytesZero();
    hide Bytes;
    if n == 3 {
      assert v * 1 == v;
      DivTimes(v, BYTE);
      SmallMod(v / BYTE * BYTE, v);
    } else {
      BytesAdd(2 - n, 1);
      assert v * (Bytes(2 - n) * BYTE) == (v * Bytes(2 - n)) * BYTE;
      DivTimes(v * Bytes(2 - n), BYTE);
      DivTimes(v, Bytes(2 - n));
    }
  }

  /** Writing any number and reading it back gives the number truncated to the exponent that
      was written, never flagged negative or overflowing. */
  lemma {:induction false} CompactRoundTrip(v: nat, n: nat)
    requires HasBytes(v, n) && n <= 32 && v < MODULUS
    ensures var compact := Joined(PartsOf(v, n));
      && Expanded(Split(compact)) == Truncated(v, PartsOf(v, n).size)
      && !Negative(compact) && !Overflow(compact)
  {
    PartsBound(v, n);
    ExpandedParts(v, n);
    hide PartsOf, Expanded, HasBytes, Bytes, Truncated;
    SplitJoined(PartsOf(v, n));
  }

  lemma {:induction false} TruncatedKeeps(v: nat, m: nat, lo: nat)
    requires m > 0 && lo % m == 0 && lo <= v
    ensures v / m * m >= lo
  {
    var d := lo / m;
    assert lo == d * m;
    assert v == (v / m) * m + v % m;
    assert (v / m + 1) * m == (v / m) * m + m;
    CancelLess(d, v / m + 1, m);
    MulMonotone(d, v / m, m);
  }

  /** The truncated number has as many bytes. */
  lemma {:induction false} TruncatedBytes(v: nat, n: nat, size: nat)
    requires HasBytes(v, n) && 3 < size <= n + 1 && n > 0
    ensures HasBytes(Truncated(v, size), n)
  {
    var k := size - 3;
    hide Bytes;
    DivTimes(v, Bytes(k));
    BytesAdd(n - 1 - k, k);
    DivUnique(Bytes(n - 1), Bytes(k), Bytes(n - 1 - k), 0);
    TruncatedKeeps(v, Bytes(k), Bytes(n - 1));
  }

  /** The compact form is stable under a further round trip. */
  lemma {:induction false} CompactStable(v: nat, n: nat)
    requires HasBytes(v, n) && n <= 32 && v < MODULUS
    ensures var t := Truncated(v, PartsOf(v, n).size);
      HasBytes(t, n) && PartsOf(t, n) == PartsOf(v, n)
  {
    var p := PartsOf(v, n);
    var t := Truncated(v, p.size);
    if p.size > 3 {
      TruncatedBytes(v, n, p.size);
      hide HasBytes;
      if n > 3 {
        LongStable(v, n);
      } else {
        ThreeBytes();
        BytesZero();
        hide Bytes;
        DivTimes(v, BYTE);
        TruncatedKeeps(v, BYTE, MANTISSA);
      }
    }
  }

  lemma {:induction false} LongStable(v: nat, n: nat)
    requires n > 3
    ensures PartsOf(Truncated(v, PartsOf(v, n).size), n) == PartsOf(v, n)
  {
    ThreeBytes();
    hide Bytes;
    var m := Bytes(n - 3);
    var word := v / m;
    if word >= MANTISSA {
      BytesAdd(n - 3, 1);
      DivDiv(v, m, BYTE);
      var t := v / Bytes(n - 2) * Bytes(n - 2);
      assert t == (word / BYTE * BYTE) * m;
      DivTimes(word / BYTE * BYTE, m);
      DivTimes(word, BYTE);
      TruncatedKeeps(word, BYTE, MANTISSA);
    } else {
      DivTimes(v, m);
    }
  }

  // ---- The code ----

  /** Assignment of a 64-bit number. */
  method Assign(pn: array<Limb>, b: nat)
    requires pn.Length == WIDTH && b < BASE64
    modifies pn
    ensures Value(pn[..]) == b
  {
    SetZero(pn);
    DivBelow(b, BASE, BASE);
    pn[0], pn[1] := b % BASE, b / BASE;
    TopZero(pn[..], 2);
    ValStep(pn[..], 1);
    ValStep(pn[..], 0);
  }

  /** `GetLow64`. */
  method GetLow64(a: array<Limb>) returns (x: nat)
    requires a.Length == WIDTH
    ensures x == Value(a[..]) % BASE64
  {
    x := a[0] + a[1] * BASE;
    ValStep(a[..], 1);
    ValStep(a[..], 0);
    HighSplits(a[..], 2, WIDTH);
    ValBound(a[..], 2);
    assert Weight(2) == BASE64;
    DivUnique(Value(a[..]), BASE64, High(a[..], 2, WIDTH), x);
  }

  /** `GetCompact`. */
  method GetCompact(a: array<Limb>, negative: bool) returns (compact: nat, ghost n: nat)
    requires a.Length == WIDTH
    ensures n <= 32 && HasBytes(Value(a[..]), n)
    ensures var p := PartsOf(Value(a[..]), n);
      compact == Joined(p) + if negative && p.word != 0 then MANTISSA else 0
  {
    hide Val, Weight, Bytes, Pow2, HasBits, HasBytes;
    var bits := Bits(a);
    var size := (bits + 7) / 8;
    n := size;
    BytesFromBits(Value(a[..]), bits);
    LeadingBound(Value(a[..]), n);
    var word;
    if size <= 3 {
      var low := GetLow64(a);
      ShortValue(Value(a[..]), n);
      BytesIsPower(3 - size);
      word := low * Pow2(8 * (3 - size));
    } else {
      var bn := Copy(a);
      BytesIsPower(size - 3);
      ShiftRight(bn, 8 * (size - 3));
      var low := GetLow64(bn);
      DivUnique(Leading(Value(a[..]), n), BASE64, 0, Leading(Value(a[..]), n));
      word := low;
    }
    if word >= MANTISSA {
      word, size := word / BYTE, size + 1;
    }
    assert word < MANTISSA && size < 256;
    compact := word + size * EXPONENT;
    if negative && word != 0 {
      SplitJoined(Parts(word, size));
      compact := compact + MANTISSA;
    }
  }

  lemma {:induction false} ShortValue(v: nat, n: nat)
    requires HasBytes(v, n) && n <= 3
    ensures v % BASE64 == v
  {
    ThreeBytes();
    BytesIsPower(n);
    BytesIsPower(3);
    PowMonotone(8 * n, 24);
    DivUnique(v, BASE64, 0, v);
  }

  /** `SetCompact`. */
  method SetCompact(pn: array<Limb>, compact: nat) returns (negative: bool, overflow: bool)
    requires pn.Length == WIDTH && compact < BASE
    modifies pn
    ensures Value(pn[..]) == Expanded(Split(compact))
    ensures negative == Negative(compact) && overflow == Overflow(compact)
    ensures overflow <==> Whole(Split(compact)) >= MODULUS
    ensures !overflow ==> Value(pn[..]) == Whole(Split(compact))
  {
    hide Val, Weight, Bytes, Pow2, Whole;
    OverflowMeans(compact);
    var size, word := compact / EXPONENT, compact % MANTISSA;
    if size <= 3 {
      BytesIsPower(3 - size);
      word := word / Pow2(8 * (3 - size));
      DivLess(compact % MANTISSA, Bytes(3 - size));
      Assign(pn, word);
    } else {
      Assign(pn, word);
      BytesIsPower(size - 3);
      ShiftLeft(pn, 8 * (size - 3));
    }
    negative := word != 0 && compact / MANTISSA % 2 == 1;
    overflow := word != 0 && (size > 34 || (word > 0xff && size > 33) || (word > 0xffff && size > 32));
  }

  lemma {:induction false} DivLess(x: nat, m: nat)
    requires m > 0
    ensures x / m <= x
  {
    assert x == (x / m) * m + x % m;
    MulMonotone(1, m, x / m);
  }
}
