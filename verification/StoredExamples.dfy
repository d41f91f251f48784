/** The layouts and examples that the source documents: variable-length integers (serialize.h), amounts, special scripts
    (compressor.h) and stored coins (coins.h). */
module StoredExamples {
  import opened Results
  import opened Bytes
  import opened Powers
  import opened VarInt
  import opened Amounts
  import opened Coins
  import opened Scripts
  import opened Masks
  import opened CoinsCode
  import opened CoinsStore

  // ---- Variable-length integers ----

  /** The documented sum: the last digit, and every other one plus one at its power of 128. */
  function DigitSum(code: seq<Byte>): nat
    decreases |code|
  {
    if |code| == 0 then 0
    else if |code| == 1 then Low(code[0])
    else (Low(code[0]) + 1) * Pow2(7 * (|code| - 1)) + DigitSum(code[1..])
  }

  lemma {:induction false} HornerIsSum(acc: nat, code: seq<Byte>)
    requires |code| > 0
    ensures Value(acc, code) == acc * Pow2(7 * |code|) + DigitSum(code)
    decreases |code|
  {
    var k := |code| - 1;
    assert Pow2(7) == 128;
    PowAdd(7, 7 * k);
    hide Pow2;
    if k > 0 {
      var d := Low(code[0]) + 1;
      HornerIsSum(128 * acc + d, code[1..]);
      Distribute(acc, d, Pow2(7 * k));
    } else {
      assert code[1..] == [];
      OneDigit(acc, code);
    }
  }

  lemma {:induction false} OneDigit(acc: nat, code: seq<Byte>)
    requires |code| == 1
    ensures Value(acc, code) == acc * Pow2(7) + Low(code[0])
  {
    assert code[1..] == [];
    assert Pow2(7) == 128;
  }

  lemma {:induction false} Distribute(acc: nat, d: nat, p: nat)
    ensures (128 * acc + d) * p == acc * (128 * p) + d * p
  {
  }

  /** Every number is the documented sum over its code. */
  lemma {:induction false} CodeIsSum(n: nat)
    ensures DigitSum(Encode(n, false)) == n
  {
    EncodeThenValue(n, false);
    HornerIsSum(0, Encode(n, false));
  }

  /** One byte up to 127, two up to 16511, three up to 2113663. */
  lemma {:induction false} SmallSizes(n: nat)
    ensures |Encode(n, false)| == 1 <==> n <= 127
    ensures |Encode(n, false)| <= 2 <==> n <= 16511
    ensures |Encode(n, false)| <= 3 <==> n <= 2113663
  {
    OneMoreByte(n, false);
    if n > 127 {
      var m := n / 128 - 1;
      OneMoreByte(m, true);
      if m > 127 {
        OneMoreByte(m / 128 - 1, true);
      }
    }
  }

  lemma {:induction false} OneMoreByte(n: nat, more: bool)
    ensures if n <= 127 then |Encode(n, more)| == 1
            else |Encode(n, more)| == |Encode(n / 128 - 1, true)| + 1 && |Encode(n / 128 - 1, true)| >= 1
  {
  }

  /** One digit more. */
  lemma {:induction false} Longer(high: nat, front: seq<Byte>, low: nat, more: bool)
    requires Encode(high, true) == front && low < 128
    ensures Encode(128 * (high + 1) + low, more) == front + [if more then 128 + low else low]
  {
    SplitDigit(128 * (high + 1) + low, high, low);
  }

  lemma {:induction false} FirstDigit(n: nat, more: bool)
    requires n < 128
    ensures Encode(n, more) == [if more then 128 + n else n]
  {
  }

  /** The codes listed with the definition, as far as they are codes of these numbers. */
  lemma {:induction false} ListedCodes()
    ensures Encode(0, false) == [0x00] && Encode(1, false) == [0x01] && Encode(127, false) == [0x7F]
    ensures Encode(128, false) == [0x80, 0x00] && Encode(255, false) == [0x80, 0x7F]
    ensures Encode(256, false) == [0x81, 0x00] && Encode(16383, false) == [0xFE, 0x7F]
    ensures Encode(16384, false) == [0xFF, 0x00]
    ensures Encode(0x1_0000_0000, false) == [0x8E, 0xFE, 0xFE, 0xFF, 0x00]
  {
    hide Encode;
    FirstDigit(0, false);
    FirstDigit(1, false);
    FirstDigit(127, false);
    FirstDigit(0, true);
    Longer(0, [0x80], 0x00, false);
    Longer(0, [0x80], 0x7F, false);
    FirstDigit(1, true);
    Longer(1, [0x81], 0x00, false);
    FirstDigit(126, true);
    Longer(126, [0xFE], 0x7F, false);
    FirstDigit(127, true);
    Longer(127, [0xFF], 0x00, false);
    FirstDigit(14, true);
    Longer(14, [0x8E], 0x7E, true);
    Longer(2046, [0x8E, 0xFE], 0x7E, true);
    Longer(262142, [0x8E, 0xFE, 0xFE], 0x7F, true);
    Longer(33554431, [0x8E, 0xFE, 0xFE, 0xFF], 0x00, false);
  }

  /** Two entries of the list are codes of other numbers. */
  lemma {:induction false} MislistedCodes()
    ensures Encode(16511, false) == [0xFF, 0x7F] && Encode(32895, false) == [0x80, 0xFF, 0x7F]
    ensures Encode(65535, false) == [0x82, 0xFE, 0x7F] && Encode(65407, false) == [0x82, 0xFD, 0x7F]
  {
    hide Encode;
    FirstDigit(127, true);
    Longer(127, [0xFF], 0x7F, false);
    FirstDigit(0, true);
    Longer(0, [0x80], 0x7F, true);
    Longer(255, [0x80, 0xFF], 0x7F, false);
    FirstDigit(2, true);
    Longer(2, [0x82], 0x7E, true);
    Longer(510, [0x82, 0xFE], 0x7F, false);
    Longer(2, [0x82], 0x7D, true);
    Longer(509, [0x82, 0xFD], 0x7F, false);
  }

  // ---- Amounts ----

  lemma {:induction false} Compressed(m: nat, k: nat)
    requires m > 0 && k <= 9 && (k < 9 ==> m % 10 != 0)
    ensures Compress(m * Pow10(k)) == if k < 9 then 1 + (m / 10 * 9 + m % 10 - 1) * 10 + k else 1 + (m - 1) * 10 + 9
  {
    StripFinds(m, k, 0);
    assert m * Pow10(k) > 0;
  }

  lemma {:induction false} SmallTens()
    ensures Pow10(0) == 1 && Pow10(6) == 1_000_000 && Pow10(8) == 100_000_000 && Pow10(9) == 1_000_000_000
  {
    assert Pow10(3) == 1000;
    assert Pow10(6) == 1_000_000;
  }

  /** The amounts and forms that the source lists: nothing, one unit, a hundredth, one coin, fifty coins, and all. */
  lemma {:induction false} ListedAmounts()
    ensures Compress(0) == 0 && Compress(1) == 1 && Compress(1_000_000) == 7
    ensures Compress(COIN) == 9 && Compress(50 * COIN) == 0x32 && Compress(MAX_MONEY) == 0x1406f40
  {
    hide Compress;
    SmallTens();
    Compressed(1, 0);
    Compressed(1, 6);
    Compressed(1, 8);
    Compressed(5, 9);
    Compressed(2_100_000, 9);
    Nothing();
  }

  lemma {:induction false} Nothing()
    ensures Compress(0) == 0
  {
  }

  // ---- Special scripts ----

  /** The special forms, byte by byte: a type and the hash or abscissa. */
  lemma {:induction false} SpecialForms(curve: Curve, hash: seq<Byte>, x: seq<Byte>, y: seq<Byte>, odd: bool)
    requires |hash| == 20 && |x| == 32
    ensures CompressScript(curve, [0x76, 0xa9, 20] + hash + [0x88, 0xac]) == Some([0] + hash)
    ensures CompressScript(curve, [0xa9, 20] + hash + [0x87]) == Some([1] + hash)
    ensures CompressScript(curve, [33, 2] + x + [0xac]) == Some([2] + x)
    ensures CompressScript(curve, [33, 3] + x + [0xac]) == Some([3] + x)
    ensures curve(x, odd) == Some(y) ==>
      CompressScript(curve, [65, 4] + x + y + [0xac]) == Some([if odd then 5 else 4] + x)
  {
    var a := [0x76, 0xa9, 20] + hash + [0x88, 0xac];
    assert a[3..23] == hash;
    var b := [0xa9, 20] + hash + [0x87];
    assert b[2..22] == hash;
    var c, d := [33, 2] + x + [0xac], [33, 3] + x + [0xac];
    assert c[2..34] == x && d[2..34] == x;
    if curve(x, odd) == Some(y) {
      LongKeyForm(curve, x, y, odd);
    }
  }

  lemma {:induction false} LongKeyForm(curve: Curve, x: seq<Byte>, y: seq<Byte>, odd: bool)
    requires |x| == 32 && curve(x, odd) == Some(y)
    ensures CompressScript(curve, [65, 4] + x + y + [0xac]) == Some([if odd then 5 else 4] + x)
  {
    var s := [65, 4] + x + y + [0xac];
    assert |y| == 32 && IsOdd(y[31]) == odd;
    assert s[2..34] == x && s[34..66] == y && s[65] == y[31];
  }

  // ---- Stored coins ----

  /** A script that pays to a key hash. */
  function ToKeyId(hash: seq<Byte>): seq<Byte> {
    [0x76, 0xa9, 20] + hash + [0x88, 0xac]
  }

  lemma {:induction false} OutToKeyId(curve: Curve, value: nat, hash: seq<Byte>)
    requires value <= MAX_MONEY && |hash| == 20
    ensures OutOk(Out(value, ToKeyId(hash)))
    ensures OutCode(curve, Out(value, ToKeyId(hash))) == Encode(Compress(value), false) + [0] + hash
  {
    hide Encode, Compress;
    var x: seq<Byte> := seq(32, _ => 0);
    SpecialForms(curve, hash, x, x, false);
    assert Encode(Compress(value), false) + ([0] + hash) == Encode(Compress(value), false) + [0] + hash;
  }

  /** The first example of the documentation: the second of two outputs is unspent, 600 coins at height 203998. */
  lemma {:induction false} FirstExample(curve: Curve, hash: seq<Byte>, out: TxOut, c: CCoins)
    requires |hash| == 20 && out == Out(600 * COIN, ToKeyId(hash))
    requires c == CCoins(false, [Spent, out], 203998, 1, BWT_POS_UNSET, 0)
    ensures Storable(c) && !IsPruned(c)
    ensures Written(curve, c, []) == [0x01, 0x04, 0x83, 0x58, 0x00] + hash + [0x8b, 0xb8, 0x5e]
  {
    hide Encode, Compress, ScriptCode, OutCode, Mask, NonZero;
    OutToKeyId(curve, 600 * COIN, hash);
    assert !IsPruned(c) by { assert c.vout[1].Out?; }
    FirstNumbers();
    FirstFlags(c);
    assert c.vout[..1] == [Spent] && [Spent][..0] == [];
    assert OutsCode(curve, []) == [] && OutsCode(curve, [Spent]) == [];
    assert OutsCode(curve, c.vout) == [0x83, 0x58] + [0] + hash;
    assert CertCode(c) == [];
    hide OutsCode, CertCode, CodeOf;
    FirstJoined(hash);
  }

  lemma {:induction false} FirstJoined(hash: seq<Byte>)
    ensures [0x01] + ([0x04] + ([] + (([0x83, 0x58] + [0] + hash) + ([0x8b, 0xb8, 0x5e] + ([] + [])))))
         == [0x01, 0x04, 0x83, 0x58, 0x00] + hash + [0x8b, 0xb8, 0x5e]
  {
  }

  lemma {:induction false} FirstNumbers()
    ensures Encode(1, false) == [0x01] && Encode(4, false) == [0x04] && Encode(600, false) == [0x83, 0x58]
    ensures Encode(203998, false) == [0x8b, 0xb8, 0x5e] && Compress(600 * COIN) == 600
  {
    hide Encode, Compress;
    FirstDigit(1, false);
    FirstDigit(4, false);
    FirstDigit(3, true);
    Longer(3, [0x83], 0x58, false);
    FirstDigit(11, true);
    Longer(11, [0x8b], 0x38, true);
    Longer(1592, [0x8b, 0xb8], 0x5e, false);
    SmallTens();
    Compressed(60, 9);
  }

  lemma {:induction false} FirstFlags(c: CCoins)
    requires |c.vout| == 2 && !c.coinBase && c.vout[0].Spent? && c.vout[1].Out? && !IsPruned(c)
    ensures Mask(Flags(c.vout)) == [] && CodeOf(c) == 4
  {
    NotPruned(c);
    assert NonZero([]) == 0;
  }

  /** The second example: outputs 4 and 16 of a coinbase are unspent, at height 120891. */
  ghost predicate SecondCoins(c: CCoins, a: TxOut, b: TxOut) {
    && c == CCoins(true, c.vout, 120891, 1, BWT_POS_UNSET, 0)
    && |c.vout| == 17 && c.vout[4] == a && c.vout[16] == b
    && forall i :: 0 <= i < 17 && i != 4 && i != 16 ==> c.vout[i].Spent?
  }

  lemma {:induction false} SecondExample(curve: Curve, hash: seq<Byte>, hash': seq<Byte>, a: TxOut, b: TxOut, c: CCoins)
    requires |hash| == 20 && |hash'| == 20 && SecondCoins(c, a, b)
    requires a == Out(234925952, ToKeyId(hash)) && b == Out(110397, ToKeyId(hash'))
    ensures Storable(c) && !IsPruned(c)
    ensures Written(curve, c, [])
         == [0x01, 0x09, 0x04, 0x40] + [0x86, 0xef, 0x97, 0xd5, 0x79, 0x00] + hash
            + [0xbb, 0xd1, 0x23, 0x00] + hash' + [0x86, 0xaf, 0x3b]
  {
    hide Encode, Compress, ScriptCode, OutCode, OutsCode, Mask, NonZero, CodeOf, MaskSize, OutOk;
    OutToKeyId(curve, 234925952, hash);
    OutToKeyId(curve, 110397, hash');
    assert OutOk(Spent) by { SpentOk(); }
    assert !IsPruned(c) by { assert c.vout[4].Out?; }
    SecondNumbers();
    SecondFlags(c, a, b);
    SecondOuts(curve, c, a, b);
    assert CertCode(c) == [];
    Joined(Encode(Compress(234925952), false), hash, Encode(Compress(110397), false), hash');
  }

  lemma {:induction false} SpentOk()
    ensures OutOk(Spent)
  {
  }

  lemma {:induction false} Joined(x: seq<Byte>, hash: seq<Byte>, y: seq<Byte>, hash': seq<Byte>)
    requires x == [0x86, 0xef, 0x97, 0xd5, 0x79] && y == [0xbb, 0xd1, 0x23]
    ensures [0x01]
            + ([0x09] + ([0x04, 0x40] + (((x + [0] + hash) + (y + [0] + hash')) + ([0x86, 0xaf, 0x3b] + ([] + [])))))
         == [0x01, 0x09, 0x04, 0x40] + [0x86, 0xef, 0x97, 0xd5, 0x79, 0x00] + hash
            + [0xbb, 0xd1, 0x23, 0x00] + hash' + [0x86, 0xaf, 0x3b]
  {
  }

  lemma {:induction false} SecondNumbers()
    ensures Encode(1, false) == [0x01] && Encode(9, false) == [0x09] && Encode(120891, false) == [0x86, 0xaf, 0x3b]
    ensures Encode(Compress(234925952), false) == [0x86, 0xef, 0x97, 0xd5, 0x79]
    ensures Encode(Compress(110397), false) == [0xbb, 0xd1, 0x23]
  {
    hide Encode, Compress;
    FirstDigit(1, false);
    FirstDigit(9, false);
    FirstDigit(6, true);
    Longer(6, [0x86], 0x2f, true);
    Longer(943, [0x86, 0xaf], 0x3b, false);
    SmallTens();
    Compressed(234925952, 0);
    Longer(6, [0x86], 0x6f, true);
    Longer(1007, [0x86, 0xef], 0x17, true);
    Longer(129047, [0x86, 0xef, 0x97], 0x55, true);
    Longer(16518229, [0x86, 0xef, 0x97, 0xd5], 0x79, false);
    Compressed(110397, 0);
    FirstDigit(59, true);
    Longer(59, [0xbb], 0x51, true);
    Longer(7761, [0xbb, 0xd1], 0x23, false);
  }

  lemma {:induction false} SecondFlags(c: CCoins, a: TxOut, b: TxOut)
    requires SecondCoins(c, a, b) && a.Out? && b.Out? && !IsPruned(c)
    ensures Mask(Flags(c.vout)) == [0x04, 0x40] && CodeOf(c) == 9
  {
    var flags := Flags(c.vout);
    TwoBytes(flags);
    NotPruned(c);
    assert [0x04, 0x40][1..] == [0x40] && [0x40][1..] == [];
    assert NonZero([0x40]) == 1 && NonZero([0x04, 0x40]) == 2;
  }

  lemma {:induction false} TwoBytes(flags: seq<bool>)
    requires |flags| == 17 && forall i :: 0 <= i < 17 ==> flags[i] == (i == 4 || i == 16)
    ensures Mask(flags) == [0x04, 0x40]
  {
    assert Pow2(2) == 4 && Pow2(6) == 64;
    OnlyBit(flags, 2, 8, 2);
    OnlyBit(flags, 10, 8, 6);
    assert MaskByte(flags, 0) == 4 && MaskByte(flags, 1) == 64;
    assert MaskSize(flags) == 2;
  }

  /** A single flag is its power of two. */
  lemma {:induction false} OnlyBit(flags: seq<bool>, pos: nat, k: nat, p: nat)
    requires p < k && forall i :: pos <= i < pos + k ==> (Flag(flags, i) <==> i == pos + p)
    ensures BitsFrom(flags, pos, k) == Pow2(p)
    decreases k
  {
    if p == k - 1 {
      BitsZero(flags, pos, k - 1);
    } else {
      OnlyBit(flags, pos, k - 1, p);
    }
  }

  lemma {:induction false} SecondOuts(curve: Curve, c: CCoins, a: TxOut, b: TxOut)
    requires SecondCoins(c, a, b) && a.Out? && b.Out? && OutsOk(c.vout)
    ensures OutOk(a) && OutOk(b) && OutsCode(curve, c.vout) == OutCode(curve, a) + OutCode(curve, b)
  {
    hide OutCode, OutOk;
    var v := c.vout;
    assert OutOk(v[4]) && OutOk(v[16]);
    SpentTail(curve, v[..4], 0);
    assert v[..4][..0] == [] && OutsCode(curve, []) == [];
    assert v[..5][..4] == v[..4] && v[..17] == v;
    SpentTail(curve, v[..16], 5);
    assert v[..16][..5] == v[..5];
    assert [] + OutCode(curve, a) == OutCode(curve, a);
  }

  /** After the height of a certificate stand the position of its first backward transfer and their maturity height, in
      four bytes each, least significant first. */
  lemma {:induction false} CertFields(c: CCoins)
    requires c.version % 128 == 123 && 0 <= c.firstBwtPos < 256 && 0 <= c.bwtMaturityHeight < 0x10000
    ensures CertCode(c) == [c.firstBwtPos, 0, 0, 0] + [c.bwtMaturityHeight % 256, c.bwtMaturityHeight / 256, 0, 0]
  {
  }
}
