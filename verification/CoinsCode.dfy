/** How the unspent outputs of a transaction are stored (coins.h). */
module CoinsCode {
  import opened Bytes
  import opened Powers
  import opened VarInt
  import opened Amounts
  import opened Coins
  import opened Scripts
  import opened Masks

  // ----- integers of type int -----

  predicate IsInt(x: int) {
    -0x8000_0000 <= x < 0x8000_0000
  }

  /** A negative number stops the writing loop at once: only its low seven bits are written. */
  function IntCode(x: int): seq<Byte> {
    if x < 0 then [x % 128] else Encode(x, false)
  }

  function ReadInt(s: seq<Byte>): Read<int> {
    match ReadFrom(s, 0, U32)
    case Fail => Fail
    case Got(n, rest) => SignedFits(s); Got(ToSigned(n), rest)
  }

  lemma {:induction false} SignedFits(s: seq<Byte>)
    requires ReadFrom(s, 0, U32).Got?
    ensures ReadFrom(s, 0, U32).value < U32
  {
    ReadBelow(s, 0, U32);
  }

  lemma {:induction false} ReadBelow(s: seq<Byte>, acc: nat, modulus: nat)
    requires modulus > 0
    ensures ReadFrom(s, acc, modulus).Got? ==> ReadFrom(s, acc, modulus).value < modulus
    decreases |s|
  {
    if |s| > 0 && More(s[0]) {
      ReadBelow(s[1..], ((acc * 128 + Low(s[0])) % modulus + 1) % modulus, modulus);
    }
  }

  /** What is left of a number of type int after it was written and read. */
  function Kept(x: int): int {
    if x < 0 then x % 128 else x
  }

  lemma {:induction false} IntBack(x: int, rest: seq<Byte>)
    requires IsInt(x)
    ensures ReadInt(IntCode(x) + rest) == Got(Kept(x), rest)
  {
    hide ReadFrom, Encode;
    if x < 0 {
      OneByte(x % 128);
    }
    RoundTrip(Kept(x), rest, U32);
  }

  lemma {:induction false} OneByte(b: nat)
    requires b < 128
    ensures Encode(b, false) == [b]
  {
  }

  // ----- outputs -----

  /** What validation grants about every output: money range, bytes, and a script short enough to be spendable. */
  predicate OutOk(out: TxOut) {
    out.Out? ==>
      out.value <= MAX_MONEY && |out.script| <= MAX_SCRIPT_SIZE
      && forall i :: 0 <= i < |out.script| ==> out.script[i] < 256
  }

  function AsBytes(script: seq<nat>): (r: seq<Byte>)
    requires forall i :: 0 <= i < |script| ==> script[i] < 256
    ensures r == script
  {
    script
  }

  function OutCode(curve: Curve, out: TxOut): seq<Byte>
    requires out.Out? && OutOk(out)
  {
    Encode(Compress(out.value), false) + ScriptCode(curve, AsBytes(out.script))
  }

  function ReadOut(curve: Curve, s: seq<Byte>): Read<TxOut> {
    match ReadFrom(s, 0, U64)
    case Fail => Fail
    case Got(x, t) =>
      match ReadScript(curve, t)
      case Fail => Fail
      case Got(script, rest) => Got(Out(Wrap(Decompress(x)), script), rest)
  }

  lemma {:induction false} OutBack(curve: Curve, out: TxOut, rest: seq<Byte>)
    requires out.Out? && OutOk(out)
    ensures ReadOut(curve, OutCode(curve, out) + rest) == Got(out, rest)
  {
    hide ReadFrom, Encode, ReadScript, ScriptCode, Compress, Decompress;
    var script := AsBytes(out.script);
    CompressBound(out.value);
    DecompressCompress(out.value);
    RoundTrip(Compress(out.value), ScriptCode(curve, script) + rest, U64);
    ScriptRoundTrip(curve, script, rest);
    assert OutCode(curve, out) + rest == Encode(Compress(out.value), false) + (ScriptCode(curve, script) + rest);
  }

  predicate OutsOk(vout: seq<TxOut>) {
    forall i :: 0 <= i < |vout| ==> OutOk(vout[i])
  }

  function OutsCode(curve: Curve, vout: seq<TxOut>): seq<Byte>
    requires OutsOk(vout)
  {
    if |vout| == 0 then []
    else OutsCode(curve, vout[..|vout| - 1]) + OutOrNothing(curve, vout[|vout| - 1])
  }

  function OutOrNothing(curve: Curve, out: TxOut): seq<Byte>
    requires OutOk(out)
  {
    if out.Out? then OutCode(curve, out) else []
  }

  /** Reads an output wherever the flag is set. */
  function ReadOuts(curve: Curve, s: seq<Byte>, avail: seq<bool>): Read<seq<TxOut>> {
    if |avail| == 0 then Got([], s)
    else
      match ReadOuts(curve, s, avail[..|avail| - 1])
      case Fail => Fail
      case Got(vout, t) =>
        if !avail[|avail| - 1] then Got(vout + [Spent], t)
        else
          match ReadOut(curve, t)
          case Fail => Fail
          case Got(out, rest) => Got(vout + [out], rest)
  }

  function Flags(vout: seq<TxOut>): (r: seq<bool>)
    ensures |r| == |vout| && forall i :: 0 <= i < |vout| ==> r[i] == vout[i].Out?
  {
    seq(|vout|, i requires 0 <= i < |vout| => vout[i].Out?)
  }

  lemma {:induction false} OutsBack(curve: Curve, vout: seq<TxOut>, rest: seq<Byte>)
    requires OutsOk(vout)
    ensures ReadOuts(curve, OutsCode(curve, vout) + rest, Flags(vout)) == Got(vout, rest)
    decreases |vout|
  {
    hide ReadOut, OutCode;
    var n := |vout|;
    if n == 0 {
      assert OutsCode(curve, vout) + rest == rest;
    } else {
      var last := OutOrNothing(curve, vout[n - 1]);
      assert Flags(vout)[..n - 1] == Flags(vout[..n - 1]);
      OutsBack(curve, vout[..n - 1], last + rest);
      assert OutsCode(curve, vout) + rest == OutsCode(curve, vout[..n - 1]) + (last + rest);
      assert vout == vout[..n - 1] + [vout[n - 1]];
      if vout[n - 1].Out? {
        OutBack(curve, vout[n - 1], rest);
      } else {
        assert last + rest == rest;
      }
    }
  }

  /** Spent outputs at the end leave no trace. */
  lemma {:induction false} SpentTail(curve: Curve, vout: seq<TxOut>, n: nat)
    requires OutsOk(vout) && n <= |vout| && forall i :: n <= i < |vout| ==> vout[i].Spent?
    ensures OutsCode(curve, vout) == OutsCode(curve, vout[..n])
    decreases |vout|
  {
    if n < |vout| {
      SpentTail(curve, vout[..|vout| - 1], n);
      assert vout[..|vout| - 1][..n] == vout[..n];
    } else {
      assert vout[..n] == vout;
    }
  }

  // ----- the flags through the mask -----

  /** The outputs as far as the mask reaches; what lies beyond is spent. */
  function Padded(vout: seq<TxOut>): (r: seq<TxOut>)
    ensures |r| == 2 + 8 * MaskSize(Flags(vout))
    ensures forall i :: 0 <= i < |r| ==> r[i] == if i < |vout| then vout[i] else Spent
  {
    var n := 2 + 8 * MaskSize(Flags(vout));
    Resize(vout, n)[..n]
  }

  lemma {:induction false} BeyondMask(vout: seq<TxOut>, i: nat)
    requires |Padded(vout)| <= i < |vout|
    ensures vout[i].Spent?
  {
    MaskCovers(Flags(vout), i);
  }

  /** Two bits and the mask are the flags of the padded outputs. */
  lemma {:induction false} FlagsBack(vout: seq<TxOut>)
    ensures [Flag(Flags(vout), 0), Flag(Flags(vout), 1)] + AllBits(Mask(Flags(vout))) == Flags(Padded(vout))
  {
    hide AllBits, Mask;
    var flags, n := Flags(vout), MaskSize(Flags(vout));
    MaskIs(flags);
    var bits := AllBits(Mask(flags));
    var all := [Flag(flags, 0), Flag(flags, 1)] + bits;
    forall i | 0 <= i < |all|
      ensures all[i] == Flags(Padded(vout))[i]
    {
      if i >= 2 {
        MaskBits(flags, n, i - 2);
        assert all[i] == bits[i - 2];
      }
    }
  }

  lemma {:induction false} MaskIs(flags: seq<bool>)
    ensures Mask(flags) == MaskBytes(flags, MaskSize(flags))
    ensures |Mask(flags)| > 0 ==> Mask(flags)[|Mask(flags)| - 1] != 0
  {
  }

  lemma {:induction false} PaddedOk(vout: seq<TxOut>)
    requires OutsOk(vout)
    ensures OutsOk(Padded(vout))
  {
  }

  lemma {:induction false} PaddedCode(curve: Curve, vout: seq<TxOut>)
    requires OutsOk(vout) && OutsOk(Padded(vout))
    ensures OutsCode(curve, Padded(vout)) == OutsCode(curve, vout)
  {
    hide MaskSize, OutsCode;
    var p := Padded(vout);
    if |p| < |vout| {
      forall i | |p| <= i < |vout|
        ensures vout[i].Spent?
      {
        BeyondMask(vout, i);
      }
      SpentTail(curve, vout, |p|);
      assert vout[..|p|] == p;
    } else {
      SpentTail(curve, p, |vout|);
      assert p[..|vout|] == vout;
    }
  }

  lemma {:induction false} PaddedTrim(vout: seq<TxOut>)
    ensures Trim(Padded(vout)) == Trim(vout)
  {
    hide MaskSize, Trim;
    var p, t := Padded(vout), Trim(vout);
    TrimIsTrim(vout);
    if |t| > |p| {
      BeyondMask(vout, |t| - 1);
    }
    assert t == p[..|t|];
    TrimUnique(p, t);
  }

  // ----- the header code -----

  function One(b: bool): nat {
    if b then 1 else 0
  }

  /** The number of bytes of the mask that are not zero is stored less one when the two bits are clear. */
  function HeaderCode(coinBase: bool, flags: seq<bool>): nat
    requires exists i :: Flag(flags, i)
  {
    var first, second := Flag(flags, 0), Flag(flags, 1);
    CountFits(flags);
    8 * (NonZero(Mask(flags)) - One(!(first || second))) + One(coinBase) + 2 * One(first) + 4 * One(second)
  }

  /** What the source asserts before it writes. */
  lemma {:induction false} CountFits(flags: seq<bool>)
    requires exists i :: Flag(flags, i)
    ensures Flag(flags, 0) || Flag(flags, 1) || NonZero(Mask(flags)) > 0
  {
    MaskEmpty(flags);
    var i :| Flag(flags, i);
    assert i >= 2 || i == 0 || i == 1;
  }

  function BaseOf(code: nat): bool { code % 2 == 1 }
  function FirstOf(code: nat): bool { code / 2 % 2 == 1 }
  function SecondOf(code: nat): bool { code / 4 % 2 == 1 }
  function CountOf(code: nat): nat { code / 8 + One(!(FirstOf(code) || SecondOf(code))) }

  lemma {:induction false} HeaderBack(coinBase: bool, flags: seq<bool>)
    requires exists i :: Flag(flags, i)
    ensures var code := HeaderCode(coinBase, flags);
            BaseOf(code) == coinBase && FirstOf(code) == Flag(flags, 0) && SecondOf(code) == Flag(flags, 1)
            && CountOf(code) == NonZero(Mask(flags))
  {
    hide Mask, NonZero;
    CountFits(flags);
    var first, second := Flag(flags, 0), Flag(flags, 1);
    CodeParts(NonZero(Mask(flags)) - One(!(first || second)), coinBase, first, second);
  }

  lemma {:induction false} CodeParts(n: nat, base: bool, first: bool, second: bool)
    ensures var code := 8 * n + One(base) + 2 * One(first) + 4 * One(second);
            BaseOf(code) == base && FirstOf(code) == first && SecondOf(code) == second && code / 8 == n
  {
    var b, f, g := One(base), One(first), One(second);
    var code := 8 * n + b + 2 * f + 4 * g;
    DivUnique(code, 2, 4 * n + f + 2 * g, b);
    DivUnique(code / 2, 2, 2 * n + g, f);
    DivUnique(code, 4, 2 * n + g, b + 2 * f);
    DivUnique(code / 4, 2, n, g);
    DivUnique(code, 8, n, b + 2 * f + 4 * g);
  }

  lemma {:induction false} NonZeroBound(bytes: seq<Byte>)
    ensures NonZero(bytes) <= |bytes|
    decreases |bytes|
  {
    if |bytes| > 0 {
      NonZeroBound(bytes[1..]);
    }
  }

  lemma {:induction false} HeaderFits(coinBase: bool, flags: seq<bool>)
    requires (exists i :: Flag(flags, i)) && |flags| < 0x8000_0000
    ensures HeaderCode(coinBase, flags) < U32
  {
    CountFits(flags);
    NonZeroBound(Mask(flags));
  }
}
