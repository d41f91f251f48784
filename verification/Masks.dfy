/** The mask bytes that say which outputs, from the third on, are unspent (coins.h, coins.cpp). */
module Masks {
  import opened Bytes
  import opened Powers

  predicate Flag(flags: seq<bool>, i: nat) {
    i < |flags| && flags[i]
  }

  /** The k flags from pos on as the low bits of a number. */
  function BitsFrom(flags: seq<bool>, pos: nat, k: nat): (x: nat)
    ensures x < Pow2(k)
  {
    if k == 0 then 0
    else BitsFrom(flags, pos, k - 1) + (if Flag(flags, pos + k - 1) then Pow2(k - 1) else 0)
  }

  predicate IsSet(x: nat, p: nat) {
    x / Pow2(p) % 2 == 1
  }

  lemma {:induction false} TopBit(x: nat, p: nat)
    requires x < Pow2(p)
    ensures !IsSet(x, p) && IsSet(x + Pow2(p), p)
  {
    DivUnique(x, Pow2(p), 0, x);
    DivUnique(x + Pow2(p), Pow2(p), 1, x);
  }

  lemma {:induction false} LowerBit(x: nat, k: nat, p: nat)
    requires p < k
    ensures IsSet(x + Pow2(k), p) == IsSet(x, p)
  {
    PowAdd(k - p, p);
    assert Pow2(k - p) == 2 * Pow2(k - 1 - p);
    hide Pow2;
    AddEven(x, Pow2(p), Pow2(k - 1 - p));
  }

  lemma {:induction false} AddEven(x: nat, p: nat, half: nat)
    requires p > 0
    ensures (x + 2 * half * p) / p % 2 == x / p % 2
  {
    var q := x / p;
    assert x == q * p + x % p;
    assert (q + 2 * half) * p == q * p + 2 * half * p;
    DivUnique(x + 2 * half * p, p, q + 2 * half, x % p);
    SameParity(q, half);
  }

  lemma {:induction false} SameParity(q: nat, half: nat)
    ensures (q + 2 * half) % 2 == q % 2
  {
  }

  /** Each flag is found in its bit. */
  lemma {:induction false} BitsRead(flags: seq<bool>, pos: nat, k: nat, p: nat)
    requires p < k
    ensures IsSet(BitsFrom(flags, pos, k), p) == Flag(flags, pos + p)
  {
    hide IsSet;
    var x := BitsFrom(flags, pos, k - 1);
    if p == k - 1 {
      TopBit(x, p);
    } else {
      BitsRead(flags, pos, k - 1, p);
      LowerBit(x, k - 1, p);
    }
  }

  lemma {:induction false} BitsZero(flags: seq<bool>, pos: nat, k: nat)
    ensures BitsFrom(flags, pos, k) == 0 <==> forall i :: pos <= i < pos + k ==> !Flag(flags, i)
  {
    if k > 0 {
      BitsZero(flags, pos, k - 1);
    }
  }

  // ----- mask bytes -----

  function MaskByte(flags: seq<bool>, b: nat): Byte {
    PowEight();
    BitsFrom(flags, 2 + 8 * b, 8)
  }

  lemma {:induction false} PowEight()
    ensures Pow2(8) == 256
  {
    assert Pow2(4) == 16;
    PowAdd(4, 4);
  }

  function MaskBytes(flags: seq<bool>, n: nat): (r: seq<Byte>)
    ensures |r| == n && forall b :: 0 <= b < n ==> r[b] == MaskByte(flags, b)
  {
    if n == 0 then [] else MaskBytes(flags, n - 1) + [MaskByte(flags, n - 1)]
  }

  /** One more than the last byte, of the first n, that is not zero. */
  function LastUsed(flags: seq<bool>, n: nat): (r: nat)
    ensures r <= n && (r > 0 ==> MaskByte(flags, r - 1) != 0)
    ensures forall b :: r <= b < n ==> MaskByte(flags, b) == 0
  {
    if n == 0 then 0 else if MaskByte(flags, n - 1) != 0 then n else LastUsed(flags, n - 1)
  }

  function NonZero(bytes: seq<Byte>): nat {
    if |bytes| == 0 then 0 else (if bytes[0] != 0 then 1 else 0) + NonZero(bytes[1..])
  }

  function ByteCount(flags: seq<bool>): nat {
    if |flags| <= 2 then 0 else (|flags| - 2 + 7) / 8
  }

  function MaskSize(flags: seq<bool>): nat {
    LastUsed(flags, ByteCount(flags))
  }

  function Mask(flags: seq<bool>): seq<Byte> {
    MaskBytes(flags, MaskSize(flags))
  }

  lemma {:induction false} NonZeroAppend(a: seq<Byte>, b: Byte)
    ensures NonZero(a + [b]) == NonZero(a) + (if b != 0 then 1 else 0)
    decreases |a|
  {
    if |a| == 0 {
      assert (a + [b])[1..] == [];
    } else {
      assert (a + [b])[1..] == a[1..] + [b];
      NonZeroAppend(a[1..], b);
    }
  }

  /** Bytes after the last used one do not count. */
  lemma {:induction false} NonZeroUpToLast(flags: seq<bool>, n: nat)
    ensures NonZero(MaskBytes(flags, n)) == NonZero(MaskBytes(flags, LastUsed(flags, n)))
  {
    if n > 0 && MaskByte(flags, n - 1) == 0 {
      NonZeroAppend(MaskBytes(flags, n - 1), 0);
      NonZeroUpToLast(flags, n - 1);
    }
  }

  /** No flag, from the third on, is set outside the mask. */
  lemma {:induction false} MaskCovers(flags: seq<bool>, i: nat)
    requires i >= 2 + 8 * MaskSize(flags)
    ensures !Flag(flags, i)
  {
    var b := (i - 2) / 8;
    if b < ByteCount(flags) {
      BitsZero(flags, 2 + 8 * b, 8);
      assert MaskByte(flags, b) == 0;
    }
  }

  /** The mask is empty exactly when no flag from the third on is set; then and only then nothing is counted. */
  lemma {:induction false} MaskEmpty(flags: seq<bool>)
    ensures NonZero(Mask(flags)) == 0 <==> forall i :: i >= 2 ==> !Flag(flags, i)
  {
    var n := MaskSize(flags);
    if n == 0 {
      forall i | i >= 2
        ensures !Flag(flags, i)
      {
        MaskCovers(flags, i);
      }
    } else {
      NonZeroAppend(MaskBytes(flags, n - 1), MaskByte(flags, n - 1));
      BitsZero(flags, 2 + 8 * (n - 1), 8);
    }
  }

  /** CCoins::CalcMaskSize. */
  method CalcMaskSize(flags: seq<bool>) returns (nBytes: nat, nNonzeroBytes: nat)
    ensures nBytes == MaskSize(flags) && nNonzeroBytes == NonZero(Mask(flags))
  {
    nBytes, nNonzeroBytes := 0, 0;
    var b := 0;
    while 2 + b * 8 < |flags|
      invariant b <= ByteCount(flags)
      invariant nBytes == LastUsed(flags, b) && nNonzeroBytes == NonZero(MaskBytes(flags, b))
    {
      var zero := true;
      var i := 0;
      while i < 8 && 2 + b * 8 + i < |flags|
        invariant 0 <= i <= 8 && zero == forall j :: 2 + 8 * b <= j < 2 + 8 * b + i ==> !Flag(flags, j)
      {
        if flags[2 + b * 8 + i] {
          assert Flag(flags, 2 + 8 * b + i);
          zero := false;
        }
        i := i + 1;
      }
      BitsZero(flags, 2 + 8 * b, 8);
      NonZeroAppend(MaskBytes(flags, b), MaskByte(flags, b));
      if !zero {
        nBytes := b + 1;
        nNonzeroBytes := nNonzeroBytes + 1;
      }
      b := b + 1;
    }
    NonZeroUpToLast(flags, b);
  }

  // ----- writing and reading the mask -----

  method WriteMask(flags: seq<bool>, nMaskSize: nat) returns (out: seq<Byte>)
    ensures out == MaskBytes(flags, nMaskSize)
  {
    out := [];
    for b := 0 to nMaskSize
      invariant out == MaskBytes(flags, b)
    {
      var chAvail := WriteByte(flags, b);
      out := out + [chAvail];
    }
  }

  method WriteByte(flags: seq<bool>, b: nat) returns (chAvail: Byte)
    ensures chAvail == MaskByte(flags, b)
  {
    PowEight();
    chAvail := 0;
    var i := 0;
    while i < 8 && 2 + b * 8 + i < |flags|
      invariant 0 <= i <= 8 && chAvail == BitsFrom(flags, 2 + 8 * b, i)
    {
      PowMonotone(i + 1, 8);
      if flags[2 + b * 8 + i] {
        DivUnique(Pow2(i), Pow2(i), 1, 0);
        OrDisjoint(chAvail, Pow2(i), i);
        assert Or(chAvail, Pow2(i)) == BitsFrom(flags, 2 + 8 * b, i + 1);
        chAvail := Or(chAvail, Pow2(i));
      }
      i := i + 1;
    }
    NoMoreBits(flags, 2 + 8 * b, i, 8);
  }

  lemma {:induction false} NoMoreBits(flags: seq<bool>, pos: nat, i: nat, k: nat)
    requires i <= k && (i == k || pos + i >= |flags|)
    ensures BitsFrom(flags, pos, k) == BitsFrom(flags, pos, i)
    decreases k
  {
    if i < k {
      NoMoreBits(flags, pos, i, k - 1);
    }
  }

  /** Reads bytes until code of them were not zero. */
  function ReadMask(s: seq<Byte>, code: nat): Read<seq<Byte>> {
    if code == 0 then Got([], s)
    else if |s| == 0 then Fail
    else
      match ReadMask(s[1..], if s[0] != 0 then code - 1 else code)
      case Fail => Fail
      case Got(bytes, rest) => Got([s[0]] + bytes, rest)
  }

  /** A mask that ends in a byte that is not zero is read back from the number of such bytes alone. */
  lemma {:induction false} ReadMaskBack(bytes: seq<Byte>, rest: seq<Byte>)
    requires |bytes| > 0 ==> bytes[|bytes| - 1] != 0
    ensures ReadMask(bytes + rest, NonZero(bytes)) == Got(bytes, rest)
    ensures |bytes| > 0 ==> NonZero(bytes) > 0
    decreases |bytes|
  {
    if |bytes| > 0 {
      ReadMaskBack(bytes[1..], rest);
      assert (bytes + rest)[1..] == bytes[1..] + rest;
      assert bytes == [bytes[0]] + bytes[1..];
    } else {
      assert bytes + rest == rest;
    }
  }

  /** The eight flags in a byte. */
  function Bits(x: nat): (r: seq<bool>)
    ensures |r| == 8 && forall p :: 0 <= p < 8 ==> r[p] == IsSet(x, p)
  {
    [IsSet(x, 0), IsSet(x, 1), IsSet(x, 2), IsSet(x, 3), IsSet(x, 4), IsSet(x, 5), IsSet(x, 6), IsSet(x, 7)]
  }

  function AllBits(bytes: seq<Byte>): (r: seq<bool>)
    ensures |r| == 8 * |bytes|
  {
    if |bytes| == 0 then [] else AllBits(bytes[..|bytes| - 1]) + Bits(bytes[|bytes| - 1])
  }

  /** The bits of the mask are the flags. */
  lemma {:induction false} MaskBits(flags: seq<bool>, n: nat, i: nat)
    requires i < 8 * n
    ensures AllBits(MaskBytes(flags, n))[i] == Flag(flags, 2 + i)
    decreases n
  {
    hide IsSet, MaskByte;
    var bytes := MaskBytes(flags, n);
    assert bytes[..n - 1] == MaskBytes(flags, n - 1);
    if i < 8 * (n - 1) {
      MaskBits(flags, n - 1, i);
    } else {
      MaskByteBit(flags, n - 1, i - 8 * (n - 1));
    }
  }

  lemma {:induction false} MaskByteBit(flags: seq<bool>, b: nat, p: nat)
    requires p < 8
    ensures IsSet(MaskByte(flags, b), p) == Flag(flags, 2 + 8 * b + p)
  {
    BitsRead(flags, 2 + 8 * b, 8, p);
  }

  lemma {:induction false} ReadMaskStep(s: seq<Byte>, i: nat, code: nat)
    requires i <= |s| && code > 0
    ensures i == |s| ==> ReadMask(s[i..], code).Fail?
    ensures i < |s| ==> Prepended(s[..i], ReadMask(s[i..], code))
                        == Prepended(s[..i + 1], ReadMask(s[i + 1..], if s[i] != 0 then code - 1 else code))
    ensures i < |s| ==> AllBits(s[..i + 1]) == AllBits(s[..i]) + Bits(s[i])
  {
    hide IsSet;
    if i < |s| {
      assert s[i..][1..] == s[i + 1..];
      assert s[..i + 1][..i] == s[..i];
      assert s[..i + 1] == s[..i] + [s[i]];
      match ReadMask(s[i + 1..], if s[i] != 0 then code - 1 else code)
      case Fail =>
      case Got(bytes, _) => assert s[..i] + ([s[i]] + bytes) == s[..i] + [s[i]] + bytes;
    }
  }

  method PushBits(avail: seq<bool>, chAvail: Byte) returns (r: seq<bool>)
    ensures r == avail + Bits(chAvail)
  {
    hide IsSet;
    r := avail;
    for p := 0 to 8
      invariant r == avail + Bits(chAvail)[..p]
    {
      r := r + [IsSet(chAvail, p)];
    }
    assert Bits(chAvail)[..8] == Bits(chAvail);
  }

  /** The reading loop of CCoins::Unserialize: two flags are known, the mask gives the rest. */
  method ReadFlags(first: bool, second: bool, s: seq<Byte>, code: nat) returns (r: Read<seq<bool>>)
    ensures ReadMask(s, code).Fail? ==> r.Fail?
    ensures ReadMask(s, code).Got? ==>
      r == Got([first, second] + AllBits(ReadMask(s, code).value), ReadMask(s, code).rest)
  {
    hide ReadMask, AllBits, Bits;
    var avail := [first, second];
    var nMaskCode := code;
    var i := 0;
    ReadMaskStart(s, code);
    while nMaskCode > 0
      invariant 0 <= i <= |s| && avail == [first, second] + AllBits(s[..i])
      invariant Prepended(s[..i], ReadMask(s[i..], nMaskCode)) == ReadMask(s, code)
      decreases |s| - i
    {
      ReadMaskStep(s, i, nMaskCode);
      if i == |s| {
        return Fail;
      }
      var chAvail := s[i];
      avail := PushBits(avail, chAvail);
      i := i + 1;
      if chAvail != 0 {
        nMaskCode := nMaskCode - 1;
      }
    }
    ReadMaskEnd(s[i..]);
    assert s[..i] + [] == s[..i];
    r := Got(avail, s[i..]);
  }

  lemma {:induction false} ReadMaskStart(s: seq<Byte>, code: nat)
    ensures Prepended(s[..0], ReadMask(s[0..], code)) == ReadMask(s, code) && AllBits(s[..0]) == []
  {
    assert s[0..] == s;
    match ReadMask(s, code)
    case Fail =>
    case Got(bytes, _) => assert s[..0] + bytes == bytes;
  }

  lemma {:induction false} ReadMaskEnd(s: seq<Byte>)
    ensures ReadMask(s, 0) == Got([], s)
  {
  }

  ghost function Prepended(front: seq<Byte>, r: Read<seq<Byte>>): Read<seq<Byte>> {
    match r
    case Fail => Fail
    case Got(bytes, rest) => Got(front + bytes, rest)
  }
}
