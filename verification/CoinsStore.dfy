/** Writing, reading and measuring stored coins (coins.h). */
module CoinsStore {
  import opened Results
  import opened Bytes
  import opened Powers
  import opened VarInt
  import Amounts
  import opened Coins
  import opened Scripts
  import opened Masks
  import opened CoinsCode

  /** What validation grants about coins, beyond the types of the fields. */
  ghost predicate Storable(c: CCoins) {
    && OutsOk(c.vout) && |c.vout| < 0x8000_0000
    && IsInt(c.height) && IsInt(c.version) && IsInt(c.firstBwtPos) && IsInt(c.bwtMaturityHeight)
  }

  function CertCode(c: CCoins): seq<Byte>
    requires IsInt(c.firstBwtPos) && IsInt(c.bwtMaturityHeight)
  {
    if IsFromCert(c.version) then WriteLE32(ToWord(c.firstBwtPos)) + WriteLE32(ToWord(c.bwtMaturityHeight)) else []
  }

  lemma {:induction false} NotPruned(c: CCoins)
    requires !IsPruned(c)
    ensures exists i :: Flag(Flags(c.vout), i)
  {
    var i :| 0 <= i < |c.vout| && !c.vout[i].Spent?;
    assert Flag(Flags(c.vout), i);
  }

  ghost function CodeOf(c: CCoins): nat
    requires !IsPruned(c)
  {
    NotPruned(c);
    HeaderCode(c.coinBase, Flags(c.vout))
  }

  /** The stored form, followed by rest. */
  ghost function Written(curve: Curve, c: CCoins, rest: seq<Byte>): seq<Byte>
    requires Storable(c) && !IsPruned(c)
  {
    IntCode(c.version) + (Encode(CodeOf(c), false)
      + (Mask(Flags(c.vout)) + (OutsCode(curve, c.vout) + (IntCode(c.height) + (CertCode(c) + rest)))))
  }

  lemma {:induction false} Reassociate(a: seq<Byte>, b: seq<Byte>, c: seq<Byte>, d: seq<Byte>, e: seq<Byte>,
      f: seq<Byte>,
      rest: seq<Byte>)
    ensures (a + (b + (c + (d + (e + (f + [])))))) + rest == a + (b + (c + (d + (e + (f + rest)))))
  {
  }

  lemma {:induction false} WrittenThen(curve: Curve, c: CCoins, rest: seq<Byte>)
    requires Storable(c) && !IsPruned(c)
    ensures Written(curve, c, []) + rest == Written(curve, c, rest)
  {
    hide IntCode, Encode, CodeOf, Mask, OutsCode, CertCode;
    Reassociate(IntCode(c.version), Encode(CodeOf(c), false), Mask(Flags(c.vout)), OutsCode(curve, c.vout),
      IntCode(c.height), CertCode(c), rest);
  }

  // ----- reading -----

  function ReadLE(s: seq<Byte>): Read<int> {
    if |s| < 4 then Fail else Got(ToSigned(ReadLE32(s[..4])), s[4..])
  }

  /** The certificate fields; without a certificate one is unset and the other left as it was. */
  function ReadCert(version: int, s: seq<Byte>, into: CCoins): Read<(int, int)> {
    if !IsFromCert(version) then Got((BWT_POS_UNSET, into.bwtMaturityHeight), s)
    else
      match ReadLE(s)
      case Fail => Fail
      case Got(pos, t) =>
        match ReadLE(t)
        case Fail => Fail
        case Got(height, rest) => Got((pos, height), rest)
  }

  function ReadTail(coinBase: bool, version: int, vout: seq<TxOut>, s: seq<Byte>, into: CCoins): Read<CCoins> {
    match ReadInt(s)
    case Fail => Fail
    case Got(height, t) =>
      match ReadCert(version, t, into)
      case Fail => Fail
      case Got(cert, rest) => Got(CCoins(coinBase, Trim(vout), height, version, cert.0, cert.1), rest)
  }

  /** Reads stored coins into an existing record. */
  function ReadCoins(curve: Curve, s: seq<Byte>, into: CCoins): Read<CCoins> {
    match ReadInt(s)
    case Fail => Fail
    case Got(version, s1) =>
      match ReadFrom(s1, 0, U32)
      case Fail => Fail
      case Got(code, s2) =>
        match ReadMask(s2, CountOf(code))
        case Fail => Fail
        case Got(mask, s3) =>
          match ReadOuts(curve, s3, [FirstOf(code), SecondOf(code)] + AllBits(mask))
          case Fail => Fail
          case Got(vout, s4) => ReadTail(BaseOf(code), version, vout, s4, into)
  }

  /** What reading makes of stored coins. */
  function Restored(c: CCoins, into: CCoins): CCoins {
    CCoins(c.coinBase, Trim(c.vout), Kept(c.height), Kept(c.version),
      if IsFromCert(c.version) then c.firstBwtPos else BWT_POS_UNSET,
      if IsFromCert(c.version) then c.bwtMaturityHeight else into.bwtMaturityHeight)
  }

  lemma {:induction false} LEBack(x: int, rest: seq<Byte>)
    requires IsInt(x)
    ensures ReadLE(WriteLE32(ToWord(x)) + rest) == Got(x, rest)
  {
    hide WriteLE32;
    var b := WriteLE32(ToWord(x));
    assert (b + rest)[..4] == b && (b + rest)[4..] == rest;
  }

  lemma {:induction false} TailBack(c: CCoins, vout: seq<TxOut>, rest: seq<Byte>, into: CCoins)
    requires IsInt(c.height) && IsInt(c.version) && IsInt(c.firstBwtPos) && IsInt(c.bwtMaturityHeight)
    ensures ReadTail(c.coinBase, Kept(c.version), vout, IntCode(c.height) + (CertCode(c) + rest), into)
         == Got(Restored(c, into).(vout := Trim(vout)), rest)
  {
    hide ReadInt, IntCode, ReadLE, WriteLE32;
    IntBack(c.height, CertCode(c) + rest);
    SameCert(c.version);
    if IsFromCert(c.version) {
      var a, b := WriteLE32(ToWord(c.firstBwtPos)), WriteLE32(ToWord(c.bwtMaturityHeight));
      LEBack(c.firstBwtPos, b + rest);
      LEBack(c.bwtMaturityHeight, rest);
      assert CertCode(c) + rest == a + (b + rest);
    } else {
      assert CertCode(c) + rest == rest;
    }
  }

  /** Seven bits of the version are enough to tell a certificate. */
  lemma {:induction false} SameCert(version: int)
    ensures IsFromCert(Kept(version)) == IsFromCert(version)
  {
  }

  lemma {:induction false} MaskBack(c: CCoins, rest: seq<Byte>)
    requires !IsPruned(c)
    ensures ReadMask(Mask(Flags(c.vout)) + rest, CountOf(CodeOf(c))) == Got(Mask(Flags(c.vout)), rest)
    ensures [FirstOf(CodeOf(c)), SecondOf(CodeOf(c))] + AllBits(Mask(Flags(c.vout))) == Flags(Padded(c.vout))
    ensures BaseOf(CodeOf(c)) == c.coinBase
  {
    NotPruned(c);
    hide ReadMask, Mask, NonZero, AllBits, HeaderCode, FirstOf, SecondOf, CountOf, BaseOf, Flag, Padded, Flags;
    HeaderBack(c.coinBase, Flags(c.vout));
    MaskIs(Flags(c.vout));
    ReadMaskBack(Mask(Flags(c.vout)), rest);
    FlagsBack(c.vout);
  }

  lemma {:induction false} CodeFits(c: CCoins)
    requires !IsPruned(c) && |c.vout| < 0x8000_0000
    ensures CodeOf(c) < U32
  {
    NotPruned(c);
    HeaderFits(c.coinBase, Flags(c.vout));
  }

  /** Stored coins are read back: outputs without their spent tail, and the fields as far as they were written. */
  lemma {:induction false} StoreRoundTrip(curve: Curve, c: CCoins, into: CCoins, rest: seq<Byte>)
    requires Storable(c) && !IsPruned(c)
    ensures ReadCoins(curve, Written(curve, c, []) + rest, into) == Got(Restored(c, into), rest)
  {
    WrittenThen(curve, c, rest);
    hide ReadInt, IntCode, ReadFrom, Encode, ReadMask, Mask, ReadOuts, OutsCode, CertCode, ReadTail, CodeOf, FirstOf,
      SecondOf,
      CountOf, BaseOf, AllBits, Padded, Flags, Kept, IsPruned, Trim;
    var t1 := IntCode(c.height) + (CertCode(c) + rest);
    var t2 := OutsCode(curve, c.vout) + t1;
    var t3 := Mask(Flags(c.vout)) + t2;
    var t4 := Encode(CodeOf(c), false) + t3;
    IntBack(c.version, t4);
    CodeFits(c);
    RoundTrip(CodeOf(c), t3, U32);
    MaskBack(c, t2);
    PaddedOk(c.vout);
    PaddedCode(curve, c.vout);
    OutsBack(curve, Padded(c.vout), t1);
    TailBack(c, Padded(c.vout), rest, into);
    PaddedTrim(c.vout);
  }

  /** Storing changes nothing exactly for coins that are cleaned up, with a height and a version that are not negative,
      and whose certificate fields are stored or have their default values. */
  lemma {:induction false} StoredExactly(c: CCoins, into: CCoins)
    ensures Restored(c, into) == c <==>
              Trimmed(c.vout) && c.height >= 0 && c.version >= 0
              && (IsFromCert(c.version)
                || (c.firstBwtPos == BWT_POS_UNSET && c.bwtMaturityHeight == into.bwtMaturityHeight))
  {
    TrimIsTrim(c.vout);
    if Trimmed(c.vout) {
      TrimUnique(c.vout, c.vout);
    }
  }

  /** Whatever is lost is lost the first time; a certificate's coins stay a certificate's. */
  lemma {:induction false} StoredAgain(c: CCoins, into: CCoins)
    ensures Restored(Restored(c, into), into) == Restored(c, into)
    ensures IsFromCert(Restored(c, into).version) == IsFromCert(c.version)
    ensures forall i :: IsAvailable(Restored(c, into), i) == IsAvailable(c, i)
  {
    TrimIsTrim(c.vout);
    TrimUnique(Trim(c.vout), Trim(c.vout));
    SameCert(c.version);
  }

  /** The versions in use: the version of a stored certificate comes back changed. */
  lemma {:induction false} CertVersionChanges(c: CCoins, into: CCoins)
    requires c.version == SC_CERT_VERSION
    ensures Restored(c, into).version == 123 && IsFromCert(123)
  {
  }

  // ----- the methods of CCoins -----

  lemma {:induction false} WordWidths()
    ensures Pow2(32) == U32 && Pow2(64) == U64
  {
    hide Pow2;
    PowEight();
    PowAdd(8, 8);
    PowAdd(16, 16);
    PowAdd(32, 32);
  }

  method WriteInt(x: int) returns (out: seq<Byte>)
    requires IsInt(x)
    ensures out == IntCode(x)
  {
    if x < 0 {
      out := [x % 128];
    } else {
      WordWidths();
      out := WriteVarInt(x, 32);
    }
  }

  method ScriptBytes(curve: Curve, script: seq<Byte>) returns (out: seq<Byte>)
    requires |script| + SPECIAL_SCRIPTS < U32
    ensures out == ScriptCode(curve, script)
  {
    var compressed := CompressScript(curve, script);
    if compressed.Some? {
      out := compressed.value;
    } else {
      WordWidths();
      var size := WriteVarInt(|script| + SPECIAL_SCRIPTS, 32);
      out := size + script;
    }
  }

  method OutBytes(curve: Curve, txout: TxOut) returns (out: seq<Byte>)
    requires txout.Out? && OutOk(txout)
    ensures out == OutCode(curve, txout)
  {
    var amount := Amounts.CompressAmount(txout.value);
    WordWidths();
    var head := WriteVarInt(amount, 64);
    var script := ScriptBytes(curve, AsBytes(txout.script));
    out := head + script;
  }

  method OutsBytes(curve: Curve, vout: seq<TxOut>) returns (out: seq<Byte>)
    requires OutsOk(vout)
    ensures out == OutsCode(curve, vout)
  {
    hide OutCode;
    out := [];
    for i := 0 to |vout|
      invariant OutsOk(vout[..i]) && out == OutsCode(curve, vout[..i])
    {
      assert vout[..i + 1][..i] == vout[..i];
      if vout[i].Out? {
        var bytes := OutBytes(curve, vout[i]);
        out := out + bytes;
      }
    }
    assert vout[..|vout|] == vout;
  }

  method HeaderOf(c: CCoins) returns (nMaskSize: nat, nCode: nat)
    requires !IsPruned(c)
    ensures nMaskSize == MaskSize(Flags(c.vout)) && nCode == CodeOf(c)
  {
    NotPruned(c);
    var flags := Flags(c.vout);
    var nMaskCode;
    nMaskSize, nMaskCode := CalcMaskSize(flags);
    CountFits(flags);
    hide Mask, NonZero;
    var first := |c.vout| > 0 && c.vout[0].Out?;
    var second := |c.vout| > 1 && c.vout[1].Out?;
    nCode := 8 * (nMaskCode - (if first || second then 0 else 1)) + (if c.coinBase then 1 else 0)
             + (if first then 2 else 0) + (if second then 4 else 0);
  }

  method Serialize(curve: Curve, c: CCoins) returns (out: seq<Byte>)
    requires Storable(c) && !IsPruned(c)
    ensures out == Written(curve, c, [])
  {
    hide IntCode, Encode, Mask, MaskBytes, OutsCode, CodeOf, IsPruned, Flags, OutsOk, Pow2;
    var flags := Flags(c.vout);
    MaskIs(flags);
    var nMaskSize, nCode := HeaderOf(c);
    var version := WriteInt(c.version);
    WordWidths();
    CodeFits(c);
    var code := WriteVarInt(nCode, 32);
    var mask := WriteMask(flags, nMaskSize);
    var outs := OutsBytes(curve, c.vout);
    var height := WriteInt(c.height);
    out := version + code + mask + outs + height;
    if IsFromCert(c.version) {
      out := out + WriteLE32(ToWord(c.firstBwtPos)) + WriteLE32(ToWord(c.bwtMaturityHeight));
    }
    Flatten(version, code, mask, outs, height, CertCode(c));
  }

  lemma {:induction false} Flatten(a: seq<Byte>, b: seq<Byte>, c: seq<Byte>, d: seq<Byte>, e: seq<Byte>, f: seq<Byte>)
    ensures a + (b + (c + (d + (e + (f + []))))) == a + b + c + d + e + f
  {
  }

  method SizeOfInt(x: int) returns (size: nat)
    ensures size == |IntCode(x)|
  {
    if x < 0 {
      size := 1;
    } else {
      size := GetSizeOfVarInt(x);
    }
  }

  method SizeOfOut(curve: Curve, txout: TxOut) returns (size: nat)
    requires txout.Out? && OutOk(txout)
    ensures size == |OutCode(curve, txout)|
  {
    var amount := Amounts.CompressAmount(txout.value);
    size := GetSizeOfVarInt(amount);
    var compressed := CompressScript(curve, AsBytes(txout.script));
    if compressed.Some? {
      size := size + |compressed.value|;
    } else {
      var head := GetSizeOfVarInt(|txout.script| + SPECIAL_SCRIPTS);
      size := size + |txout.script| + head;
    }
  }

  method SizeOfOuts(curve: Curve, vout: seq<TxOut>) returns (size: nat)
    requires OutsOk(vout)
    ensures size == |OutsCode(curve, vout)|
  {
    hide OutCode;
    size := 0;
    for i := 0 to |vout|
      invariant OutsOk(vout[..i]) && size == |OutsCode(curve, vout[..i])|
    {
      assert vout[..i + 1][..i] == vout[..i];
      if vout[i].Out? {
        var more := SizeOfOut(curve, vout[i]);
        size := size + more;
      }
    }
    assert vout[..|vout|] == vout;
  }

  /** The announced size is exactly the size of what is written. */
  method GetSerializeSize(curve: Curve, c: CCoins) returns (size: nat)
    requires Storable(c) && !IsPruned(c)
    ensures size == |Written(curve, c, [])|
  {
    hide IntCode, Encode, Mask, MaskBytes, OutsCode, CodeOf, IsPruned, Flags, OutsOk;
    MaskIs(Flags(c.vout));
    var nMaskSize, nCode := HeaderOf(c);
    var version := SizeOfInt(c.version);
    var code := GetSizeOfVarInt(nCode);
    var outs := SizeOfOuts(curve, c.vout);
    var height := SizeOfInt(c.height);
    size := version + code + nMaskSize + outs + height;
    if IsFromCert(c.version) {
      size := size + 4 + 4;
    }
  }

  /** The loop that reads the outputs the flags announce. */
  method TakeOuts(curve: Curve, s: seq<Byte>, avail: seq<bool>) returns (r: Read<seq<TxOut>>)
    ensures r == ReadOuts(curve, s, avail)
  {
    hide ReadOut;
    var vout := seq(|avail|, _ => Spent);
    var t := s;
    var i := 0;
    while i < |avail|
      invariant 0 <= i <= |avail| == |vout|
      invariant ReadOuts(curve, s, avail[..i]) == Got(vout[..i], t)
      invariant forall j :: i <= j < |vout| ==> vout[j] == Spent
    {
      assert avail[..i + 1][..i] == avail[..i];
      ghost var before := vout[..i];
      if avail[i] {
        match ReadOut(curve, t) {
          case Fail =>
            ReadOutsFail(curve, s, avail, i + 1);
            return Fail;
          case Got(txout, rest) =>
            vout := vout[i := txout];
            t := rest;
        }
      }
      assert vout[..i + 1] == before + [vout[i]];
      i := i + 1;
    }
    assert avail[..i] == avail && vout[..i] == vout;
    r := Got(vout, t);
  }

  lemma {:induction false} ReadOutsFail(curve: Curve, s: seq<Byte>, avail: seq<bool>, n: nat)
    requires n <= |avail| && ReadOuts(curve, s, avail[..n]).Fail?
    ensures ReadOuts(curve, s, avail).Fail?
    decreases |avail| - n
  {
    hide ReadOut;
    if n < |avail| {
      assert avail[..n + 1][..n] == avail[..n];
      ReadOutsFail(curve, s, avail, n + 1);
    } else {
      assert avail[..n] == avail;
    }
  }

  /** Reads stored coins; Fail when the data end too early. */
  method Unserialize(curve: Curve, s: seq<Byte>, into: CCoins) returns (r: Read<CCoins>)
    ensures r == ReadCoins(curve, s, into)
  {
    hide ReadInt, ReadFrom, ReadMask, ReadOuts, ReadTail, AllBits, FirstOf, SecondOf, CountOf, BaseOf;
    var version := ReadInt(s);
    if version.Fail? {
      return Fail;
    }
    var header := ReadVarInt(version.rest, U32);
    if header.Fail? {
      return Fail;
    }
    var code := header.value;
    var flags := ReadFlags(FirstOf(code), SecondOf(code), header.rest, CountOf(code));
    if flags.Fail? {
      return Fail;
    }
    var outs := TakeOuts(curve, flags.rest, flags.value);
    if outs.Fail? {
      return Fail;
    }
    r := ReadTail(BaseOf(code), version.value, outs.value, outs.rest, into);
  }

  /** Writing coins and reading them into an empty record. */
  method StoreAndLoad(curve: Curve, c: CCoins) returns (r: Read<CCoins>)
    requires Storable(c) && !IsPruned(c)
    ensures r == Got(Restored(c, EMPTY), [])
  {
    hide Written, ReadCoins, Restored, Storable, IsPruned;
    var bytes := Serialize(curve, c);
    StoreRoundTrip(curve, c, EMPTY, []);
    assert bytes + [] == bytes;
    r := Unserialize(curve, bytes, EMPTY);
  }
}
