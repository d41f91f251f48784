/** The compact form of output scripts and of whole outputs (compressor.h, compressor.cpp). */
module Scripts {
  import opened Results
  import opened Bytes
  import opened VarInt
  import opened Coins

  const OP_DUP: Byte := 0x76
  const OP_EQUAL: Byte := 0x87
  const OP_EQUALVERIFY: Byte := 0x88
  const OP_HASH160: Byte := 0xa9
  const OP_CHECKSIG: Byte := 0xac
  const SPECIAL_SCRIPTS := 6

  predicate IsOdd(b: Byte) {
    b % 2 == 1
  }

  /** The points of the curve: for an abscissa and a parity the ordinate of that parity, if there is a point. */
  type Curve = f: (seq<Byte>, bool) -> Option<seq<Byte>> |
    forall x, odd :: f(x, odd).Some? ==> |f(x, odd).value| == 32 && IsOdd(f(x, odd).value[31]) == odd
    witness ((_, _) => None)

  /** CPubKey::IsFullyValid for an uncompressed key 04 x y. */
  predicate IsPoint(curve: Curve, x: seq<Byte>, y: seq<Byte>) {
    |y| == 32 && curve(x, IsOdd(y[31])) == Some(y)
  }

  // ----- the six special scripts -----

  predicate IsToKeyId(s: seq<Byte>) {
    |s| == 25 && s[0] == OP_DUP && s[1] == OP_HASH160 && s[2] == 20 && s[23] == OP_EQUALVERIFY && s[24] == OP_CHECKSIG
  }

  predicate IsToScriptId(s: seq<Byte>) {
    |s| == 23 && s[0] == OP_HASH160 && s[1] == 20 && s[22] == OP_EQUAL
  }

  predicate IsToShortKey(s: seq<Byte>) {
    |s| == 35 && s[0] == 33 && s[34] == OP_CHECKSIG && (s[1] == 2 || s[1] == 3)
  }

  predicate IsToLongKey(curve: Curve, s: seq<Byte>) {
    |s| == 67 && s[0] == 65 && s[66] == OP_CHECKSIG && s[1] == 4 && IsPoint(curve, s[2..34], s[34..66])
  }

  function CompressScript(curve: Curve, s: seq<Byte>): (r: Option<seq<Byte>>)
    ensures r.Some? ==> |r.value| > 0 && r.value[0] < SPECIAL_SCRIPTS && |r.value| == 1 + SpecialSize(r.value[0])
  {
    if IsToKeyId(s) then Some([0] + s[3..23])
    else if IsToScriptId(s) then Some([1] + s[2..22])
    else if IsToShortKey(s) then Some([s[1]] + s[2..34])
    else if IsToLongKey(curve, s) then Some([if IsOdd(s[65]) then 5 else 4] + s[2..34])
    else None
  }

  function SpecialSize(size: nat): nat {
    if size <= 1 then 20 else if size <= 5 then 32 else 0
  }

  function DecompressScript(curve: Curve, size: nat, data: seq<Byte>): Option<seq<Byte>>
    requires size < SPECIAL_SCRIPTS && |data| == SpecialSize(size)
  {
    match size
    case 0 => Some([OP_DUP, OP_HASH160, 20] + data + [OP_EQUALVERIFY, OP_CHECKSIG])
    case 1 => Some([OP_HASH160, 20] + data + [OP_EQUAL])
    case 2 => Some([33, 2] + data + [OP_CHECKSIG])
    case 3 => Some([33, 3] + data + [OP_CHECKSIG])
    case _ =>
      match curve(data, size == 5)
      case None => None
      case Some(y) => Some([65, 4] + data + y + [OP_CHECKSIG])
  }

  /** Every script with a special form is restored from it. */
  lemma {:induction false} SpecialRoundTrip(curve: Curve, s: seq<Byte>)
    requires CompressScript(curve, s).Some?
    ensures var c := CompressScript(curve, s).value;
            DecompressScript(curve, c[0], c[1..]) == Some(s)
  {
    var c := CompressScript(curve, s).value;
    if IsToKeyId(s) {
      assert c[1..] == s[3..23];
      assert s == [OP_DUP, OP_HASH160, 20] + s[3..23] + [OP_EQUALVERIFY, OP_CHECKSIG];
    } else if IsToScriptId(s) {
      assert c[1..] == s[2..22];
      assert s == [OP_HASH160, 20] + s[2..22] + [OP_EQUAL];
    } else if IsToShortKey(s) {
      assert c[1..] == s[2..34];
      assert s == [33, s[1]] + s[2..34] + [OP_CHECKSIG];
    } else {
      assert c[1..] == s[2..34] && s[34..66][31] == s[65];
      assert s == [65, 4] + s[2..34] + s[34..66] + [OP_CHECKSIG];
    }
  }

  // ----- scripts in a stream -----

  function ScriptCode(curve: Curve, s: seq<Byte>): seq<Byte> {
    match CompressScript(curve, s)
    case Some(c) => c
    case None => Encode(|s| + SPECIAL_SCRIPTS, false) + s
  }

  function Take(s: seq<Byte>, n: nat): Read<seq<Byte>> {
    if |s| < n then Fail else Got(s[..n], s[n..])
  }

  lemma {:induction false} TakeAll(a: seq<Byte>, rest: seq<Byte>)
    ensures Take(a + rest, |a|) == Got(a, rest)
  {
  }

  /** Overlong scripts are replaced with an unspendable one; a key that is no point leaves the script empty. */
  function ReadScript(curve: Curve, s: seq<Byte>): Read<seq<Byte>> {
    match ReadFrom(s, 0, U32)
    case Fail => Fail
    case Got(size, t) =>
      if size < SPECIAL_SCRIPTS then
        match Take(t, SpecialSize(size))
        case Fail => Fail
        case Got(data, rest) =>
          Got(match DecompressScript(curve, size, data) case Some(script) => script case None => [], rest)
      else
        match Take(t, size - SPECIAL_SCRIPTS)
        case Fail => Fail
        case Got(script, rest) => Got(if |script| > MAX_SCRIPT_SIZE then [OP_RETURN] else script, rest)
  }

  lemma {:induction false} SmallCode(b: Byte)
    requires b < SPECIAL_SCRIPTS
    ensures Encode(b, false) == [b]
  {
  }

  lemma {:induction false} ReadSpecial(curve: Curve, s: seq<Byte>, rest: seq<Byte>)
    requires CompressScript(curve, s).Some?
    ensures ReadScript(curve, ScriptCode(curve, s) + rest) == Got(s, rest)
  {
    hide CompressScript, DecompressScript, ReadFrom, Encode;
    var c := CompressScript(curve, s).value;
    SpecialRoundTrip(curve, s);
    SmallCode(c[0]);
    RoundTrip(c[0], c[1..] + rest, U32);
    TakeAll(c[1..], rest);
    assert c + rest == [c[0]] + (c[1..] + rest);
  }

  lemma {:induction false} ReadPlain(curve: Curve, s: seq<Byte>, rest: seq<Byte>)
    requires CompressScript(curve, s).None? && |s| + SPECIAL_SCRIPTS < U32
    ensures ReadScript(curve, ScriptCode(curve, s) + rest)
         == Got(if |s| > MAX_SCRIPT_SIZE then [OP_RETURN] else s, rest)
  {
    hide CompressScript, DecompressScript, ReadFrom, Encode;
    var code := Encode(|s| + SPECIAL_SCRIPTS, false);
    RoundTrip(|s| + SPECIAL_SCRIPTS, s + rest, U32);
    TakeAll(s, rest);
    assert code + s + rest == code + (s + rest);
  }

  /** A script is restored exactly when it is not longer than MAX_SCRIPT_SIZE. */
  lemma {:induction false} ScriptRoundTrip(curve: Curve, s: seq<Byte>, rest: seq<Byte>)
    requires |s| + SPECIAL_SCRIPTS < U32
    ensures ReadScript(curve, ScriptCode(curve, s) + rest) == Got(s, rest) <==> |s| <= MAX_SCRIPT_SIZE
  {
    if CompressScript(curve, s).Some? {
      ReadSpecial(curve, s, rest);
    } else {
      ReadPlain(curve, s, rest);
    }
  }
}
