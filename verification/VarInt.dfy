/** Variable-length integers: base 128, one subtracted from all but the last digit (serialize.h). */
module VarInt {
  import opened Bytes
  import opened Powers

  function Low(b: Byte): (r: nat)
    ensures r < 128
  {
    b % 128
  }

  predicate More(b: Byte) {
    b >= 128
  }

  function Digit(n: nat, more: bool): (b: Byte)
    requires n < 128
    ensures Low(b) == n && More(b) == more
  {
    if more then n + 128 else n
  }

  /** A byte sequence in which exactly the last byte lacks the continuation bit. */
  predicate IsCode(code: seq<Byte>) {
    |code| > 0 && !More(code[|code| - 1]) && forall i :: 0 <= i < |code| - 1 ==> More(code[i])
  }

  /** The number a code stands for, by the rule in serialize.h, after digits worth acc. */
  function Value(acc: nat, code: seq<Byte>): nat
    decreases |code|
  {
    if |code| == 0 then acc
    else Value(128 * acc + Low(code[0]) + (if |code| > 1 then 1 else 0), code[1..])
  }

  /** The digits of n, most significant first, the last one marked as continued or not. */
  function Encode(n: nat, more: bool): (code: seq<Byte>)
    ensures |code| > 0 && (forall i :: 0 <= i < |code| - 1 ==> More(code[i])) && More(code[|code| - 1]) == more
  {
    if n <= 0x7F then [Digit(n, more)] else Encode(n / 128 - 1, true) + [Digit(n % 128, more)]
  }

  lemma {:induction false} ValueAppend(acc: nat, code: seq<Byte>, b: Byte)
    ensures Value(acc, code + [b]) == 128 * (if |code| > 0 then Value(acc, code) + 1 else acc) + Low(b)
    decreases |code|
  {
    if |code| == 0 {
      assert code + [b] == [b];
    } else {
      var next := 128 * acc + Low(code[0]) + 1;
      assert (code + [b])[1..] == code[1..] + [b];
      ValueAppend(next, code[1..], b);
      if |code| == 1 {
        assert code[1..] == [];
      }
    }
  }

  /** Every number is the value of its encoding. */
  lemma {:induction false} EncodeThenValue(n: nat, more: bool)
    ensures Value(0, Encode(n, more)) == n
  {
    if n > 0x7F {
      EncodeThenValue(n / 128 - 1, true);
      ValueAppend(0, Encode(n / 128 - 1, true), Digit(n % 128, more));
    }
  }

  lemma {:induction false} DigitOf(b: Byte)
    ensures Digit(Low(b), More(b)) == b
  {
  }

  lemma {:induction false} SplitDigit(n: nat, high: nat, low: nat)
    requires low < 128 && n == 128 * (high + 1) + low
    ensures n > 0x7F && n / 128 - 1 == high && n % 128 == low
  {
  }

  /** Every number has exactly one encoding. */
  lemma {:induction false} ValueThenEncode(code: seq<Byte>, more: bool)
    requires |code| > 0 && More(code[|code| - 1]) == more && forall i :: 0 <= i < |code| - 1 ==> More(code[i])
    ensures Encode(Value(0, code), more) == code
    decreases |code|
  {
    var last := |code| - 1;
    var front, b := code[..last], code[last];
    assert code == front + [b];
    ValueAppend(0, front, b);
    DigitOf(b);
    if |front| > 0 {
      ValueThenEncode(front, true);
      SplitDigit(Value(0, code), Value(0, front), Low(b));
    }
  }

  // ----- reading -----

  /** Reads one number of a type with modulus values, after digits worth acc; Fail at the end of the data. */
  function ReadFrom(s: seq<Byte>, acc: nat, modulus: nat): Read<nat>
    requires modulus > 0
  {
    if |s| == 0 then Fail
    else
      var n := (acc * 128 + Low(s[0])) % modulus;
      if More(s[0]) then ReadFrom(s[1..], (n + 1) % modulus, modulus) else Got(n, s[1..])
  }

  lemma {:induction false} ModStep(acc: nat, d: nat, c: nat, modulus: nat)
    requires modulus > 0
    ensures (acc % modulus * 128 + d) % modulus == (acc * 128 + d) % modulus
    ensures ((acc * 128 + d) % modulus + c) % modulus == (128 * acc + d + c) % modulus
  {
    ModUnder(acc, 128, d, modulus);
    ModUnder(acc * 128 + d, 1, c, modulus);
  }

  /** Reading a code gives its value, as far as the type can hold it, and leaves what follows. */
  lemma {:induction false} ReadGivesValue(code: seq<Byte>, rest: seq<Byte>, acc: nat, modulus: nat)
    requires IsCode(code) && modulus > 0
    ensures ReadFrom(code + rest, acc % modulus, modulus) == Got(Value(acc, code) % modulus, rest)
    decreases |code|
  {
    hide Low, More;
    var s := code + rest;
    var d := Low(code[0]);
    assert s[0] == code[0];
    assert s[1..] == code[1..] + rest;
    if |code| == 1 {
      ModStep(acc, d, 0, modulus);
      assert code[1..] == [];
    } else {
      ModStep(acc, d, 1, modulus);
      ReadGivesValue(code[1..], rest, 128 * acc + d + 1, modulus);
    }
  }

  /** What was written is what is read. */
  lemma {:induction false} RoundTrip(n: nat, rest: seq<Byte>, modulus: nat)
    requires n < modulus
    ensures ReadFrom(Encode(n, false) + rest, 0, modulus) == Got(n, rest)
  {
    EncodeThenValue(n, false);
    ReadGivesValue(Encode(n, false), rest, 0, modulus);
    SmallMod(0, modulus);
    SmallMod(n, modulus);
  }

  lemma {:induction false} SmallMod(n: nat, m: nat)
    requires n < m
    ensures n % m == n
  {
    DivUnique(n, m, 0, n);
  }

  // ----- the loops of serialize.h -----

  method GetSizeOfVarInt(n: nat) returns (size: nat)
    ensures size == |Encode(n, false)|
  {
    var m := n;
    ghost var more := false;
    size := 0;
    while true
      invariant size + |Encode(m, more)| == |Encode(n, false)|
      decreases m
    {
      size := size + 1;
      if m <= 0x7F {
        break;
      }
      m := m / 128 - 1;
      more := true;
    }
  }

  /** The buffer of the source, of one byte for every seven bits of the type, always has room. */
  lemma {:induction false} BufferSuffices(n: nat, more: bool, width: nat)
    requires n < Pow2(width) && width > 0
    ensures |Encode(n, more)| <= (width + 6) / 7
    decreases n
  {
    if n > 0x7F {
      PowSeven();
      if width <= 7 {
        PowMonotone(width, 7);
      } else {
        PowAdd(width - 7, 7);
        DigitsLeft(n, Pow2(width - 7));
        BufferSuffices(n / 128 - 1, true, width - 7);
      }
    }
  }

  lemma {:induction false} PowSeven()
    ensures Pow2(7) == 128
  {
    assert Pow2(3) == 8;
    PowAdd(3, 4);
    assert Pow2(4) == 16;
  }

  lemma {:induction false} DigitsLeft(n: nat, p: nat)
    requires 128 <= n < p * 128
    ensures 0 <= n / 128 - 1 < p
  {
  }

  /** Fills a buffer of fixed size from the last digit, then writes it out backwards. */
  method WriteVarInt(n: nat, width: nat) returns (out: seq<Byte>)
    requires n < Pow2(width) && width > 0
    ensures out == Encode(n, false)
  {
    hide Digit, Low, More, Encode, Reversed, Pow2;
    var m := n;
    var tmp := new Byte[(width + 6) / 7](_ => 0);
    var len := 0;
    ReversedNone();
    BufferSuffices(n, false, width);
    while true
      invariant 0 <= len && len + |Encode(m, len > 0)| <= tmp.Length
      invariant Encode(m, len > 0) + Reversed(tmp[..len]) == Encode(n, false)
      decreases m
    {
      ghost var done := tmp[..len];
      var b := Digit(m % 128, len > 0);
      ReversedAppend(done, b);
      EncodeStep(m, len > 0, Reversed(done));
      EncodeShrinks(m, len > 0);
      tmp[len] := b;
      len := len + 1;
      assert tmp[..len] == done + [b];
      if m <= 0x7F {
        break;
      }
      m := m / 128 - 1;
    }
    out := Backwards(tmp[..len]);
  }

  lemma {:induction false} EncodeShrinks(n: nat, more: bool)
    ensures n > 0x7F ==> |Encode(n, more)| == |Encode(n / 128 - 1, true)| + 1
  {
  }

  lemma {:induction false} EncodeStep(n: nat, more: bool, t: seq<Byte>)
    ensures n <= 0x7F ==> Encode(n, more) + t == [Digit(n % 128, more)] + t
    ensures n > 0x7F ==> Encode(n, more) + t == Encode(n / 128 - 1, true) + ([Digit(n % 128, more)] + t)
  {
  }

  lemma {:induction false} ReversedNone()
    ensures Reversed([]) == []
  {
  }

  method Backwards(tmp: seq<Byte>) returns (out: seq<Byte>)
    ensures out == Reversed(tmp)
  {
    out := [];
    var len := |tmp| - 1;
    assert tmp[..len + 1] == tmp;
    while len >= 0
      invariant -1 <= len < |tmp|
      invariant out + Reversed(tmp[..len + 1]) == Reversed(tmp)
    {
      assert tmp[..len + 1] == tmp[..len] + [tmp[len]];
      ReversedAppend(tmp[..len], tmp[len]);
      out := out + [tmp[len]];
      len := len - 1;
    }
  }

  ghost function Reversed(s: seq<Byte>): seq<Byte> {
    if |s| == 0 then [] else Reversed(s[1..]) + [s[0]]
  }

  lemma {:induction false} ReversedAppend(s: seq<Byte>, b: Byte)
    ensures Reversed(s + [b]) == [b] + Reversed(s)
    decreases |s|
  {
    if |s| > 0 {
      assert (s + [b])[1..] == s[1..] + [b];
      ReversedAppend(s[1..], b);
    } else {
      assert s + [b] == [b];
      assert [b][1..] == [];
    }
  }

  method ReadVarInt(s: seq<Byte>, modulus: nat) returns (r: Read<nat>)
    requires modulus > 0
    ensures r == ReadFrom(s, 0, modulus)
  {
    var n: nat, i: nat := 0, 0;
    while true
      invariant 0 <= i <= |s| && ReadFrom(s, 0, modulus) == ReadFrom(s[i..], n, modulus)
      decreases |s| - i
    {
      if i == |s| {
        return Fail;
      }
      var b := s[i];
      assert s[i..][0] == b && s[i..][1..] == s[i + 1..];
      n := (n * 128 + Low(b)) % modulus;
      i := i + 1;
      if More(b) {
        n := (n + 1) % modulus;
      } else {
        return Got(n, s[i..]);
      }
    }
  }
}
