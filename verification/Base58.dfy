/** `EncodeBase58`, `DecodeBase58` and the checksummed pair (src/base58.cpp). Strings end at
    their length; a zero character is not part of them. */
module Base58 {
  import opened Results
  import opened Powers
  import opened Digits

  function Alphabet(): string {
    "123456789" + "ABCDEFGH" + "JKLMN" + "PQRSTUVWXYZ" + "abcdefghijk" + "mnopqrstuvwxyz"
  }

  predicate IsBytes(s: seq<nat>) {
    forall i :: 0 <= i < |s| ==> s[i] < 256
  }

  // ---- The buffers are large enough ----

  /** A power of two below 58^n, nearly 35/6 of a bit per digit. */
  function LowBits(n: nat): nat {
    35 * (n / 6) + (match n % 6 case 0 => 0 case 1 => 5 case 2 => 11 case 3 => 17 case 4 => 23 case _ => 29)
  }

  lemma {:induction false} SmallPowers()
    ensures Pow(58, 0) == 1 && Pow(58, 1) == 58 && Pow(58, 2) == 3364 && Pow(58, 3) == 195112
    ensures Pow(58, 4) == 11316496 && Pow(58, 5) == 656356768 && Pow(58, 6) == 38068692544
    ensures Pow2(5) == 32 && Pow2(11) == 2048 && Pow2(17) == 131072 && Pow2(23) == 8388608
    ensures Pow2(29) == 536870912 && Pow2(35) == 34359738368
  {
    assert Pow2(5) == 32;
    PowAdd(5, 6);
    PowAdd(11, 6);
    PowAdd(17, 6);
    PowAdd(23, 6);
    PowAdd(29, 6);
    assert Pow2(6) == 64;
  }

  lemma {:induction false} MulBoth(a: nat, b: nat, c: nat, d: nat)
    requires a <= b && c <= d
    ensures a * c <= b * d
  {
    MulMonotone(a, b, c);
    MulMonotone(c, d, b);
  }

  lemma {:induction false} DigitsHoldBits(n: nat)
    ensures Pow2(LowBits(n)) <= Pow(58, n)
    decreases n
  {
    SmallPowers();
    if n >= 6 {
      DigitsHoldBits(n - 6);
      PowAdd(LowBits(n - 6), 35);
      PowMore(58, n - 6, 6);
      MulBoth(Pow2(LowBits(n - 6)), Pow(58, n - 6), Pow2(35), Pow(58, 6));
    }
  }

  lemma {:induction false} BytesArePowers(m: nat)
    ensures Pow(256, m) == Pow2(8 * m)
  {
    if m > 0 {
      BytesArePowers(m - 1);
      assert Pow2(8) == 256;
      PowAdd(8, 8 * (m - 1));
    }
  }

  /** 138 digits per hundred bytes, and one, suffice. */
  lemma {:induction false} EncodeBufferSuffices(m: nat)
    ensures Pow(256, m) <= Pow(58, m * 138 / 100 + 1)
  {
    var n := m * 138 / 100 + 1;
    assert 100 * n >= 138 * m + 1;
    assert 6 * LowBits(n) >= 35 * n - 5;
    assert LowBits(n) >= 8 * m;
    BytesArePowers(m);
    PowMonotone(8 * m, LowBits(n));
    DigitsHoldBits(n);
  }

  /** A power of two above 58^n, a little more than 129/22 of a bit per digit. */
  function HighBits(n: nat): nat {
    129 * (n / 22) + (5864 * (n % 22) + 7) / 1000 + 1
  }

  lemma {:induction false} PowersOf58()
    ensures Pow(58, 0) == 1
    ensures Pow(58, 1) == 58
    ensures Pow(58, 2) == 3364
    ensures Pow(58, 3) == 195112
    ensures Pow(58, 4) == 11316496
    ensures Pow(58, 5) == 656356768
    ensures Pow(58, 6) == 38068692544
    ensures Pow(58, 7) == 2207984167552
    ensures Pow(58, 8) == 128063081718016
    ensures Pow(58, 9) == 7427658739644928
    ensures Pow(58, 10) == 430804206899405824
    ensures Pow(58, 11) == 24986644000165537792
    ensures Pow(58, 12) == 1449225352009601191936
    ensures Pow(58, 13) == 84055070416556869132288
    ensures Pow(58, 14) == 4875194084160298409672704
    ensures Pow(58, 15) == 282761256881297307761016832
    ensures Pow(58, 16) == 16400152899115243850138976256
    ensures Pow(58, 17) == 951208868148684143308060622848
    ensures Pow(58, 18) == 55170114352623680311867516125184
    ensures Pow(58, 19) == 3199866632452173458088315935260672
    ensures Pow(58, 20) == 185592264682226060569122324245118976
    ensures Pow(58, 21) == 10764351351569111513009094806216900608
    ensures Pow(58, 22) == 624332378391008467754527498760580235264
  {
    assert Pow(58, 1) == 58;
    assert Pow(58, 2) == 3364;
    assert Pow(58, 3) == 195112;
    assert Pow(58, 4) == 11316496;
    assert Pow(58, 5) == 656356768;
    assert Pow(58, 6) == 38068692544;
    assert Pow(58, 7) == 2207984167552;
    assert Pow(58, 8) == 128063081718016;
    assert Pow(58, 9) == 7427658739644928;
    assert Pow(58, 10) == 430804206899405824;
    assert Pow(58, 11) == 24986644000165537792;
    assert Pow(58, 12) == 1449225352009601191936;
    assert Pow(58, 13) == 84055070416556869132288;
    assert Pow(58, 14) == 4875194084160298409672704;
    assert Pow(58, 15) == 282761256881297307761016832;
    assert Pow(58, 16) == 16400152899115243850138976256;
    assert Pow(58, 17) == 951208868148684143308060622848;
    assert Pow(58, 18) == 55170114352623680311867516125184;
    assert Pow(58, 19) == 3199866632452173458088315935260672;
    assert Pow(58, 20) == 185592264682226060569122324245118976;
    assert Pow(58, 21) == 10764351351569111513009094806216900608;
    assert Pow(58, 22) == 624332378391008467754527498760580235264;
  }

  lemma {:induction false} PowersOf2()
    ensures Pow2(1) == 2
    ensures Pow2(6) == 64
    ensures Pow2(12) == 4096
    ensures Pow2(18) == 262144
    ensures Pow2(24) == 16777216
    ensures Pow2(30) == 1073741824
    ensures Pow2(36) == 68719476736
    ensures Pow2(42) == 4398046511104
    ensures Pow2(47) == 140737488355328
    ensures Pow2(53) == 9007199254740992
    ensures Pow2(59) == 576460752303423488
    ensures Pow2(65) == 36893488147419103232
    ensures Pow2(71) == 2361183241434822606848
    ensures Pow2(77) == 151115727451828646838272
    ensures Pow2(83) == 9671406556917033397649408
    ensures Pow2(88) == 309485009821345068724781056
    ensures Pow2(94) == 19807040628566084398385987584
    ensures Pow2(100) == 1267650600228229401496703205376
    ensures Pow2(106) == 81129638414606681695789005144064
    ensures Pow2(112) == 5192296858534827628530496329220096
    ensures Pow2(118) == 332306998946228968225951765070086144
    ensures Pow2(124) == 21267647932558653966460912964485513216
    ensures Pow2(129) == 680564733841876926926749214863536422912
  {
    assert Pow2(1) == 2;
    assert Pow2(5) == 32 && Pow2(6) == 64;
    PowAdd(1, 5);
    PowAdd(6, 6);
    PowAdd(12, 6);
    PowAdd(18, 6);
    PowAdd(24, 6);
    PowAdd(30, 6);
    PowAdd(36, 6);
    PowAdd(42, 5);
    PowAdd(47, 6);
    PowAdd(53, 6);
    PowAdd(59, 6);
    PowAdd(65, 6);
    PowAdd(71, 6);
    PowAdd(77, 6);
    PowAdd(83, 5);
    PowAdd(88, 6);
    PowAdd(94, 6);
    PowAdd(100, 6);
    PowAdd(106, 6);
    PowAdd(112, 6);
    PowAdd(118, 6);
    PowAdd(124, 5);
  }

  lemma {:induction false} RestFits(r: nat)
    requires r < 22
    ensures Pow(58, r) <= Pow2((5864 * r + 7) / 1000 + 1)
  {
    PowersOf58();
    PowersOf2();
    hide Pow, Pow2;
    match r {
      case 0 =>
      case 1 =>
      case 2 =>
      case 3 =>
      case 4 =>
      case 5 =>
      case 6 =>
      case 7 =>
      case 8 =>
      case 9 =>
      case 10 =>
      case 11 =>
      case 12 =>
      case 13 =>
      case 14 =>
      case 15 =>
      case 16 =>
      case 17 =>
      case 18 =>
      case 19 =>
      case 20 =>
      case 21 =>
    }
  }

  lemma {:induction false} BitsHoldDigits(n: nat)
    ensures Pow(58, n) <= Pow2(HighBits(n))
    decreases n
  {
    hide Pow, Pow2;
    if n >= 22 {
      BitsHoldDigits(n - 22);
      PowAdd(HighBits(n - 22), 129);
      PowMore(58, n - 22, 22);
      PowersOf58();
      PowersOf2();
      MulBoth(Pow(58, n - 22), Pow2(HighBits(n - 22)), Pow(58, 22), Pow2(129));
    } else {
      RestFits(n);
    }
  }

  /** 733 bytes per thousand characters, and one, suffice. */
  lemma {:induction false} DecodeBufferSuffices(m: nat)
    ensures Pow(58, m) <= Pow(256, m * 733 / 1000 + 1)
  {
    var n := m * 733 / 1000 + 1;
    assert 1000 * n >= 733 * m + 1;
    assert HighBits(m) <= 8 * n;
    BytesArePowers(n);
    PowMonotone(HighBits(m), 8 * n);
    BitsHoldDigits(m);
  }

  // ---- The alphabet ----

  function CharOf(d: nat): char
    requires d < 58
  {
    if d < 9 then (d + 49) as char
    else if d < 17 then (d + 56) as char
    else if d < 22 then (d + 57) as char
    else if d < 33 then (d + 58) as char
    else if d < 44 then (d + 64) as char
    else (d + 65) as char
  }

  /** The inverse of `CharOf`. */
  function ValueOf(c: char): Option<nat> {
    var x := c as int;
    if 49 <= x < 58 then Some(x - 49)
    else if 65 <= x < 73 then Some(x - 56)
    else if 74 <= x < 79 then Some(x - 57)
    else if 80 <= x < 91 then Some(x - 58)
    else if 97 <= x < 108 then Some(x - 64)
    else if 109 <= x < 123 then Some(x - 65)
    else None
  }

  lemma {:induction false} AlphabetInOrder(d: nat)
    requires d < 58
    ensures |Alphabet()| == 58 && Alphabet()[d] == CharOf(d)
  {
    Stretches(d);
    var a, b, c, e, f := "123456789", "ABCDEFGH", "JKLMN", "PQRSTUVWXYZ", "abcdefghijk";
    assert |a + b + c + e + f| == 44;
  }

  /** Within each stretch of the alphabet the characters are consecutive. */
  lemma {:induction false} Stretches(d: nat)
    ensures |"123456789"| == 9 && (d < 9 ==> "123456789"[d] == CharOf(d))
    ensures |"ABCDEFGH"| == 8 && (9 <= d < 17 ==> "ABCDEFGH"[d - 9] == CharOf(d))
    ensures |"JKLMN"| == 5 && (17 <= d < 22 ==> "JKLMN"[d - 17] == CharOf(d))
    ensures |"PQRSTUVWXYZ"| == 11 && (22 <= d < 33 ==> "PQRSTUVWXYZ"[d - 22] == CharOf(d))
    ensures |"abcdefghijk"| == 11 && (33 <= d < 44 ==> "abcdefghijk"[d - 33] == CharOf(d))
    ensures |"mnopqrstuvwxyz"| == 14 && (44 <= d < 58 ==> "mnopqrstuvwxyz"[d - 44] == CharOf(d))
  {
  }

  lemma {:induction false} CharRoundTrip()
    ensures forall d: nat :: d < 58 ==> ValueOf(CharOf(d)) == Some(d)
    ensures forall c :: ValueOf(c).Some? ==> ValueOf(c).value < 58 && CharOf(ValueOf(c).value) == c
  {
  }

  /** The digits are the letters and figures but 0, O, I and l, in the order of their codes. */
  lemma {:induction false} AlphabetMeans(c: char, e: char)
    ensures ValueOf(c).Some? <==>
      ('0' <= c <= '9' || 'A' <= c <= 'Z' || 'a' <= c <= 'z') && c != '0' && c != 'O' && c != 'I' && c != 'l'
    ensures ValueOf(c).Some? && ValueOf(e).Some? ==> (ValueOf(c).value < ValueOf(e).value <==> c < e)
  {
    assert '0' as int == 48 && '9' as int == 57 && 'A' as int == 65 && 'Z' as int == 90;
    assert 'a' as int == 97 && 'z' as int == 122 && 'O' as int == 79 && 'I' as int == 73 && 'l' as int == 108;
  }

  lemma {:induction false} CharAt(c: char, d: nat)
    requires d < 58
    ensures CharOf(d) == c <==> ValueOf(c) == Some(d)
  {
    CharRoundTrip();
  }

  lemma {:induction false} NoCharAt(c: char)
    requires forall d: nat :: d < 58 ==> CharOf(d) != c
    ensures ValueOf(c).None?
  {
    CharRoundTrip();
  }

  /** `strchr` on the alphabet. */
  method FindChar(c: char) returns (r: Option<nat>)
    ensures r == ValueOf(c)
  {
    hide Alphabet, CharOf, ValueOf;
    AlphabetInOrder(0);
    for i := 0 to |Alphabet()|
      invariant forall k: nat :: k < i ==> CharOf(k) != c
    {
      AlphabetInOrder(i);
      CharAt(c, i);
      if Alphabet()[i] == c {
        return Some(i);
      }
    }
    NoCharAt(c);
    r := None;
  }

  predicate IsSpace(c: char) {
    c == ' ' || 9 <= c as int <= 13
  }

  lemma {:induction false} SpacesAreNotDigits(c: char)
    ensures IsSpace(c) ==> ValueOf(c).None?
  {
  }

  // ---- What the codes mean ----

  /** How many elements at the front equal `x`. */
  function Lead<T(==)>(s: seq<T>, x: T): (n: nat)
    ensures n <= |s| && (forall i :: 0 <= i < n ==> s[i] == x) && (n < |s| ==> s[n] != x)
  {
    if s == [] || s[0] != x then 0 else 1 + Lead(s[1..], x)
  }

  lemma {:induction false} LeadUnique<T>(s: seq<T>, x: T, n: nat)
    requires n <= |s| && (forall i :: 0 <= i < n ==> s[i] == x) && (n < |s| ==> s[n] != x)
    ensures Lead(s, x) == n
  {
  }

  function Chars(digits: seq<nat>): (r: string)
    requires forall i :: 0 <= i < |digits| ==> digits[i] < 58
    ensures |r| == |digits| && forall i :: 0 <= i < |r| ==> r[i] == CharOf(digits[i])
  {
    seq(|digits|, i requires 0 <= i < |digits| => CharOf(digits[i]))
  }

  predicate IsBase58(s: string) {
    forall i :: 0 <= i < |s| ==> ValueOf(s[i]).Some?
  }

  function Values(s: string): (r: seq<nat>)
    requires IsBase58(s)
    ensures |r| == |s| && forall i :: 0 <= i < |r| ==> Some(r[i]) == ValueOf(s[i])
  {
    seq(|s|, i requires 0 <= i < |s| => ValueOf(s[i]).value)
  }

  function Encoded(bytes: seq<nat>): string
    requires IsBytes(bytes)
  {
    var z := Lead(bytes, 0);
    seq(z, _ => '1') + Chars(DigitsOf(58, Number(256, bytes[z..])))
  }

  function DecodedWord(w: string): seq<nat>
    requires IsBase58(w)
  {
    var z := Lead(w, '1');
    seq(z, _ => 0) + DigitsOf(256, Number(58, Values(w[z..])))
  }

  /** How many characters at the front are spaces, or are not. */
  function SpacesAt(s: string): (n: nat)
    ensures n <= |s| && (forall i :: 0 <= i < n ==> IsSpace(s[i])) && (n < |s| ==> !IsSpace(s[n]))
  {
    if s == [] || !IsSpace(s[0]) then 0 else 1 + SpacesAt(s[1..])
  }

  function WordAt(s: string): (n: nat)
    ensures n <= |s| && (forall i :: 0 <= i < n ==> !IsSpace(s[i])) && (n < |s| ==> IsSpace(s[n]))
  {
    if s == [] || IsSpace(s[0]) then 0 else 1 + WordAt(s[1..])
  }

  /** `DecodeBase58`: one word of the alphabet, with spaces before and after. */
  function Decoded(s: string): Option<seq<nat>> {
    var a := s[SpacesAt(s)..];
    var w := a[..WordAt(a)];
    if SpacesAt(a[|w|..]) == |a| - |w| && IsBase58(w) then Some(DecodedWord(w)) else None
  }

  // ---- Round trips ----

  lemma {:induction false} ValuesOfChars(digits: seq<nat>)
    requires forall i :: 0 <= i < |digits| ==> digits[i] < 58
    ensures IsBase58(Chars(digits)) && Values(Chars(digits)) == digits
  {
    CharRoundTrip();
  }

  lemma {:induction false} CharsOfValues(s: string)
    requires IsBase58(s)
    ensures (forall i :: 0 <= i < |s| ==> Values(s)[i] < 58) && Chars(Values(s)) == s
  {
    CharRoundTrip();
  }

  lemma {:induction false} LeadSplit<T>(s: seq<T>, x: T, z: nat, rest: seq<T>)
    requires s == seq(z, _ => x) + rest && (rest != [] ==> rest[0] != x)
    ensures Lead(s, x) == z && s[z..] == rest
  {
    LeadUnique(s, x, z);
  }

  lemma {:induction false} LeadJoin<T>(s: seq<T>, x: T)
    ensures s == seq(Lead(s, x), _ => x) + s[Lead(s, x)..]
  {
  }

  /** Decoding undoes encoding, leading zeroes included. */
  lemma {:induction false} DecodeEncodedWord(bytes: seq<nat>)
    requires IsBytes(bytes)
    ensures IsBase58(Encoded(bytes)) && DecodedWord(Encoded(bytes)) == bytes
  {
    hide DigitsOf, Number, Chars, Values, CharOf, ValueOf;
    var z := Lead(bytes, 0);
    var rest := bytes[z..];
    var v := Number(256, rest);
    var digits := DigitsOf(58, v);
    DigitsUnique(256, rest);
    NumberOfDigits(58, v);
    ValuesOfChars(digits);
    if v > 0 {
      NoLeadingZero(58, v);
    }
    var s := Encoded(bytes);
    LeadSplit(s, '1', z, Chars(digits)) by { FirstChar(digits, v); }
    assert IsBase58(s) by { OnesAreBase58(); }
    LeadJoin(bytes, 0);
  }

  lemma {:induction false} OnesAreBase58()
    ensures ValueOf('1') == Some(0) && CharOf(0) == '1'
  {
  }

  lemma {:induction false} FirstChar(digits: seq<nat>, v: nat)
    requires digits == DigitsOf(58, v)
    ensures Chars(digits) != [] ==> Chars(digits)[0] != '1'
  {
    CharRoundTrip();
    OnesAreBase58();
    if v > 0 {
      NoLeadingZero(58, v);
    }
  }

  lemma {:induction false} EncodeDecodedWord(w: string)
    requires IsBase58(w)
    ensures IsBytes(DecodedWord(w)) && Encoded(DecodedWord(w)) == w
  {
    hide DigitsOf, Number, Chars, Values, CharOf, ValueOf, Lead;
    OnesAreBase58();
    var z := Lead(w, '1');
    var rest := w[z..];
    assert IsBase58(rest);
    var digits := Values(rest);
    var v := Number(58, digits);
    CharsOfValues(rest);
    if rest != [] {
      CharAt(rest[0], 0);
      assert rest[0] == w[z];
    }
    DigitsUnique(58, digits);
    NumberOfDigits(256, v);
    var bytes := DecodedWord(w);
    if v > 0 {
      NoLeadingZero(256, v);
    } else {
      NoDigits(256);
    }
    LeadSplit(bytes, 0, z, DigitsOf(256, v));
    LeadJoin(w, '1');
  }

  lemma {:induction false} NoDigits(b: nat)
    requires b > 1
    ensures DigitsOf(b, 0) == []
  {
  }

  lemma {:induction false} OneWord(w: string)
    requires IsBase58(w)
    ensures Decoded(w) == Some(DecodedWord(w))
  {
    forall i | 0 <= i < |w| ensures !IsSpace(w[i]) {
      SpacesAreNotDigits(w[i]);
    }
    assert SpacesAt(w) == 0;
    assert w[0..] == w;
    assert WordAt(w) == |w|;
    assert w[..|w|] == w;
  }

  /** Decode inverts Encode on all byte strings. */
  lemma {:induction false} DecodeInvertsEncode(bytes: seq<nat>)
    requires IsBytes(bytes)
    ensures Decoded(Encoded(bytes)) == Some(bytes)
  {
    DecodeEncodedWord(bytes);
    OneWord(Encoded(bytes));
  }

  /** The string without the spaces at both ends. */
  function Trimmed(s: string): string {
    TrimEnd(s[SpacesAt(s)..])
  }

  function TrimEnd(s: string): string {
    if s != [] && IsSpace(s[|s| - 1]) then TrimEnd(s[..|s| - 1]) else s
  }

  lemma {:induction false} TrimEndIs(s: string, n: nat)
    requires n <= |s| && (forall i :: n <= i < |s| ==> IsSpace(s[i])) && (n > 0 ==> !IsSpace(s[n - 1]))
    ensures TrimEnd(s) == s[..n]
    decreases |s|
  {
    if n < |s| {
      TrimEndIs(s[..|s| - 1], n);
      assert s[..|s| - 1][..n] == s[..n];
    } else {
      assert s[..n] == s;
    }
  }

  /** Encode of a successful Decode gives back the string without surrounding spaces. */
  lemma {:induction false} EncodeInvertsDecode(s: string)
    requires Decoded(s).Some?
    ensures IsBytes(Decoded(s).value) && Encoded(Decoded(s).value) == Trimmed(s)
  {
    var a := s[SpacesAt(s)..];
    var w := a[..WordAt(a)];
    EncodeDecodedWord(w);
    forall i | |w| <= i < |a| ensures IsSpace(a[i]) {
      assert a[|w|..][i - |w|] == a[i];
    }
    TrimEndIs(a, |w|);
  }

  // ---- The code ----

  lemma {:induction false} ReadOn(b: nat, s: seq<nat>, i: nat)
    requires i < |s|
    ensures Number(b, s[..i + 1]) == Number(b, s[..i]) * b + s[i]
  {
    assert s[..i + 1][..i] == s[..i];
  }

  lemma {:induction false} PrefixBound(b: nat, s: seq<nat>, i: nat)
    requires b > 1 && AreDigits(b, s) && i <= |s|
    ensures Number(b, s[..i]) < Pow(b, |s|)
  {
    NumberBound(b, s[..i]);
    PowGrows(b, i, |s|);
  }

  /** The digits of the buffer after its leading zeroes. */
  lemma {:induction false} SkipZeroes(b: nat, s: seq<nat>, v: nat)
    requires b > 1 && AreDigits(b, s) && Number(b, s) == v
    ensures s[Lead(s, 0)..] == DigitsOf(b, v)
  {
    hide Lead, Number, DigitsOf;
    var z := Lead(s, 0);
    assert s == s[..z] + s[z..];
    LeadingZeroes(b, s[..z], s[z..]);
    DigitsUnique(b, s[z..]);
  }

  /** Turns digits of base `from` into a buffer of base `to` that is known to have room: the
      assertion that no carry is left holds in every turn. */
  method Convert(from: nat, to: nat, digits: seq<nat>, size: nat) returns (r: seq<nat>)
    requires from > 1 && to > 1 && AreDigits(from, digits) && Pow(from, |digits|) <= Pow(to, size)
    ensures r == DigitsOf(to, Number(from, digits))
  {
    var buf := new nat[size](_ => 0);
    AllZero(to, buf[..]);
    for i := 0 to |digits|
      invariant AreDigits(to, buf[..]) && Number(to, buf[..]) == Number(from, digits[..i])
    {
      ReadOn(from, digits, i);
      PrefixBound(from, digits, i + 1);
      var carry := MultiplyAdd(buf, to, from, digits[i]);
      NothingCarried(Number(to, buf[..]), carry, Pow(to, size), Number(from, digits[..i + 1]));
      assert carry == 0;
    }
    assert digits[..|digits|] == digits;
    SkipZeroes(to, buf[..], Number(from, digits));
    r := AfterZeroes(buf);
  }

  /** `EncodeBase58`. */
  method Encode(bytes: seq<nat>) returns (str: string)
    requires IsBytes(bytes)
    ensures str == Encoded(bytes)
  {
    hide Pow, Number, DigitsOf, Lead, CharOf;
    var z := 0;
    while z < |bytes| && bytes[z] == 0
      invariant 0 <= z <= |bytes| && forall i :: 0 <= i < z ==> bytes[i] == 0
    {
      z := z + 1;
    }
    LeadUnique(bytes, 0, z);
    var m := |bytes| - z;
    EncodeBufferSuffices(m);
    var digits := Convert(256, 58, bytes[z..], m * 138 / 100 + 1);
    str := seq(z, _ => '1');
    for i := 0 to |digits|
      invariant str == seq(z, _ => '1') + Chars(digits)[..i]
    {
      AlphabetInOrder(digits[i]);
      str := str + [Alphabet()[digits[i]]];
    }
    assert Chars(digits)[..|digits|] == Chars(digits);
  }

  method CountSpaces(s: string, start: nat) returns (end: nat)
    requires start <= |s|
    ensures end == start + SpacesAt(s[start..])
  {
    end := start;
    while end < |s| && IsSpace(s[end])
      invariant start <= end <= |s|
      invariant end + SpacesAt(s[end..]) == start + SpacesAt(s[start..])
    {
      assert s[end..][1..] == s[end + 1..];
      end := end + 1;
    }
  }

  /** The middle loop of `DecodeBase58`: reads digits into the buffer up to a space, the end,
      or a character outside the alphabet. */
  method ReadDigits(s: string, start: nat, buf: array<nat>) returns (ok: bool, end: nat, ghost digits: seq<nat>)
    requires start <= |s| && (forall i :: 0 <= i < buf.Length ==> buf[i] == 0)
      && Pow(58, |s| - start) <= Pow(256, buf.Length)
    modifies buf
    ensures start <= end <= |s| && |digits| == end - start && AreDigits(58, digits)
    ensures forall i :: start <= i < end ==> ValueOf(s[i]) == Some(digits[i - start]) && !IsSpace(s[i])
    ensures AreDigits(256, buf[..]) && Number(256, buf[..]) == Number(58, digits)
    ensures !ok ==> end < |s| && !IsSpace(s[end]) && ValueOf(s[end]).None?
    ensures ok ==> end == |s| || IsSpace(s[end])
  {
    hide Pow, Number, ValueOf, IsSpace;
    CharRoundTrip();
    AllZero(256, buf[..]);
    end, digits := start, [];
    AllZero(58, []);
    while end < |s| && !IsSpace(s[end])
      invariant start <= end <= |s| && |digits| == end - start && AreDigits(58, digits)
      invariant forall i :: start <= i < end ==> ValueOf(s[i]) == Some(digits[i - start]) && !IsSpace(s[i])
      invariant AreDigits(256, buf[..]) && Number(256, buf[..]) == Number(58, digits)
    {
      var d := FindChar(s[end]);
      if d.None? {
        return false, end, digits;
      }
      NumberAppend(58, digits, d.value);
      ghost var more := digits + [d.value];
      NumberBound(58, more);
      PowGrows(58, |more|, |s| - start);
      var carry := MultiplyAdd(buf, 256, 58, d.value);
      NothingCarried(Number(256, buf[..]), carry, Pow(256, buf.Length), Number(58, more));
      assert carry == 0;
      digits := more;
      end := end + 1;
    }
    ok := true;
  }

  method AfterZeroes(buf: array<nat>) returns (r: seq<nat>)
    ensures r == buf[..][Lead(buf[..], 0)..]
  {
    var z := 0;
    while z < buf.Length && buf[z] == 0
      invariant 0 <= z <= buf.Length && forall i :: 0 <= i < z ==> buf[i] == 0
    {
      z := z + 1;
    }
    LeadUnique(buf[..], 0, z);
    r := buf[z..];
    assert r == buf[..][z..];
  }

  /** `DecodeBase58`. */
  method Decode(s: string) returns (r: Option<seq<nat>>)
    ensures r == Decoded(s)
  {
    hide Pow, Number, DigitsOf, ValueOf, Lead, IsSpace;
    OnesAreBase58();
    var start := CountSpaces(s, 0);
    assert s[0..] == s;
    var p := start;
    while p < |s| && s[p] == '1'
      invariant start <= p <= |s| && forall i :: start <= i < p ==> s[i] == '1'
    {
      p := p + 1;
    }
    var buf := new nat[(|s| - p) * 733 / 1000 + 1](_ => 0);
    DecodeBufferSuffices(|s| - p);
    var ok, end, digits := ReadDigits(s, p, buf);
    ghost var a := s[start..];
    if !ok {
      WordStops(s, start, p, end, digits);
      return None;
    }
    var last := CountSpaces(s, end);
    WordRead(s, start, p, end, digits);
    if last != |s| {
      return None;
    }
    SkipZeroes(256, buf[..], Number(58, digits));
    var rest := AfterZeroes(buf);
    r := Some(seq(p - start, _ => 0) + rest);
  }

  /** What has been read before `end`: ones, then digits. */
  ghost predicate ReadSoFar(s: string, start: nat, p: nat, end: nat, digits: seq<nat>) {
    && start <= p <= end <= |s| && |digits| == end - p
    && (forall i :: start <= i < p ==> s[i] == '1') && (p < |s| ==> s[p] != '1')
    && (forall i :: p <= i < end ==> ValueOf(s[i]) == Some(digits[i - p]) && !IsSpace(s[i]))
  }

  lemma {:induction false} WordStops(s: string, start: nat, p: nat, end: nat, digits: seq<nat>)
    requires start == SpacesAt(s) && ReadSoFar(s, start, p, end, digits)
    requires end < |s| && !IsSpace(s[end]) && ValueOf(s[end]).None?
    ensures Decoded(s) == None
  {
    var a := s[start..];
    forall i | start <= i <= end ensures !IsSpace(s[i]) {}
    var k := WordAt(a);
    assert k > end - start;
    assert a[..k][end - start] == s[end];
  }

  lemma {:induction false} WordRead(s: string, start: nat, p: nat, end: nat, digits: seq<nat>)
    requires start == SpacesAt(s) && ReadSoFar(s, start, p, end, digits) && (end == |s| || IsSpace(s[end]))
    ensures Decoded(s) ==
      if end + SpacesAt(s[end..]) == |s| then Some(seq(p - start, _ => 0) + DigitsOf(256, Number(58, digits))) else None
  {
    hide Number, DigitsOf, ValueOf, IsSpace, DecodedWord, IsBase58;
    var a, n := s[start..], end - start;
    WordIs(a, n);
    assert a[n..] == s[end..];
    WordDecodes(s, start, p, end, digits);
    assert a[..n] == s[start..end];
  }

  lemma {:induction false} WordDecodes(s: string, start: nat, p: nat, end: nat, digits: seq<nat>)
    requires ReadSoFar(s, start, p, end, digits)
    ensures IsBase58(s[start..end])
    ensures DecodedWord(s[start..end]) == seq(p - start, _ => 0) + DigitsOf(256, Number(58, digits))
  {
    hide Number, DigitsOf, ValueOf, IsSpace, Lead;
    OnesAreBase58();
    var w := s[start..end];
    assert IsBase58(w);
    LeadUnique(w, '1', p - start);
    var rest := w[p - start..];
    forall i | 0 <= i < |digits|
      ensures Values(rest)[i] == digits[i]
    {
      assert rest[i] == s[p + i];
    }
    assert Values(rest) == digits;
  }

  lemma {:induction false} WordIs(a: string, n: nat)
    requires n <= |a| && (forall i :: 0 <= i < n ==> !IsSpace(a[i])) && (n < |a| ==> IsSpace(a[n]))
    ensures WordAt(a) == n
  {
  }

  // ---- With a checksum ----

  type Checksum = f: seq<nat> -> seq<nat> | forall s :: |f(s)| == 4 && IsBytes(f(s)) witness (_ => [0, 0, 0, 0])

  /** `EncodeBase58Check`; `sum` is the first four bytes of the hash. */
  function EncodedCheck(sum: Checksum, bytes: seq<nat>): string
    requires IsBytes(bytes)
  {
    Encoded(bytes + sum(bytes))
  }

  /** `DecodeBase58Check`. */
  function DecodedCheck(sum: Checksum, s: string): Option<seq<nat>> {
    var d := Decoded(s);
    if d.None? || |d.value| < 4 then None
    else
      var n := |d.value| - 4;
      if sum(d.value[..n]) != d.value[n..] then None else Some(d.value[..n])
  }

  lemma {:induction false} CheckRoundTrip(sum: Checksum, bytes: seq<nat>)
    requires IsBytes(bytes)
    ensures DecodedCheck(sum, EncodedCheck(sum, bytes)) == Some(bytes)
  {
    var all := bytes + sum(bytes);
    DecodeInvertsEncode(all);
    assert all[..|bytes|] == bytes && all[|bytes|..] == sum(bytes);
  }

  lemma {:induction false} CheckedStringsAreEncodings(sum: Checksum, s: string)
    requires DecodedCheck(sum, s).Some?
    ensures IsBytes(DecodedCheck(sum, s).value) && EncodedCheck(sum, DecodedCheck(sum, s).value) == Trimmed(s)
  {
    hide Decoded, Encoded, Trimmed;
    EncodeInvertsDecode(s);
    var all := Decoded(s).value;
    assert all[..|all| - 4] + all[|all| - 4..] == all;
  }
}
