/** Bytes and the fixed-width integers stored in them, least significant byte first. */
module Bytes {
  type Byte = x: int | 0 <= x < 256

  const U32 := 0x1_0000_0000
  const U64 := 0x1_0000_0000_0000_0000

  function Join(low: Byte, high: nat): (r: nat)
    ensures r / 0x100 == high && r % 0x100 == low
  {
    low as int + 0x100 * high
  }

  function ReadLE32(b: seq<Byte>): (r: nat)
    requires |b| == 4
    ensures r < 0x1_0000_0000
  {
    Join(b[0], Join(b[1], Join(b[2], b[3])))
  }

  function WriteLE32(x: nat): (b: seq<Byte>)
    requires x < 0x1_0000_0000
    ensures |b| == 4 && ReadLE32(b) == x
  {
    [x % 0x100, x / 0x100 % 0x100, x / 0x100 / 0x100 % 0x100, x / 0x100 / 0x100 / 0x100]
  }

  lemma {:induction false} LE32Inverse(b: seq<Byte>)
    requires |b| == 4
    ensures WriteLE32(ReadLE32(b)) == b
  {
    hide Join;
    var r := ReadLE32(b);
    assert r / 0x100 == Join(b[1], Join(b[2], b[3]));
    assert r / 0x100 / 0x100 == Join(b[2], b[3]);
  }

  /** A 32-bit word read as a signed number, and back. */
  function ToSigned(x: nat): (r: int)
    requires x < U32
    ensures -0x8000_0000 <= r < 0x8000_0000 && ToWord(r) == x
  {
    if x < 0x8000_0000 then x else x - U32
  }

  function ToWord(x: int): (r: nat)
    requires -0x8000_0000 <= x < 0x8000_0000
    ensures r < U32
  {
    if x < 0 then x + U32 else x
  }

  /** What reading a value from the front of a stream gives; Fail is the end of the data. */
  datatype Read<T> = Got(value: T, rest: seq<Byte>) | Fail
}
