/** What a stream of bytes means as a sequence of framed messages (net.h, protocol.h). */
module Framing {
  import opened Bytes

  const HEADER_SIZE := 24
  const MAX_SIZE := 0x02000000
  const MAX_PROTOCOL_MESSAGE_LENGTH := 2 * 1024 * 1024

  // ----- headers -----

  datatype Header = Header(start: seq<Byte>, command: seq<Byte>, size: nat, checksum: nat)

  predicate HeaderOk(h: Header) {
    |h.start| == 4 && |h.command| == 12 && h.size < 0x1_0000_0000 && h.checksum < 0x1_0000_0000
  }

  function ReadHeader(b: seq<Byte>): (h: Header)
    requires |b| == HEADER_SIZE
    ensures HeaderOk(h)
  {
    Header(b[..4], b[4..16], ReadLE32(b[16..20]), ReadLE32(b[20..24]))
  }

  function WriteHeader(h: Header): (b: seq<Byte>)
    requires HeaderOk(h)
    ensures |b| == HEADER_SIZE
  {
    h.start + h.command + WriteLE32(h.size) + WriteLE32(h.checksum)
  }

  /** Where the fields stand: start bytes, command, length and checksum, the numbers least significant byte first. */
  lemma {:induction false} HeaderLayout(b: seq<Byte>)
    requires |b| == 24
    ensures ReadHeader(b).start == b[0..4] && ReadHeader(b).command == b[4..16]
    ensures ReadHeader(b).size == b[16] as int + 256 * b[17] as int + 65536 * b[18] as int + 16777216 * b[19] as int
    ensures ReadHeader(b).checksum == b[20] as int + 256 * b[21] as int + 65536 * b[22] as int + 16777216 * b[23] as int
  {
    assert b[..4] == b[0..4];
  }

  /** A header is its 24 bytes, and the other way round. */
  lemma {:induction false} HeaderInverse(b: seq<Byte>)
    requires |b| == HEADER_SIZE
    ensures WriteHeader(ReadHeader(b)) == b
  {
    LE32Inverse(b[16..20]);
    LE32Inverse(b[20..24]);
    assert b == b[..4] + b[4..16] + b[16..20] + b[20..24];
  }

  lemma {:induction false} HeaderRoundTrip(h: Header)
    requires HeaderOk(h)
    ensures ReadHeader(WriteHeader(h)) == h
  {
    hide WriteLE32, ReadLE32;
    FourParts(h.start, h.command, WriteLE32(h.size), WriteLE32(h.checksum));
  }

  lemma {:induction false} FourParts(a: seq<Byte>, b: seq<Byte>, c: seq<Byte>, d: seq<Byte>)
    requires |a| == 4 && |b| == 12 && |c| == 4 && |d| == 4
    ensures var all := a + b + c + d;
      all[..4] == a && all[4..16] == b && all[16..20] == c && all[20..24] == d
  {
  }

  // ----- streams -----

  datatype Frame = Frame(header: Header, body: seq<Byte>)

  /** The complete frames of a stream, what is left over, and whether no header announces too much. */
  datatype Parsed = Parsed(done: seq<Frame>, rest: seq<Byte>, ok: bool)

  predicate Oversized(s: seq<Byte>) {
    |s| >= HEADER_SIZE && ReadHeader(s[..HEADER_SIZE]).size > MAX_PROTOCOL_MESSAGE_LENGTH
  }

  /** The length of the first frame, once its header is there. */
  function FrameSize(s: seq<Byte>): nat
    requires |s| >= HEADER_SIZE
  {
    HEADER_SIZE + ReadHeader(s[..HEADER_SIZE]).size
  }

  predicate Starts(s: seq<Byte>) {
    |s| >= HEADER_SIZE && !Oversized(s) && |s| >= FrameSize(s)
  }

  function FirstFrame(s: seq<Byte>): Frame
    requires Starts(s)
  {
    Frame(ReadHeader(s[..HEADER_SIZE]), s[HEADER_SIZE..FrameSize(s)])
  }

  function Parse(s: seq<Byte>): Parsed {
    if Oversized(s) then Parsed([], s, false)
    else if !Starts(s) then Parsed([], s, true)
    else
      var p := Parse(s[FrameSize(s)..]);
      Parsed([FirstFrame(s)] + p.done, p.rest, p.ok)
  }

  function FrameBytes(f: Frame): seq<Byte>
    requires Legal(f)
  {
    WriteHeader(f.header) + f.body
  }

  /** A frame whose body has the announced, acceptable length. */
  predicate Legal(f: Frame) {
    HeaderOk(f.header) && |f.body| == f.header.size <= MAX_PROTOCOL_MESSAGE_LENGTH
  }

  function Concat(fs: seq<Frame>): seq<Byte>
    requires forall i :: 0 <= i < |fs| ==> Legal(fs[i])
  {
    if |fs| == 0 then [] else FrameBytes(fs[0]) + Concat(fs[1..])
  }

  lemma {:induction false} FirstFrameBytes(s: seq<Byte>)
    requires Starts(s)
    ensures Legal(FirstFrame(s)) && FrameBytes(FirstFrame(s)) == s[..FrameSize(s)]
  {
    HeaderInverse(s[..HEADER_SIZE]);
  }

  lemma {:induction false} ConcatStep(f: Frame, fs: seq<Frame>)
    requires Legal(f) && forall i :: 0 <= i < |fs| ==> Legal(fs[i])
    ensures forall i :: 0 <= i < |[f] + fs| ==> Legal(([f] + fs)[i])
    ensures Concat([f] + fs) == FrameBytes(f) + Concat(fs)
  {
    assert ([f] + fs)[1..] == fs;
  }

  /** Frames and left-over concatenate back to the stream; each frame is legal, and no frame is left over. */
  lemma {:induction false} NothingLost(s: seq<Byte>)
    ensures forall i :: 0 <= i < |Parse(s).done| ==> Legal(Parse(s).done[i])
    ensures Concat(Parse(s).done) + Parse(s).rest == s
    ensures !Starts(Parse(s).rest) && (Parse(s).ok <==> !Oversized(Parse(s).rest))
    decreases |s|
  {
    hide Parse, Starts, Oversized, Legal, FirstFrame, FrameSize, Concat, FrameBytes;
    ParseStep(s);
    if Starts(s) {
      var tail := s[FrameSize(s)..];
      NothingLost(tail);
      FirstFrameBytes(s);
      ConcatStep(FirstFrame(s), Parse(tail).done);
      assert s == s[..FrameSize(s)] + tail;
    } else {
      ConcatNone();
    }
  }

  lemma {:induction false} ParseStep(s: seq<Byte>)
    ensures !Starts(s) ==> Parse(s) == Parsed([], s, !Oversized(s))
    ensures Starts(s) ==> |s| >= HEADER_SIZE && HEADER_SIZE <= FrameSize(s) <= |s|
    ensures Starts(s) ==> Parse(s).done == [FirstFrame(s)] + Parse(s[FrameSize(s)..]).done
    ensures Starts(s) ==> Parse(s).rest == Parse(s[FrameSize(s)..]).rest && Parse(s).ok == Parse(s[FrameSize(s)..]).ok
  {
  }

  lemma {:induction false} ConcatNone()
    ensures Concat([]) == []
  {
  }

  /** What was sent is what is received: framed messages of legal size come out as they went in. */
  lemma {:induction false} SentIsReceived(fs: seq<Frame>)
    requires forall i :: 0 <= i < |fs| ==> Legal(fs[i])
    ensures Parse(Concat(fs)) == Parsed(fs, [], true)
  {
    hide ReadHeader, WriteHeader;
    if fs != [] {
      var s := Concat(fs);
      SentIsReceived(fs[1..]);
      HeaderRoundTrip(fs[0].header);
      assert s[..HEADER_SIZE] == WriteHeader(fs[0].header);
      assert s[HEADER_SIZE..FrameSize(s)] == fs[0].body;
      assert s[FrameSize(s)..] == Concat(fs[1..]);
      assert [fs[0]] + fs[1..] == fs;
    }
  }

  /** What a header with part of its body means. */
  lemma {:induction false} PartialFrame(h: Header, data: seq<Byte>)
    requires HeaderOk(h) && |data| <= h.size <= MAX_PROTOCOL_MESSAGE_LENGTH
    ensures |data| < h.size ==> Parse(WriteHeader(h) + data) == Parsed([], WriteHeader(h) + data, true)
    ensures |data| == h.size ==> Parse(WriteHeader(h) + data) == Parsed([Frame(h, data)], [], true)
  {
    hide WriteHeader, ReadHeader;
    var s := WriteHeader(h) + data;
    HeaderRoundTrip(h);
    assert s[..HEADER_SIZE] == WriteHeader(h);
    if |data| == h.size {
      assert s[HEADER_SIZE..FrameSize(s)] == data;
      assert s[FrameSize(s)..] == [];
    }
  }

  /** A longer stream starts with the same header. */
  lemma {:induction false} LongerStream(s: seq<Byte>, x: seq<Byte>)
    requires |s| >= HEADER_SIZE
    ensures (s + x)[..HEADER_SIZE] == s[..HEADER_SIZE]
  {
  }

  /** Parsing may stop and go on with the left-over: more bytes only add to it. */
  lemma {:induction false} ParseContinues(s: seq<Byte>, x: seq<Byte>)
    requires Parse(s).ok
    ensures Parse(s + x).done == Parse(s).done + Parse(Parse(s).rest + x).done
    ensures Parse(s + x).rest == Parse(Parse(s).rest + x).rest
    ensures Parse(s + x).ok == Parse(Parse(s).rest + x).ok
    decreases |s|
  {
    hide ReadHeader;
    if Starts(s) {
      LongerStream(s, x);
      assert (s + x)[HEADER_SIZE..FrameSize(s)] == s[HEADER_SIZE..FrameSize(s)];
      assert (s + x)[FrameSize(s)..] == s[FrameSize(s)..] + x;
      ParseContinues(s[FrameSize(s)..], x);
    }
  }

  /** A stream that was refused stays refused, with the same frames before the refusal. */
  lemma {:induction false} RefusalStays(s: seq<Byte>, x: seq<Byte>)
    requires !Parse(s).ok
    ensures !Parse(s + x).ok && Parse(s + x).done == Parse(s).done
    decreases |s|
  {
    hide ReadHeader;
    LongerStream(s, x);
    if Starts(s) {
      assert (s + x)[HEADER_SIZE..FrameSize(s)] == s[HEADER_SIZE..FrameSize(s)];
      assert (s + x)[FrameSize(s)..] == s[FrameSize(s)..] + x;
      RefusalStays(s[FrameSize(s)..], x);
    }
  }
}
