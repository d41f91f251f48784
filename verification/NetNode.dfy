/** Receiving messages from a peer, chunk by chunk (net.cpp). */
module NetNode {
  import opened Bytes
  import opened Framing

  const AHEAD := 256 * 1024

  /** memcpy to a place inside a buffer. */
  function Overwrite(buf: seq<Byte>, pos: nat, src: seq<Byte>): (r: seq<Byte>)
    requires pos + |src| <= |buf|
    ensures |r| == |buf| && r[..pos + |src|] == buf[..pos] + src && r[pos + |src|..] == buf[pos + |src|..]
  {
    buf[..pos] + src + buf[pos + |src|..]
  }

  function Zeros(n: nat): (r: seq<Byte>)
    ensures |r| == n
  {
    seq(n, _ => 0)
  }

  function Resize(buf: seq<Byte>, n: nat): (r: seq<Byte>)
    ensures |r| == n
    ensures n >= |buf| ==> r[..|buf|] == buf
  {
    if n <= |buf| then buf[..n] else buf + Zeros(n - |buf|)
  }

  function Least(a: nat, b: nat): nat {
    if a < b then a else b
  }

  /** CNetMessage: a message being received, header first. */
  class NetMessage {
    var inData: bool
    var hdrbuf: seq<Byte>
    var hdr: Header
    var nHdrPos: nat
    var vRecv: seq<Byte>
    var nDataPos: nat

    constructor (messageStart: seq<Byte>)
      requires |messageStart| == 4
      ensures Valid() && !inData && Received() == []
    {
      inData := false;
      hdrbuf := Zeros(HEADER_SIZE);
      hdr := Header(messageStart, Zeros(12), 0xFFFF_FFFF, 0);
      nHdrPos := 0;
      vRecv := [];
      nDataPos := 0;
    }

    /** The buffer never runs more than 256 KiB ahead of the data, nor past the announced length. */
    ghost predicate Valid()
      reads this
    {
      && HeaderOk(hdr)
      && (!inData ==> |hdrbuf| == HEADER_SIZE && nHdrPos < HEADER_SIZE && vRecv == [] && nDataPos == 0)
      && (inData ==> hdr.size <= MAX_SIZE && nDataPos <= |vRecv| <= Least(hdr.size, nDataPos + AHEAD))
    }

    predicate Complete()
      reads this
    {
      inData && hdr.size == nDataPos
    }

    /** The bytes taken in so far. */
    ghost function Received(): seq<Byte>
      requires Valid()
      reads this
    {
      if inData then WriteHeader(hdr) + vRecv[..nDataPos] else hdrbuf[..nHdrPos]
    }

    /** Takes in header bytes; -1 refuses a header that announces more than MAX_SIZE. */
    method TakeHeader(pch: seq<Byte>) returns (handled: int)
      requires Valid() && !inData && |pch| > 0
      modifies this
      ensures handled == -1 <==> var all := old(Received()) + pch;
                                 |all| >= HEADER_SIZE && ReadHeader(all[..HEADER_SIZE]).size > MAX_SIZE
      ensures handled != -1 ==> 0 < handled <= |pch| && Valid() && Received() == old(Received()) + pch[..handled]
      ensures handled != -1 && |old(Received()) + pch| < HEADER_SIZE ==> !inData && handled == |pch|
      ensures handled != -1 && |old(Received()) + pch| >= HEADER_SIZE ==>
                inData && nDataPos == 0 && |Received()| == HEADER_SIZE && hdr == ReadHeader(Received())
    {
      var nCopy := Least(HEADER_SIZE - nHdrPos, |pch|);
      ghost var all := Received() + pch;
      hdrbuf := Overwrite(hdrbuf, nHdrPos, pch[..nCopy]);
      nHdrPos := nHdrPos + nCopy;
      assert hdrbuf[..nHdrPos] == all[..nHdrPos];
      if nHdrPos < HEADER_SIZE {
        return nCopy;
      }
      assert hdrbuf == all[..HEADER_SIZE];
      hdr := ReadHeader(hdrbuf);
      if hdr.size > MAX_SIZE {
        return -1;
      }
      HeaderInverse(hdrbuf);
      hdrbuf := [];
      inData := true;
      return nCopy;
    }

    /** Takes in body bytes. */
    method TakeData(pch: seq<Byte>) returns (handled: nat)
      requires Valid() && inData
      modifies this
      ensures Valid() && inData && hdr == old(hdr)
      ensures handled == Least(hdr.size - old(nDataPos), |pch|) && nDataPos == old(nDataPos) + handled
      ensures Received() == old(Received()) + pch[..handled]
    {
      var nCopy := Least(hdr.size - nDataPos, |pch|);
      ghost var was := vRecv[..nDataPos];
      if |vRecv| < nDataPos + nCopy {
        vRecv := Resize(vRecv, Least(hdr.size, nDataPos + nCopy + AHEAD));
      }
      assert vRecv[..nDataPos] == was;
      vRecv := Overwrite(vRecv, nDataPos, pch[..nCopy]);
      nDataPos := nDataPos + nCopy;
      assert vRecv[..nDataPos] == was + pch[..nCopy];
      return nCopy;
    }
  }

  ghost predicate Holds(m: NetMessage, f: Frame)
    reads m
  {
    m.Valid() && m.Complete() && f == Frame(m.hdr, m.vRecv)
  }

  /** A message that still waits for bytes, and could be completed. */
  ghost predicate Waits(m: NetMessage)
    reads m
  {
    m.Valid() && !m.Complete() && (m.inData ==> m.hdr.size <= MAX_PROTOCOL_MESSAGE_LENGTH)
  }

  /** One reading step on the message in progress; negative when the message is refused. */
  method Take(msg: NetMessage, pch: seq<Byte>) returns (handled: int)
    requires Waits(msg) && |pch| > 0
    modifies msg
    ensures handled < 0 ==> Oversized(old(msg.Received()) + pch)
    ensures handled >= 0 ==> 0 < handled <= |pch| && (msg.Complete() || Waits(msg)) && msg.Valid()
    ensures handled >= 0 && !msg.Complete() ==>
              Parse(old(msg.Received()) + pch[..handled]) == Parsed([], msg.Received(), true)
    ensures handled >= 0 && msg.Complete() ==>
              Parse(old(msg.Received()) + pch[..handled]) == Parsed([Frame(msg.hdr, msg.vRecv)], [], true)
  {
    hide Parse, ReadHeader, WriteHeader;
    ghost var was := msg.Received();
    if !msg.inData {
      handled := msg.TakeHeader(pch);
    } else {
      handled := msg.TakeData(pch);
    }
    if handled < 0 {
      return;
    }
    if msg.inData && msg.hdr.size > MAX_PROTOCOL_MESSAGE_LENGTH {
      assert msg.Received() == (was + pch)[..HEADER_SIZE];
      return -1;
    }
    if msg.inData {
      PartialFrame(msg.hdr, msg.vRecv[..msg.nDataPos]);
      assert msg.Complete() ==> msg.vRecv[..msg.nDataPos] == msg.vRecv;
    } else {
      ParseStep(msg.Received());
    }
  }

  lemma {:induction false} WaitsFor(m: NetMessage)
    requires Waits(m)
    ensures m.Valid()
  {
  }

  lemma {:induction false} HoldsNow(m: NetMessage)
    requires m.Valid() && m.Complete()
    ensures Holds(m, Frame(m.hdr, m.vRecv))
  {
  }

  /** A command: k printable characters, then zeros. */
  ghost predicate NameEnds(command: seq<Byte>, k: nat) {
    && k <= |command|
    && (forall i :: 0 <= i < k ==> 0x20 <= command[i] <= 0x7E)
    && (forall i :: k <= i < |command| ==> command[i] == 0)
  }

  ghost predicate HeaderValid(h: Header, start: seq<Byte>) {
    h.start == start && (exists k :: NameEnds(h.command, k)) && h.size <= MAX_SIZE
  }

  /** CMessageHeader::IsValid. */
  method IsValid(h: Header, start: seq<Byte>) returns (ok: bool)
    ensures ok == HeaderValid(h, start)
  {
    if h.start != start {
      return false;
    }
    var p := 0;
    while p < |h.command| && h.command[p] != 0
      invariant p <= |h.command|
      invariant forall i :: 0 <= i < p ==> 0x20 <= h.command[i] <= 0x7E
    {
      if h.command[p] < 0x20 || h.command[p] > 0x7E {
        return false;
      }
      p := p + 1;
    }
    ghost var k := p;
    while p < |h.command|
      invariant k <= p <= |h.command|
      invariant forall i :: k <= i < p ==> h.command[i] == 0
    {
      if h.command[p] != 0 {
        return false;
      }
      p := p + 1;
    }
    assert NameEnds(h.command, k);
    return h.size <= MAX_SIZE;
  }

  /** The message is handed to its handler: a valid header and the right checksum. */
  ghost predicate Accepts(start: seq<Byte>, checksum: seq<Byte> -> nat, f: Frame) {
    HeaderValid(f.header, start) && checksum(f.body) == f.header.checksum
  }

  /** The messages of a stream that are handed to their handlers. */
  ghost function Accepted(start: seq<Byte>, checksum: seq<Byte> -> nat, fs: seq<Frame>): seq<Frame> {
    if |fs| == 0 then []
    else
      var last := fs[|fs| - 1];
      Accepted(start, checksum, fs[..|fs| - 1]) + (if Accepts(start, checksum, last) then [last] else [])
  }

  lemma {:induction false} NoneAccepted(start: seq<Byte>, checksum: seq<Byte> -> nat)
    ensures Accepted(start, checksum, []) == []
  {
  }

  lemma {:induction false} AcceptedStep(start: seq<Byte>, checksum: seq<Byte> -> nat, fs: seq<Frame>, f: Frame)
    ensures Accepted(start, checksum, fs + [f])
         == Accepted(start, checksum, fs) + (if Accepts(start, checksum, f) then [f] else [])
  {
    assert (fs + [f])[..|fs|] == fs;
  }

  lemma {:induction false} ForeignIsRefused(start: seq<Byte>, checksum: seq<Byte> -> nat, f: Frame)
    requires f.header.start != start
    ensures !Accepts(start, checksum, f)
  {
  }

  /** The receiving side of CNode. */
  class Node {
    const messageStart: seq<Byte>
    const checksum: seq<Byte> -> nat
    var vRecvMsg: seq<NetMessage>
    /** The complete messages of the queue, and those already taken from it. */
    ghost var frames: seq<Frame>
    ghost var delivered: seq<Frame>
    ghost var repr: set<NetMessage>

    /** The queue: complete messages first, then perhaps one that is not complete. */
    ghost predicate Queue()
      reads this, repr
    {
      && |messageStart| == 4
      && |frames| <= |vRecvMsg| <= |frames| + 1
      && (forall i :: 0 <= i < |vRecvMsg| ==> vRecvMsg[i] in repr)
      && (forall i, j :: 0 <= i < j < |vRecvMsg| ==> vRecvMsg[i] != vRecvMsg[j])
      && (forall i :: 0 <= i < |frames| ==> Holds(vRecvMsg[i], frames[i]))
    }

    ghost predicate Valid()
      reads this, repr
    {
      Queue() && (|vRecvMsg| == |frames| + 1 ==> Waits(vRecvMsg[|frames|]))
    }

    /** The bytes of the incomplete message. */
    ghost function Partial(): seq<Byte>
      requires Valid()
      reads this, repr
    {
      if |vRecvMsg| == |frames| then [] else vRecvMsg[|frames|].Received()
    }

    /** The state is what the whole stream so far means, however it was cut up. */
    ghost predicate Matches(stream: seq<Byte>)
      reads this, repr
    {
      Valid() && Parse(stream) == Parsed(delivered + frames, Partial(), true)
    }

    lemma {:induction false} MatchesValid(stream: seq<Byte>)
      requires Matches(stream)
      ensures Valid() && Queue() && Parse(stream) == Parsed(delivered + frames, Partial(), true)
    {
    }

    constructor (messageStart: seq<Byte>, checksum: seq<Byte> -> nat)
      requires |messageStart| == 4
      ensures this.messageStart == messageStart && this.checksum == checksum
      ensures vRecvMsg == [] && delivered == [] && repr == {} && Matches([])
    {
      this.messageStart := messageStart;
      this.checksum := checksum;
      vRecvMsg := [];
      frames := [];
      delivered := [];
      repr := {};
    }

    /** The current incomplete message, or a new one. */
    method Current() returns (msg: NetMessage)
      requires Valid()
      modifies this
      ensures Valid() && |vRecvMsg| == |frames| + 1 && msg == vRecvMsg[|frames|]
      ensures frames == old(frames) && delivered == old(delivered) && Partial() == old(Partial())
      ensures msg in repr && fresh(repr - old(repr))
    {
      if |vRecvMsg| == 0 || vRecvMsg[|vRecvMsg| - 1].Complete() {
        msg := new NetMessage(messageStart);
        vRecvMsg := vRecvMsg + [msg];
        repr := repr + {msg};
      }
      msg := vRecvMsg[|vRecvMsg| - 1];
    }

    /** One turn of the receiving loop: takes in at least one byte, or refuses the stream. */
    method Absorb(pch: seq<Byte>) returns (handled: int)
      requires Valid() && |pch| > 0
      modifies this, repr
      ensures Queue() && delivered == old(delivered)
      ensures fresh(repr - old(repr))
      ensures handled < 0 ==> Oversized(old(Partial()) + pch) && frames == old(frames)
      ensures handled >= 0 ==> 0 < handled <= |pch| && Valid()
      ensures handled >= 0 ==> Parse(old(Partial()) + pch[..handled]).ok
      ensures handled >= 0 ==> frames == old(frames) + Parse(old(Partial()) + pch[..handled]).done
      ensures handled >= 0 ==> Partial() == Parse(old(Partial()) + pch[..handled]).rest
    {
      hide Parse, Oversized, NetMessage.Valid, NetMessage.Received, HeaderOk, Holds, Waits;
      ghost var was := Partial();
      var msg := Current();
      assert Waits(msg) && msg in repr;
      WaitsFor(msg);
      assert msg.Received() == was;
      assert forall i :: 0 <= i < |frames| ==> vRecvMsg[i] != msg && Holds(vRecvMsg[i], frames[i]);
      handled := Take(msg, pch);
      assert forall i :: 0 <= i < |frames| ==> Holds(vRecvMsg[i], frames[i]);
      if handled >= 0 {
        if msg.Complete() {
          HoldsNow(msg);
          frames := frames + [Frame(msg.hdr, msg.vRecv)];
        } else {
          WaitsFor(msg);
        }
      }
    }

    /** Takes in one chunk: the outcome is that of the whole stream, wherever the chunks were cut. */
    method ReceiveMsgBytes(pch: seq<Byte>, ghost stream: seq<Byte>) returns (ok: bool)
      requires Matches(stream)
      modifies this, repr
      ensures Queue() && delivered == old(delivered)
      ensures fresh(repr - old(repr))
      ensures ok == Parse(stream + pch).ok
      ensures delivered + frames == Parse(stream + pch).done
      ensures ok ==> Matches(stream + pch)
    {
      hide Parse, Oversized;
      var pos := 0;
      assert stream + pch[..0] == stream;
      while pos < |pch|
        invariant 0 <= pos <= |pch|
        invariant Matches(stream + pch[..pos]) && delivered == old(delivered)
        invariant fresh(repr - old(repr))
      {
        ghost var s, was := stream + pch[..pos], Partial();
        var handled := Absorb(pch[pos..]);
        if handled < 0 {
          ParseContinues(s, pch[pos..]);
          ParseStep(was + pch[pos..]);
          assert s + pch[pos..] == stream + pch;
          return false;
        }
        ParseContinues(s, pch[pos..][..handled]);
        assert s + pch[pos..][..handled] == stream + pch[..pos + handled];
        pos := pos + handled;
      }
      assert pch[..pos] == pch;
      return true;
    }

    /** A message that the handler skips: it goes on to the next one. */
    ghost predicate Skips(f: Frame) {
      f.header.start == messageStart && !Accepts(messageStart, checksum, f)
    }

    lemma {:induction false} CompleteIsFrame(i: nat)
      requires Valid() && i < |vRecvMsg| && vRecvMsg[i].Complete()
      ensures i < |frames| && frames[i] == Frame(vRecvMsg[i].hdr, vRecvMsg[i].vRecv)
    {
      hide NetMessage.Valid;
      assert i < |frames|;
      assert Holds(vRecvMsg[i], frames[i]);
    }

    lemma {:induction false} FrameIsComplete(i: nat)
      requires Valid() && i < |frames|
      ensures i < |vRecvMsg| && vRecvMsg[i].Complete()
    {
      hide NetMessage.Valid, Waits;
      assert Holds(vRecvMsg[i], frames[i]);
    }

    /** Whether a complete message has foreign start bytes, and whether it is handed on. */
    method Judge(msg: NetMessage) returns (foreign: bool, accepted: bool)
      ensures foreign == (msg.hdr.start != messageStart)
      ensures accepted == Accepts(messageStart, checksum, Frame(msg.hdr, msg.vRecv))
    {
      hide NameEnds;
      foreign, accepted := msg.hdr.start != messageStart, false;
      if !foreign {
        var valid := IsValid(msg.hdr, messageStart);
        accepted := valid && checksum(msg.vRecv) == msg.hdr.checksum;
      }
    }

    /** How many messages one run of the handler takes, and what it does with the last one. */
    method Scan() returns (ok: bool, handed: seq<Frame>, it: nat)
      requires Valid()
      ensures it <= |frames|
      ensures forall i :: 0 <= i < it - 1 ==> Skips(frames[i])
      ensures it < |frames| ==> it > 0 && !Skips(frames[it - 1])
      ensures ok == !EndsForeign(messageStart, frames[..it])
      ensures handed == Accepted(messageStart, checksum, frames[..it]) && |handed| <= 1
    {
      hide NetMessage.Valid, NetMessage.Received, Waits, HeaderOk, Accepts, Accepted;
      NoneAccepted(messageStart, checksum);
      it, ok, handed := 0, true, [];
      while ok && handed == [] && it < |vRecvMsg| && vRecvMsg[it].Complete()
        invariant it <= |frames|
        invariant forall i :: 0 <= i < it - 1 ==> Skips(frames[i])
        invariant it > 0 ==> (ok && handed == [] <==> Skips(frames[it - 1]))
        invariant it == 0 ==> ok && handed == []
        invariant ok == !EndsForeign(messageStart, frames[..it])
        invariant handed == Accepted(messageStart, checksum, frames[..it]) && |handed| <= 1
        decreases |vRecvMsg| - it
      {
        var msg := vRecvMsg[it];
        CompleteIsFrame(it);
        AcceptedStep(messageStart, checksum, frames[..it], frames[it]);
        assert frames[..it + 1] == frames[..it] + [frames[it]];
        it := it + 1;
        var foreign, accepted := Judge(msg);
        if foreign {
          ForeignIsRefused(messageStart, checksum, frames[it - 1]);
          ok := false;
        } else if accepted {
          handed := [Frame(msg.hdr, msg.vRecv)];
        }
      }
      if it < |frames| {
        FrameIsComplete(it);
      }
    }

    /**
     * The message handler, unless it is idle (a full send buffer, or requested data still to be sent): takes complete
     * messages, oldest first, skips those with an invalid header or checksum, and stops at the first one that it hands
     * on or that has foreign start bytes, which it reports.
     */
    method ProcessMessages(idle: bool, ghost stream: seq<Byte>) returns (ok: bool, handed: seq<Frame>, ghost taken: nat)
      requires Matches(stream)
      modifies this
      ensures Matches(stream) && repr == old(repr)
      ensures taken <= |old(frames)| && delivered == old(delivered) + old(frames)[..taken]
      ensures idle ==> taken == 0
      ensures forall i :: 0 <= i < taken - 1 ==> Skips(old(frames)[i])
      ensures !idle && taken < |old(frames)| ==> taken > 0 && !Skips(old(frames)[taken - 1])
      ensures ok == !EndsForeign(messageStart, old(frames)[..taken])
      ensures handed == Accepted(messageStart, checksum, old(frames)[..taken]) && |handed| <= 1
    {
      hide Parse, Accepts, Holds, Waits, Queue;
      taken := 0;
      if idle {
        return true, [], 0;
      }
      var it;
      ok, handed, it := Scan();
      taken := it;
      Erase(it);
    }

    /** Removes complete messages from the front of the queue. */
    method Erase(taken: nat)
      requires Valid() && taken <= |frames|
      modifies this
      ensures Valid() && repr == old(repr) && Partial() == old(Partial())
      ensures delivered == old(delivered) + old(frames)[..taken]
      ensures delivered + frames == old(delivered) + old(frames)
    {
      hide Holds, Waits, NetMessage.Valid, NetMessage.Received, NetMessage.Complete, HeaderOk;
      assert frames == frames[..taken] + frames[taken..];
      delivered := delivered + frames[..taken];
      frames := frames[taken..];
      vRecvMsg := vRecvMsg[taken..];
    }
  }

  /** What happens on a connection: a chunk arrives, or the handler runs. */
  datatype Event = Chunk(bytes: seq<Byte>) | Handler(idle: bool)

  ghost function AllBytes(events: seq<Event>): seq<Byte> {
    if |events| == 0 then []
    else AllBytes(events[..|events| - 1]) + Arrived(events[|events| - 1])
  }

  ghost function Arrived(e: Event): seq<Byte> {
    match e
    case Chunk(bytes) => bytes
    case Handler(_) => []
  }

  lemma {:induction false} AllBytesStep(events: seq<Event>, n: nat)
    requires n < |events|
    ensures AllBytes(events[..n + 1]) == AllBytes(events[..n]) + Arrived(events[n])
  {
    assert events[..n + 1][..n] == events[..n];
  }

  /** Refusal is final: the frames are those before the refusal, whatever would have followed. */
  lemma {:induction false} RestIgnored(events: seq<Event>, n: nat)
    requires n <= |events| && !Parse(AllBytes(events[..n])).ok
    ensures !Parse(AllBytes(events)).ok && Parse(AllBytes(events)).done == Parse(AllBytes(events[..n])).done
    decreases |events| - n
  {
    hide Parse;
    if n < |events| {
      AllBytesStep(events, n);
      RefusalStays(AllBytes(events[..n]), Arrived(events[n]));
      RestIgnored(events, n + 1);
    } else {
      assert events[..n] == events;
    }
  }

  /** Later events only add messages. */
  lemma {:induction false} DoneGrows(events: seq<Event>, n: nat)
    requires n <= |events|
    ensures Parse(AllBytes(events[..n])).done <= Parse(AllBytes(events)).done
    decreases |events| - n
  {
    hide Parse;
    if n < |events| {
      AllBytesStep(events, n);
      if Parse(AllBytes(events[..n])).ok {
        ParseContinues(AllBytes(events[..n]), Arrived(events[n]));
      } else {
        RefusalStays(AllBytes(events[..n]), Arrived(events[n]));
      }
      DoneGrows(events, n + 1);
    } else {
      assert events[..n] == events;
    }
  }

  lemma {:induction false} AcceptedMore(start: seq<Byte>, checksum: seq<Byte> -> nat, a: seq<Frame>, b: seq<Frame>)
    ensures Accepted(start, checksum, a + b) == Accepted(start, checksum, a) + Accepted(start, checksum, b)
    decreases |b|
  {
    hide Accepts;
    if |b| == 0 {
      assert a + b == a;
    } else {
      var c, f := b[..|b| - 1], b[|b| - 1];
      assert b == c + [f] && a + b == (a + c) + [f];
      AcceptedMore(start, checksum, a, c);
      AcceptedStep(start, checksum, c, f);
      AcceptedStep(start, checksum, a + c, f);
    }
  }

  /** Foreign start bytes can only be those of the last message. */
  ghost predicate OnlyLastForeign(start: seq<Byte>, fs: seq<Frame>) {
    forall i :: 0 <= i < |fs| - 1 ==> fs[i].header.start == start
  }

  ghost predicate EndsForeign(start: seq<Byte>, fs: seq<Frame>) {
    |fs| > 0 && fs[|fs| - 1].header.start != start
  }

  /** What one run of the handler adds to the messages delivered. */
  lemma {:induction false} Delivers(node: Node, was: seq<Frame>, more: seq<Frame>)
    requires OnlyLastForeign(node.messageStart, was) && !EndsForeign(node.messageStart, was)
    requires forall i :: 0 <= i < |more| - 1 ==> node.Skips(more[i])
    ensures OnlyLastForeign(node.messageStart, was + more)
    ensures EndsForeign(node.messageStart, was + more) == EndsForeign(node.messageStart, more)
  {
    hide Accepts;
  }

  /** The messages handed on are the acceptable ones of those delivered; only the last can close the connection. */
  ghost predicate Served(node: Node, handed: seq<Frame>, closed: bool)
    reads node
  {
    && handed == Accepted(node.messageStart, node.checksum, node.delivered)
    && OnlyLastForeign(node.messageStart, node.delivered)
    && closed == EndsForeign(node.messageStart, node.delivered)
  }

  lemma {:induction false} NothingYet(node: Node)
    requires node.delivered == []
    ensures Served(node, [], false)
  {
  }

  /** One event on an open connection. */
  method Happen(node: Node, e: Event, handed: seq<Frame>, ghost stream: seq<Byte>)
    returns (ok: bool, closed: bool, after: seq<Frame>)
    requires node.Matches(stream) && Served(node, handed, false)
    modifies node, node.repr
    ensures node.Queue() && fresh(node.repr - old(node.repr))
    ensures ok == Parse(stream + Arrived(e)).ok && (ok ==> node.Matches(stream + Arrived(e)))
    ensures node.delivered + node.frames == Parse(stream + Arrived(e)).done
    ensures Served(node, after, closed) && (closed ==> ok)
  {
    hide Parse, Accepted, OnlyLastForeign, EndsForeign, Node.Skips, Node.Valid, Node.Queue;
    match e {
      case Chunk(bytes) =>
        ok := node.ReceiveMsgBytes(bytes, stream);
        closed, after := false, handed;
      case Handler(idle) =>
        ghost var was, queued := node.delivered, node.frames;
        var fine, more;
        ghost var taken;
        fine, more, taken := node.ProcessMessages(idle, stream);
        AcceptedMore(node.messageStart, node.checksum, was, queued[..taken]);
        Delivers(node, was, queued[..taken]);
        ok, closed, after := true, !fine, handed + more;
        assert stream + [] == stream;
        node.MatchesValid(stream);
    }
  }

  /**
   * A connection from its start until it is closed: acceptance, the messages delivered or queued, and the bytes of the
   * incomplete message depend only on the bytes that arrived, not on how they were cut into chunks nor on when the
   * handler ran. Every delivered message with a valid header and checksum was handed on once, in the order of arrival;
   * the connection is closed at the first message with foreign start bytes that the handler meets.
   */
  method Connection(messageStart: seq<Byte>, checksum: seq<Byte> -> nat, events: seq<Event>)
    returns (node: Node, ok: bool, closed: bool, handed: seq<Frame>, ghost upto: nat)
    requires |messageStart| == 4
    ensures node.messageStart == messageStart && node.checksum == checksum
    ensures upto <= |events| && (!closed ==> upto == |events|)
    ensures node.Queue() && ok == Parse(AllBytes(events[..upto])).ok
    ensures node.delivered + node.frames == Parse(AllBytes(events[..upto])).done
    ensures ok ==> node.Valid() && node.Partial() == Parse(AllBytes(events[..upto])).rest
    ensures Served(node, handed, closed)
    ensures node.delivered <= Parse(AllBytes(events)).done
  {
    hide Parse, Served, Node.Queue, Node.Matches;
    node := new Node(messageStart, checksum);
    handed, closed := [], false;
    NothingYet(node);
    var n := 0;
    while n < |events| && !closed
      invariant 0 <= n <= |events| && fresh(node) && fresh(node.repr)
      invariant node.messageStart == messageStart && node.checksum == checksum
      invariant node.Matches(AllBytes(events[..n])) && Served(node, handed, closed)
      decreases |events| - n
    {
      AllBytesStep(events, n);
      ok, closed, handed := Happen(node, events[n], handed, AllBytes(events[..n]));
      n := n + 1;
      if !ok {
        RestIgnored(events, n);
        upto := |events|;
        assert events[..upto] == events;
        return;
      }
    }
    upto, ok := n, true;
    assert !closed ==> events[..n] == events;
    node.MatchesValid(AllBytes(events[..n]));
    DoneGrows(events, n);
  }
}
