/** The receiving end of a session: bytes arrive in arbitrary pieces behind what is already in a
    fixed array, complete packets are cut off its front and the rest is moved down. */
module ReceiveBuffer {
  import opened Framing

  const RECV_BUF_SIZE := 5 * MAX_PACKET_SIZE

  /** Parsing is a library matter: a function from the bytes of a payload to one of three outcomes. */
  datatype ParseOutcome<P> = Parsed(packet: P) | Unparseable | Throws

  /** The two library calls the scanner depends on. */
  datatype Codec<!P> = Codec(parse: seq<byte> -> ParseOutcome<P>, isValid: P -> bool)

  /** What one scan does with the buffered bytes: the frames it cuts off, the packets it queues,
      the bytes it keeps, and whether it closes the session. */
  datatype ScanResult<P> = ScanResult(frames: seq<seq<byte>>, packets: seq<P>, rest: seq<byte>, closes: bool)

  /** How an asynchronous read ends. */
  datatype ReadEnd = Aborted | Interrupted | Failed | Data(chunk: seq<byte>)

  ghost predicate HasFrame(buf: seq<byte>) {
    && NET_HEADER_SIZE <= |buf|
    && 1 <= FromNet32(buf) <= MAX_PACKET_SIZE
    && FromNet32(buf) + NET_HEADER_SIZE <= |buf|
  }

  ghost predicate BadHeader(buf: seq<byte>) {
    NET_HEADER_SIZE <= |buf| && !(1 <= FromNet32(buf) <= MAX_PACKET_SIZE)
  }

  ghost function FirstPayload(buf: seq<byte>): (p: seq<byte>)
    requires HasFrame(buf)
  {
    buf[NET_HEADER_SIZE..NET_HEADER_SIZE + FromNet32(buf)]
  }

  ghost function AfterFirst(buf: seq<byte>): (r: seq<byte>)
    requires HasFrame(buf)
    ensures |r| < |buf|
  {
    buf[NET_HEADER_SIZE + FromNet32(buf)..]
  }

  /** A scan stops at the first frame that does not parse, even if complete frames follow it. */
  ghost function Scan<P>(c: Codec<P>, buf: seq<byte>): ScanResult<P>
    decreases |buf|
  {
    if BadHeader(buf) then ScanResult([], [], [], true)
    else if !HasFrame(buf) then ScanResult([], [], buf, false)
    else
      var frame, rest := FirstPayload(buf), AfterFirst(buf);
      match c.parse(frame)
      case Unparseable => ScanResult([frame], [], rest, false)
      case Throws => ScanResult([frame], [], rest, false)
      case Parsed(p) =>
        if !c.isValid(p) then ScanResult([frame], [], rest, true)
        else
          var next := Scan(c, rest);
          ScanResult([frame] + next.frames, [p] + next.packets, next.rest, next.closes)
  }

  /** The packets that a list of frames is worth: the valid ones that parse, in order. */
  ghost function Worth<P>(c: Codec<P>, frames: seq<seq<byte>>): seq<P> {
    if frames == [] then []
    else
      var tail := Worth(c, frames[1..]);
      match c.parse(frames[0])
      case Parsed(p) => if c.isValid(p) then [p] + tail else tail
      case _ => tail
  }

  lemma {:induction false} WorthAppend<P>(c: Codec<P>, a: seq<seq<byte>>, b: seq<seq<byte>>)
    ensures Worth(c, a + b) == Worth(c, a) + Worth(c, b)
  {
    if a == [] {
      assert a + b == b;
    } else {
      assert (a + b)[1..] == a[1..] + b;
      WorthAppend(c, a[1..], b);
    }
  }

  predicate ParsesValid<P>(c: Codec<P>, frame: seq<byte>) {
    var o := c.parse(frame);
    o.Parsed? && c.isValid(o.packet)
  }

  lemma FirstFrameCut(buf: seq<byte>)
    requires HasFrame(buf)
    ensures Frameable(FirstPayload(buf))
    ensures buf == Frame(FirstPayload(buf)) + AfterFirst(buf)
  {
    Net32Inverse(buf);
  }

  lemma FrameableIsSmall(frames: seq<seq<byte>>)
    requires AllFrameable(frames)
    ensures AllSmall(frames)
  {
  }

  /** One frame in front of an accounted-for remainder. */
  lemma ConsAccount<P>(c: Codec<P>, frame: seq<byte>, frames: seq<seq<byte>>, rest: seq<byte>)
    requires Frameable(frame) && AllFrameable(frames)
    ensures AllFrameable([frame] + frames) && AllSmall([frame] + frames) && AllSmall(frames)
    ensures FrameAll([frame] + frames) == Frame(frame) + FrameAll(frames)
    ensures FrameAll([frame] + frames) + rest == Frame(frame) + (FrameAll(frames) + rest)
    ensures Worth(c, [frame] + frames) == Worth(c, [frame]) + Worth(c, frames)
  {
    assert ([frame] + frames)[1..] == frames;
    FrameableIsSmall(frames);
    assert Worth(c, [frame][1..]) == [];
  }

  /** What a scan removes is a sequence of whole frames, and what it queues is what these frames
      are worth; only a bad header makes it throw bytes away, and then it closes the session. */
  lemma {:induction false} ScanCutsWholeFrames<P>(c: Codec<P>, buf: seq<byte>)
    ensures var r := Scan(c, buf);
            && AllFrameable(r.frames) && AllSmall(r.frames)
            && r.packets == Worth(c, r.frames)
            && FrameAll(r.frames) <= buf && |FrameAll(r.frames)| + |r.rest| <= |buf|
            && (!r.closes ==> buf == FrameAll(r.frames) + r.rest)
    decreases |buf|
  {
    if !BadHeader(buf) && HasFrame(buf) {
      var frame, rest := FirstPayload(buf), AfterFirst(buf);
      FirstFrameCut(buf);
      if ParsesValid(c, frame) {
        ScanCutsWholeFrames(c, rest);
        ConsAccount(c, frame, Scan(c, rest).frames, Scan(c, rest).rest);
      } else {
        ConsAccount(c, frame, [], rest);
        assert [frame] + [] == [frame];
      }
    }
  }

  /** While the session stays open, a scan stops for one of two reasons only: there is no complete
      frame left, or the last frame it cut off was not worth a packet. */
  lemma {:induction false} ScanStopsForAReason<P>(c: Codec<P>, buf: seq<byte>)
    requires !Scan(c, buf).closes
    ensures var r := Scan(c, buf);
            || (!BadHeader(r.rest) && !HasFrame(r.rest))
            || (r.frames != [] && !ParsesValid(c, r.frames[|r.frames| - 1]))
    decreases |buf|
  {
    if HasFrame(buf) && ParsesValid(c, FirstPayload(buf)) {
      ScanStopsForAReason(c, AfterFirst(buf));
    }
  }

  predicate Refused<P>(c: Codec<P>, frame: seq<byte>) {
    var o := c.parse(frame);
    o.Parsed? && !c.isValid(o.packet)
  }

  /** A scan closes the session for one of two reasons only: the last frame it cut off held an invalid
      packet, or what follows the frames it cut off starts with a bad size. */
  lemma {:induction false} ScanClosesForAReason<P>(c: Codec<P>, buf: seq<byte>)
    requires Scan(c, buf).closes
    ensures var r := Scan(c, buf);
            && AllSmall(r.frames)
            && ((r.frames != [] && Refused(c, r.frames[|r.frames| - 1]))
                || (|FrameAll(r.frames)| <= |buf| && BadHeader(buf[|FrameAll(r.frames)|..])))
    decreases |buf|
  {
    if !BadHeader(buf) && HasFrame(buf) {
      var frame, rest := FirstPayload(buf), AfterFirst(buf);
      FirstFrameCut(buf);
      if ParsesValid(c, frame) {
        ScanClosesForAReason(c, rest);
        assert Scan(c, buf).frames == [frame] + Scan(c, rest).frames;
        hide Scan, HasFrame, BadHeader, FirstPayload, AfterFirst, Refused, FrameAll, Frame, ParsesValid;
        BehindFrame(c, frame, rest);
      } else {
        assert Scan(c, buf).frames == [frame] && Refused(c, frame);
        assert AllSmall([frame]);
      }
    } else {
      assert Scan(c, buf).frames == [];
    }
  }

  lemma BehindFrame<P>(c: Codec<P>, frame: seq<byte>, rest: seq<byte>)
    requires Frameable(frame)
    ensures var frames, buf := Scan(c, rest).frames, Frame(frame) + rest;
            && AllSmall(frames) && AllSmall([frame] + frames)
            && |FrameAll([frame] + frames)| == |Frame(frame)| + |FrameAll(frames)| && |FrameAll(frames)| <= |rest|
            && buf[|FrameAll([frame] + frames)|..] == rest[|FrameAll(frames)|..]
            && (frames != [] ==> ([frame] + frames)[|frames|] == frames[|frames| - 1])
  {
    hide Scan, FrameAll, Frame, Worth;
    var frames := Scan(c, rest).frames;
    ScanCutsWholeFrames(c, rest);
    ConsAccount(c, frame, frames, Scan(c, rest).rest);
    DropTwice(Frame(frame), FrameAll(frames), rest);
  }

  lemma DropTwice(a: seq<byte>, b: seq<byte>, rest: seq<byte>)
    requires |b| <= |rest|
    ensures (a + rest)[|a + b|..] == rest[|b|..]
  {
  }

  /** How many of a list of frames a scan cuts off when all of them are in the buffer: up to the first that
      is not worth a packet. */
  ghost function CutOff<P>(c: Codec<P>, ps: seq<seq<byte>>): (k: nat)
    ensures k <= |ps|
  {
    if ps == [] then 0 else if ParsesValid(c, ps[0]) then 1 + CutOff(c, ps[1..]) else 1
  }

  lemma {:induction false} CutOffMeaning<P>(c: Codec<P>, ps: seq<seq<byte>>)
    ensures CutOff(c, ps) == |ps| <==> forall i :: 0 <= i < |ps| - 1 ==> ParsesValid(c, ps[i])
  {
    hide ParsesValid;
    if |ps| > 1 {
      var rest := ps[1..];
      CutOffMeaning(c, rest);
      assert forall i :: 0 < i < |ps| ==> ps[i] == rest[i - 1];
      assert forall i :: 0 <= i < |rest| - 1 ==> rest[i] == ps[i + 1];
    }
  }

  lemma FirstOfFrames(p: seq<byte>, rest: seq<byte>)
    requires Frameable(p)
    ensures HasFrame(Frame(p) + rest) && FirstPayload(Frame(p) + rest) == p && AfterFirst(Frame(p) + rest) == rest
    ensures !BadHeader(Frame(p) + rest)
  {
    assert Frame(p) + rest == ToNet32(|p|) + (p + rest);
    Net32RoundTrip(|p|, p + rest);
  }

  lemma ScanOneOfFrames<P>(c: Codec<P>, p: seq<byte>, rest: seq<byte>)
    requires Frameable(p)
    ensures var r, next := Scan(c, Frame(p) + rest), Scan(c, rest);
            && r.frames == [p] + (if ParsesValid(c, p) then next.frames else [])
            && r.rest == if ParsesValid(c, p) then next.rest else rest
  {
    FirstOfFrames(p, rest);
    hide Frame, HasFrame, BadHeader, FirstPayload, AfterFirst;
  }

  lemma {:induction false} ScanOfFrames<P>(c: Codec<P>, ps: seq<seq<byte>>)
    requires AllFrameable(ps) && AllSmall(ps) && AllSmall(ps[CutOff(c, ps)..])
    ensures Scan(c, FrameAll(ps)).frames == ps[..CutOff(c, ps)]
    ensures Scan(c, FrameAll(ps)).rest == FrameAll(ps[CutOff(c, ps)..])
  {
    hide Scan, Frame, ParsesValid;
    if ps == [] {
      NothingToScan(c);
    } else {
      var p, rest := ps[0], ps[1..];
      assert p in ps && forall q <- rest :: q in ps;
      ScanOneOfFrames(c, p, FrameAll(rest));
      if ParsesValid(c, p) {
        assert ps[CutOff(c, ps)..] == rest[CutOff(c, rest)..];
        ScanOfFrames(c, rest);
        assert ps[..CutOff(c, ps)] == [p] + rest[..CutOff(c, rest)];
      } else {
        assert ps[..1] == [p];
      }
    }
  }

  lemma NothingToScan<P>(c: Codec<P>)
    ensures Scan(c, []) == ScanResult([], [], [], false)
  {
  }

  /** Progress: a scan that leaves the session open leaves room for at least one more byte. */
  lemma ScanLeavesRoom<P>(c: Codec<P>, buf: seq<byte>)
    requires |buf| <= RECV_BUF_SIZE
    ensures !Scan(c, buf).closes ==> |Scan(c, buf).rest| < RECV_BUF_SIZE
  {
    ScanCutsWholeFrames(c, buf);
    var r := Scan(c, buf);
    if r.frames != [] {
      assert |FrameAll(r.frames)| >= NET_HEADER_SIZE;
    }
  }

  class AsioReceiveBuffer<!P> {
    const codec: Codec<P>
    var recvBuf: array<byte>
    var recvBufUsed: nat
    var receivedPackets: seq<P>
    var closed: bool            // session state
    var handled: seq<P>         // what Session::HandlePacket has been given

    ghost predicate Valid()
      reads this
    {
      recvBuf.Length == RECV_BUF_SIZE && recvBufUsed <= RECV_BUF_SIZE
    }

    ghost function Buffered(): seq<byte>
      requires Valid()
      reads this, recvBuf
    {
      recvBuf[..recvBufUsed]
    }

    constructor (codec: Codec<P>)
      ensures Valid() && fresh(recvBuf) && Buffered() == [] && receivedPackets == [] && !closed && handled == []
      ensures this.codec == codec
    {
      this.codec := codec;
      recvBuf := new byte[RECV_BUF_SIZE];
      recvBufUsed, receivedPackets, closed, handled := 0, [], false, [];
    }

    /** memmove of everything behind the first `n` bytes to the front. */
    method DropFront(n: nat)
      requires Valid() && n <= recvBufUsed
      modifies this`recvBufUsed, recvBuf
      ensures Valid() && Buffered() == old(Buffered())[n..]
    {
      recvBufUsed := recvBufUsed - n;
      if recvBufUsed != 0 {
        forall i | 0 <= i < recvBufUsed {
          recvBuf[i] := recvBuf[n + i];
        }
      }
    }

    /** Parses the first frame and removes it, whatever comes of parsing it. */
    method TakeFrame(packetSize: nat) returns (tmpPacket: ParseOutcome<P>)
      requires Valid() && HasFrame(Buffered()) && packetSize == FromNet32(Buffered())
      modifies this`recvBufUsed, recvBuf
      ensures Valid() && Buffered() == AfterFirst(old(Buffered()))
      ensures tmpPacket == codec.parse(FirstPayload(old(Buffered())))
    {
      tmpPacket := codec.parse(recvBuf[NET_HEADER_SIZE..NET_HEADER_SIZE + packetSize]);
      assert FirstPayload(Buffered()) == recvBuf[NET_HEADER_SIZE..NET_HEADER_SIZE + packetSize];
      DropFront(packetSize + NET_HEADER_SIZE);
    }

    /** One round of the scan; `more` is `dataAvailable`, false also where the original returns. */
    method ScanOnce() returns (more: bool, ghost taken: seq<P>)
      requires Valid()
      modifies this`recvBufUsed, this`receivedPackets, this`closed, recvBuf
      ensures Valid() && receivedPackets == old(receivedPackets) + taken
      ensures more ==>
                var before, now := Scan(codec, old(Buffered())), Scan(codec, Buffered());
                && recvBufUsed < old(recvBufUsed) && closed == old(closed)
                && before.packets == taken + now.packets && before.rest == now.rest && before.closes == now.closes
      ensures !more ==>
                var before := Scan(codec, old(Buffered()));
                before.packets == taken && before.rest == Buffered() && closed == (old(closed) || before.closes)
    {
      more, taken := false, [];
      if recvBufUsed >= NET_HEADER_SIZE {
        var packetSize := FromNet32(recvBuf[..recvBufUsed]);
        if packetSize == 0 || packetSize > MAX_PACKET_SIZE {
          recvBufUsed := 0;
          closed := true;
          return;
        }
        if recvBufUsed >= packetSize + NET_HEADER_SIZE {
          var tmpPacket := TakeFrame(packetSize);
          if tmpPacket.Parsed? {
            if codec.isValid(tmpPacket.packet) {
              receivedPackets := receivedPackets + [tmpPacket.packet];
              more, taken := true, [tmpPacket.packet];
            } else {
              closed := true;
            }
          }
        }
      }
    }

    method ScanPackets()
      requires Valid()
      modifies this`recvBufUsed, this`receivedPackets, this`closed, recvBuf
      ensures Valid()
      ensures var r := Scan(codec, old(Buffered()));
              Buffered() == r.rest && receivedPackets == old(receivedPackets) + r.packets && closed == (old(closed) || r.closes)
    {
      hide Scan;
      ghost var whole := Scan(codec, Buffered());
      ghost var taken: seq<P> := [];
      var dataAvailable := true;
      while dataAvailable
        invariant Valid() && receivedPackets == old(receivedPackets) + taken
        invariant dataAvailable ==>
                    var now := Scan(codec, Buffered());
                    && closed == old(closed)
                    && whole.packets == taken + now.packets && whole.rest == now.rest && whole.closes == now.closes
        invariant !dataAvailable ==>
                    whole.packets == taken && whole.rest == Buffered() && closed == (old(closed) || whole.closes)
        decreases dataAvailable, recvBufUsed
      {
        ghost var one;
        dataAvailable, one := ScanOnce();
        if dataAvailable {
          ghost var now := Scan(codec, Buffered());
          assert taken + (one + now.packets) == (taken + one) + now.packets;
        }
        taken := taken + one;
      }
    }

    /** Hands the queued packets over. The handler may throw after some of them, which leaves the
        others queued, and may close the session on the way. */
    method ProcessPackets(throwsAfter: nat, handlerCloses: bool) returns (threw: bool)
      requires Valid()
      modifies this`recvBufUsed, this`receivedPackets, this`closed, this`handled
      ensures Valid() && (threw <==> throwsAfter < |old(receivedPackets)|)
      ensures threw ==> handled == old(handled) + old(receivedPackets)[..throwsAfter]
      ensures threw ==> receivedPackets == old(receivedPackets)[throwsAfter..]
      ensures !threw ==> handled == old(handled) + old(receivedPackets) && receivedPackets == []
      ensures closed == (old(closed) || handlerCloses || (!threw && old(recvBufUsed) == RECV_BUF_SIZE))
      ensures Buffered() == if !threw && old(recvBufUsed) == RECV_BUF_SIZE then [] else old(Buffered())
    {
      closed := closed || handlerCloses;
      var count := 0;
      while receivedPackets != []
        invariant count <= throwsAfter && count <= |old(receivedPackets)|
        invariant handled == old(handled) + old(receivedPackets)[..count]
        invariant receivedPackets == old(receivedPackets)[count..]
        invariant recvBufUsed == old(recvBufUsed) && closed == (old(closed) || handlerCloses)
        decreases |receivedPackets|
      {
        if count == throwsAfter {
          return true;
        }
        handled := handled + [receivedPackets[0]];
        receivedPackets := receivedPackets[1..];
        count := count + 1;
      }
      if recvBufUsed >= RECV_BUF_SIZE {
        recvBufUsed := 0;
        closed := true;
      }
      return false;
    }

    /** `chunk` is what the socket has put behind the used part of the buffer. The handler counts it
        in unless its bounds check refuses. */
    method AcceptChunk(chunk: seq<byte>) returns (ok: bool)
      requires Valid()
      modifies this`recvBufUsed, this`closed, recvBuf
      ensures Valid() && (ok <==> old(recvBufUsed) < RECV_BUF_SIZE && |chunk| <= RECV_BUF_SIZE - old(recvBufUsed))
      ensures closed == (old(closed) || !ok)
      ensures Buffered() == old(Buffered()) + if ok then chunk else []
    {
      if recvBufUsed >= RECV_BUF_SIZE || |chunk| > RECV_BUF_SIZE - recvBufUsed {
        closed := true;
        return false;
      }
      forall i | 0 <= i < |chunk| {
        recvBuf[recvBufUsed + i] := chunk[i];
      }
      assert recvBuf[..recvBufUsed + |chunk|] == old(Buffered()) + chunk;
      recvBufUsed := recvBufUsed + |chunk|;
      return true;
    }

    /** The bytes of a completed read. The socket takes no more than the free space it was given; as long
        as there was some, neither the bounds check nor the "receive buf full" branch closes the
        session, and a session left open has free space again. */
    method HandleChunk(chunk: seq<byte>, throwsAfter: nat, handlerCloses: bool)
      requires Valid() && !closed && receivedPackets == []
      modifies this, recvBuf
      ensures Valid() && recvBuf == old(recvBuf)
      ensures !(old(recvBufUsed) < RECV_BUF_SIZE && |chunk| <= RECV_BUF_SIZE - old(recvBufUsed)) ==> closed && handled == old(handled)
      ensures var r := Scan(codec, old(Buffered()) + chunk);
              old(recvBufUsed) < RECV_BUF_SIZE && |chunk| <= RECV_BUF_SIZE - old(recvBufUsed) ==>
                && closed == (r.closes || throwsAfter < |r.packets| || handlerCloses)
                && handled == old(handled) + (if r.closes then [] else if throwsAfter < |r.packets| then r.packets[..throwsAfter] else r.packets)
                && (!closed ==> receivedPackets == [] && Buffered() == r.rest && recvBufUsed < RECV_BUF_SIZE)
    {
      hide Scan;
      var ok := AcceptChunk(chunk);
      if !ok {
        return;
      }
      ScanLeavesRoom(codec, Buffered());
      ghost var r := Scan(codec, Buffered());
      ScanPackets();
      if closed {
        return;
      }
      assert receivedPackets == r.packets;
      var threw := ProcessPackets(throwsAfter, handlerCloses);
      if threw {
        closed := true;
      }
    }

    /** Any end of a read. Whether the next read is started is returned: after data that leaves the session
        open, and after an interruption, which changes nothing. An aborted read has no effect at all,
        any other error closes the session and leaves the buffer as it is. */
    method HandleRead(end: ReadEnd, throwsAfter: nat, handlerCloses: bool) returns (reading: bool)
      requires Valid() && !closed && receivedPackets == []
      modifies this, recvBuf
      ensures Valid() && recvBuf == old(recvBuf)
      ensures reading ==> !closed && receivedPackets == []
      ensures !end.Data? ==> Buffered() == old(Buffered()) && handled == old(handled)
      ensures end.Aborted? ==> !reading && !closed
      ensures end.Interrupted? ==> reading
      ensures end.Failed? ==> closed
      ensures end.Data? ==>
                && reading == !closed
                && var fits, r := old(recvBufUsed) < RECV_BUF_SIZE && |end.chunk| <= RECV_BUF_SIZE - old(recvBufUsed), Scan(codec, old(Buffered()) + end.chunk);
                   && closed == (!fits || r.closes || throwsAfter < |r.packets| || handlerCloses)
                   && handled == old(handled) + (if !fits || r.closes then [] else if throwsAfter < |r.packets| then r.packets[..throwsAfter] else r.packets)
                   && (!closed ==> Buffered() == r.rest && recvBufUsed < RECV_BUF_SIZE)
    {
      reading := false;
      match end {
        case Aborted =>
        case Interrupted =>
          reading := true;
        case Failed =>
          closed := true;
        case Data(chunk) =>
          HandleChunk(chunk, throwsAfter, handlerCloses);
          reading := !closed;
      }
    }
  }
}
