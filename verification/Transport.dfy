/** Both ends of a session and the network between them. The network cuts the byte stream
    anywhere; storing, sending, transmitting, write completions and reads interleave freely. */
module Transport {
  import opened Framing
  import opened SendBuffer
  import opened ReceiveBuffer

  /** The receiving session: the bytes it has read, the frames it has cut off, the packets it has
      been handed, the bytes still buffered, whether it has closed, and whether the handler of its packets
      made it do so. */
  datatype Receiver<P> = Receiver(read: seq<byte>, frames: seq<seq<byte>>, delivered: seq<P>, buf: seq<byte>, closed: bool, troubled: bool)

  /** What the handler does with the packets of one read: it takes them all, throws behind so many of them,
      or closes the session on the way. */
  datatype Handling = Smooth | ThrowsAfter(handled: nat) | ClosesSession

  predicate Trouble(h: Handling, packets: nat) {
    (h.ThrowsAfter? && h.handled < packets) || h.ClosesSession?
  }

  function Handed<P>(h: Handling, packets: seq<P>): (r: seq<P>)
    ensures r <= packets && (!Trouble(h, |packets|) ==> r == packets)
  {
    if h.ThrowsAfter? && h.handled < |packets| then packets[..h.handled] else packets
  }

  /** `wire` is what the network has taken from the sender so far; the first `onWire` bytes of the
      write in flight are part of it. */
  datatype Link<P> = Link(sender: SendRun, wire: seq<byte>, onWire: nat, receiver: Receiver<P>)

  datatype LinkEvent =
    | Sender(e: SendEvent)
    | Transmit(count: nat)
    | Read(count: nat, handling: Handling)

  /** A read takes at most the free space of the receive buffer, out of what has arrived. A write
      succeeds when all of it is on the wire; a closed socket transmits nothing. */
  predicate CanHappen<P>(l: Link<P>, e: LinkEvent) {
    match e
    case Sender(se) =>
      && Enabled(l.sender, se)
      && (se.WriteSucceeds? ==> l.onWire == |l.sender.s.inFlight| && !l.sender.s.closed)
    case Transmit(n) => l.onWire + n <= |l.sender.s.inFlight| && !l.sender.s.closed
    case Read(n, h) =>
      && !l.receiver.closed
      && n <= RECV_BUF_SIZE - |l.receiver.buf|
      && |l.receiver.read| + n <= |l.wire|
  }

  /** The value-level counterpart of AsioReceiveBuffer.HandleChunk. */
  ghost function ReadStep<P>(c: Codec<P>, r: Receiver<P>, chunk: seq<byte>, h: Handling): Receiver<P> {
    var scan := Scan(c, r.buf + chunk);
    var troubled := !scan.closes && Trouble(h, |scan.packets|);
    Receiver(r.read + chunk, r.frames + scan.frames,
             if scan.closes then r.delivered else r.delivered + Handed(h, scan.packets),
             scan.rest, scan.closes || troubled, troubled)
  }

  ghost function LinkStep<P>(c: Codec<P>, l: Link<P>, e: LinkEvent): Link<P>
    requires CanHappen(l, e)
  {
    match e
    case Sender(se) =>
      l.(sender := SendStep(l.sender, se), onWire := if se.WriteSucceeds? || se.WriteFails? then 0 else l.onWire)
    case Transmit(n) =>
      l.(wire := l.wire + l.sender.s.inFlight[l.onWire..l.onWire + n], onWire := l.onWire + n)
    case Read(n, h) =>
      l.(receiver := ReadStep(c, l.receiver, l.wire[|l.receiver.read|..|l.receiver.read| + n], h))
  }

  ghost predicate Legal<P>(c: Codec<P>, l: Link<P>, es: seq<LinkEvent>)
    decreases |es|
  {
    es == [] || (CanHappen(l, es[0]) && Legal(c, LinkStep(c, l, es[0]), es[1..]))
  }

  ghost function LinkRun<P>(c: Codec<P>, l: Link<P>, es: seq<LinkEvent>): Link<P>
    requires Legal(c, l, es)
    decreases |es|
  {
    if es == [] then l else LinkRun(c, LinkStep(c, l, es[0]), es[1..])
  }

  ghost function LinkStart<P>(): Link<P> {
    Link(SEND_START, [], 0, Receiver([], [], [], [], false, false))
  }

  // ---------------------------------------------------------------------------------------------

  /** Before a failure or a close the wire is exactly what was written plus the transmitted part of
      the write in flight; afterwards it stays a prefix of the accepted frames. */
  ghost predicate SenderInv<P>(l: Link<P>) {
    && Conserved(l.sender)
    && l.onWire <= |l.sender.s.inFlight|
    && l.wire <= FrameAll(l.sender.accepted)
    && (!l.sender.s.closed ==> !l.sender.failed && l.wire == l.sender.written + l.sender.s.inFlight[..l.onWire])
  }

  ghost predicate ReceiverInv<P>(c: Codec<P>, l: Link<P>) {
    var r := l.receiver;
    && r.read <= l.wire
    && AllFrameable(r.frames) && AllSmall(r.frames)
    && |r.buf| <= RECV_BUF_SIZE
    && FrameAll(r.frames) <= r.read
    && r.delivered <= Worth(c, r.frames)
    && (r.troubled ==> r.closed)
    && (!r.closed || r.troubled ==> r.read == FrameAll(r.frames) + r.buf && |r.buf| < RECV_BUF_SIZE)
    && (!r.closed ==> r.delivered == Worth(c, r.frames))
  }

  lemma SenderEventInv<P>(c: Codec<P>, l: Link<P>, se: SendEvent)
    requires SenderInv(l) && CanHappen(l, Sender(se))
    ensures SenderInv(LinkStep(c, l, Sender(se)))
  {
    hide FrameAll, Frame;
    SendStepConserves(l.sender, se);
    if se.Store? && Accepts(l.sender.s, se.payload) {
      FrameAllOne(se.payload);
      FrameAllAppend(l.sender.accepted, [se.payload]);
    }
    if se.WriteSucceeds? {
      assert l.sender.s.inFlight[..l.onWire] == l.sender.s.inFlight;
    }
  }

  lemma TransmitInv<P>(c: Codec<P>, l: Link<P>, n: nat)
    requires SenderInv(l) && CanHappen(l, Transmit(n))
    ensures SenderInv(LinkStep(c, l, Transmit(n)))
  {
    hide FrameAll;
    var s, wire := l.sender.s, LinkStep(c, l, Transmit(n)).wire;
    assert wire == l.sender.written + s.inFlight[..l.onWire + n];
    assert FrameAll(l.sender.accepted) == wire + (s.inFlight[l.onWire + n..] + s.pending);
  }

  lemma SenderStepInv<P>(c: Codec<P>, l: Link<P>, e: LinkEvent)
    requires SenderInv(l) && CanHappen(l, e)
    ensures SenderInv(LinkStep(c, l, e))
  {
    match e
    case Sender(se) => SenderEventInv(c, l, se);
    case Transmit(n) => TransmitInv(c, l, n);
    case Read(n, h) =>
  }

  /** What a read does to a receiver, in terms of the scan of what is then in the buffer. */
  lemma ReadScans<P>(c: Codec<P>, l: Link<P>, n: nat, h: Handling)
    requires ReceiverInv(c, l) && CanHappen(l, Read(n, h))
    ensures var r, t, buf := l.receiver, LinkStep(c, l, Read(n, h)).receiver, l.receiver.buf + l.wire[|l.receiver.read|..|l.receiver.read| + n];
            var scan := Scan(c, buf);
            && |buf| <= RECV_BUF_SIZE && t.read <= l.wire == LinkStep(c, l, Read(n, h)).wire
            && t.read == FrameAll(r.frames) + buf && t.frames == r.frames + scan.frames
            && r.delivered == Worth(c, r.frames)
            && r.delivered <= t.delivered <= r.delivered + scan.packets
            && (!t.closed ==> t.delivered == r.delivered + scan.packets)
            && t.buf == scan.rest && t.closed == (scan.closes || t.troubled) && !(scan.closes && t.troubled)
  {
    hide Scan, Worth, FrameAll, Trouble;
    assert LinkStep(c, l, Read(n, h)).receiver.read == l.wire[..|l.receiver.read| + n];
  }

  lemma ReceiverStepInv<P>(c: Codec<P>, l: Link<P>, e: LinkEvent)
    requires ReceiverInv(c, l) && CanHappen(l, e)
    ensures ReceiverInv(c, LinkStep(c, l, e))
  {
    hide FrameAll, Scan, Worth, SendStep;
    if e.Read? {
      var r := l.receiver;
      var buf := r.buf + l.wire[|r.read|..|r.read| + e.count];
      var scan := Scan(c, buf);
      ReadScans(c, l, e.count, e.handling);
      ScanCutsWholeFrames(c, buf);
      ScanLeavesRoom(c, buf);
      FrameAllAppend(r.frames, scan.frames);
      WorthAppend(c, r.frames, scan.frames);
      hide LinkStep, CanHappen;
      assert !scan.closes ==> FrameAll(r.frames) + buf == FrameAll(r.frames) + FrameAll(scan.frames) + scan.rest;
    }
  }

  lemma {:induction false} LinkInvariant<P>(c: Codec<P>, l: Link<P>, es: seq<LinkEvent>)
    requires SenderInv(l) && ReceiverInv(c, l) && Legal(c, l, es)
    ensures SenderInv(LinkRun(c, l, es)) && ReceiverInv(c, LinkRun(c, l, es))
    decreases |es|
  {
    if es != [] {
      SenderStepInv(c, l, es[0]);
      ReceiverStepInv(c, l, es[0]);
      LinkInvariant(c, LinkStep(c, l, es[0]), es[1..]);
    }
  }

  ghost predicate Reachable<P>(c: Codec<P>, l: Link<P>) {
    exists es :: Legal(c, LinkStart(), es) && LinkRun(c, LinkStart(), es) == l
  }

  lemma ReachableInv<P>(c: Codec<P>, l: Link<P>)
    requires Reachable(c, l)
    ensures SenderInv(l) && ReceiverInv(c, l)
  {
    var es :| Legal(c, LinkStart(), es) && LinkRun(c, LinkStart(), es) == l;
    LinkInvariant(c, LinkStart(), es);
  }

  /** End to end, at all times: whatever was stored, however sends and writes interleaved and
      wherever the network cut, the frames the receiver has cut off are a prefix of the packets the
      sender accepted, and what its session was handed is a prefix of what they are worth. An open
      receiver can always read on when bytes have arrived. */
  lemma DeliveredIsPrefixOfAccepted<P>(c: Codec<P>, l: Link<P>)
    requires Reachable(c, l)
    ensures l.receiver.frames <= l.sender.accepted
    ensures l.receiver.delivered <= Worth(c, l.sender.accepted)
    ensures !l.receiver.closed ==> l.receiver.delivered == Worth(c, l.receiver.frames)
    ensures !l.receiver.closed && |l.receiver.read| < |l.wire| ==> CanHappen(l, Read(1, Smooth))
  {
    ReachableInv(c, l);
    var frames, accepted := l.receiver.frames, l.sender.accepted;
    FramingIsPrefixFree(frames, accepted);
    assert accepted == frames + accepted[|frames|..];
    WorthAppend(c, frames, accepted[|frames|..]);
  }

  ghost predicate AllArrived<P>(l: Link<P>) {
    AllSmall(l.sender.accepted) && l.receiver.read == FrameAll(l.sender.accepted)
  }

  ghost predicate AllParse<P>(c: Codec<P>, ps: seq<seq<byte>>) {
    forall p <- ps :: ParsesValid(c, p)
  }

  lemma {:induction false} WorthOfParsing<P>(c: Codec<P>, ps: seq<seq<byte>>)
    requires AllParse(c, ps)
    ensures |Worth(c, ps)| == |ps|
    ensures forall i :: 0 <= i < |ps| ==> c.parse(ps[i]) == Parsed(Worth(c, ps)[i])
  {
    if ps != [] {
      assert forall p <- ps[1..] :: p in ps;
      assert ps[0] in ps && ParsesValid(c, ps[0]);
      WorthOfParsing(c, ps[1..]);
      assert forall i :: 0 < i < |ps| ==> ps[i] == ps[1..][i - 1];
    }
  }

  // ---------------------------------------------------------------------------------------------
  // Why a receiver has closed, and why it has stopped.

  /** A receiver that is open, or was closed by its handler only, has no complete frame in its buffer, unless
      the last frame it cut off was not worth a packet. One that was closed otherwise had an invalid packet
      or a bad size before it. */
  ghost predicate Settled<P>(c: Codec<P>, r: Receiver<P>)
    requires AllSmall(r.frames)
  {
    var last, cut := |r.frames| - 1, |FrameAll(r.frames)|;
    && (!r.closed || r.troubled ==> (!HasFrame(r.buf) && !BadHeader(r.buf)) || (last >= 0 && !ParsesValid(c, r.frames[last])))
    && (r.closed && !r.troubled ==> (last >= 0 && Refused(c, r.frames[last])) || (cut <= |r.read| && BadHeader(r.read[cut..])))
  }

  lemma TailOfRead(before: seq<seq<byte>>, cut: seq<seq<byte>>, buf: seq<byte>)
    requires AllSmall(before) && AllSmall(cut) && FrameAll(cut) <= buf
    ensures AllSmall(before + cut) && |FrameAll(before + cut)| <= |FrameAll(before) + buf|
    ensures (FrameAll(before) + buf)[|FrameAll(before + cut)|..] == buf[|FrameAll(cut)|..]
  {
    FrameAllAppend(before, cut);
    hide FrameAll;
  }

  lemma LastOf<T>(before: seq<T>, cut: seq<T>)
    requires cut != []
    ensures (before + cut)[|before + cut| - 1] == cut[|cut| - 1]
  {
  }

  lemma OpenByScan<P>(c: Codec<P>, before: seq<seq<byte>>, buf: seq<byte>)
    requires !Scan(c, buf).closes
    ensures var frames, rest := before + Scan(c, buf).frames, Scan(c, buf).rest;
            (!HasFrame(rest) && !BadHeader(rest)) || (frames != [] && !ParsesValid(c, frames[|frames| - 1]))
  {
    ScanStopsForAReason(c, buf);
    hide Scan, HasFrame, BadHeader, ParsesValid;
    if Scan(c, buf).frames != [] {
      LastOf(before, Scan(c, buf).frames);
    }
  }

  lemma ClosedByScan<P>(c: Codec<P>, before: seq<seq<byte>>, buf: seq<byte>)
    requires AllSmall(before) && Scan(c, buf).closes
    ensures var frames, read := before + Scan(c, buf).frames, FrameAll(before) + buf;
            && AllSmall(frames)
            && ((frames != [] && Refused(c, frames[|frames| - 1]))
                || (|FrameAll(frames)| <= |read| && BadHeader(read[|FrameAll(frames)|..])))
  {
    ScanClosesForAReason(c, buf);
    ScanCutsWholeFrames(c, buf);
    hide Scan, Worth, FrameAll, HasFrame, BadHeader, ParsesValid, Refused;
    TailOfRead(before, Scan(c, buf).frames, buf);
    if Scan(c, buf).frames != [] {
      LastOf(before, Scan(c, buf).frames);
    }
  }

  lemma SettledByScan<P>(c: Codec<P>, t: Receiver<P>, before: seq<seq<byte>>, buf: seq<byte>)
    requires AllSmall(before) && AllSmall(t.frames) && t.read == FrameAll(before) + buf
    requires t.frames == before + Scan(c, buf).frames && t.buf == Scan(c, buf).rest
    requires t.closed == (Scan(c, buf).closes || t.troubled) && !(Scan(c, buf).closes && t.troubled)
    ensures Settled(c, t)
  {
    hide Scan, Worth, FrameAll, HasFrame, BadHeader, ParsesValid, Refused;
    if Scan(c, buf).closes {
      ClosedByScan(c, before, buf);
    } else {
      OpenByScan(c, before, buf);
    }
  }

  lemma SettledRead<P>(c: Codec<P>, l: Link<P>, n: nat, h: Handling)
    requires ReceiverInv(c, l) && CanHappen(l, Read(n, h)) && ReceiverInv(c, LinkStep(c, l, Read(n, h)))
    ensures Settled(c, LinkStep(c, l, Read(n, h)).receiver)
  {
    ReadScans(c, l, n, h);
    SettledByScan(c, LinkStep(c, l, Read(n, h)).receiver, l.receiver.frames, l.receiver.buf + l.wire[|l.receiver.read|..|l.receiver.read| + n]);
    hide Scan, Settled, LinkStep;
  }

  lemma SettledStep<P>(c: Codec<P>, l: Link<P>, e: LinkEvent)
    requires ReceiverInv(c, l) && Settled(c, l.receiver) && CanHappen(l, e)
    requires ReceiverInv(c, LinkStep(c, l, e))
    ensures Settled(c, LinkStep(c, l, e).receiver)
  {
    if e.Read? {
      SettledRead(c, l, e.count, e.handling);
    } else {
      hide Settled, ReceiverInv, SendStep;
    }
  }

  lemma {:induction false} SettledAlong<P>(c: Codec<P>, l: Link<P>, es: seq<LinkEvent>)
    requires SenderInv(l) && ReceiverInv(c, l) && Settled(c, l.receiver) && Legal(c, l, es)
    ensures ReceiverInv(c, LinkRun(c, l, es)) && Settled(c, LinkRun(c, l, es).receiver)
    decreases |es|
  {
    if es != [] {
      SenderStepInv(c, l, es[0]);
      ReceiverStepInv(c, l, es[0]);
      SettledStep(c, l, es[0]);
      hide Settled, SenderInv, LinkStep, CanHappen;
      SettledAlong(c, LinkStep(c, l, es[0]), es[1..]);
    }
  }

  lemma ReachableSettled<P>(c: Codec<P>, l: Link<P>)
    requires Reachable(c, l)
    ensures SenderInv(l) && ReceiverInv(c, l) && Settled(c, l.receiver)
  {
    ReachableInv(c, l);
    var es :| Legal(c, LinkStart(), es) && LinkRun(c, LinkStart(), es) == l;
    SettledAlong(c, LinkStart(), es);
  }

  /** What follows whole frames in a stream of frames: more of them. */
  lemma RestOfStream(cut: seq<seq<byte>>, all: seq<seq<byte>>, read: seq<byte>)
    requires AllSmall(cut) && AllSmall(all) && FrameAll(cut) <= read <= FrameAll(all)
    ensures cut <= all && AllSmall(all[|cut|..])
    ensures read[|FrameAll(cut)|..] <= FrameAll(all[|cut|..])
    ensures read == FrameAll(all) ==> read[|FrameAll(cut)|..] == FrameAll(all[|cut|..])
  {
    FramingIsPrefixFree(cut, all);
    var left := all[|cut|..];
    assert all == cut + left;
    hide FrameAll;
    FrameAllAppend(cut, left);
  }

  /** A stream of frames starts with the size of the first. */
  lemma SizeOfFirst(left: seq<seq<byte>>, tail: seq<byte>)
    requires AllSmall(left) && tail <= FrameAll(left) && |tail| >= NET_HEADER_SIZE
    ensures left != [] && FromNet32(tail) == |left[0]|
  {
    assert left != [];
    assert FrameAll(left) == ToNet32(|left[0]|) + (left[0] + FrameAll(left[1..]));
    assert tail == ToNet32(|left[0]|) + tail[NET_HEADER_SIZE..];
    Net32RoundTrip(|left[0]|, tail[NET_HEADER_SIZE..]);
  }

  /** A receiver that its handler did not close has closed for one of two reasons: it has cut off a frame with
      an invalid packet, or the next packet that the sender accepted has a size of 0 or of more than
      MAX_PACKET_SIZE. */
  lemma ClosedForAReason<P>(c: Codec<P>, l: Link<P>)
    requires Reachable(c, l) && l.receiver.closed && !l.receiver.troubled
    ensures var frames, accepted := l.receiver.frames, l.sender.accepted;
            || (frames != [] && Refused(c, frames[|frames| - 1]))
            || (|frames| < |accepted| && !Frameable(accepted[|frames|]))
  {
    hide Reachable, Refused, FrameAll, ParsesValid, HasFrame, Worth, SendStep;
    ReachableSettled(c, l);
    var r, accepted := l.receiver, l.sender.accepted;
    RestOfStream(r.frames, accepted, r.read);
    var tail := r.read[|FrameAll(r.frames)|..];
    if BadHeader(tail) {
      SizeOfFirst(accepted[|r.frames|..], tail);
    }
  }

  /** A receiver that has read everything, open or closed by its handler only, keeps a packet back only behind one that it could not
      parse. */
  lemma KeptBackForAReason<P>(c: Codec<P>, l: Link<P>)
    requires Reachable(c, l) && AllArrived(l) && (!l.receiver.closed || l.receiver.troubled) && l.receiver.frames != l.sender.accepted
    ensures var frames := l.receiver.frames;
            frames < l.sender.accepted && frames != [] && !ParsesValid(c, frames[|frames| - 1])
  {
    hide Reachable, Refused, ParsesValid, Worth, SendStep;
    ReachableSettled(c, l);
    var r, accepted := l.receiver, l.sender.accepted;
    RestOfStream(r.frames, accepted, r.read);
    var left := accepted[|r.frames|..];
    assert r.buf == FrameAll(left) && left != [];
    assert |r.buf| >= |Frame(left[0])|;
    SizeOfFirst(left, r.buf);
    hide FrameAll;
  }

  lemma LastParses<P>(c: Codec<P>, frames: seq<seq<byte>>, accepted: seq<seq<byte>>)
    requires AllParse(c, accepted) && frames <= accepted
    ensures frames != [] ==> ParsesValid(c, frames[|frames| - 1])
  {
    if frames != [] {
      assert frames[|frames| - 1] in accepted;
    }
  }

  lemma NothingLeftOver<P>(c: Codec<P>, l: Link<P>)
    requires Reachable(c, l) && AllArrived(l) && AllParse(c, l.sender.accepted) && (!l.receiver.closed || l.receiver.troubled)
    ensures l.receiver.frames == l.sender.accepted && l.receiver.buf == []
  {
    hide Reachable, ParsesValid, Worth, SendStep;
    ReachableInv(c, l);
    if l.receiver.frames != l.sender.accepted {
      KeptBackForAReason(c, l);
      LastParses(c, l.receiver.frames, l.sender.accepted);
    }
  }

  lemma OpenIffFrameable<P>(c: Codec<P>, l: Link<P>)
    requires Reachable(c, l) && AllArrived(l) && AllParse(c, l.sender.accepted)
    ensures !l.receiver.closed || l.receiver.troubled <==> AllFrameable(l.sender.accepted)
  {
    var frames, accepted := l.receiver.frames, l.sender.accepted;
    hide Reachable, Worth, SendStep, FrameAll;
    ReachableInv(c, l);
    if l.receiver.closed && !l.receiver.troubled {
      ClosedForAReason(c, l);
      FramingIsPrefixFree(frames, accepted);
      assert frames != [] ==> frames[|frames| - 1] in accepted;
      assert |frames| < |accepted| ==> accepted[|frames|] in accepted;
    } else {
      NothingLeftOver(c, l);
    }
  }

  /** Once every byte has arrived, provided the packets parse and are valid, the receiver has cut off exactly
      the accepted packets if and only if each of them has a size between 1 and MAX_PACKET_SIZE, whatever
      its handler does. It is open if and only if, besides, the handler made no trouble, and just then its
      session has been handed what all of them parse to. The sender does not check the size. */
  lemma EverythingArrives<P>(c: Codec<P>, l: Link<P>)
    requires Reachable(c, l) && AllArrived(l) && AllParse(c, l.sender.accepted)
    ensures l.receiver.frames == l.sender.accepted <==> AllFrameable(l.sender.accepted)
    ensures !l.receiver.closed <==> AllFrameable(l.sender.accepted) && !l.receiver.troubled
    ensures AllFrameable(l.sender.accepted) ==> l.receiver.buf == []
    ensures !l.receiver.closed ==>
              && |l.receiver.delivered| == |l.sender.accepted|
              && forall i :: 0 <= i < |l.sender.accepted| ==> c.parse(l.sender.accepted[i]) == Parsed(l.receiver.delivered[i])
  {
    hide Reachable, ParsesValid, FrameAll;
    ReachableInv(c, l);
    OpenIffFrameable(c, l);
    if AllFrameable(l.sender.accepted) {
      NothingLeftOver(c, l);
      WorthOfParsing(c, l.sender.accepted);
    }
  }

  /** The last read finds all frames that were not cut off before it. */
  lemma LastRead<P>(c: Codec<P>, l: Link<P>, n: nat, h: Handling)
    requires Reachable(c, l) && CanHappen(l, Read(n, h)) && AllArrived(LinkStep(c, l, Read(n, h)))
    ensures var before, after, accepted := l.receiver.frames, LinkStep(c, l, Read(n, h)).receiver, l.sender.accepted;
            && before <= accepted && AllSmall(accepted[|before|..])
            && var scan := Scan(c, FrameAll(accepted[|before|..]));
               after.frames == before + scan.frames && after.buf == scan.rest
  {
    hide Reachable, Worth, SendStep, Scan, FrameAll;
    ReachableInv(c, l);
    ReadScans(c, l, n, h);
    RestOfStream(l.receiver.frames, l.sender.accepted, LinkStep(c, l, Read(n, h)).receiver.read);
  }

  /** When complete frames stay behind although everything has arrived: if and only if, of the frames that
      the last read finds in the buffer or brings, one that is not the last is not worth a packet. The
      first such frame is the last one to be cut off. */
  lemma StaysBehindIff<P>(c: Codec<P>, l: Link<P>, n: nat, h: Handling)
    requires Reachable(c, l) && CanHappen(l, Read(n, h)) && AllArrived(LinkStep(c, l, Read(n, h))) && AllFrameable(l.sender.accepted)
    ensures var before, after, accepted := l.receiver.frames, LinkStep(c, l, Read(n, h)).receiver, l.sender.accepted;
            && before <= after.frames <= accepted
            && (after.frames == accepted <==> forall i :: |before| <= i < |accepted| - 1 ==> ParsesValid(c, accepted[i]))
            && (after.frames != accepted <==> HasFrame(after.buf))
            && forall i :: |before| <= i < |after.frames| - 1 ==> ParsesValid(c, accepted[i])
  {
    LastRead(c, l, n, h);
    hide LinkStep, CanHappen, Reachable, AllArrived, FrameAll, HasFrame, ParsesValid, Scan;
    var before, accepted := l.receiver.frames, l.sender.accepted;
    var left := accepted[|before|..];
    assert AllFrameable(left);
    LeftOver(c, left);
    Shifted(c, accepted, |before|, CutOff(c, left));
  }

  /** The same said of the frames behind the first h. */
  lemma Shifted<P>(c: Codec<P>, ps: seq<seq<byte>>, h: nat, k: nat)
    requires h <= |ps| && k <= |ps| - h
    ensures ps[..h] + ps[h..][..k] == ps[..h + k]
    ensures (forall i :: 0 <= i < |ps| - h - 1 ==> ParsesValid(c, ps[h..][i])) <==> (forall i :: h <= i < |ps| - 1 ==> ParsesValid(c, ps[i]))
    ensures (forall i :: 0 <= i < k - 1 ==> ParsesValid(c, ps[h..][i])) <==> (forall i :: h <= i < h + k - 1 ==> ParsesValid(c, ps[i]))
  {
    hide ParsesValid;
    assert forall i :: h <= i < |ps| ==> ps[i] == ps[h..][i - h];
    assert forall i :: 0 <= i < |ps| - h ==> ps[h..][i] == ps[i + h];
  }

  lemma LeftOver<P>(c: Codec<P>, left: seq<seq<byte>>)
    requires AllFrameable(left) && AllSmall(left)
    ensures var k := CutOff(c, left);
            && AllSmall(left[k..])
            && Scan(c, FrameAll(left)).frames == left[..k]
            && Scan(c, FrameAll(left)).rest == FrameAll(left[k..])
            && (k == |left| <==> forall i :: 0 <= i < |left| - 1 ==> ParsesValid(c, left[i]))
            && (k != |left| <==> HasFrame(FrameAll(left[k..])))
            && forall i :: 0 <= i < k - 1 ==> ParsesValid(c, left[i])
  {
    hide Scan, ParsesValid;
    var k := CutOff(c, left);
    ScanOfFrames(c, left);
    CutOffMeaning(c, left);
    CutOffParse(c, left);
    if k < |left| {
      FirstOfFrames(left[k], FrameAll(left[k + 1..]));
      assert left[k..][1..] == left[k + 1..];
    }
  }

  lemma {:induction false} CutOffParse<P>(c: Codec<P>, ps: seq<seq<byte>>)
    ensures forall i :: 0 <= i < CutOff(c, ps) - 1 ==> ParsesValid(c, ps[i])
  {
    hide ParsesValid;
    if ps != [] && ParsesValid(c, ps[0]) {
      CutOffParse(c, ps[1..]);
      assert forall i :: 0 < i < |ps| ==> ps[i] == ps[1..][i - 1];
    }
  }

  // ---------------------------------------------------------------------------------------------
  // A packet that is accepted and does not arrive.

  lemma {:induction false} LinkRunSnoc<P>(c: Codec<P>, l: Link<P>, es: seq<LinkEvent>, e: LinkEvent)
    requires Legal(c, l, es) && CanHappen(LinkRun(c, l, es), e)
    ensures Legal(c, l, es + [e]) && LinkRun(c, l, es + [e]) == LinkStep(c, LinkRun(c, l, es), e)
    decreases |es|
  {
    hide LinkStep, CanHappen;
    if es == [] {
      assert [] + [e] == [e] && [e][1..] == [];
      assert Legal(c, LinkStep(c, l, e), []);
    } else {
      assert (es + [e])[1..] == es[1..] + [e];
      LinkRunSnoc(c, LinkStep(c, l, es[0]), es[1..], e);
    }
  }

  lemma ReachableNext<P>(c: Codec<P>, l: Link<P>, e: LinkEvent)
    requires Reachable(c, l) && CanHappen(l, e)
    ensures Reachable(c, LinkStep(c, l, e))
  {
    hide LinkStep, CanHappen;
    var es :| Legal(c, LinkStart(), es) && LinkRun(c, LinkStart(), es) == l;
    LinkRunSnoc(c, LinkStart(), es, e);
  }

  lemma ReachableStart<P>(c: Codec<P>)
    ensures Reachable(c, LinkStart())
  {
    assert Legal(c, LinkStart(), []) && LinkRun(c, LinkStart(), []) == LinkStart();
  }

  lemma OversizedCloses<P>(c: Codec<P>, p: seq<byte>, n: nat)
    requires MAX_PACKET_SIZE < |p| < UINT32_LIMIT && NET_HEADER_SIZE <= n <= |Frame(p)|
    ensures Scan(c, Frame(p)[..n]) == ScanResult([], [], [], true)
  {
    Net32RoundTrip(|p|, Frame(p)[NET_HEADER_SIZE..n]);
    assert Frame(p)[..n] == ToNet32(|p|) + Frame(p)[NET_HEADER_SIZE..n];
  }

  lemma OversizedRead<P>(c: Codec<P>, l: Link<P>, p: seq<byte>, n: nat)
    requires MAX_PACKET_SIZE < |p| < UINT32_LIMIT && NET_HEADER_SIZE <= n <= |Frame(p)| && n <= RECV_BUF_SIZE
    requires l.receiver == Receiver([], [], [], [], false, false) && l.wire == Frame(p)
    ensures CanHappen(l, Read(n, Smooth))
    ensures LinkStep(c, l, Read(n, Smooth)) == l.(receiver := Receiver(Frame(p)[..n], [], [], [], true, false))
  {
    hide Scan, Frame;
    OversizedCloses(c, p, n);
    var chunk := l.wire[0..n];
    assert chunk == Frame(p)[..n] && [] + chunk == chunk;
    assert ReadStep(c, l.receiver, chunk, Smooth) == Receiver(chunk, [], [], [], true, false);
  }

  /** One packet stored, sent and put on the wire. */
  lemma OneSent<P>(c: Codec<P>, p: seq<byte>) returns (l1: Link<P>, l2: Link<P>, l3: Link<P>)
    requires |p| < UINT32_LIMIT && Accepts(INITIAL_SEND, p)
    ensures CanHappen<P>(LinkStart(), Sender(Store(p))) && l1 == LinkStep(c, LinkStart(), Sender(Store(p)))
    ensures CanHappen(l1, Sender(SendEvent.SendNext)) && l2 == LinkStep(c, l1, Sender(SendEvent.SendNext))
    ensures CanHappen(l2, Transmit(|Frame(p)|)) && l3 == LinkStep(c, l2, Transmit(|Frame(p)|))
    ensures l3.receiver == Receiver([], [], [], [], false, false) && l3.wire == Frame(p) && l3.sender.accepted == [p]
  {
    hide Frame;
    l1 := LinkStep(c, LinkStart(), Sender(Store(p)));
    assert [] + Frame(p) == Frame(p);
    l2 := LinkStep(c, l1, Sender(SendEvent.SendNext));
    l3 := LinkStep(c, l2, Transmit(|Frame(p)|));
  }

  /** Any packet of more than MAX_PACKET_SIZE bytes that the sender accepts closes the receiving session
      with the first read that holds its size, and is never delivered. One that fits the receive buffer,
      read in one piece, has then arrived to the last byte. */
  lemma OversizedPacketClosesReceiver<P>(c: Codec<P>, p: seq<byte>, n: nat)
    requires |p| > MAX_PACKET_SIZE && Accepts(INITIAL_SEND, p)
    requires NET_HEADER_SIZE <= n <= |p| + NET_HEADER_SIZE && n <= RECV_BUF_SIZE
    ensures exists l :: Reachable(c, l) && l.sender.accepted == [p] && |l.receiver.read| == n
                        && l.receiver.closed && l.receiver.frames == [] && l.receiver.delivered == []
                        && (n == |p| + NET_HEADER_SIZE ==> AllArrived(l))
  {
    hide LinkStep, CanHappen, FrameAll, Frame, Reachable;
    var l1, l2, l3 := OneSent(c, p);
    OversizedRead(c, l3, p, n);
    FrameAllOne(p);
    ReachableStart(c);
    ReachableNext(c, LinkStart(), Sender(Store(p)));
    ReachableNext(c, l1, Sender(SendEvent.SendNext));
    ReachableNext(c, l2, Transmit(|Frame(p)|));
    ReachableNext(c, l3, Read(n, Smooth));
  }

  /** There are such packets: the shortest one fits every buffer. */
  lemma ShortestOversized<P>(c: Codec<P>)
    ensures exists l :: Reachable(c, l) && AllArrived(l) && |l.sender.accepted| == 1 && |l.sender.accepted[0]| == MAX_PACKET_SIZE + 1
                        && l.receiver.closed && l.receiver.frames == []
  {
    var p := seq(MAX_PACKET_SIZE + 1, i => 0);
    OversizedPacketClosesReceiver(c, p, |p| + NET_HEADER_SIZE);
  }

  // ---------------------------------------------------------------------------------------------
  // A packet that arrives and is not delivered.

  /** Two packets stored, sent in one write and put on the wire. */
  lemma TwoSent<P>(c: Codec<P>, p: seq<byte>, q: seq<byte>) returns (l1: Link<P>, l2: Link<P>, l3: Link<P>, l4: Link<P>)
    requires Frameable(p) && Frameable(q)
    ensures CanHappen<P>(LinkStart(), Sender(Store(p))) && l1 == LinkStep(c, LinkStart(), Sender(Store(p)))
    ensures CanHappen(l1, Sender(Store(q))) && l2 == LinkStep(c, l1, Sender(Store(q)))
    ensures CanHappen(l2, Sender(SendEvent.SendNext)) && l3 == LinkStep(c, l2, Sender(SendEvent.SendNext))
    ensures CanHappen(l3, Transmit(|Frame(p)| + |Frame(q)|)) && l4 == LinkStep(c, l3, Transmit(|Frame(p)| + |Frame(q)|))
    ensures l4.receiver == Receiver([], [], [], [], false, false) && l4.wire == Frame(p) + Frame(q) && l4.sender.accepted == [p, q]
  {
    hide Frame;
    l1 := LinkStep(c, LinkStart(), Sender(Store(p)));
    assert [] + Frame(p) == Frame(p);
    l2 := LinkStep(c, l1, Sender(Store(q)));
    l3 := LinkStep(c, l2, Sender(SendEvent.SendNext));
    l4 := LinkStep(c, l3, Transmit(|Frame(p)| + |Frame(q)|));
  }

  lemma ScanStops<P>(c: Codec<P>, p: seq<byte>, rest: seq<byte>)
    requires Frameable(p) && c.parse(p).Unparseable?
    ensures Scan(c, Frame(p) + rest) == ScanResult([p], [], rest, false)
  {
    FirstOfFrames(p, rest);
    hide Frame, HasFrame, BadHeader, FirstPayload, AfterFirst;
  }

  lemma ReadStops<P>(c: Codec<P>, l: Link<P>, p: seq<byte>, q: seq<byte>)
    requires Frameable(p) && Frameable(q) && c.parse(p).Unparseable?
    requires l.receiver == Receiver([], [], [], [], false, false) && l.wire == Frame(p) + Frame(q)
    ensures CanHappen(l, Read(|Frame(p)| + |Frame(q)|, Smooth))
    ensures LinkStep(c, l, Read(|Frame(p)| + |Frame(q)|, Smooth)) == l.(receiver := Receiver(Frame(p) + Frame(q), [p], [], Frame(q), false, false))
  {
    hide Scan, Frame;
    ScanStops(c, p, Frame(q));
    var chunk := l.wire[0..|Frame(p)| + |Frame(q)|];
    assert chunk == Frame(p) + Frame(q) && [] + chunk == chunk;
    assert ReadStep(c, l.receiver, chunk, Smooth) == Receiver(chunk, [p], [], Frame(q), false, false);
  }

  /** Two packets of which the first cannot be parsed, read in one piece: every byte has arrived, the session
      is open, and the second packet stays in the buffer. */
  lemma StaysBehindUnparseable<P>(c: Codec<P>, p: seq<byte>, q: seq<byte>)
    requires Frameable(p) && Frameable(q) && c.parse(p).Unparseable?
    ensures exists l :: Reachable(c, l) && AllArrived(l) && l.sender.accepted == [p, q]
                        && !l.receiver.closed && l.receiver.frames == [p] && l.receiver.delivered == [] && l.receiver.buf == Frame(q)
  {
    hide LinkStep, CanHappen, FrameAll, Frame, Reachable;
    var n := |Frame(p)| + |Frame(q)|;
    var l1, l2, l3, l4 := TwoSent(c, p, q);
    ReadStops(c, l4, p, q);
    TwoFrames(p, q);
    ReachableStart(c);
    ReachableNext(c, LinkStart(), Sender(Store(p)));
    ReachableNext(c, l1, Sender(Store(q)));
    ReachableNext(c, l2, Sender(SendEvent.SendNext));
    ReachableNext(c, l3, Transmit(n));
    ReachableNext(c, l4, Read(n, Smooth));
  }

  lemma TwoFrames(p: seq<byte>, q: seq<byte>)
    requires Frameable(p) && Frameable(q)
    ensures AllSmall([p, q]) && FrameAll([p, q]) == Frame(p) + Frame(q)
  {
    FrameAllOne(p);
    FrameAllOne(q);
    FrameAllAppend([p], [q]);
    assert [p] + [q] == [p, q];
  }
}
