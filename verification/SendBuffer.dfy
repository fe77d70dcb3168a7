/** The double send buffer of a session: packets are appended to one buffer while the other one
    is being written to the socket, with at most one write in flight. */
module SendBuffer {
  import opened Framing

  const SEND_BUF_FIRST_ALLOC_CHUNKSIZE := 4096
  const MAX_SEND_BUF_SIZE := SEND_BUF_FIRST_ALLOC_CHUNKSIZE * 256

  /** What the buffer means: the bytes waiting, the bytes of the write in flight, the request to
      close once everything is written, and whether the socket has been closed from this side. */
  datatype SendState = SendState(pending: seq<byte>, inFlight: seq<byte>, closeAfterSend: bool, closed: bool)

  const INITIAL_SEND := SendState([], [], false, false)

  /** A packet is stored iff its frame still fits below the cap. */
  predicate Accepts(s: SendState, payload: seq<byte>) {
    |payload| <= MAX_SEND_BUF_SIZE && |s.pending| + |payload| + NET_HEADER_SIZE <= MAX_SEND_BUF_SIZE
  }

  function Stored(s: SendState, payload: seq<byte>): SendState {
    if Accepts(s, payload) then s.(pending := s.pending + Frame(payload)) else s
  }

  function SentNext(s: SendState): SendState {
    if s.inFlight != [] then s
    else if s.pending != [] then s.(pending := [], inFlight := s.pending)
    else if s.closeAfterSend then s.(closeAfterSend := false, closed := true)
    else s
  }

  function WriteDone(s: SendState): SendState {
    SentNext(s.(inFlight := []))
  }

  function WriteFailed(s: SendState): SendState {
    s.(inFlight := [], closed := true)
  }

  class AsioSendBuffer {
    var sendBuf: array<byte>
    var curWriteBuf: array<byte>
    var sendBufUsed: nat
    var curWriteBufUsed: nat
    var closeAfterSend: bool
    var socketClosed: bool

    ghost predicate Valid()
      reads this
    {
      && sendBuf != curWriteBuf
      && sendBufUsed <= sendBuf.Length <= MAX_SEND_BUF_SIZE
      && curWriteBufUsed <= curWriteBuf.Length <= MAX_SEND_BUF_SIZE
    }

    ghost function View(): SendState
      requires Valid()
      reads this, sendBuf, curWriteBuf
    {
      SendState(sendBuf[..sendBufUsed], curWriteBuf[..curWriteBufUsed], closeAfterSend, socketClosed)
    }

    constructor ()
      ensures Valid() && fresh(sendBuf) && fresh(curWriteBuf)
      ensures View() == INITIAL_SEND
    {
      sendBuf := new byte[0];
      curWriteBuf := new byte[0];
      sendBufUsed, curWriteBufUsed := 0, 0;
      closeAfterSend, socketClosed := false, false;
    }

    method SetCloseAfterSend()
      requires Valid()
      modifies this`closeAfterSend
      ensures Valid() && View() == old(View()).(closeAfterSend := true)
    {
      closeAfterSend := true;
    }

    method GetSendBufLeft() returns (left: nat)
      requires Valid()
      ensures left == sendBuf.Length - sendBufUsed
    {
      left := if sendBuf.Length > sendBufUsed then sendBuf.Length - sendBufUsed else 0;
    }

    /** Capped doubling. The stored bytes move to a fresh array; the write in flight is untouched. */
    method ReallocSendBuf() returns (ok: bool)
      requires Valid()
      modifies this`sendBuf
      ensures Valid() && View() == old(View())
      ensures ok <==> old(sendBuf).Length < MAX_SEND_BUF_SIZE
      ensures ok ==> fresh(sendBuf) && sendBuf.Length > old(sendBuf).Length
      ensures ok ==> sendBuf.Length == MAX_SEND_BUF_SIZE || sendBuf.Length == 2 * old(sendBuf).Length
                     || (old(sendBuf).Length == 0 && sendBuf.Length == SEND_BUF_FIRST_ALLOC_CHUNKSIZE)
      ensures !ok ==> sendBuf == old(sendBuf)
    {
      var newSize := if sendBuf.Length == 0 then SEND_BUF_FIRST_ALLOC_CHUNKSIZE else sendBuf.Length * 2;
      if newSize > MAX_SEND_BUF_SIZE {
        newSize := MAX_SEND_BUF_SIZE;
      }
      if newSize <= sendBuf.Length {
        return false;
      }
      var grown := new byte[newSize];
      forall i | 0 <= i < sendBuf.Length {
        grown[i] := sendBuf[i];
      }
      assert grown[..sendBufUsed] == sendBuf[..sendBufUsed];
      sendBuf := grown;
      return true;
    }

    /** Refuses what does not fit; the original throws. */
    method AppendToSendBufWithoutCheck(data: seq<byte>) returns (ok: bool)
      requires Valid()
      modifies this`sendBufUsed, sendBuf
      ensures Valid() && (ok <==> |data| <= sendBuf.Length - old(sendBufUsed))
      ensures View() == if ok then old(View()).(pending := old(View()).pending + data) else old(View())
    {
      if sendBuf.Length < sendBufUsed + |data| {
        return false;
      }
      forall i | 0 <= i < |data| {
        sendBuf[sendBufUsed + i] := data[i];
      }
      sendBufUsed := sendBufUsed + |data|;
      assert sendBuf[..sendBufUsed] == old(sendBuf[..sendBufUsed]) + data;
      assert curWriteBuf[..curWriteBufUsed] == old(curWriteBuf[..curWriteBufUsed]);
      return true;
    }

    /** Grows until the data fits, or gives up at the cap. The loop ends, it succeeds exactly when
        the cap allows, and a failure leaves every stored byte in place. */
    method EncodeToBuf(data: seq<byte>) returns (ok: bool)
      requires Valid()
      modifies this`sendBuf, this`sendBufUsed, sendBuf
      ensures Valid()
      ensures ok <==> old(sendBufUsed) + |data| <= MAX_SEND_BUF_SIZE
      ensures View() == if ok then old(View()).(pending := old(View()).pending + data) else old(View())
      ensures sendBuf == old(sendBuf) || fresh(sendBuf)
    {
      var left := GetSendBufLeft();
      while left < |data|
        invariant Valid() && View() == old(View()) && left == sendBuf.Length - sendBufUsed && sendBufUsed == old(sendBufUsed)
        invariant sendBuf == old(sendBuf) || fresh(sendBuf)
        decreases MAX_SEND_BUF_SIZE - sendBuf.Length
      {
        var grown := ReallocSendBuf();
        if !grown {
          return false;
        }
        left := GetSendBufLeft();
      }
      ok := AppendToSendBufWithoutCheck(data);
    }

    /** `payload` is the serialized message. An oversized one is dropped without a trace, and so is
        one that no longer fits. */
    method InternalStorePacket(payload: seq<byte>)
      requires Valid()
      modifies this`sendBuf, this`sendBufUsed, sendBuf
      ensures Valid() && View() == Stored(old(View()), payload)
      ensures sendBuf == old(sendBuf) || fresh(sendBuf)
      ensures curWriteBuf[..] == old(curWriteBuf[..])
    {
      if |payload| > MAX_SEND_BUF_SIZE || |payload| >= UINT32_LIMIT {
        return;
      }
      var buf := ToNet32(|payload|) + payload;
      var _ := EncodeToBuf(buf);
    }

    /** Swaps the buffers if no write is in flight. While one is, neither its array nor a byte of
        it changes, since the socket still reads from there. */
    method AsyncSendNextPacket()
      requires Valid()
      modifies this
      ensures Valid() && View() == SentNext(old(View()))
      ensures {sendBuf, curWriteBuf} == old({sendBuf, curWriteBuf})
      ensures old(curWriteBufUsed) > 0 ==> curWriteBuf == old(curWriteBuf)
    {
      if curWriteBufUsed == 0 {
        assert curWriteBuf[..curWriteBufUsed] == [];
        sendBuf, curWriteBuf := curWriteBuf, sendBuf;
        curWriteBufUsed, sendBufUsed := sendBufUsed, curWriteBufUsed;
        if curWriteBufUsed == 0 && closeAfterSend {
          closeAfterSend := false;
          socketClosed := true;
        }
      }
    }

    method HandleWrite(error: bool)
      requires Valid()
      modifies this
      ensures Valid() && View() == if error then WriteFailed(old(View())) else WriteDone(old(View()))
      ensures {sendBuf, curWriteBuf} == old({sendBuf, curWriteBuf})
    {
      curWriteBufUsed := 0;
      if error {
        socketClosed := true;
      } else {
        label cleared:
        assert View() == old(View()).(inFlight := []);
        AsyncSendNextPacket();
      }
    }
  }

  // ---------------------------------------------------------------------------------------------
  // Whole runs of the sender.

  datatype SendEvent =
    | Store(payload: seq<byte>)
    | SendNext
    | RequestClose
    | WriteSucceeds
    | WriteFails

  /** The sender together with its history: the bytes of completed writes, the payloads accepted
      so far, and whether a write has failed. */
  datatype SendRun = SendRun(s: SendState, written: seq<byte>, accepted: seq<seq<byte>>, failed: bool)

  /** The socket reports the end of a write only when there is one. */
  predicate Enabled(r: SendRun, e: SendEvent) {
    e.WriteSucceeds? || e.WriteFails? ==> r.s.inFlight != []
  }

  function SendStep(r: SendRun, e: SendEvent): SendRun
    requires Enabled(r, e)
  {
    match e
    case Store(p) =>
      r.(s := Stored(r.s, p), accepted := if Accepts(r.s, p) then r.accepted + [p] else r.accepted)
    case SendNext => r.(s := SentNext(r.s))
    case RequestClose => r.(s := r.s.(closeAfterSend := true))
    case WriteSucceeds => r.(s := WriteDone(r.s), written := r.written + r.s.inFlight)
    case WriteFails => r.(s := WriteFailed(r.s), failed := true)
  }

  ghost predicate Conserved(r: SendRun) {
    && AllSmall(r.accepted)
    && (!r.failed ==> r.written + r.s.inFlight + r.s.pending == FrameAll(r.accepted))
  }

  ghost predicate LegalSend(r: SendRun, es: seq<SendEvent>)
    decreases |es|
  {
    es == [] || (Enabled(r, es[0]) && LegalSend(SendStep(r, es[0]), es[1..]))
  }

  function SendAll(r: SendRun, es: seq<SendEvent>): SendRun
    requires LegalSend(r, es)
    decreases |es|
  {
    if es == [] then r else SendAll(SendStep(r, es[0]), es[1..])
  }

  const SEND_START := SendRun(INITIAL_SEND, [], [], false)

  lemma SendStepConserves(r: SendRun, e: SendEvent)
    requires Conserved(r) && Enabled(r, e)
    ensures Conserved(SendStep(r, e))
    ensures !r.s.closed && SendStep(r, e).s.closed && !SendStep(r, e).failed ==>
              var t := SendStep(r, e);
              t.accepted == r.accepted && t.written == FrameAll(r.accepted) && t.s.inFlight == [] && t.s.pending == []
  {
    match e
    case Store(p) =>
      if Accepts(r.s, p) {
        FrameAllOne(p);
        FrameAllAppend(r.accepted, [p]);
        assert r.written + r.s.inFlight + (r.s.pending + Frame(p)) == (r.written + r.s.inFlight + r.s.pending) + Frame(p);
      }
    case SendNext =>
      assert r.written + r.s.inFlight + r.s.pending == r.written + SendStep(r, e).s.inFlight + SendStep(r, e).s.pending;
    case RequestClose =>
    case WriteSucceeds =>
      var t := SendStep(r, e);
      assert r.written + r.s.inFlight + r.s.pending == t.written + t.s.inFlight + t.s.pending;
    case WriteFails =>
  }

  /** With the k-th event the socket is closed from this side, and by then everything accepted has been
      written. */
  ghost predicate ClosesCleanlyAt(r: SendRun, es: seq<SendEvent>, k: int) {
    && 0 <= k < |es| && LegalSend(r, es[..k]) && LegalSend(r, es[..k + 1])
    && !SendAll(r, es[..k]).s.closed
    && var t := SendAll(r, es[..k + 1]);
       t.s.closed && AllSmall(t.accepted) && t.written == FrameAll(t.accepted) && t.s.inFlight == [] && t.s.pending == []
  }

  lemma {:induction false} FailureStays(r: SendRun, es: seq<SendEvent>)
    requires LegalSend(r, es) && r.failed
    ensures SendAll(r, es).failed
    decreases |es|
  {
    if es != [] {
      FailureStays(SendStep(r, es[0]), es[1..]);
    }
  }

  lemma ClosesLater(r: SendRun, es: seq<SendEvent>, k: int)
    requires es != [] && Enabled(r, es[0]) && ClosesCleanlyAt(SendStep(r, es[0]), es[1..], k)
    ensures ClosesCleanlyAt(r, es, k + 1)
  {
    hide SendStep, Enabled, FrameAll;
    assert es[..k + 1][1..] == es[1..][..k] && es[..k + 2][1..] == es[1..][..k + 1];
  }

  lemma ClosesNow(r: SendRun, es: seq<SendEvent>)
    requires es != [] && Conserved(r) && Enabled(r, es[0]) && !r.s.closed && SendStep(r, es[0]).s.closed && !SendStep(r, es[0]).failed
    ensures ClosesCleanlyAt(r, es, 0)
  {
    SendStepConserves(r, es[0]);
    assert es[..0] == [] && es[..1] == [es[0]] && [es[0]][1..] == [];
    assert LegalSend(SendStep(r, es[0]), []) && LegalSend(r, [es[0]]);
    assert SendAll(r, []) == r && SendAll(r, [es[0]]) == SendStep(r, es[0]);
  }

  /** Sender conservation, for every run: until a write fails, what was written, what is being
      written and what is waiting are together exactly the frames of the accepted packets, in
      order; and without a failure the socket is closed only at a moment when all of them have been
      written. */
  lemma {:induction false} SenderConservation(r: SendRun, es: seq<SendEvent>)
    requires Conserved(r) && LegalSend(r, es)
    ensures Conserved(SendAll(r, es))
    ensures !r.s.closed && SendAll(r, es).s.closed && !SendAll(r, es).failed ==> exists k :: ClosesCleanlyAt(r, es, k)
    decreases |es|
  {
    if es != [] {
      var t := SendStep(r, es[0]);
      SendStepConserves(r, es[0]);
      SenderConservation(t, es[1..]);
      if !r.s.closed && SendAll(r, es).s.closed && !SendAll(r, es).failed {
        if t.failed {
          FailureStays(t, es[1..]);
        }
        if t.s.closed {
          ClosesNow(r, es);
        } else {
          var k :| ClosesCleanlyAt(t, es[1..], k);
          ClosesLater(r, es, k);
        }
        hide ClosesCleanlyAt, SendStep;
      }
    }
  }

  /** Exactly when the socket is closed from this side: when a write fails, or when nothing is left to write and the
      close was asked for. Asked for it stays until then. */
  lemma ClosesIff(r: SendRun, e: SendEvent)
    requires Enabled(r, e) && !r.s.closed
    ensures var t, done := SendStep(r, e), r.s.pending == [] && ((e.SendNext? && r.s.inFlight == []) || e.WriteSucceeds?);
            && (t.s.closed <==> e.WriteFails? || (done && r.s.closeAfterSend))
            && (t.s.closeAfterSend <==> e.RequestClose? || (r.s.closeAfterSend && !done))
  {
  }

  /** Nothing waits for ever: from any state, while writes succeed, a call to send and at most two completed writes
      bring out everything that was accepted, and close the socket if that was asked for. */
  lemma Drains(r: SendRun) returns (es: seq<SendEvent>)
    requires Conserved(r) && !r.failed
    ensures |es| <= 3 && (forall i :: 0 <= i < |es| ==> es[i].SendNext? || es[i].WriteSucceeds?)
    ensures LegalSend(r, es)
    ensures var t := SendAll(r, es);
            t.accepted == r.accepted && t.written == FrameAll(r.accepted) && (r.s.closeAfterSend ==> t.s.closed)
  {
    hide FrameAll, Frame;
    var a := SendStep(r, SendNext);
    SendStepConserves(r, SendNext);
    es := [];
    SendAllNothing(a);
    if a.s.inFlight != [] {
      var b := SendStep(a, WriteSucceeds);
      SendStepConserves(a, WriteSucceeds);
      SendAllNothing(b);
      if b.s.inFlight != [] {
        var c := SendStep(b, WriteSucceeds);
        SendStepConserves(b, WriteSucceeds);
        SendAllNothing(c);
        es := OneBefore(b, WriteSucceeds, es);
        assert c.s.inFlight == [] && c.s.pending == [];
      }
      es := OneBefore(a, WriteSucceeds, es);
    }
    es := OneBefore(r, SendNext, es);
  }

  lemma SendAllNothing(r: SendRun)
    ensures LegalSend(r, []) && SendAll(r, []) == r
  {
  }

  lemma OneBefore(r: SendRun, e: SendEvent, es: seq<SendEvent>) returns (all: seq<SendEvent>)
    requires Enabled(r, e) && LegalSend(SendStep(r, e), es)
    ensures all == [e] + es && LegalSend(r, all) && SendAll(r, all) == SendAll(SendStep(r, e), es)
  {
    all := [e] + es;
    assert all[1..] == es;
  }
}
