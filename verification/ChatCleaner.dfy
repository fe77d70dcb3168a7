/** The connection of the game server to the chat cleaner: a second decoder of the same framing,
    which never closes on a bad size but throws its buffer away and goes on reading. */
module ChatCleaner {
  import opened Framing
  import opened SendBuffer

  const MAX_CLEANER_PACKET_SIZE := 512
  const CLEANER_BUF_SIZE := 2 * MAX_CLEANER_PACKET_SIZE
  const CLEANER_PROTOCOL_VERSION := 2

  datatype Action = NoAction | Kick | Ban | Mute
  datatype ChatType = LobbyChat | GameChat(gameId: nat)

  datatype CleanerMessage =
    | InitAck(serverVersion: nat, serverSecret: string)
    | ChatReply(chatType: ChatType, text: string, action: Action, playerId: nat)
    | OtherMessage

  /** `Throws` also stands for an exception out of handling the message. */
  datatype CleanerParse = Message(msg: CleanerMessage) | Unparseable | Throws

  datatype Signal = LobbyBotMessage(text: string) | GameBotMessage(gameId: nat, text: string) | KickPlayer(id: nat) | BanPlayer(id: nat) | MutePlayer(id: nat)

  /** Whether a message is treated as fatal: only a handshake with the wrong version or secret. */
  predicate IsFatal(secret: string, m: CleanerMessage) {
    m.InitAck? && !(m.serverVersion == CLEANER_PROTOCOL_VERSION && m.serverSecret == secret)
  }

  predicate Authenticates(secret: string, m: CleanerMessage) {
    m.InitAck? && !IsFatal(secret, m)
  }

  predicate AnyAuthenticates(secret: string, msgs: seq<CleanerMessage>) {
    exists m <- msgs :: Authenticates(secret, m)
  }

  lemma AnyAuthenticatesNone(secret: string)
    ensures !AnyAuthenticates(secret, [])
  {
  }

  lemma AnyAuthenticatesAppend(secret: string, a: seq<CleanerMessage>, b: seq<CleanerMessage>)
    ensures AnyAuthenticates(secret, a + b) <==> AnyAuthenticates(secret, a) || AnyAuthenticates(secret, b)
  {
    assert forall m :: m in a + b <==> m in a || m in b;
  }

  function TextOf(m: CleanerMessage): seq<Signal>
    requires m.ChatReply?
  {
    if m.text == "" then [] else if m.chatType.LobbyChat? then [LobbyBotMessage(m.text)] else [GameBotMessage(m.chatType.gameId, m.text)]
  }

  function SanctionOf(m: CleanerMessage): seq<Signal>
    requires m.ChatReply?
  {
    match m.action
    case NoAction => []
    case Kick => [KickPlayer(m.playerId)]
    case Ban => [BanPlayer(m.playerId)]
    case Mute => [MutePlayer(m.playerId)]
  }

  function SignalsOf(m: CleanerMessage): seq<Signal> {
    if m.ChatReply? then TextOf(m) + SanctionOf(m) else []
  }

  /** The signals of several messages, one after the other. */
  function SignalsOfAll(msgs: seq<CleanerMessage>): seq<Signal> {
    if msgs == [] then [] else SignalsOfAll(msgs[..|msgs| - 1]) + SignalsOf(msgs[|msgs| - 1])
  }

  lemma SignalsOfNext(msgs: seq<CleanerMessage>, m: CleanerMessage)
    ensures SignalsOfAll(msgs + [m]) == SignalsOfAll(msgs) + SignalsOf(m)
  {
    assert (msgs + [m])[..|msgs|] == msgs;
  }

  predicate IsText(v: Signal) {
    v.LobbyBotMessage? || v.GameBotMessage?
  }

  /** The message asks for this signal: for a text to be posted, or for a player to be kicked, banned or muted. */
  predicate Asks(m: CleanerMessage, v: Signal) {
    && m.ChatReply?
    && match v
       case LobbyBotMessage(text) => m.chatType == LobbyChat && m.text == text != ""
       case GameBotMessage(gameId, text) => m.chatType == GameChat(gameId) && m.text == text != ""
       case KickPlayer(id) => m.action == Kick && m.playerId == id
       case BanPlayer(id) => m.action == Ban && m.playerId == id
       case MutePlayer(id) => m.action == Mute && m.playerId == id
  }

  function Asking(msgs: seq<CleanerMessage>, v: Signal): nat {
    if msgs == [] then 0 else Asking(msgs[..|msgs| - 1], v) + if Asks(msgs[|msgs| - 1], v) then 1 else 0
  }

  /** A player is kicked, banned or muted exactly as often as a message asks for it, and a text is posted, to the
      lobby or to a game, exactly as often as a message asks for it. */
  lemma {:induction false} SignalsAreAskedFor(msgs: seq<CleanerMessage>, v: Signal)
    ensures multiset(SignalsOfAll(msgs))[v] == Asking(msgs, v)
  {
    if msgs != [] {
      SignalsAreAskedFor(msgs[..|msgs| - 1], v);
      AskedOnce(msgs[|msgs| - 1], v);
      hide SignalsOf, Asks;
    }
  }

  lemma AskedOnce(m: CleanerMessage, v: Signal)
    ensures multiset(SignalsOf(m))[v] == if Asks(m, v) then 1 else 0
  {
    if m.ChatReply? {
      TextAsked(m, v);
      SanctionAsked(m, v);
      hide TextOf, SanctionOf, Asks;
    }
  }

  lemma TextAsked(m: CleanerMessage, v: Signal)
    requires m.ChatReply?
    ensures multiset(TextOf(m))[v] == if IsText(v) && Asks(m, v) then 1 else 0
  {
  }

  lemma SanctionAsked(m: CleanerMessage, v: Signal)
    requires m.ChatReply?
    ensures multiset(SanctionOf(m))[v] == if !IsText(v) && Asks(m, v) then 1 else 0
  {
  }

  lemma {:induction false} SignalsGrow(msgs: seq<CleanerMessage>, i: nat)
    requires i <= |msgs|
    ensures SignalsOfAll(msgs[..i]) <= SignalsOfAll(msgs)
  {
    hide SignalsOf;
    if i == |msgs| {
      assert msgs[..i] == msgs;
    } else {
      SignalsGrow(msgs[..|msgs| - 1], i);
      assert msgs[..|msgs| - 1][..i] == msgs[..i];
    }
  }

  /** From place p to place q of the signals are those of message m: its text, if it has one, and behind it its sanction,
      if it has one. */
  ghost predicate GivenAt(s: seq<Signal>, p: nat, q: nat, m: CleanerMessage)
    requires m.ChatReply?
  {
    var k := if m.text == "" then p else p + 1;
    && (m.text != "" ==> p < |s| && IsText(s[p]) && Asks(m, s[p]))
    && (m.action != NoAction ==> k < |s| && !IsText(s[k]) && Asks(m, s[k]))
    && q == if m.action == NoAction then k else k + 1
  }

  /** The signals keep the order of the messages, and the text of a message comes directly before its
      sanction. */
  lemma TextBeforeSanction(msgs: seq<CleanerMessage>, i: nat)
    requires i < |msgs| && msgs[i].ChatReply?
    ensures GivenAt(SignalsOfAll(msgs), |SignalsOfAll(msgs[..i])|, |SignalsOfAll(msgs[..i + 1])|, msgs[i])
  {
    hide GivenAt, SignalsOf, SignalsOfAll;
    SignalsGrow(msgs, i + 1);
    assert msgs[..i + 1] == msgs[..i] + [msgs[i]];
    SignalsOfNext(msgs[..i], msgs[i]);
    Placed(SignalsOfAll(msgs), SignalsOfAll(msgs[..i]), msgs[i]);
  }

  lemma Placed(s: seq<Signal>, before: seq<Signal>, m: CleanerMessage)
    requires m.ChatReply? && before + SignalsOf(m) <= s
    ensures GivenAt(s, |before|, |before + SignalsOf(m)|, m)
  {
    var own := SignalsOf(m);
    OwnSignals(m);
    hide SignalsOf, Asks, IsText;
    assert m.text != "" ==> s[|before|] == own[0];
    assert m.action != NoAction ==> s[|before| + |own| - 1] == own[|own| - 1];
  }

  /** What one message gives: a text, and then a sanction. */
  lemma OwnSignals(m: CleanerMessage)
    requires m.ChatReply?
    ensures var own := SignalsOf(m);
            && |own| == (if m.text == "" then 0 else 1) + (if m.action == NoAction then 0 else 1)
            && (m.text != "" ==> IsText(own[0]) && Asks(m, own[0]))
            && (m.action != NoAction ==> !IsText(own[|own| - 1]) && Asks(m, own[|own| - 1]))
  {
  }

  // ---------------------------------------------------------------------------------------------

  ghost predicate CompleteFrame(buf: seq<byte>) {
    && NET_HEADER_SIZE <= |buf|
    && 1 <= FromNet32(buf) <= MAX_CLEANER_PACKET_SIZE
    && FromNet32(buf) + NET_HEADER_SIZE <= |buf|
  }

  ghost predicate BadSize(buf: seq<byte>) {
    NET_HEADER_SIZE <= |buf| && !(1 <= FromNet32(buf) <= MAX_CLEANER_PACKET_SIZE)
  }

  ghost function Head(buf: seq<byte>): seq<byte>
    requires CompleteFrame(buf)
  {
    buf[NET_HEADER_SIZE..NET_HEADER_SIZE + FromNet32(buf)]
  }

  ghost function Tail(buf: seq<byte>): (r: seq<byte>)
    requires CompleteFrame(buf)
    ensures |r| < |buf|
  {
    buf[NET_HEADER_SIZE + FromNet32(buf)..]
  }

  /** One run of the decode loop: the frames removed, the messages handled, the bytes kept, whether
      bytes were thrown away, and whether the last message was fatal. */
  datatype Decoded = Decoded(frames: seq<seq<byte>>, msgs: seq<CleanerMessage>, rest: seq<byte>, reset: bool, error: bool)

  ghost function Decode(parse: seq<byte> -> CleanerParse, secret: string, buf: seq<byte>): Decoded
    decreases |buf|
  {
    if BadSize(buf) then Decoded([], [], [], true, false)
    else if !CompleteFrame(buf) then Decoded([], [], buf, false, false)
    else
      var frame, rest := Head(buf), Tail(buf);
      match parse(frame)
      case Throws => Decoded([frame], [], [], true, false)
      case Unparseable => Decoded([frame], [], rest, false, false)
      case Message(m) =>
        if IsFatal(secret, m) then Decoded([frame], [m], rest, false, true)
        else
          var next := Decode(parse, secret, rest);
          Decoded([frame] + next.frames, [m] + next.msgs, next.rest, next.reset, next.error)
  }

  ghost predicate CleanerFrames(ps: seq<seq<byte>>) {
    forall p <- ps :: 1 <= |p| <= MAX_CLEANER_PACKET_SIZE
  }

  lemma HeadCut(buf: seq<byte>)
    requires CompleteFrame(buf)
    ensures buf == Frame(Head(buf)) + Tail(buf)
  {
    Net32Inverse(buf);
  }

  lemma FrameAllCons(p: seq<byte>, ps: seq<seq<byte>>, rest: seq<byte>)
    requires 1 <= |p| <= MAX_CLEANER_PACKET_SIZE && CleanerFrames(ps)
    ensures CleanerFrames([p] + ps) && AllSmall(ps) && AllSmall([p] + ps)
    ensures FrameAll([p] + ps) == Frame(p) + FrameAll(ps)
    ensures FrameAll([p] + ps) + rest == Frame(p) + (FrameAll(ps) + rest)
  {
    assert ([p] + ps)[1..] == ps;
  }

  /** The frames it removed are whole ones from the front; unless it threw bytes away, it removed nothing
      else. */
  lemma {:induction false} DecodeAccounts(parse: seq<byte> -> CleanerParse, secret: string, buf: seq<byte>)
    ensures var d := Decode(parse, secret, buf);
            && CleanerFrames(d.frames) && AllSmall(d.frames)
            && FrameAll(d.frames) <= buf
            && (!d.reset ==> buf == FrameAll(d.frames) + d.rest)
    decreases |buf|
  {
    hide FrameAll, Frame;
    if CompleteFrame(buf) {
      HeadCut(buf);
      var frame, rest := Head(buf), Tail(buf);
      var outcome := parse(frame);
      if outcome.Message? && !IsFatal(secret, outcome.msg) {
        DecodeAccounts(parse, secret, rest);
        FrameAllCons(frame, Decode(parse, secret, rest).frames, Decode(parse, secret, rest).rest);
      } else {
        FrameAllCons(frame, [], rest);
        FrameAllNothing(rest);
        assert [frame] + [] == [frame];
      }
    } else {
      FrameAllNothing(buf);
    }
  }

  lemma FrameAllNothing(rest: seq<byte>)
    ensures FrameAll([]) == [] && FrameAll([]) + rest == rest
  {
  }

  /** Whatever happens, it keeps fewer bytes than the buffer holds, so the next read has room. */
  lemma {:induction false} DecodeLeavesRoom(parse: seq<byte> -> CleanerParse, secret: string, buf: seq<byte>)
    requires |buf| <= CLEANER_BUF_SIZE
    ensures |Decode(parse, secret, buf).rest| < CLEANER_BUF_SIZE
    decreases |buf|
  {
    if CompleteFrame(buf) {
      DecodeLeavesRoom(parse, secret, Tail(buf));
    }
  }

  /** It handles one message per frame, in order, except possibly for the last frame, and stops
      after a fatal one. */
  lemma {:induction false} DecodeHandles(parse: seq<byte> -> CleanerParse, secret: string, buf: seq<byte>)
    ensures var d := Decode(parse, secret, buf);
            && |d.frames| - 1 <= |d.msgs| <= |d.frames|
            && (forall i :: 0 <= i < |d.msgs| ==> parse(d.frames[i]) == Message(d.msgs[i]))
            && (|d.msgs| < |d.frames| ==> !parse(d.frames[|d.msgs|]).Message?)
            && (forall i :: 0 <= i < |d.msgs| - 1 ==> d.msgs[i].InitAck? ==> d.msgs[i] == InitAck(2, secret))
            && (d.error <==> d.msgs != [] && d.msgs[|d.msgs| - 1].InitAck? && d.msgs[|d.msgs| - 1] != InitAck(2, secret))
    decreases |buf|
  {
    if CompleteFrame(buf) {
      var frame, rest := Head(buf), Tail(buf);
      var outcome := parse(frame);
      if outcome.Message? && !IsFatal(secret, outcome.msg) {
        DecodeHandles(parse, secret, rest);
      }
      hide Head, Tail, CompleteFrame;
    }
  }

  /** The handshake succeeds by the acknowledgement of version 2 with the shared secret, and by nothing else. */
  lemma HandshakeIff(secret: string, msgs: seq<CleanerMessage>)
    ensures AnyAuthenticates(secret, msgs) <==> InitAck(2, secret) in msgs
  {
  }

  /** Why a run of the decode loop has stopped. */
  ghost predicate HasReason(parse: seq<byte> -> CleanerParse, buf: seq<byte>, d: Decoded) {
    && (!d.reset && !d.error ==>
          if |d.msgs| < |d.frames| then parse(d.frames[|d.msgs|]).Unparseable? else !CompleteFrame(d.rest) && !BadSize(d.rest))
    && (d.reset ==> d.rest == [] && if |d.msgs| < |d.frames| then parse(d.frames[|d.msgs|]).Throws? else BadSize(Behind(buf, d.frames)))
  }

  /** It stops, without an error, only when no complete frame is left, or behind one that gave no message; and
      it throws bytes away, then all of them, only at a bad size or behind a frame that made the parser throw. */
  lemma {:induction false} DecodeStopsForAReason(parse: seq<byte> -> CleanerParse, secret: string, buf: seq<byte>)
    ensures HasReason(parse, buf, Decode(parse, secret, buf))
    decreases |buf|
  {
    hide FrameAll, Frame;
    if !CompleteFrame(buf) {
      BehindNothing(buf);
      hide Behind, CompleteFrame, BadSize;
    } else {
      var frame, rest := Head(buf), Tail(buf);
      var outcome := parse(frame);
      if outcome.Message? && !IsFatal(secret, outcome.msg) {
        DecodeStopsForAReason(parse, secret, rest);
        HeadCut(buf);
        DecodeAccounts(parse, secret, rest);
        hide Head, Tail, BadSize, IsFatal, HasReason;
        ReasonNext(parse, frame, outcome.msg, rest, Decode(parse, secret, rest));
      } else {
        hide Head, Tail, IsFatal, Behind;
      }
    }
  }

  lemma ReasonNext(parse: seq<byte> -> CleanerParse, frame: seq<byte>, m: CleanerMessage, rest: seq<byte>, d: Decoded)
    requires 1 <= |frame| <= MAX_CLEANER_PACKET_SIZE && CleanerFrames(d.frames) && AllSmall(d.frames) && HasReason(parse, rest, d)
    ensures HasReason(parse, Frame(frame) + rest, Decoded([frame] + d.frames, [m] + d.msgs, d.rest, d.reset, d.error))
  {
    hide Frame, CompleteFrame, BadSize, Behind;
    BehindNext(frame, rest, d.frames);
  }

  /** What comes behind the frames. */
  ghost function Behind(buf: seq<byte>, frames: seq<seq<byte>>): seq<byte> {
    if AllSmall(frames) && |FrameAll(frames)| <= |buf| then buf[|FrameAll(frames)|..] else []
  }

  lemma BehindNothing(buf: seq<byte>)
    ensures Behind(buf, []) == buf
  {
    FrameAllNothing(buf);
  }

  lemma BehindNext(frame: seq<byte>, rest: seq<byte>, frames: seq<seq<byte>>)
    requires 1 <= |frame| <= MAX_CLEANER_PACKET_SIZE && CleanerFrames(frames) && AllSmall(frames)
    ensures Behind(Frame(frame) + rest, [frame] + frames) == Behind(rest, frames)
  {
    FrameAllCons(frame, frames, rest);
    hide FrameAll, Frame;
  }

  /** Request ids count up in 32 bits and skip zero. */
  function NextRequestId(id: nat): (r: nat)
    requires id < UINT32_LIMIT
    ensures 1 <= r < UINT32_LIMIT
  {
    if id + 1 == UINT32_LIMIT then 1 else id + 1
  }

  function RequestIdAfter(id: nat, k: nat): (r: nat)
    requires id < UINT32_LIMIT
    ensures r < UINT32_LIMIT
    decreases k
  {
    if k == 0 then id else NextRequestId(RequestIdAfter(id, k - 1))
  }

  /** No id is given out twice within 2^32 - 1 requests, and none is zero. */
  lemma {:induction false} RequestIdsDistinct(id: nat, j: nat, k: nat)
    requires id < UINT32_LIMIT && 1 <= j < k < j + UINT32_LIMIT - 1
    ensures RequestIdAfter(id, j) != RequestIdAfter(id, k) && RequestIdAfter(id, k) != 0
  {
    RequestIdClosedForm(id, j);
    RequestIdClosedForm(id, k);
    RemaindersDiffer(id - 1 + j, id - 1 + k, UINT32_LIMIT - 1);
    hide RequestIdAfter;
  }

  lemma RemaindersDiffer(a: int, b: int, m: int)
    requires 0 < b - a < m
    ensures a % m != b % m
  {
    if a % m == b % m {
      var d := b / m - a / m;
      assert b - a == m * d;
      NoMultipleBetween(m, d);
    }
  }

  lemma NoMultipleBetween(m: int, d: int)
    requires m > 0
    ensures !(0 < m * d < m)
  {
    if d >= 1 {
      assert m * d >= m;
    }
  }

  lemma {:induction false} RequestIdClosedForm(id: nat, k: nat)
    requires id < UINT32_LIMIT && 1 <= k
    ensures RequestIdAfter(id, k) == (id - 1 + k) % (UINT32_LIMIT - 1) + 1
    decreases k
  {
    var m := UINT32_LIMIT - 1;
    if k == 1 {
      assert RequestIdAfter(id, 0) == id;
      assert id < m ==> id % m == id;
    } else {
      RequestIdClosedForm(id, k - 1);
      NextRemainder(id - 1 + (k - 1), m);
    }
  }

  lemma NextRemainder(x: int, m: int)
    requires m > 0
    ensures (x + 1) % m == if x % m == m - 1 then 0 else x % m + 1
  {
    var q, r := x / m, x % m;
    assert x == m * q + r;
    if r == m - 1 {
      assert x + 1 == m * (q + 1);
      RemainderUnique(x + 1, m, q + 1, 0);
    } else {
      RemainderUnique(x + 1, m, q, r + 1);
    }
  }

  lemma RemainderUnique(x: int, m: int, q: int, r: int)
    requires m > 0 && x == m * q + r && 0 <= r < m
    ensures x % m == r
  {
    var d := q - x / m;
    assert m * d == x % m - r;
    NoMultipleBetween(m, d);
    NoMultipleBetween(m, -d);
  }

  class ChatCleanerManager {
    const parse: seq<byte> -> CleanerParse
    const serverSecret: string
    const sendManager: AsioSendBuffer
    var recvBuf: array<byte>
    var recvBufUsed: nat
    var connected: bool
    var socketOpen: bool
    var resolves: nat            // name resolutions started, each the beginning of a connection
    var curRequestId: nat
    var signals: seq<Signal>
    var handled: seq<CleanerMessage>

    /** The signals given so far are those of the messages handled so far. */
    ghost predicate Valid()
      reads this
    {
      && recvBuf.Length == CLEANER_BUF_SIZE && recvBufUsed <= CLEANER_BUF_SIZE && curRequestId < UINT32_LIMIT
      && signals == SignalsOfAll(handled)
    }

    ghost function Buffered(): seq<byte>
      requires Valid()
      reads this, recvBuf
    {
      recvBuf[..recvBufUsed]
    }

    constructor (parse: seq<byte> -> CleanerParse, serverSecret: string, sendManager: AsioSendBuffer)
      ensures Valid() && Buffered() == [] && !connected && resolves == 0 && handled == [] && fresh(recvBuf)
      ensures this.parse == parse && this.serverSecret == serverSecret && this.sendManager == sendManager
    {
      this.parse, this.serverSecret, this.sendManager := parse, serverSecret, sendManager;
      recvBuf := new byte[CLEANER_BUF_SIZE];
      recvBufUsed, connected, socketOpen, resolves, curRequestId, signals, handled := 0, false, false, 0, 0, [], [];
    }

    method GetNextRequestId() returns (id: nat)
      requires Valid()
      modifies this`curRequestId
      ensures Valid() && id == curRequestId == NextRequestId(old(curRequestId))
    {
      curRequestId := (curRequestId + 1) % UINT32_LIMIT;
      if curRequestId == 0 {
        curRequestId := curRequestId + 1;
      }
      return curRequestId;
    }

    /** Drops a message that the other end would not take; the rest goes through the send buffer. */
    method SendMessageToServer(payload: seq<byte>)
      requires sendManager.Valid()
      modifies sendManager, sendManager.sendBuf
      ensures sendManager.Valid()
      ensures var before := old(sendManager.View());
              sendManager.View() == if |payload| > MAX_CLEANER_PACKET_SIZE then before else SentNext(Stored(before, payload))
    {
      if |payload| > MAX_CLEANER_PACKET_SIZE {
        return;
      }
      var buf := ToNet32(|payload|) + payload;
      var _ := sendManager.EncodeToBuf(buf);
      sendManager.AsyncSendNextPacket();
    }

    method HandleMessage(msg: CleanerMessage) returns (error: bool)
      requires Valid()
      modifies this`connected, this`signals, this`handled
      ensures Valid()
      ensures error == IsFatal(serverSecret, msg)
      ensures connected == (old(connected) || Authenticates(serverSecret, msg))
      ensures signals == old(signals) + SignalsOf(msg) && handled == old(handled) + [msg]
    {
      hide SignalsOfAll;
      SignalsOfNext(handled, msg);
      handled := handled + [msg];
      error := true;
      match msg
      case InitAck(version, secret) =>
        if version == CLEANER_PROTOCOL_VERSION {
          if serverSecret == secret {
            connected := true;
            error := false;
          }
        }
      case ChatReply(chatType, text, action, playerId) =>
        if text != "" {
          match chatType
          case LobbyChat => signals := signals + [LobbyBotMessage(text)];
          case GameChat(gameId) => signals := signals + [GameBotMessage(gameId, text)];
        }
        match action {
          case NoAction =>
          case Kick => signals := signals + [KickPlayer(playerId)];
          case Ban => signals := signals + [BanPlayer(playerId)];
          case Mute => signals := signals + [MutePlayer(playerId)];
        }
        error := false;
      case OtherMessage =>
        error := false;
    }

    method DropFront(n: nat)
      requires Valid() && n <= recvBufUsed
      modifies this`recvBufUsed, recvBuf
      ensures Valid() && Buffered() == old(Buffered())[n..]
    {
      recvBufUsed := recvBufUsed - n;
      if recvBufUsed != 0 {
        forall i | 0 <= i < recvBufUsed {
          recvBuf[i] := recvBuf[n + i];
        }
      }
    }

    /** Parses the first frame and removes it, or throws everything away. */
    method TakeFrame(packetSize: nat) returns (recvMsg: CleanerParse)
      requires Valid() && CompleteFrame(Buffered()) && packetSize == FromNet32(Buffered())
      modifies this`recvBufUsed, recvBuf
      ensures Valid() && recvMsg == parse(Head(old(Buffered())))
      ensures Buffered() == if recvMsg.Throws? then [] else Tail(old(Buffered()))
    {
      assert Head(Buffered()) == recvBuf[NET_HEADER_SIZE..NET_HEADER_SIZE + packetSize];
      recvMsg := parse(recvBuf[NET_HEADER_SIZE..NET_HEADER_SIZE + packetSize]);
      if recvMsg.Throws? {
        recvBufUsed := 0;
      } else {
        DropFront(packetSize + NET_HEADER_SIZE);
      }
    }

    /** One round of the decode loop. */
    method DecodeOnce() returns (valid: bool, error: bool, ghost taken: seq<CleanerMessage>)
      requires Valid()
      modifies this`recvBufUsed, this`connected, this`signals, this`handled, recvBuf
      ensures Valid() && handled == old(handled) + taken
      ensures connected == (old(connected) || AnyAuthenticates(serverSecret, taken))
      ensures valid && !error ==>
                var before, now := Decode(parse, serverSecret, old(Buffered())), Decode(parse, serverSecret, Buffered());
                recvBufUsed < old(recvBufUsed) && before.msgs == taken + now.msgs && before.rest == now.rest && before.error == now.error
      ensures !(valid && !error) ==>
                var before := Decode(parse, serverSecret, old(Buffered()));
                before.msgs == taken && before.rest == Buffered() && before.error == error
    {
      valid, error, taken := false, false, [];
      if recvBufUsed >= NET_HEADER_SIZE {
        var packetSize := FromNet32(recvBuf[..recvBufUsed]);
        if packetSize == 0 {
          recvBufUsed := 0;
        } else if packetSize > MAX_CLEANER_PACKET_SIZE {
          recvBufUsed := 0;
        } else if recvBufUsed >= packetSize + NET_HEADER_SIZE {
          var recvMsg := TakeFrame(packetSize);
          if recvMsg.Message? {
            error := HandleMessage(recvMsg.msg);
            valid, taken := true, [recvMsg.msg];
            assert AnyAuthenticates(serverSecret, taken) == Authenticates(serverSecret, recvMsg.msg) by {
              assert recvMsg.msg in taken;
            }
          }
        }
      }
    }

    method DecodeLoop() returns (error: bool)
      requires Valid()
      modifies this`recvBufUsed, this`connected, this`signals, this`handled, recvBuf
      ensures Valid()
      ensures var d := Decode(parse, serverSecret, old(Buffered()));
              && error == d.error && Buffered() == d.rest && handled == old(handled) + d.msgs
              && connected == (old(connected) || AnyAuthenticates(serverSecret, d.msgs))
    {
      hide Decode, AnyAuthenticates, Authenticates, IsFatal, SignalsOfAll;
      AnyAuthenticatesNone(serverSecret);
      ghost var whole := Decode(parse, serverSecret, Buffered());
      ghost var taken: seq<CleanerMessage> := [];
      var valid := true;
      error := false;
      while valid && !error
        invariant Valid() && handled == old(handled) + taken
        invariant connected == (old(connected) || AnyAuthenticates(serverSecret, taken))
        invariant valid && !error ==>
                    var now := Decode(parse, serverSecret, Buffered());
                    whole.msgs == taken + now.msgs && whole.rest == now.rest && whole.error == now.error
        invariant !(valid && !error) ==> whole.msgs == taken && whole.rest == Buffered() && whole.error == error
        decreases valid && !error, recvBufUsed
      {
        ghost var one;
        valid, error, one := DecodeOnce();
        AnyAuthenticatesAppend(serverSecret, taken, one);
        if valid && !error {
          ghost var now := Decode(parse, serverSecret, Buffered());
          assert taken + (one + now.msgs) == (taken + one) + now.msgs;
        }
        taken := taken + one;
      }
    }

    /** A completed read. If it took no more than the free space, the overflow branch is not taken;
        and whatever came, there is free space for the next read. */
    method HandleRead(chunk: seq<byte>)
      requires Valid() && socketOpen
      modifies this, recvBuf
      ensures Valid() && recvBuf == old(recvBuf) && recvBufUsed < CLEANER_BUF_SIZE && resolves == old(resolves)
      ensures |chunk| > CLEANER_BUF_SIZE - old(recvBufUsed) ==> Buffered() == [] && !socketOpen && handled == old(handled)
      ensures |chunk| <= CLEANER_BUF_SIZE - old(recvBufUsed) ==>
                var d := Decode(parse, serverSecret, old(Buffered()) + chunk);
                && Buffered() == d.rest && handled == old(handled) + d.msgs
                && socketOpen == !d.error
                && connected == (!d.error && (old(connected) || AnyAuthenticates(serverSecret, d.msgs)))
    {
      hide Decode, AnyAuthenticates, SignalsOfAll;
      if recvBufUsed + |chunk| > recvBuf.Length {
        recvBufUsed := 0;
        socketOpen := false;
        return;
      }
      forall i | 0 <= i < |chunk| {
        recvBuf[recvBufUsed + i] := chunk[i];
      }
      assert recvBuf[..recvBufUsed + |chunk|] == old(Buffered()) + chunk;
      recvBufUsed := recvBufUsed + |chunk|;
      DecodeLeavesRoom(parse, serverSecret, Buffered());
      var error := DecodeLoop();
      if error {
        socketOpen := false;
        connected := false;
      }
    }

    /** Starts a connection from scratch. */
    method ReInit()
      requires Valid()
      modifies this`recvBufUsed, this`resolves
      ensures Valid() && Buffered() == [] && resolves == old(resolves) + 1
    {
      recvBufUsed := 0;
      resolves := resolves + 1;
    }

    /** A failed read closes the connection; it is set up again only if it had been established, and then
        with an empty buffer. */
    method HandleReadError(aborted: bool)
      requires Valid()
      modifies this`connected, this`socketOpen, this`recvBufUsed, this`resolves
      ensures Valid()
      ensures aborted ==> connected == old(connected) && socketOpen == old(socketOpen)
      ensures !aborted ==> !connected && !socketOpen
      ensures var again := !aborted && old(connected);
              Buffered() == (if again then [] else old(Buffered())) && resolves == old(resolves) + if again then 1 else 0
    {
      if !aborted {
        var wasConnected := connected;
        socketOpen := false;
        connected := false;
        if wasConnected {
          ReInit();
        }
      }
    }
  }
}
