/** What a client knows and says, by what has happened to it: who is in its game, who and where it is, what it has
    sent to the server. */
module ClientAccounts {
  import opened Seats
  import opened PlayerList
  import opened GameDefs
  import opened Wrappers
  import opened ClientState
  import opened ClientSafety
  import opened ClientSeating
  import opened HandCycle
  import RejoinList

  // ---------------------------------------------------------------------------------------------
  // The players of the game.

  /** How many entries a player has after an event that does not end the client. */
  function EntriesAfter(c: Client, e: Event, id: nat): int {
    var n := RejoinList.Entries(c.players, id);
    if !e.Packet? || !Receiving(c.state) then n
    else
      match e.msg
      case RemovedFromGame => 0
      case GamePlayerLeft(x) => if x == id && n > 0 then n - 1 else n
      case GamePlayerJoined(x, named) => if x == id && named then n + 1 else n
      case JoinGameAck(_) => if c.state == WaitJoin && c.userName != "" && c.guiId == id then n + 1 else n
      case _ => n
  }

  /** The list of players follows the messages about who joins and who leaves: it is empty after a removal, has the
      client itself from its own join on, and no other event, a game start included, brings anybody in or out. */
  lemma RosterStep(c: Client, e: Event, id: nat)
    requires Inv(c) && !Step(c, e).state.Final?
    ensures RejoinList.Entries(Step(c, e).players, id) == EntriesAfter(c, e, id)
  {
    hide SubscribedAtServer, HandlePacket, RejoinList.Entries;
    if e.Packet? {
      StepOfPacket(c, e.msg);
      PacketNotFinal(c, e.msg);
      hide Step;
      RosterPacket(c, e.msg, id);
    }
  }

  lemma PacketNotFinal(c: Client, m: Msg)
    requires Inv(c) && !Step(c, Packet(m)).state.Final?
    ensures !HandlePacket(c, m).thrown
  {
    hide HandlePacket, Inv;
  }

  lemma RosterPacket(c: Client, m: Msg, id: nat)
    requires Inv(c) && !HandlePacket(c, m).thrown
    ensures RejoinList.Entries(HandlePacket(c, m).c.players, id) == EntriesAfter(c, Packet(m), id)
  {
    hide SubscribedAtServer, RejoinList.Entries, Internal, Shared;
    if Receiving(c.state) {
      SharedInv(c, m);
      RosterShared(c, m, id);
      var o := Shared(c, m);
      if m.RemovedFromGame? {
        SharedRemoval(c);
        RemovalIsShared(c.state, o.c);
      } else if TakesStart(c, m) {
        StartSucceeds(c, m);
        RejoinList.StartKeepsPlayers(c, m, id);
      } else {
        RosterInternal(o.c, m, id);
      }
    }
  }

  lemma RosterShared(c: Client, m: Msg, id: nat)
    requires Inv(c) && Receiving(c.state)
    ensures var o, n := Shared(c, m), RejoinList.Entries(c.players, id);
            && o.c.userName == c.userName && o.c.guiId == c.guiId
            && RejoinList.Entries(o.c.players, id) == match m
               case RemovedFromGame => 0
               case GamePlayerLeft(x) => if x == id && n > 0 then n - 1 else n
               case GamePlayerJoined(x, named) => if x == id && named then n + 1 else n
               case _ => n
  {
    hide SubscribedAtServer, Without;
    match m {
      case GamePlayerLeft(x) => RejoinList.EntriesWithout(c.players, x, id);
      case GamePlayerJoined(x, named) =>
        RejoinList.EntriesOfBoth(c.players, [PlayerData(x, 0, -1)], id);
        RejoinList.EntryOfOne(PlayerData(x, 0, -1), id);
      case _ =>
    }
  }

  lemma RosterInternal(c: Client, m: Msg, id: nat)
    requires Inv(c) && Receiving(c.state) && !m.RemovedFromGame? && !TakesStart(c, m)
    ensures var n := RejoinList.Entries(c.players, id);
            RejoinList.Entries(Internal(c.state, c, m).c.players, id)
            == if c.state == WaitJoin && m.JoinGameAck? && c.userName != "" && c.guiId == id then n + 1 else n
  {
    hide SubscribedAtServer, RejoinList.Entries;
    if c.state == WaitJoin && m.JoinGameAck? {
      RejoinList.EntriesOfBoth(c.players, [PlayerData(c.guiId, 0, -1)], id);
      RejoinList.EntryOfOne(PlayerData(c.guiId, 0, -1), id);
    }
    hide Renamed, LocalSeat, CardsFit, SeatsExist;
  }

  // ---------------------------------------------------------------------------------------------
  // What the client sends.

  /** The requests an event makes the client send, by the state it comes in. */
  function RequestsOn(c: Client, e: Event): seq<Request> {
    match e
    case LoginTimer(code, login) => if code.NoError? && c.state == WaitEnterLogin && login.Some? then [InitRequest(login.value.user)] else []
    case SyncTimer(code, synchronized) =>
      if code.NoError? && c.state == SynchronizeStart && synchronized then [StartEventAck(c.gameId), Unsubscribe] else []
    case Packet(m) =>
      (match m
       case RemovedFromGame => if InGame(c.state) then [Resubscribe] else []
       case GameStartInitial(_, _) => if c.state == SynchronizeStart then [Unsubscribe] else []
       case EndOfGame(winner) => if c.state == WaitHand && Seated(c, winner) then [Resubscribe] else []
       case AvatarRequest(fails) => if c.state == WaitSession && !fails then [AvatarData] else []
       case _ => [])
    case _ => []
  }

  /** Every event makes the client send exactly these requests, also when it fails afterwards. */
  lemma RequestsStep(c: Client, e: Event)
    requires Inv(c)
    ensures Step(c, e).sent == c.sent + RequestsOn(c, e)
  {
    hide SubscribedAtServer, HandlePacket;
    if e.Packet? {
      StepOfPacket(c, e.msg);
      RequestsPacket(c, e.msg);
    }
  }

  lemma RequestsPacket(c: Client, m: Msg)
    requires Inv(c)
    ensures HandlePacket(c, m).c.sent == c.sent + RequestsOn(c, Packet(m))
  {
    hide SubscribedAtServer, Internal;
    if Receiving(c.state) {
      var o := Shared(c, m);
      if m.RemovedFromGame? {
        SharedRemoval(c);
        RemovalIsShared(c.state, o.c);
      } else if !o.thrown {
        hide Shared;
        SharedSends(c, m);
        RequestsInternal(o.c, m);
      }
    }
  }

  lemma SharedSends(c: Client, m: Msg)
    requires Inv(c) && Receiving(c.state) && !m.RemovedFromGame?
    ensures Inv(Shared(c, m).c) && Shared(c, m).c == c.(players := Shared(c, m).c.players)
  {
    hide SubscribedAtServer, Without;
  }

  lemma RequestsInternal(c: Client, m: Msg)
    requires Inv(c) && Receiving(c.state) && !m.RemovedFromGame?
    ensures Internal(c.state, c, m).c.sent == c.sent + RequestsOn(c, Packet(m))
  {
    hide SubscribedAtServer, WaitStartPacket, Renamed, LocalSeat, CardsFit, SeatsExist;
    if c.state == SynchronizeStart {
      SynchronizeForwards(c, m);
      StartSends(Unsubscribed(c).(state := WaitStart), m);
      hide SynchronizeStartPacket;
    } else if c.state == WaitStart {
      StartSends(c, m);
    } else {
      hide SynchronizeStartPacket;
    }
  }

  lemma StartSends(c: Client, m: Msg)
    ensures var d := WaitStartPacket(c, m).c;
            d.sent == c.sent && d.guiId == c.guiId && d.gameId == c.gameId && d.userName == c.userName && d.password == c.password
  {
    if m.GameStartInitial? || m.GameStartRejoin? {
      NumbersKeep(c, m);
      hide StartNumbers, Mapped, Sorted, WithoutAll, Find, IdsOf, SeatIds;
    }
  }

  lemma NumbersKeep(c: Client, m: Msg)
    requires m.GameStartInitial? || m.GameStartRejoin?
    ensures var d := StartNumbers(c, m).0;
            d.sent == c.sent && d.guiId == c.guiId && d.gameId == c.gameId && d.userName == c.userName && d.password == c.password
  {
    hide Numbered, Rejoined;
  }

  // ---------------------------------------------------------------------------------------------
  // Who and where the client is.

  ghost predicate AckAt(cfg: Config, es: seq<Event>, i: int) {
    0 <= i < |es| && es[i].Packet? && es[i].msg.InitAck? && StateAt(cfg, es, i) == WaitSession
  }

  ghost predicate LoginAt(cfg: Config, es: seq<Event>, i: int) {
    0 <= i < |es| && es[i].LoginTimer? && es[i].code.NoError? && es[i].login.Some? && StateAt(cfg, es, i) == WaitEnterLogin
  }

  /** One event: a session gives the player its id, a join the game its id, a login the name and the password; nothing
      else changes them. */
  lemma IdentityStep(c: Client, e: Event)
    requires Inv(c)
    ensures var d := Step(c, e);
            && d.guiId == (if e.Packet? && e.msg.InitAck? && c.state == WaitSession then e.msg.playerId else c.guiId)
            && d.gameId == (if e.Packet? && e.msg.JoinGameAck? && c.state == WaitJoin then e.msg.gameId else c.gameId)
            && (d.userName, d.password) == (if e.LoginTimer? && e.code.NoError? && e.login.Some? && c.state == WaitEnterLogin
                                            then (e.login.value.user, e.login.value.password) else (c.userName, c.password))
  {
    hide SubscribedAtServer, HandlePacket;
    if e.Packet? {
      StepOfPacket(c, e.msg);
      hide Step;
      IdentityPacket(c, e.msg);
    }
  }

  lemma IdentityPacket(c: Client, m: Msg)
    requires Inv(c)
    ensures var d := HandlePacket(c, m).c;
            && d.guiId == (if m.InitAck? && c.state == WaitSession then m.playerId else c.guiId)
            && d.gameId == (if m.JoinGameAck? && c.state == WaitJoin then m.gameId else c.gameId)
            && d.userName == c.userName && d.password == c.password
  {
    hide SubscribedAtServer, Internal;
    if Receiving(c.state) {
      var o := Shared(c, m);
      if m.RemovedFromGame? {
        SharedRemoval(c);
        RemovalIsShared(c.state, o.c);
      } else if !o.thrown {
        hide Shared;
        SharedSends(c, m);
        IdentityInternal(o.c, m);
      }
    }
  }

  lemma IdentityInternal(c: Client, m: Msg)
    requires Inv(c) && Receiving(c.state) && !m.RemovedFromGame?
    ensures var d := Internal(c.state, c, m).c;
            && d.guiId == (if m.InitAck? && c.state == WaitSession then m.playerId else c.guiId)
            && d.gameId == (if m.JoinGameAck? && c.state == WaitJoin then m.gameId else c.gameId)
            && d.userName == c.userName && d.password == c.password
  {
    hide SubscribedAtServer, WaitStartPacket, Renamed, LocalSeat, CardsFit, SeatsExist;
    if c.state == SynchronizeStart {
      SynchronizeForwards(c, m);
      StartSends(Unsubscribed(c).(state := WaitStart), m);
    } else if c.state == WaitStart {
      StartSends(c, m);
    }
  }

  /** The last of the events with this property, -1 if there is none. */
  ghost function Last(n: nat, at: int -> bool): (i: int)
    ensures -1 <= i < n && (i >= 0 ==> at(i)) && forall j :: i < j < n ==> !at(j)
  {
    if n == 0 then -1 else if at(n - 1) then n - 1 else Last(n - 1, at)
  }

  lemma {:induction false} LastSame(n: nat, f: int -> bool, g: int -> bool)
    requires forall i :: 0 <= i < n ==> f(i) == g(i)
    ensures Last(n, f) == Last(n, g)
  {
    if n > 0 {
      LastSame(n - 1, f, g);
    }
  }

  lemma Unidentified(cfg: Config)
    ensures var c := Run(cfg, []);
            c.guiId == 0 && c.gameId == 0 && c.userName == cfg.playerName && c.password == ""
  {
    hide Inv;
  }

  lemma {:induction false} OwnId(cfg: Config, es: seq<Event>)
    ensures var i := Last(|es|, i => AckAt(cfg, es, i)); Run(cfg, es).guiId == if i >= 0 then es[i].msg.playerId else 0
  {
    hide Run, Inv;
    if es == [] {
      Unidentified(cfg);
    } else {
      var n := |es| - 1;
      var before, e := es[..n], es[n];
      OwnId(cfg, before);
      assert es == before + [e];
      RunSnoc(cfg, before, e);
      IdentityStep(Run(cfg, before), e);
      LastNext(cfg, before, e);
      hide Step, Last, AckAt;
      var i := Last(n, i => AckAt(cfg, before, i));
      assert i >= 0 ==> es[i] == before[i];
    }
  }

  lemma {:induction false} OwnGame(cfg: Config, es: seq<Event>)
    ensures var i := Last(|es|, i => JoinAt(cfg, es, i)); Run(cfg, es).gameId == if i >= 0 then es[i].msg.gameId else 0
  {
    hide Run, Inv;
    if es == [] {
      Unidentified(cfg);
    } else {
      var n := |es| - 1;
      var before, e := es[..n], es[n];
      OwnGame(cfg, before);
      assert es == before + [e];
      RunSnoc(cfg, before, e);
      IdentityStep(Run(cfg, before), e);
      LastNext(cfg, before, e);
      hide Step, Last, JoinAt;
      var i := Last(n, i => JoinAt(cfg, before, i));
      assert i >= 0 ==> es[i] == before[i];
    }
  }

  lemma {:induction false} OwnLogin(cfg: Config, es: seq<Event>)
    ensures var i := Last(|es|, i => LoginAt(cfg, es, i)); var c := Run(cfg, es);
            (c.userName, c.password) == if i >= 0 then (es[i].login.value.user, es[i].login.value.password) else (cfg.playerName, "")
  {
    hide Run, Inv;
    if es == [] {
      Unidentified(cfg);
    } else {
      var n := |es| - 1;
      var before, e := es[..n], es[n];
      OwnLogin(cfg, before);
      assert es == before + [e];
      RunSnoc(cfg, before, e);
      IdentityStep(Run(cfg, before), e);
      LastNext(cfg, before, e);
      hide Step, Last, LoginAt;
      var i := Last(n, i => LoginAt(cfg, before, i));
      assert i >= 0 ==> es[i] == before[i];
    }
  }

  /** After every run: the client has the id of its last session, the id of the game it joined last, and the
      name and password of its last login, with the name from the configuration before the first. */
  lemma Identity(cfg: Config, es: seq<Event>)
    ensures var c, n := Run(cfg, es), |es|;
            var ack, join, login := Last(n, i => AckAt(cfg, es, i)), Last(n, i => JoinAt(cfg, es, i)), Last(n, i => LoginAt(cfg, es, i));
            && c.guiId == (if ack >= 0 then es[ack].msg.playerId else 0)
            && c.gameId == (if join >= 0 then es[join].msg.gameId else 0)
            && c.userName == (if login >= 0 then es[login].login.value.user else cfg.playerName)
            && c.password == (if login >= 0 then es[login].login.value.password else "")
  {
    OwnId(cfg, es);
    OwnGame(cfg, es);
    OwnLogin(cfg, es);
    hide Run, Inv, AckAt, JoinAt, LoginAt;
  }

  lemma LastNext(cfg: Config, es: seq<Event>, e: Event)
    ensures var all, n, s := es + [e], |es|, Run(cfg, es).state;
            && Last(n + 1, i => AckAt(cfg, all, i)) == (if e.Packet? && e.msg.InitAck? && s == WaitSession then n else Last(n, i => AckAt(cfg, es, i)))
            && Last(n + 1, i => JoinAt(cfg, all, i)) == (if e.Packet? && e.msg.JoinGameAck? && s == WaitJoin then n else Last(n, i => JoinAt(cfg, es, i)))
            && Last(n + 1, i => LoginAt(cfg, all, i)) == (if e.LoginTimer? && e.code.NoError? && e.login.Some? && s == WaitEnterLogin then n
                                                         else Last(n, i => LoginAt(cfg, es, i)))
  {
    var all, n := es + [e], |es|;
    hide Run, Inv;
    assert all[..n] == es;
    forall i | 0 <= i < n
      ensures AckAt(cfg, all, i) == AckAt(cfg, es, i) && JoinAt(cfg, all, i) == JoinAt(cfg, es, i)
      ensures LoginAt(cfg, all, i) == LoginAt(cfg, es, i)
    {
      assert all[..i] == es[..i];
    }
    LastSame(n, i => AckAt(cfg, all, i), i => AckAt(cfg, es, i));
    LastSame(n, i => JoinAt(cfg, all, i), i => JoinAt(cfg, es, i));
    LastSame(n, i => LoginAt(cfg, all, i), i => LoginAt(cfg, es, i));
  }

  // ---------------------------------------------------------------------------------------------
  // Connecting.

  function Attempts(code: Code, n: nat): seq<Event> {
    if n == 0 then [] else Attempts(code, n - 1) + [Connected(code, false)]
  }

  /** All endpoints that a resolver has found are tried, one after the other; the failure of the last one, and of no
      other, ends the client. */
  lemma {:induction false} AllEndpointsTried(cfg: Config, es: seq<Event>, found: nat, k: nat)
    requires Run(cfg, es).state == StartResolve && 1 <= k <= found
    ensures var c := Run(cfg, es + [Resolved(NoError, found)] + Attempts(Failed, k));
            c.state == (if k < found then StartConnect else Final) && (k < found ==> c.endpoints == found - 1 - k)
  {
    hide Run, Inv, Step;
    var start := es + [Resolved(NoError, found)];
    if k == 1 {
      assert start + Attempts(Failed, 0) == start;
      RunSnoc(cfg, es, Resolved(NoError, found));
      Resolves(Run(cfg, es), found);
    } else {
      AllEndpointsTried(cfg, es, found, k - 1);
    }
    assert start + Attempts(Failed, k - 1) + [Connected(Failed, false)] == start + Attempts(Failed, k);
    RunSnoc(cfg, start + Attempts(Failed, k - 1), Connected(Failed, false));
    TriesNext(Run(cfg, start + Attempts(Failed, k - 1)));
  }

  lemma Resolves(c: Client, found: nat)
    requires Inv(c) && c.state == StartResolve && found > 0
    ensures Step(c, Resolved(NoError, found)).state == StartConnect && Step(c, Resolved(NoError, found)).endpoints == found - 1
  {
  }

  lemma TriesNext(c: Client)
    requires Inv(c) && c.state == StartConnect
    ensures var d := Step(c, Connected(Failed, false));
            if c.endpoints > 0 then d.state == StartConnect && d.endpoints == c.endpoints - 1 else d.state == Final
  {
    hide SubscribedAtServer;
  }
}
