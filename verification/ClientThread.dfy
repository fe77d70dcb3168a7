/** The client thread: the fields that the handlers of the connection states change. */
module ClientThread {
  import opened Seats
  import opened PlayerList
  import opened Game
  import opened GameDefs
  import opened Wrappers
  import opened ClientState

  class ClientThread {
    var curState: State
    var hasSubscribedLobbyMsg: bool
    var sessionEstablished: bool
    var userName: string
    var password: string
    var guiPlayerId: nat
    var gameId: nat
    var playerDataList: seq<PlayerData>
    var startDealerPlayerId: nat
    var numberOfPlayers: int
    var origGuiPlayerNum: int
    var game: Option<GameView>
    var endpoints: nat
    var sent: seq<Request>

    ghost function View(): Client
      reads this
    {
      Client(curState, hasSubscribedLobbyMsg, sessionEstablished, userName, password, guiPlayerId, gameId, playerDataList,
             startDealerPlayerId, numberOfPlayers, origGuiPlayerNum, game, endpoints, sent)
    }

    /** The main loop's first act. */
    constructor Started(cfg: Config)
      ensures View() == Start(cfg)
    {
      curState, hasSubscribedLobbyMsg, sessionEstablished, userName, password := Init, true, false, cfg.playerName, "";
      guiPlayerId, gameId, playerDataList, startDealerPlayerId, numberOfPlayers := 0, 0, [], 0, 0;
      origGuiPlayerNum, game, endpoints, sent := 0, None, 0, [];
      new;
      if cfg.serverAddr == "" || cfg.serverPort < 1024 {
        curState := Final;
      } else if cfg.useServerList {
        EnterServerListDownload(cfg);
      } else {
        curState := StartResolve;
      }
    }

    method EnterServerListDownload(cfg: Config)
      modifies this
      ensures View() == if cfg.listPath == "" then old(View()).(state := Final)
                        else if cfg.listCached then EnterReading(old(View()), cfg.list)
                        else old(View()).(state := DownloadingServerList)
    {
      if cfg.listPath == "" {
        curState := Final;
      } else if cfg.listCached {
        EnterReadingServerList(cfg.list);
      } else {
        curState := DownloadingServerList;
      }
    }

    method EnterReadingServerList(list: ServerList)
      modifies this
      ensures View() == EnterReading(old(View()), list)
    {
      curState := ReadingServerList;
      if list.BrokenList? {
        curState := Final;
      } else if list.count == 1 {
        curState := StartResolve;
      } else if list.count > 1 {
        curState := WaitChooseServer;
      } else {
        curState := Final;
      }
    }

    method UnsubscribeLobbyMsg()
      modifies this
      ensures View() == Unsubscribed(old(View()))
    {
      if hasSubscribedLobbyMsg {
        sent := sent + [Unsubscribe];
        hasSubscribedLobbyMsg := false;
      }
    }

    method ResubscribeLobbyMsg()
      modifies this
      ensures View() == Resubscribed(old(View()))
    {
      if !hasSubscribedLobbyMsg {
        sent := sent + [Resubscribe];
        hasSubscribedLobbyMsg := true;
      }
    }

    /** The entry with this id, as its position. */
    method GetPlayerDataByUniqueId(id: nat) returns (i: nat)
      ensures i == Find(playerDataList, id)
    {
      i := 0;
      while i < |playerDataList|
        invariant i <= |playerDataList| && forall j :: 0 <= j < i ==> playerDataList[j].id != id
      {
        if playerDataList[i].id == id {
          break;
        }
        i := i + 1;
      }
    }

    method RemovePlayerData(playerId: nat)
      modifies this`playerDataList
      ensures playerDataList == Without(old(playerDataList), playerId)
    {
      var i := GetPlayerDataByUniqueId(playerId);
      if i < |playerDataList| {
        playerDataList := playerDataList[..i] + playerDataList[i + 1..];
      }
    }

    /** Turning the list's numbers; false if the client is not listed or there are no seats. */
    method MapPlayerDataList() returns (ok: bool)
      modifies this`playerDataList, this`origGuiPlayerNum
      ensures var was := old(playerDataList);
              var p := Find(was, guiPlayerId);
              && origGuiPlayerNum == (if p < |was| then was[p].number else old(origGuiPlayerNum))
              && (ok <==> p < |was| && numberOfPlayers > 0)
              && playerDataList == if ok then Sorted(Mapped(was, origGuiPlayerNum, numberOfPlayers)) else was
    {
      var p := GetPlayerDataByUniqueId(guiPlayerId);
      if p == |playerDataList| {
        return false;
      }
      origGuiPlayerNum := playerDataList[p].number;
      if numberOfPlayers <= 0 {
        return false;
      }
      var mappedList: seq<PlayerData> := [];
      var i := 0;
      while i < |playerDataList|
        invariant 0 <= i <= |playerDataList| && |mappedList| == i
        invariant forall j :: 0 <= j < i ==>
                    mappedList[j] == playerDataList[j].(number := MapNumber(playerDataList[j].number, origGuiPlayerNum, numberOfPlayers))
      {
        var numberDiff := numberOfPlayers - origGuiPlayerNum;
        mappedList := mappedList + [playerDataList[i].(number := CMod(playerDataList[i].number + numberDiff, numberOfPlayers))];
        i := i + 1;
      }
      assert mappedList == Mapped(playerDataList, origGuiPlayerNum, numberOfPlayers);
      playerDataList := Sorted(mappedList);
      ok := true;
    }

    /** A new game from the list. */
    method InitGameFromList() returns (thrown: bool)
      modifies this
      ensures Outcome(View(), thrown) == InitGame(old(View()))
    {
      hide Find, Mapped, Sorted, IdsOf, SeatIds;
      var ok := MapPlayerDataList();
      if !ok {
        return true;
      }
      numberOfPlayers := |playerDataList|;
      if startDealerPlayerId !in IdsOf(playerDataList) {
        return true;
      }
      game := Some(GameView(SeatIds(playerDataList), 0));
      thrown := false;
    }

    /** Numbers from the seats of a first start. */
    method SetInitialNumbers(seats: seq<nat>) returns (ok: bool)
      modifies this`playerDataList
      ensures playerDataList == Numbered(old(playerDataList), seats, |seats|).0
      ensures ok <==> seats != [] && Numbered(old(playerDataList), seats, |seats|).1 == |seats|
    {
      if seats == [] {
        return false;
      }
      var i := 0;
      while i < |seats|
        invariant 0 <= i <= |seats|
        invariant Numbered(old(playerDataList), seats, i) == (playerDataList, i)
      {
        var p := GetPlayerDataByUniqueId(seats[i]);
        if p == |playerDataList| {
          NumberingStuck(old(playerDataList), seats, i + 1, |seats|);
          return false;
        }
        playerDataList := playerDataList[p := playerDataList[p].(number := i)];
        i := i + 1;
      }
      ok := true;
    }

    /** Numbers and cash from the seats of a rejoin; players who left are made up. */
    method SetRejoinNumbers(rejoining: seq<Rejoining>) returns (made: seq<nat>)
      modifies this`playerDataList
      ensures (playerDataList, made) == Rejoined(old(playerDataList), rejoining, |rejoining|)
    {
      made := [];
      var i := 0;
      while i < |rejoining|
        invariant 0 <= i <= |rejoining|
        invariant Rejoined(old(playerDataList), rejoining, i) == (playerDataList, made)
      {
        var s := rejoining[i];
        var p := GetPlayerDataByUniqueId(s.id);
        if p == |playerDataList| {
          if s.named {
            playerDataList := playerDataList + [PlayerData(s.id, i, s.money)];
          }
          made := made + [s.id];
        } else {
          playerDataList := playerDataList[p := playerDataList[p].(number := i, startCash := s.money)];
        }
        i := i + 1;
      }
    }

    method RemoveAll(ids: seq<nat>)
      modifies this`playerDataList
      ensures playerDataList == WithoutAll(old(playerDataList), ids)
    {
      var i := 0;
      while i < |ids|
        invariant 0 <= i <= |ids|
        invariant WithoutAll(playerDataList, ids[i..]) == WithoutAll(old(playerDataList), ids)
      {
        RemovePlayerData(ids[i]);
        assert ids[i..][0] == ids[i] && ids[i..][1..] == ids[i + 1..];
        i := i + 1;
      }
    }

    method NumberPlayers(m: Msg) returns (made: seq<nat>, ok: bool)
      requires m.GameStartInitial? || m.GameStartRejoin?
      modifies this
      ensures (View(), made, ok) == StartNumbers(old(View()), m)
    {
      made, ok := [], true;
      match m {
        case GameStartInitial(dealer, seats) =>
          startDealerPlayerId, numberOfPlayers := dealer, |seats|;
          ok := SetInitialNumbers(seats);
        case GameStartRejoin(dealer, handNum, rejoining) =>
          startDealerPlayerId, numberOfPlayers := dealer, |rejoining|;
          if rejoining == [] {
            ok := false;
          } else {
            made := SetRejoinNumbers(rejoining);
          }
      }
    }

    method WaitStartHandlePacket(m: Msg) returns (thrown: bool)
      modifies this
      ensures Outcome(View(), thrown) == WaitStartPacket(old(View()), m)
    {
      hide StartNumbers, InitGame, WithoutAll;
      if m.GameStartInitial? || m.GameStartRejoin? {
        var made, ok := NumberPlayers(m);
        if !ok {
          return true;
        }
        thrown := InitGameFromList();
        if thrown || game.None? {
          return true;
        }
        game := Some(game.value.(handId := if m.GameStartRejoin? then m.handNum else 0));
        RemoveAll(made);
        curState := WaitHand;
      }
      thrown := false;
    }

    method SynchronizeStartHandlePacket(m: Msg) returns (thrown: bool)
      modifies this
      ensures Outcome(View(), thrown) == SynchronizeStartPacket(old(View()), m)
    {
      if m.GameStartInitial? {
        UnsubscribeLobbyMsg();
        curState := WaitStart;
        thrown := SharedHandlePacket(m);
        if !thrown {
          hide WaitStartPacket;
          thrown := WaitStartHandlePacket(m);
        }
        return;
      }
      thrown := false;
    }

    method SharedHandlePacket(m: Msg) returns (thrown: bool)
      modifies this
      ensures Outcome(View(), thrown) == Shared(old(View()), m)
    {
      thrown := false;
      match m {
        case RemovedFromGame =>
          playerDataList := [];
          ResubscribeLobbyMsg();
          curState := WaitJoin;
        case GamePlayerLeft(id) =>
          RemovePlayerData(id);
        case GamePlayerJoined(id, named) =>
          if named {
            playerDataList := playerDataList + [PlayerData(id, 0, -1)];
          }
        case ErrorMsg =>
          thrown := true;
        case SharedOther(fails) =>
          thrown := fails;
        case _ =>
      }
    }

    method WaitHandHandlePacket(m: Msg) returns (thrown: bool)
      requires m.HandStart? ==> numberOfPlayers > 0
      modifies this
      ensures Outcome(View(), thrown) == WaitHandPacket(old(View()), m)
    {
      thrown := false;
      match m {
        case HandStart(cards, states, handStarts) =>
          thrown := StartHand(cards, states, handStarts);
        case EndOfGame(winner) =>
          if game.None? || winner !in game.value.ids {
            return true;
          }
          ResubscribeLobbyMsg();
          curState := WaitGame;
        case AfterHandShowCards(id) =>
          thrown := game.None? || id !in game.value.ids;
        case PlayerIdChanged(oldId, newId) =>
          if game.Some? {
            if oldId !in game.value.ids {
              return true;
            }
            game := Some(game.value.(ids := Renamed(game.value.ids, oldId, newId)));
          }
        case _ =>
      }
    }

    /** A hand starts: the cards are for us, every seat state has its seat, and the game can begin the
        hand. */
    method StartHand(cards: Cards, states: nat, handStarts: bool) returns (thrown: bool)
      requires numberOfPlayers > 0
      modifies this
      ensures Outcome(View(), thrown) == WaitHandPacket(old(View()), HandStart(cards, states, handStarts))
    {
      if game.None? {
        return true;
      }
      if !CardsFitHand(cards, game.value.handId) {
        return true;
      }
      var i := 0;
      while i < states
        invariant 0 <= i <= states
        invariant forall j :: 0 <= j < i ==> LocalSeat(j, origGuiPlayerNum, numberOfPlayers) < MAX_NUMBER_OF_PLAYERS
      {
        if LocalSeat(i, origGuiPlayerNum, numberOfPlayers) >= MAX_NUMBER_OF_PLAYERS {
          return true;
        }
        i := i + 1;
      }
      game := Some(game.value.(handId := game.value.handId + 1));
      if !handStarts {
        return true;
      }
      curState := RunHand;
      thrown := false;
    }

    predicate CardsFitHand(cards: Cards, handId: int)
      reads this
      ensures CardsFitHand(cards, handId) <==> CardsFit(View(), cards, handId)
    {
      match cards
      case PlainCards => password == ""
      case EncryptedCards(text) =>
        password != "" && text.Some? && text.value == CardText(guiPlayerId, gameId, handId + 1)
      case NoCards => false
    }

    method AllSeated(ids: seq<nat>) returns (all: bool)
      requires game.Some?
      ensures all <==> !(exists i :: 0 <= i < |ids| && ids[i] !in game.value.ids)
    {
      var i := 0;
      while i < |ids|
        invariant 0 <= i <= |ids| && forall j :: 0 <= j < i ==> ids[j] in game.value.ids
      {
        if ids[i] !in game.value.ids {
          return false;
        }
        i := i + 1;
      }
      all := true;
    }

    /** What is said about players while the hand runs: they must have a seat. */
    method PlayersHandlePacket(m: Msg) returns (thrown: bool)
      requires game.Some? && !m.EndOfHandHideCards? && !m.EndOfHandShowCards?
      ensures Outcome(View(), thrown) == RunHandPacket(View(), m)
    {
      thrown := false;
      match m {
        case PlayersActionDone(id, betValid) =>
          thrown := id !in game.value.ids || !betValid;
        case PlayersTurn(id) =>
          thrown := id !in game.value.ids;
        case AllInShowCards(ids) =>
          var all := AllSeated(ids);
          thrown := !all;
        case _ =>
      }
    }

    method RunHandHandlePacket(m: Msg) returns (thrown: bool)
      modifies this
      ensures Outcome(View(), thrown) == RunHandPacket(old(View()), m)
    {
      if game.None? {
        return true;
      }
      if m.EndOfHandHideCards? {
        if m.id !in game.value.ids {
          return true;
        }
        curState := WaitHand;
        return false;
      }
      if m.EndOfHandShowCards? {
        var all := AllSeated(m.ids);
        if !all {
          return true;
        }
        curState := WaitHand;
        return false;
      }
      thrown := PlayersHandlePacket(m);
    }

    method StartSessionHandlePacket(m: Msg) returns (thrown: bool)
      modifies this`curState
      ensures Outcome(View(), thrown) == StartSessionPacket(old(View()), m)
    {
      if m.Announce? {
        curState := WaitEnterLogin;
      }
      thrown := false;
    }

    method AuthChallengeHandlePacket(m: Msg) returns (thrown: bool)
      modifies this`sent, this`curState
      ensures Outcome(View(), thrown) == AuthChallengePacket(old(View()), m)
    {
      thrown := false;
      if m.AuthServerChallenge? {
        if !m.ok {
          return true;
        }
        sent := sent + [AuthResponse];
        curState := WaitAuthVerify;
      }
    }

    method AuthVerifyHandlePacket(m: Msg) returns (thrown: bool)
      modifies this`curState
      ensures Outcome(View(), thrown) == AuthVerifyPacket(old(View()), m)
    {
      thrown := false;
      if m.AuthServerVerification? {
        if !m.ok {
          return true;
        }
        curState := WaitSession;
      }
    }

    method WaitSessionHandlePacket(m: Msg) returns (thrown: bool)
      modifies this`guiPlayerId, this`sessionEstablished, this`sent, this`curState
      ensures Outcome(View(), thrown) == WaitSessionPacket(old(View()), m)
    {
      thrown := false;
      if m.InitAck? {
        guiPlayerId := m.playerId;
        sessionEstablished := true;
        curState := WaitJoin;
      } else if m.AvatarRequest? {
        if m.fails {
          return true;
        }
        sent := sent + [AvatarData];
      }
    }

    method WaitJoinHandlePacket(m: Msg) returns (thrown: bool)
      modifies this`gameId, this`playerDataList, this`curState
      ensures Outcome(View(), thrown) == WaitJoinPacket(old(View()), m)
    {
      if m.JoinGameAck? {
        gameId := m.gameId;
        if userName != "" {
          playerDataList := playerDataList + [PlayerData(guiPlayerId, 0, -1)];
        }
        curState := WaitGame;
      }
      thrown := false;
    }

    method WaitGameHandlePacket(m: Msg) returns (thrown: bool)
      modifies this`curState
      ensures Outcome(View(), thrown) == WaitGamePacket(old(View()), m)
    {
      if m.StartEvent? {
        curState := SynchronizeStart;
      }
      thrown := false;
    }

    /** The states before a game. */
    method LobbyHandlePacket(s: State, m: Msg) returns (thrown: bool)
      requires s in {StartSession, WaitAuthChallenge, WaitAuthVerify, WaitSession, WaitJoin, WaitGame}
      modifies this
      ensures Outcome(View(), thrown) == Internal(s, old(View()), m)
    {
      hide StartSessionPacket, AuthChallengePacket, AuthVerifyPacket, WaitSessionPacket, WaitJoinPacket, WaitGamePacket;
      match s {
        case StartSession => thrown := StartSessionHandlePacket(m);
        case WaitAuthChallenge => thrown := AuthChallengeHandlePacket(m);
        case WaitAuthVerify => thrown := AuthVerifyHandlePacket(m);
        case WaitSession => thrown := WaitSessionHandlePacket(m);
        case WaitJoin => thrown := WaitJoinHandlePacket(m);
        case WaitGame => thrown := WaitGameHandlePacket(m);
      }
    }

    method InternalHandlePacket(s: State, m: Msg) returns (thrown: bool)
      requires Receiving(s)
      requires s.WaitHand? && m.HandStart? ==> numberOfPlayers > 0
      modifies this
      ensures Outcome(View(), thrown) == Internal(s, old(View()), m)
    {
      hide SynchronizeStartPacket, WaitStartPacket, WaitHandPacket, RunHandPacket;
      if s == SynchronizeStart {
        thrown := SynchronizeStartHandlePacket(m);
      } else if s == WaitStart {
        thrown := WaitStartHandlePacket(m);
      } else if s == WaitHand {
        thrown := WaitHandHandlePacket(m);
      } else if s == RunHand {
        thrown := RunHandHandlePacket(m);
      } else {
        thrown := LobbyHandlePacket(s, m);
      }
    }

    /** A packet from the server: the shared part, then the handler of the state in which it came. */
    method ReceivePacket(m: Msg) returns (thrown: bool)
      requires Inv(View())
      modifies this
      ensures Outcome(View(), thrown) == HandlePacket(old(View()), m)
    {
      hide Shared, Internal;
      var s := curState;
      if s == WaitEnterLogin {
        return m.ErrorMsg?;
      }
      if !Receiving(s) {
        return false;
      }
      thrown := SharedHandlePacket(m);
      if thrown {
        return;
      }
      assert s.WaitHand? && m.HandStart? ==> numberOfPlayers > 0 by { SharedKeepsCount(old(View()), m); }
      thrown := InternalHandlePacket(s, m);
    }

    /** The end of a resolution, a connection attempt or a handshake, or the time limit for them. */
    method HandleConnection(e: Event) returns (thrown: bool)
      requires Inv(View()) && (e.Resolved? || e.Connected? || e.Handshake? || e.ConnectTimeout?)
      modifies this`endpoints, this`curState
      ensures Outcome(View(), thrown) == Handle(old(View()), e)
    {
      hide Inv, HandlePacket;
      thrown := false;
      match e {
        case Resolved(code, found) =>
          if code.NoError? && curState == StartResolve {
            if found == 0 {
              endpoints, curState := 0, Final;
            } else {
              endpoints, curState := found - 1, StartConnect;
            }
          } else {
            thrown := !code.Aborted?;
          }
        case Connected(code, ssl) =>
          if curState == StartConnect {
            if code.NoError? {
              if !ssl {
                curState := StartSession;
              }
            } else if endpoints > 0 {
              endpoints := endpoints - 1;
            } else {
              thrown := !code.Aborted?;
            }
          }
        case Handshake(code) =>
          if curState == StartConnect {
            if code.NoError? {
              curState := StartSession;
            } else {
              thrown := !code.Aborted?;
            }
          }
        case ConnectTimeout(code) =>
          thrown := code.NoError? && curState == StartConnect;
      }
    }

    /** The login dialog is polled until the user has entered something. */
    method TimerLogin(code: Code, login: Option<Login>)
      requires Inv(View())
      modifies this`userName, this`password, this`sent, this`curState
      ensures Done(View()) == Handle(old(View()), LoginTimer(code, login))
    {
      hide Inv;
      if code.NoError? && curState == WaitEnterLogin && login.Some? {
        userName, password := login.value.user, login.value.password;
        sent := sent + [InitRequest(userName)];
        curState := WaitSession;
      }
    }

    /** The start is acknowledged as soon as the game is shown. */
    method TimerSynchronize(code: Code, synchronized: bool)
      requires Inv(View())
      modifies this
      ensures Done(View()) == Handle(old(View()), SyncTimer(code, synchronized))
    {
      hide Inv;
      if code.NoError? && curState == SynchronizeStart && synchronized {
        sent := sent + [StartEventAck(gameId)];
        UnsubscribeLobbyMsg();
        curState := WaitStart;
      }
    }

    method HandleTimer(e: Event) returns (thrown: bool)
      requires Inv(View()) && (e.DownloadTimer? || e.ChooseTimer? || e.LoginTimer? || e.SyncTimer?)
      modifies this
      ensures Outcome(View(), thrown) == Handle(old(View()), e)
    {
      hide Inv, HandlePacket;
      match e {
        case DownloadTimer(code, finished, list) =>
          if code.NoError? && curState == DownloadingServerList && finished {
            EnterReadingServerList(list);
          }
        case ChooseTimer(code, selected) =>
          if code.NoError? && curState == WaitChooseServer && selected {
            curState := StartResolve;
          }
        case LoginTimer(code, login) =>
          TimerLogin(code, login);
          hide Handle;
        case SyncTimer(code, synchronized) =>
          TimerSynchronize(code, synchronized);
          hide Handle;
      }
      thrown := false;
    }

    /** Everything but packets: the connection, the timers, and the end of the session. */
    method HandleOther(e: Event) returns (thrown: bool)
      requires Inv(View()) && !e.Packet?
      modifies this
      ensures Outcome(View(), thrown) == Handle(old(View()), e)
    {
      if e.Resolved? || e.Connected? || e.Handshake? || e.ConnectTimeout? {
        thrown := HandleConnection(e);
        hide Handle;
      } else if e.SessionClosed? || e.Failure? {
        thrown := true;
      } else {
        thrown := HandleTimer(e);
        hide Handle;
      }
    }

    /** One turn of the main loop; an exception ends it in the final state. */
    method HandleEvent(e: Event) returns (thrown: bool)
      requires Inv(View())
      modifies this
      ensures View() == Step(old(View()), e) && Inv(View())
      ensures thrown == Handle(old(View()), e).thrown
    {
      HandleInv(View(), e);
      hide Inv, HandlePacket;
      match e {
        case Packet(m) => thrown := ReceivePacket(m);
        case _ => thrown := HandleOther(e);
      }
      if thrown {
        curState := Final;
      }
    }
  }

  lemma {:induction false} NumberingStuck(ps: seq<PlayerData>, seats: seq<nat>, k: nat, end: nat)
    requires k <= end <= |seats| && Numbered(ps, seats, k).1 < k
    ensures Numbered(ps, seats, end) == Numbered(ps, seats, k)
    decreases end
  {
    if end > k {
      NumberingStuck(ps, seats, k, end - 1);
    }
  }

  lemma SharedKeepsCount(c: Client, m: Msg)
    ensures m.HandStart? ==> Shared(c, m) == Done(c)
  {
  }
}
