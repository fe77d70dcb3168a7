/** The client's connection state machine: nineteen states driven by timers, the network and a server
    that may send anything at any time. */
module ClientState {
  import opened Seats
  import opened PlayerList
  import opened Game
  import opened GameDefs
  import opened Wrappers

  datatype State =
    | Init | StartResolve | StartServerListDownload | DownloadingServerList | ReadingServerList | WaitChooseServer
    | StartConnect | StartSession | WaitEnterLogin | WaitAuthChallenge | WaitAuthVerify | WaitSession | WaitJoin
    | WaitGame | SynchronizeStart | WaitStart | WaitHand | RunHand | Final

  /** The states that take packets through the shared handler. */
  predicate Receiving(s: State) {
    s in {StartSession, WaitAuthChallenge, WaitAuthVerify, WaitSession, WaitJoin, WaitGame, SynchronizeStart, WaitStart, WaitHand, RunHand}
  }

  /** The states of a running game. */
  predicate InGame(s: State) {
    s in {WaitStart, WaitHand, RunHand}
  }

  /** A game as the connection sees it: the ids of its seats and the hand number. */
  datatype GameView = GameView(ids: seq<nat>, handId: int)

  /** What the client sends to the server. */
  datatype Request = InitRequest(user: string) | StartEventAck(gameId: nat) | Unsubscribe | Resubscribe | AuthResponse | AvatarData

  datatype Client = Client(
    state: State, subscribed: bool, established: bool, userName: string, password: string, guiId: nat, gameId: nat,
    players: seq<PlayerData>, startDealer: nat, numberOfPlayers: int, origGuiNum: int, game: Option<GameView>,
    endpoints: nat, sent: seq<Request>)

  datatype ServerList = BrokenList | ServerList(count: nat)
  datatype Config = Config(serverAddr: string, serverPort: nat, useServerList: bool, listPath: string, listCached: bool, list: ServerList,
                           playerName: string)
  datatype Code = NoError | Aborted | Failed
  datatype Login = Login(user: string, password: string)

  datatype CardText = CardText(playerId: nat, gameId: nat, handNum: int)
  datatype Cards = PlainCards | EncryptedCards(text: Option<CardText>) | NoCards

  /** Packets from the server. What the other messages of the shared handler do to the GUI and to the
      lists of the lobby is not part of this state; they may fail. */
  datatype Msg =
    | RemovedFromGame | GamePlayerLeft(id: nat) | GamePlayerJoined(id: nat, named: bool) | ErrorMsg | SharedOther(fails: bool)
    | Announce | AuthServerChallenge(ok: bool) | AuthServerVerification(ok: bool) | InitAck(playerId: nat) | AvatarRequest(fails: bool)
    | JoinGameAck(gameId: nat) | JoinGameFailed | InviteNotify | RejectInvNotify | StartEvent
    | GameStartInitial(dealer: nat, seats: seq<nat>) | GameStartRejoin(dealer: nat, handNum: int, rejoining: seq<Rejoining>)
    | HandStart(cards: Cards, states: nat, handStarts: bool) | EndOfGame(winner: nat) | AfterHandShowCards(id: nat)
    | PlayerIdChanged(oldId: nat, newId: nat)
    | PlayersActionDone(id: nat, betValid: bool) | PlayersTurn(id: nat) | DealCards | AllInShowCards(ids: seq<nat>)
    | EndOfHandHideCards(id: nat) | EndOfHandShowCards(ids: seq<nat>)

  /** What happens to the client: resolver, download, connection and timers, packets, the connection
      closed, a library call that fails before it has had an effect. */
  datatype Event =
    | Resolved(code: Code, found: nat) | DownloadTimer(code: Code, finished: bool, list: ServerList)
    | ChooseTimer(code: Code, selected: bool) | Connected(code: Code, ssl: bool) | Handshake(code: Code) | ConnectTimeout(code: Code)
    | LoginTimer(code: Code, login: Option<Login>) | SyncTimer(code: Code, synchronized: bool)
    | Packet(msg: Msg) | SessionClosed | Failure

  /** The client when the handler is done, or at the point where it throws. */
  datatype Outcome = Outcome(c: Client, thrown: bool)

  function Done(c: Client): Outcome { Outcome(c, false) }
  function Throw(c: Client): Outcome { Outcome(c, true) }

  // ---------------------------------------------------------------------------------------------
  // Entering the states of the connection phase. A state that cannot be entered leaves the client in
  // the final state.

  function EnterReading(c: Client, list: ServerList): Client {
    if list.BrokenList? || list.count == 0 then c.(state := Final)
    else if list.count == 1 then c.(state := StartResolve)
    else c.(state := WaitChooseServer)
  }

  function EnterInit(c: Client, cfg: Config): Client {
    if cfg.serverAddr == "" || cfg.serverPort < 1024 then c.(state := Final)
    else if !cfg.useServerList then c.(state := StartResolve)
    else if cfg.listPath == "" then c.(state := Final)
    else if cfg.listCached then EnterReading(c, cfg.list)
    else c.(state := DownloadingServerList)
  }

  function EnterConnect(c: Client, found: nat): Client {
    if found == 0 then c.(state := Final, endpoints := 0) else c.(state := StartConnect, endpoints := found - 1)
  }

  // ---------------------------------------------------------------------------------------------
  // Lobby subscription.

  function Unsubscribed(c: Client): Client {
    if c.subscribed then c.(subscribed := false, sent := c.sent + [Unsubscribe]) else c
  }

  function Resubscribed(c: Client): Client {
    if c.subscribed then c else c.(subscribed := true, sent := c.sent + [Resubscribe])
  }

  // ---------------------------------------------------------------------------------------------
  // The handlers of the receiving states.

  /** The part of every packet's handling that all receiving states share. */
  function Shared(c: Client, m: Msg): Outcome {
    match m
    case RemovedFromGame => Done(Resubscribed(c.(players := [])).(state := WaitJoin))
    case GamePlayerLeft(id) => Done(c.(players := Without(c.players, id)))
    case GamePlayerJoined(id, named) => Done(if named then c.(players := c.players + [PlayerData(id, 0, -1)]) else c)
    case ErrorMsg => Throw(c)
    case SharedOther(fails) => Outcome(c, fails)
    case _ => Done(c)
  }

  function StartSessionPacket(c: Client, m: Msg): Outcome {
    if m.Announce? then Done(c.(state := WaitEnterLogin)) else Done(c)
  }

  function AuthChallengePacket(c: Client, m: Msg): Outcome {
    match m
    case AuthServerChallenge(ok) => if ok then Done(c.(state := WaitAuthVerify, sent := c.sent + [AuthResponse])) else Throw(c)
    case _ => Done(c)
  }

  function AuthVerifyPacket(c: Client, m: Msg): Outcome {
    match m
    case AuthServerVerification(ok) => if ok then Done(c.(state := WaitSession)) else Throw(c)
    case _ => Done(c)
  }

  function WaitSessionPacket(c: Client, m: Msg): Outcome {
    match m
    case InitAck(playerId) => Done(c.(guiId := playerId, established := true, state := WaitJoin))
    case AvatarRequest(fails) => if fails then Throw(c) else Done(c.(sent := c.sent + [AvatarData]))
    case _ => Done(c)
  }

  function WaitJoinPacket(c: Client, m: Msg): Outcome {
    match m
    case JoinGameAck(gameId) =>
      var ps := if c.userName == "" then c.players else c.players + [PlayerData(c.guiId, 0, -1)];
      Done(c.(gameId := gameId, players := ps, state := WaitGame))
    case _ => Done(c)
  }

  function WaitGamePacket(c: Client, m: Msg): Outcome {
    if m.StartEvent? then Done(c.(state := SynchronizeStart)) else Done(c)
  }

  function IdsOf(ps: seq<PlayerData>): (r: seq<nat>)
    ensures |r| == |ps| && forall i :: 0 <= i < |ps| ==> r[i] == ps[i].id
  {
    if ps == [] then [] else [ps[0].id] + IdsOf(ps[1..])
  }

  /** The ids of the seats of a new game. */
  function SeatIds(ps: seq<PlayerData>): (r: seq<nat>)
    ensures |r| == MAX_NUMBER_OF_PLAYERS && forall i :: 0 <= i < |r| ==> r[i] == IdOfSeat(IdsOf(ps), i)
  {
    seq(MAX_NUMBER_OF_PLAYERS, i requires i >= 0 => IdOfSeat(IdsOf(ps), i))
  }

  /** Building the game from the player list. */
  function InitGame(c: Client): Outcome {
    var p := Find(c.players, c.guiId);
    if p == |c.players| then Throw(c)
    else
      var d := c.(origGuiNum := c.players[p].number);
      if d.numberOfPlayers <= 0 then Throw(d)
      else
        var list := Sorted(Mapped(d.players, d.origGuiNum, d.numberOfPlayers));
        var e := d.(players := list, numberOfPlayers := |list|);
        if e.startDealer !in IdsOf(list) then Throw(e) else Done(e.(game := Some(GameView(SeatIds(list), 0))))
  }

  /** Numbers for the players of the start message; false if one is missing or there is none at all. */
  function StartNumbers(c: Client, m: Msg): (Client, seq<nat>, bool)
    requires m.GameStartInitial? || m.GameStartRejoin?
  {
    match m
    case GameStartInitial(dealer, seats) =>
      var d := c.(startDealer := dealer, numberOfPlayers := |seats|);
      var (ps, done) := Numbered(d.players, seats, |seats|);
      (d.(players := ps), [], seats != [] && done == |seats|)
    case GameStartRejoin(dealer, handNum, rejoining) =>
      var d := c.(startDealer := dealer, numberOfPlayers := |rejoining|);
      var (ps, made) := Rejoined(d.players, rejoining, |rejoining|);
      (d.(players := ps), made, rejoining != [])
  }

  function WaitStartPacket(c: Client, m: Msg): Outcome {
    if !m.GameStartInitial? && !m.GameStartRejoin? then Done(c)
    else
      var (d, made, ok) := StartNumbers(c, m);
      if !ok then Throw(d)
      else
        var o := InitGame(d);
        if o.thrown || o.c.game.None? then Throw(o.c)
        else
          var hand := if m.GameStartRejoin? then m.handNum else 0;
          Done(o.c.(game := Some(o.c.game.value.(handId := hand)), players := WithoutAll(o.c.players, made), state := WaitHand))
  }

  /** The message is forwarded to the next state, through its shared handler. */
  function SynchronizeStartPacket(c: Client, m: Msg): Outcome {
    if m.GameStartInitial? then
      var d := Unsubscribed(c).(state := WaitStart);
      var o := Shared(d, m);
      if o.thrown then o else WaitStartPacket(o.c, m)
    else Done(c)
  }

  predicate CardsFit(c: Client, cards: Cards, handId: int) {
    match cards
    case PlainCards => c.password == ""
    case EncryptedCards(text) =>
      && c.password != "" && text.Some?
      && text.value.playerId == c.guiId && text.value.gameId == c.gameId && text.value.handNum == handId + 1
    case NoCards => false
  }

  /** Each of the first k seat states has a seat. */
  predicate SeatsExist(c: Client, k: nat)
    requires c.numberOfPlayers > 0
  {
    forall i :: 0 <= i < k ==> LocalSeat(i, c.origGuiNum, c.numberOfPlayers) < MAX_NUMBER_OF_PLAYERS
  }

  function WaitHandPacket(c: Client, m: Msg): Outcome
    requires m.HandStart? ==> c.numberOfPlayers > 0
  {
    match m
    case HandStart(cards, states, handStarts) =>
      if c.game.None? then Throw(c)
      else if !CardsFit(c, cards, c.game.value.handId) || !SeatsExist(c, states) then Throw(c)
      else
        var d := c.(game := Some(c.game.value.(handId := c.game.value.handId + 1)));
        if handStarts then Done(d.(state := RunHand)) else Throw(d)
    case EndOfGame(winner) =>
      if c.game.None? || winner !in c.game.value.ids then Throw(c) else Done(Resubscribed(c).(state := WaitGame))
    case AfterHandShowCards(id) =>
      if c.game.None? || id !in c.game.value.ids then Throw(c) else Done(c)
    case PlayerIdChanged(oldId, newId) =>
      if c.game.None? then Done(c)
      else if oldId !in c.game.value.ids then Throw(c)
      else Done(c.(game := Some(c.game.value.(ids := Renamed(c.game.value.ids, oldId, newId)))))
    case _ => Done(c)
  }

  /** The first seat with the old id gets the new one. */
  function Renamed(ids: seq<nat>, oldId: nat, newId: nat): (r: seq<nat>)
    ensures |r| == |ids|
  {
    if ids == [] then [] else if ids[0] == oldId then [newId] + ids[1..] else [ids[0]] + Renamed(ids[1..], oldId, newId)
  }

  function RunHandPacket(c: Client, m: Msg): Outcome {
    if c.game.None? then Throw(c)
    else
      match m
      case PlayersActionDone(id, betValid) => Outcome(c, id !in c.game.value.ids || !betValid)
      case PlayersTurn(id) => Outcome(c, id !in c.game.value.ids)
      case AllInShowCards(ids) => Outcome(c, exists i :: 0 <= i < |ids| && ids[i] !in c.game.value.ids)
      case EndOfHandHideCards(id) => if id !in c.game.value.ids then Throw(c) else Done(c.(state := WaitHand))
      case EndOfHandShowCards(ids) =>
        if exists i :: 0 <= i < |ids| && ids[i] !in c.game.value.ids then Throw(c) else Done(c.(state := WaitHand))
      case _ => Done(c)
  }

  /** The handler of one state; by now the shared part may have moved the client elsewhere. */
  function Internal(s: State, c: Client, m: Msg): Outcome
    requires Receiving(s)
    requires s.WaitHand? && m.HandStart? ==> c.numberOfPlayers > 0
  {
    match s
    case StartSession => StartSessionPacket(c, m)
    case WaitAuthChallenge => AuthChallengePacket(c, m)
    case WaitAuthVerify => AuthVerifyPacket(c, m)
    case WaitSession => WaitSessionPacket(c, m)
    case WaitJoin => WaitJoinPacket(c, m)
    case WaitGame => WaitGamePacket(c, m)
    case SynchronizeStart => SynchronizeStartPacket(c, m)
    case WaitStart => WaitStartPacket(c, m)
    case WaitHand => WaitHandPacket(c, m)
    case RunHand => RunHandPacket(c, m)
  }

  function HandlePacket(c: Client, m: Msg): Outcome
    requires Inv(c)
  {
    if c.state.WaitEnterLogin? then Outcome(c, m.ErrorMsg?)
    else if !Receiving(c.state) then Done(c)
    else
      var o := Shared(c, m);
      if o.thrown then o else Internal(c.state, o.c, m)
  }

  // ---------------------------------------------------------------------------------------------
  // All events.

  function Handle(c: Client, e: Event): Outcome
    requires Inv(c)
  {
    match e
    case Resolved(code, found) =>
      if code.NoError? && c.state.StartResolve? then Done(EnterConnect(c, found)) else Outcome(c, !code.Aborted?)
    case DownloadTimer(code, finished, list) =>
      if code.NoError? && c.state.DownloadingServerList? && finished then Done(EnterReading(c, list)) else Done(c)
    case ChooseTimer(code, selected) =>
      if code.NoError? && c.state.WaitChooseServer? && selected then Done(c.(state := StartResolve)) else Done(c)
    case Connected(code, ssl) =>
      if !c.state.StartConnect? then Done(c)
      else if code.NoError? then Done(if ssl then c else c.(state := StartSession))
      else if c.endpoints > 0 then Done(c.(endpoints := c.endpoints - 1))
      else Outcome(c, !code.Aborted?)
    case Handshake(code) =>
      if !c.state.StartConnect? then Done(c)
      else if code.NoError? then Done(c.(state := StartSession))
      else Outcome(c, !code.Aborted?)
    case ConnectTimeout(code) => Outcome(c, code.NoError? && c.state.StartConnect?)
    case LoginTimer(code, login) =>
      if code.NoError? && c.state.WaitEnterLogin? && login.Some? then
        Done(c.(userName := login.value.user, password := login.value.password, sent := c.sent + [InitRequest(login.value.user)], state := WaitSession))
      else Done(c)
    case SyncTimer(code, synchronized) =>
      if code.NoError? && c.state.SynchronizeStart? && synchronized then
        Done(Unsubscribed(c.(sent := c.sent + [StartEventAck(c.gameId)])).(state := WaitStart))
      else Done(c)
    case Packet(m) => HandlePacket(c, m)
    case SessionClosed => Throw(c)
    case Failure => Throw(c)
  }

  /** An exception ends the client's main loop, which leaves it in the final state. */
  function Step(c: Client, e: Event): Client
    requires Inv(c)
  {
    var o := Handle(c, e);
    if o.thrown then o.c.(state := Final) else o.c
  }

  function Start(cfg: Config): Client {
    EnterInit(Client(Init, true, false, cfg.playerName, "", 0, 0, [], 0, 0, 0, None, 0, []), cfg)
  }

  /** The server's view of the subscription: what the requests sent so far have made of it. */
  function SubscribedAtServer(sent: seq<Request>): bool {
    if sent == [] then true
    else
      match sent[|sent| - 1]
      case Unsubscribe => false
      case Resubscribe => true
      case _ => SubscribedAtServer(sent[..|sent| - 1])
  }

  ghost predicate Inv(c: Client) {
    && !c.state.WaitAuthChallenge? && !c.state.WaitAuthVerify?
    && (!c.state.Final? ==> (c.subscribed <==> !InGame(c.state)))
    && (c.state.WaitHand? || c.state.RunHand? ==> c.game.Some? && c.numberOfPlayers > 0)
    && (c.game.Some? ==> |c.game.value.ids| == MAX_NUMBER_OF_PLAYERS)
    && c.subscribed == SubscribedAtServer(c.sent)
  }

  ghost function Run(cfg: Config, es: seq<Event>): (c: Client)
    ensures Inv(c)
  {
    if es == [] then
      Start(cfg)
    else
      var c := Run(cfg, es[..|es| - 1]);
      HandleInv(c, es[|es| - 1]);
      Step(c, es[|es| - 1])
  }

  // ---------------------------------------------------------------------------------------------
  // Invariants.

  lemma SentAppend(c: Client, r: Request)
    ensures SubscribedAtServer(c.sent + [r]) == if r.Unsubscribe? then false else if r.Resubscribe? then true else SubscribedAtServer(c.sent)
  {
    assert (c.sent + [r])[..|c.sent|] == c.sent;
  }

  /** What is kept outside the game: nothing but the state and the lists may change. */
  ghost predicate Rest(c: Client) {
    && (c.game.Some? ==> |c.game.value.ids| == MAX_NUMBER_OF_PLAYERS)
    && c.subscribed == SubscribedAtServer(c.sent)
  }

  lemma SubscriptionRest(c: Client)
    requires Rest(c)
    ensures Rest(Unsubscribed(c)) && !Unsubscribed(c).subscribed
    ensures Rest(Resubscribed(c)) && Resubscribed(c).subscribed
  {
    SentAppend(c, Unsubscribe);
    SentAppend(c, Resubscribe);
  }

  lemma InitGameRest(c: Client)
    requires Rest(c) && c.state.WaitStart? && !c.subscribed
    ensures var o := InitGame(c);
            && Rest(o.c) && o.c.state.WaitStart? && !o.c.subscribed
            && (!o.thrown ==> o.c.numberOfPlayers > 0)
  {
    hide Sorted, Mapped, Find, IdsOf, SeatIds, SubscribedAtServer;
  }

  lemma WaitStartInv(c: Client, m: Msg)
    requires Rest(c) && c.state.WaitStart? && !c.subscribed
    ensures Inv(WaitStartPacket(c, m).c)
  {
    if m.GameStartInitial? || m.GameStartRejoin? {
      hide Numbered, Rejoined, WithoutAll, InitGame, SubscribedAtServer;
      var (d, made, ok) := StartNumbers(c, m);
      if ok {
        InitGameRest(d);
      }
    }
  }

  lemma SynchronizeStartInv(c: Client, m: Msg)
    requires Rest(c) && c.state.SynchronizeStart? && c.subscribed
    ensures Inv(SynchronizeStartPacket(c, m).c)
  {
    if m.GameStartInitial? {
      SubscriptionRest(c);
      WaitStartInv(Unsubscribed(c).(state := WaitStart), m);
    }
  }

  lemma WaitHandInv(c: Client, m: Msg)
    requires Inv(c) && c.state.WaitHand?
    ensures Inv(WaitHandPacket(c, m).c)
  {
    SubscriptionRest(c);
    hide SubscribedAtServer, LocalSeat;
  }

  lemma SharedInv(c: Client, m: Msg)
    requires Inv(c) && Receiving(c.state)
    ensures Inv(Shared(c, m).c)
    ensures Shared(c, m).c.state == if m.RemovedFromGame? then WaitJoin else c.state
  {
    SubscriptionRest(c.(players := []));
    hide SubscribedAtServer, Without;
  }

  lemma InternalInv(c: Client, m: Msg)
    requires Inv(c) && Receiving(c.state)
    ensures Inv(Internal(c.state, c, m).c)
  {
    SentAppend(c, AvatarData);
    hide SubscribedAtServer, SynchronizeStartPacket, WaitStartPacket, WaitHandPacket;
    match c.state {
      case SynchronizeStart => SynchronizeStartInv(c, m);
      case WaitStart => WaitStartInv(c, m);
      case WaitHand => WaitHandInv(c, m);
      case _ =>
    }
  }

  /** After a removal the old state's own handler has nothing to do. */
  lemma RemovalIsShared(s: State, c: Client)
    requires Receiving(s) && (s.RunHand? ==> c.game.Some?)
    ensures Internal(s, c, RemovedFromGame) == Done(c)
  {
  }

  lemma PacketInv(c: Client, m: Msg)
    requires Inv(c)
    ensures Inv(HandlePacket(c, m).c)
  {
    hide Shared, Internal;
    if Receiving(c.state) {
      SharedInv(c, m);
      var o := Shared(c, m);
      if m.RemovedFromGame? {
        assert o == Done(Resubscribed(c.(players := [])).(state := WaitJoin)) by { SharedRemoval(c); }
        RemovalIsShared(c.state, o.c);
      } else if !o.thrown {
        InternalInv(o.c, m);
      }
    }
  }

  lemma SharedRemoval(c: Client)
    ensures Shared(c, RemovedFromGame) == Done(Resubscribed(c.(players := [])).(state := WaitJoin))
  {
  }

  lemma SyncInv(c: Client)
    requires Inv(c) && c.state.SynchronizeStart?
    ensures Inv(Unsubscribed(c.(sent := c.sent + [StartEventAck(c.gameId)])).(state := WaitStart))
  {
    SentAppend(c, StartEventAck(c.gameId));
    SubscriptionRest(c.(sent := c.sent + [StartEventAck(c.gameId)]));
    hide SubscribedAtServer;
  }

  lemma LoginInv(c: Client, login: Login)
    requires Inv(c) && c.state.WaitEnterLogin?
    ensures Inv(c.(userName := login.user, password := login.password, sent := c.sent + [InitRequest(login.user)], state := WaitSession))
  {
    SentAppend(c, InitRequest(login.user));
    hide SubscribedAtServer;
  }

  lemma TimerInv(c: Client, e: Event)
    requires Inv(c) && !e.Packet?
    ensures Inv(Handle(c, e).c)
  {
    hide SubscribedAtServer, HandlePacket, Unsubscribed;
    if e.LoginTimer? && e.login.Some? && c.state.WaitEnterLogin? {
      LoginInv(c, e.login.value);
    } else if e.SyncTimer? && c.state.SynchronizeStart? {
      SyncInv(c);
    }
  }

  lemma FinalInv(c: Client)
    requires Inv(c)
    ensures Inv(c.(state := Final))
  {
  }

  /** Every handler keeps the invariant up to its end or to the point where it throws. */
  lemma HandleInv(c: Client, e: Event)
    requires Inv(c)
    ensures Inv(Handle(c, e).c)
    ensures Inv(Step(c, e))
  {
    if e.Packet? {
      PacketInv(c, e.msg);
    } else {
      TimerInv(c, e);
    }
    FinalInv(Handle(c, e).c);
    hide Inv, HandlePacket;
  }
}
