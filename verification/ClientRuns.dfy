/** Runs of the client with messages that its packet validator lets through: what a server can bring
    about, and when. */
module ClientRuns {
  import opened Seats
  import opened PlayerList
  import opened GameDefs
  import opened Wrappers
  import opened ClientState
  import opened ClientSafety

  /** What the packet validator checks of the fields that are kept here. */
  predicate Acceptable(m: Msg) {
    match m
    case GamePlayerLeft(id) => id != 0
    case GamePlayerJoined(id, _) => id != 0
    case InitAck(id) => id != 0
    case JoinGameAck(id) => id != 0
    case GameStartInitial(dealer, seats) => dealer != 0 && 2 <= |seats| <= MAX_NUMBER_OF_PLAYERS
    case GameStartRejoin(dealer, handNum, rejoining) => dealer != 0 && handNum != 0 && 2 <= |rejoining| <= MAX_NUMBER_OF_PLAYERS
    case HandStart(_, states, _) => 2 <= states <= MAX_NUMBER_OF_PLAYERS
    case EndOfGame(winner) => winner != 0
    case PlayerIdChanged(oldId, newId) => oldId != 0 && newId != 0
    case PlayersActionDone(id, _) => id != 0
    case PlayersTurn(id) => id != 0
    case AllInShowCards(ids) => 1 <= |ids| <= MAX_NUMBER_OF_PLAYERS
    case EndOfHandHideCards(id) => id != 0
    case EndOfHandShowCards(ids) => 1 <= |ids| <= MAX_NUMBER_OF_PLAYERS
    case _ => true
  }

  predicate Passes(e: Event) {
    e.Packet? ==> Acceptable(e.msg)
  }

  predicate AllPass(es: seq<Event>) {
    forall i :: 0 <= i < |es| ==> Passes(es[i])
  }

  /** The client got here by a run of acceptable messages. */
  ghost predicate Leads(cfg: Config, es: seq<Event>, c: Client) {
    AllPass(es) && Run(cfg, es) == c && Inv(c)
  }

  lemma Onward(cfg: Config, es: seq<Event>, c: Client, e: Event)
    requires Leads(cfg, es, c) && Passes(e)
    ensures Leads(cfg, es + [e], Step(c, e))
  {
    assert (es + [e])[..|es|] == es;
    HandleInv(c, e);
  }

  // ---------------------------------------------------------------------------------------------
  // Without a session.

  predicate BeforeSession(s: State) {
    s in {Init, StartResolve, StartServerListDownload, DownloadingServerList, ReadingServerList, WaitChooseServer,
          StartConnect, StartSession, WaitEnterLogin, WaitSession}
  }

  predicate PastSession(s: State) {
    s in {WaitJoin, WaitGame, SynchronizeStart, WaitStart, WaitHand, RunHand}
  }

  predicate RemovesEarly(s: State, e: Event) {
    s in {StartSession, WaitSession} && e == Packet(RemovedFromGame)
  }

  /** Some removal came before the session was there. */
  ghost predicate RemovedEarly(cfg: Config, es: seq<Event>) {
    exists x :: 0 <= x < |es| && RemovesEarly(StateAt(cfg, es, x), es[x])
  }

  lemma SessionStep(c: Client, e: Event)
    requires Inv(c)
    ensures var t := Step(c, e);
            && (BeforeSession(t.state) ==> BeforeSession(c.state) && t.established == c.established && !RemovesEarly(c.state, e))
            && (PastSession(t.state) ==>
                  if PastSession(c.state) then t.established == c.established
                  else if RemovesEarly(c.state, e) then BeforeSession(c.state) && t.established == c.established
                  else BeforeSession(c.state) && t.established)
  {
    if e.Packet? {
      SessionPacket(c, e.msg);
    } else {
      ConnectionStates(c, e);
    }
    hide Handle, Inv;
  }

  /** Without a packet nothing is established, and only the synchronization takes a client from one state
      past the session to another. */
  lemma ConnectionStates(c: Client, e: Event)
    requires Inv(c) && !e.Packet?
    ensures var o := Handle(c, e);
            && o.c.established == c.established
            && (BeforeSession(o.c.state) ==> BeforeSession(c.state)) && (PastSession(o.c.state) ==> PastSession(c.state))
  {
    hide HandlePacket, SubscribedAtServer, Inv;
  }

  lemma SessionPacket(c: Client, m: Msg)
    requires Inv(c)
    ensures var o := HandlePacket(c, m);
            !o.thrown ==>
              && (BeforeSession(o.c.state) ==> BeforeSession(c.state) && o.c.established == c.established && !RemovesEarly(c.state, Packet(m)))
              && (PastSession(o.c.state) ==>
                    if PastSession(c.state) then o.c.established == c.established
                    else if RemovesEarly(c.state, Packet(m)) then BeforeSession(c.state) && o.c.established == c.established
                    else BeforeSession(c.state) && o.c.established)
  {
    if Receiving(c.state) {
      SharedInv(c, m);
      SharedKeepsSession(c, m);
      var o := Shared(c, m);
      hide Shared;
      if m.RemovedFromGame? {
        RemovalIsShared(c.state, o.c);
      } else if !o.thrown {
        InternalSession(o.c, m);
      }
    }
  }

  lemma SharedKeepsSession(c: Client, m: Msg)
    ensures Shared(c, m).c.established == c.established
  {
    hide Without;
  }

  lemma InternalSession(c: Client, m: Msg)
    requires Inv(c) && Receiving(c.state)
    ensures var o := Internal(c.state, c, m);
            !o.thrown ==>
              && (BeforeSession(o.c.state) ==> BeforeSession(c.state) && o.c.established == c.established)
              && (PastSession(o.c.state) ==> if PastSession(c.state) then o.c.established == c.established else o.c.established)
  {
    hide StartSessionPacket, WaitSessionPacket, WaitJoinPacket, WaitGamePacket;
    hide SynchronizeStartPacket, WaitStartPacket, WaitHandPacket, RunHandPacket, LocalSeat, SubscribedAtServer;
    match c.state {
      case SynchronizeStart =>
        SynchronizeForwards(c, m);
        StartKeepsSession(Unsubscribed(c).(state := WaitStart), m);
      case WaitStart => StartKeepsSession(c, m);
      case WaitHand => HandStates(c, m);
      case RunHand => HandStates(c, m);
      case _ => LobbyStates(c, m);
    }
  }

  lemma StartKeepsSession(c: Client, m: Msg)
    requires c.state.WaitStart?
    ensures WaitStartPacket(c, m).c.established == c.established && WaitStartPacket(c, m).c.state in {WaitStart, WaitHand}
  {
    hide Sorted, Mapped, Numbered, Rejoined, WithoutAll, Find, IdsOf, SeatIds;
    StartNeverFinal(c, m);
  }

  lemma RemovedEarlySnoc(cfg: Config, es: seq<Event>, e: Event)
    ensures RemovedEarly(cfg, es + [e]) <==> RemovedEarly(cfg, es) || RemovesEarly(Run(cfg, es).state, e)
  {
    hide Run, RemovesEarly;
    var l := es + [e];
    assert l[..|es|] == es;
    assert forall x: nat :: x < |es| ==> l[..x] == es[..x];
    if RemovedEarly(cfg, es) {
      var x :| 0 <= x < |es| && RemovesEarly(StateAt(cfg, es, x), es[x]);
      assert RemovesEarly(StateAt(cfg, l, x), l[x]);
    }
    if RemovesEarly(Run(cfg, es).state, e) {
      assert RemovesEarly(StateAt(cfg, l, |es|), l[|es|]);
    }
    if RemovedEarly(cfg, l) {
      var x :| 0 <= x < |l| && RemovesEarly(StateAt(cfg, l, x), l[x]);
      assert x < |es| ==> RemovesEarly(StateAt(cfg, es, x), es[x]);
    }
  }

  lemma {:induction false} SessionAccount(cfg: Config, es: seq<Event>)
    ensures var c := Run(cfg, es);
            && (BeforeSession(c.state) ==> !c.established && !RemovedEarly(cfg, es))
            && (PastSession(c.state) ==> (!c.established <==> RemovedEarly(cfg, es)))
  {
    if es == [] {
      assert !RemovedEarly(cfg, es);
      hide RemovedEarly;
    } else {
      hide Run, Step, Inv, RemovedEarly, RemovesEarly;
      var before, e := es[..|es| - 1], es[|es| - 1];
      assert es == before + [e];
      SessionAccount(cfg, before);
      RunSnoc(cfg, before, e);
      SessionStep(Run(cfg, before), e);
      RemovedEarlySnoc(cfg, before, e);
    }
  }

  /** A client that waits for a join or is further has no session if and only if a removal reached it
      while it waited for the announcement of the server or for its session. */
  lemma NoSessionIffRemovedEarly(cfg: Config, es: seq<Event>)
    requires Run(cfg, es).state in {WaitJoin, WaitGame, SynchronizeStart, WaitStart, WaitHand, RunHand}
    ensures !Run(cfg, es).established <==>
            exists x :: 0 <= x < |es| && es[x] == Packet(RemovedFromGame) && StateAt(cfg, es, x) in {StartSession, WaitSession}
  {
    SessionAccount(cfg, es);
    if RemovedEarly(cfg, es) {
      var x :| 0 <= x < |es| && RemovesEarly(StateAt(cfg, es, x), es[x]);
      assert es[x] == Packet(RemovedFromGame);
    }
    if x :| 0 <= x < |es| && es[x] == Packet(RemovedFromGame) && StateAt(cfg, es, x) in {StartSession, WaitSession} {
      assert RemovesEarly(StateAt(cfg, es, x), es[x]);
    }
  }

  // ---------------------------------------------------------------------------------------------
  // Single steps.

  lemma Connects(c: Client)
    requires Inv(c) && c.state == StartResolve
    ensures Inv(Step(c, Resolved(NoError, 1)))
    ensures Step(Step(c, Resolved(NoError, 1)), Connected(NoError, false)) == c.(state := StartSession, endpoints := 0)
  {
    HandleInv(c, Resolved(NoError, 1));
  }

  lemma Removes(c: Client)
    requires Inv(c) && c.state == StartSession
    ensures Step(c, Packet(RemovedFromGame)) == c.(players := [], state := WaitJoin)
  {
  }

  lemma Announces(c: Client)
    requires Inv(c) && c.state == StartSession
    ensures Step(c, Packet(Announce)) == c.(state := WaitEnterLogin)
  {
  }

  lemma LogsIn(c: Client, user: string)
    requires Inv(c) && c.state == WaitEnterLogin
    ensures Step(c, LoginTimer(NoError, Some(Login(user, ""))))
         == c.(userName := user, password := "", sent := c.sent + [InitRequest(user)], state := WaitSession)
  {
  }

  lemma GetsSession(c: Client, id: nat)
    requires Inv(c) && c.state == WaitSession
    ensures Step(c, Packet(InitAck(id))) == c.(guiId := id, established := true, state := WaitJoin)
  {
  }

  lemma Joins(c: Client, game: nat)
    requires Inv(c) && c.state == WaitJoin && c.userName != ""
    ensures Step(c, Packet(JoinGameAck(game)))
         == c.(gameId := game, players := c.players + [PlayerData(c.guiId, 0, -1)], state := WaitGame)
  {
  }

  lemma SeesPlayer(c: Client, id: nat)
    requires Inv(c) && c.state == WaitGame
    ensures Step(c, Packet(GamePlayerJoined(id, true))) == c.(players := c.players + [PlayerData(id, 0, -1)])
  {
  }

  lemma SeesStart(c: Client)
    requires Inv(c) && c.state == WaitGame
    ensures Step(c, Packet(StartEvent)) == c.(state := SynchronizeStart)
  {
  }

  lemma Synchronizes(c: Client)
    requires Inv(c) && c.state == SynchronizeStart
    ensures Step(c, SyncTimer(NoError, true))
         == c.(subscribed := false, sent := c.sent + [StartEventAck(c.gameId)] + [Unsubscribe], state := WaitStart)
  {
    hide SubscribedAtServer;
  }

  // ---------------------------------------------------------------------------------------------
  // Whole runs.

  /** A direct connection, with a player name from the configuration. */
  function Direct(): Config {
    Config("s", 7234, false, "", false, BrokenList, "p")
  }

  function Connected1(): Client {
    Client(StartSession, true, false, "p", "", 0, 0, [], 0, 0, 0, None, 0, [])
  }

  lemma ReachConnection() returns (es: seq<Event>)
    ensures Leads(Direct(), es, Connected1())
  {
    var cfg, c := Direct(), Start(Direct());
    assert c == Connected1().(state := StartResolve);
    assert Leads(cfg, [], c);
    Onward(cfg, [], c, Resolved(NoError, 1));
    Onward(cfg, [] + [Resolved(NoError, 1)], Step(c, Resolved(NoError, 1)), Connected(NoError, false));
    Connects(c);
    es := [] + [Resolved(NoError, 1)] + [Connected(NoError, false)];
  }

  lemma Next(cfg: Config, es: seq<Event>, c: Client, e: Event, d: Client) returns (fs: seq<Event>)
    requires Leads(cfg, es, c) && Passes(e) && Step(c, e) == d
    ensures fs == es + [e] && Leads(cfg, fs, d)
  {
    Onward(cfg, es, c, e);
    fs := es + [e];
  }

  /** A server can put a client into a hand that never logged in and has no session. */
  lemma HandWithoutSession()
    ensures exists cfg, es ::
              AllPass(es) && Run(cfg, es).state == WaitHand && !Run(cfg, es).established && Run(cfg, es).sent == [Unsubscribe]
  {
    hide Step, Run, Passes, Inv;
    var cfg, c := Direct(), Connected1();
    var es := ReachConnection();
    Allowed();
    assert Inv(c);
    Removes(c);
    es := Next(cfg, es, c, Packet(RemovedFromGame), c.(players := [], state := WaitJoin));
    c := c.(players := [], state := WaitJoin);
    Joins(c, 1);
    es := Next(cfg, es, c, Packet(JoinGameAck(1)), c.(gameId := 1, players := [PlayerData(0, 0, -1)], state := WaitGame));
    c := c.(gameId := 1, players := [PlayerData(0, 0, -1)], state := WaitGame);
    SeesPlayer(c, 5);
    es := Next(cfg, es, c, Packet(GamePlayerJoined(5, true)), c.(players := [PlayerData(0, 0, -1), PlayerData(5, 0, -1)]));
    c := c.(players := [PlayerData(0, 0, -1), PlayerData(5, 0, -1)]);
    SeesStart(c);
    es := Next(cfg, es, c, Packet(StartEvent), c.(state := SynchronizeStart));
    c := c.(state := SynchronizeStart);
    TwoPlayerStart(c);
    es := Next(cfg, es, c, Packet(GameStartInitial(5, [0, 5])), Step(c, Packet(GameStartInitial(5, [0, 5]))));
    assert AllPass(es) && Run(cfg, es).state == WaitHand && !Run(cfg, es).established && Run(cfg, es).sent == [Unsubscribe];
  }

  lemma Allowed()
    ensures Passes(Packet(RemovedFromGame)) && Passes(Packet(JoinGameAck(1))) && Passes(Packet(StartEvent)) && Passes(Packet(Announce))
    ensures forall id: nat, b :: id != 0 ==> Passes(Packet(GamePlayerJoined(id, b)))
    ensures forall id: nat :: id != 0 ==> Passes(Packet(InitAck(id)))
    ensures forall dealer: nat, x: nat, y: nat :: dealer != 0 ==> Passes(Packet(GameStartInitial(dealer, [x, y])))
    ensures forall code, login :: Passes(LoginTimer(code, login))
    ensures forall code, ok :: Passes(SyncTimer(code, ok))
  {
  }

  lemma TwoPlayerStart(c: Client)
    requires Inv(c) && c.state == SynchronizeStart && c.guiId == 0 && c.players == [PlayerData(0, 0, -1), PlayerData(5, 0, -1)]
    requires c.subscribed && c.sent == []
    ensures var d := Step(c, Packet(GameStartInitial(5, [0, 5])));
            d.state == WaitHand && d.established == c.established && d.sent == [Unsubscribe]
  {
    hide Find, Numbered, Mapped, Sorted, HandlePacket, WaitStartPacket, IdsOf, SynchronizeStartPacket, SeatIds, LocalSeat;
    TwoNamed(c.players);
    SeatedList(c.players, [0, 5], 0, 5);
    SynchronizeHandles(c, 5, [0, 5]);
    StartOutcome(Unsubscribed(c).(state := WaitStart), 5, [0, 5], 0);
  }

  lemma TwoNamed(ps: seq<PlayerData>)
    requires ps == [PlayerData(0, 0, -1), PlayerData(5, 0, -1)]
    ensures NamesEveryone(ps, [0, 5])
  {
    assert ps[0].id == 0 && ps[1].id == 5;
    var seats: seq<nat> := [0, 5];
    assert seats[0] == 0 && seats[1] == 5;
    assert Find(ps, 0) < 2 && Find(ps, 5) < 2;
  }

  lemma SynchronizeHandles(c: Client, dealer: nat, seats: seq<nat>)
    requires Inv(c) && c.state == SynchronizeStart
    ensures HandlePacket(c, GameStartInitial(dealer, seats)) ==
            WaitStartPacket(Unsubscribed(c).(state := WaitStart), GameStartInitial(dealer, seats))
  {
    var m := GameStartInitial(dealer, seats);
    SynchronizeForwards(c, m);
    hide WaitStartPacket, SynchronizeStartPacket;
    assert Shared(c, m) == Done(c);
    assert Internal(c.state, c, m) == SynchronizeStartPacket(c, m);
  }

  /** A client with a session as player `id` that has joined a game alone. */
  function Joined1(id: nat): Client {
    Client(WaitGame, true, true, "p", "", id, 1, [PlayerData(id, 0, -1)], 0, 0, 0, None, 0, [InitRequest("p")])
  }

  lemma ReachGame(id: nat) returns (es: seq<Event>)
    requires id != 0
    ensures Leads(Direct(), es, Joined1(id))
  {
    hide Step, Run, Passes, Inv;
    var cfg, c := Direct(), Connected1();
    es := ReachConnection();
    Allowed();
    Announces(c);
    es := Next(cfg, es, c, Packet(Announce), c.(state := WaitEnterLogin));
    c := c.(state := WaitEnterLogin);
    LogsIn(c, "p");
    es := Next(cfg, es, c, LoginTimer(NoError, Some(Login("p", ""))), c.(sent := [InitRequest("p")], state := WaitSession));
    c := c.(sent := [InitRequest("p")], state := WaitSession);
    GetsSession(c, id);
    es := Next(cfg, es, c, Packet(InitAck(id)), c.(guiId := id, established := true, state := WaitJoin));
    c := c.(guiId := id, established := true, state := WaitJoin);
    Joins(c, 1);
    es := Next(cfg, es, c, Packet(JoinGameAck(1)), Joined1(id));
  }

  /** From there to the start of the game. */
  lemma ReachStart(es: seq<Event>, c: Client) returns (fs: seq<Event>)
    requires Leads(Direct(), es, c) && c.state == WaitGame
    ensures Leads(Direct(), fs, c.(subscribed := false, sent := c.sent + [StartEventAck(c.gameId)] + [Unsubscribe], state := WaitStart))
  {
    hide Step, Run, Passes, Inv;
    Allowed();
    SeesStart(c);
    fs := Next(Direct(), es, c, Packet(StartEvent), c.(state := SynchronizeStart));
    Synchronizes(c.(state := SynchronizeStart));
    fs := Next(Direct(), fs, c.(state := SynchronizeStart), SyncTimer(NoError, true),
               c.(subscribed := false, sent := c.sent + [StartEventAck(c.gameId)] + [Unsubscribe], state := WaitStart));
  }

  /** The final state with the subscription off is reachable: a start message that names an unknown player
      does it. */
  lemma FinalWithSubscriptionOff()
    ensures exists cfg, es :: AllPass(es) && Run(cfg, es).state == Final && !Run(cfg, es).subscribed
  {
    hide Step, Run, Passes, Inv;
    var es := ReachGame(3);
    es := ReachStart(es, Joined1(3));
    var c := Joined1(3).(subscribed := false, sent := Joined1(3).sent + [StartEventAck(1)] + [Unsubscribe], state := WaitStart);
    Allowed();
    UnknownPlayer(c);
    es := Next(Direct(), es, c, Packet(GameStartInitial(3, [3, 5])), Step(c, Packet(GameStartInitial(3, [3, 5]))));
    assert AllPass(es) && Run(Direct(), es).state == Final && !Run(Direct(), es).subscribed;
  }

  lemma UnknownPlayer(c: Client)
    requires Inv(c) && c.state == WaitStart && c.players == [PlayerData(3, 0, -1)]
    ensures var d := Step(c, Packet(GameStartInitial(3, [3, 5]))); d.state == Final && !d.subscribed
  {
    var m := GameStartInitial(3, [3, 5]);
    WaitStartHandles(c, 3, [3, 5]);
    var ps := c.players;
    assert Numbered(ps, [3, 5], 0) == (ps, 0);
    assert ps[0].id == 3 && Find(ps, 3) == 0;
    var q := ps[0 := ps[0].(number := 0)];
    assert Numbered(ps, [3, 5], 1) == (q, 1);
    assert q[0].id == 3 && Find(q, 5) == 1;
    assert Numbered(ps, [3, 5], 2) == (q, 1);
    hide HandlePacket, Find, InitGame;
  }
}
