/** What an arbitrary server can and cannot make the client do. */
module ClientSafety {
  import opened Seats
  import opened PlayerList
  import opened Game
  import opened GameDefs
  import opened Wrappers
  import opened ClientState

  /** At every moment of every run: outside the final state the lobby subscription is off exactly in a
      game; the two challenge states are never entered; a hand has a game with all its seats and a
      player count that can be divided by; and the server, if it does as told, agrees about the subscription. */
  lemma SafetyOfEveryRun(cfg: Config, es: seq<Event>)
    ensures var c := Run(cfg, es);
            && (!c.state.Final? ==> (!c.subscribed <==> c.state in {WaitStart, WaitHand, RunHand}))
            && c.state != WaitAuthChallenge && c.state != WaitAuthVerify
            && (c.state in {WaitHand, RunHand} ==> c.game.Some? && |c.game.value.ids| == MAX_NUMBER_OF_PLAYERS && c.numberOfPlayers > 0)
            && c.subscribed == SubscribedAtServer(c.sent)
  {
    var c := Run(cfg, es);
    assert Inv(c);
  }

  /** The final state leaves the subscription as the failing handler left it: it is off if and only if the
      client was in a game, or was about to synchronize and got the start message, which it unsubscribes
      for before it looks at it. */
  lemma FinalSubscription(c: Client, e: Event)
    requires Inv(c) && !c.state.Final? && Step(c, e).state.Final?
    ensures !Step(c, e).subscribed <==>
            c.state in {WaitStart, WaitHand, RunHand} || (c.state.SynchronizeStart? && e.Packet? && e.msg.GameStartInitial?)
  {
    HandleInv(c, e);
    var o := Handle(c, e);
    if o.c.state.Final? {
      OnlyConnectingFails(c, e);
    } else {
      FailsWhere(c, e);
      OffInGames(o.c);
    }
    hide Handle, Inv;
  }

  lemma OffInGames(c: Client)
    requires Inv(c) && !c.state.Final?
    ensures !c.subscribed <==> InGame(c.state)
  {
    hide SubscribedAtServer;
  }

  /** A handler that throws has not left the game, nor entered it except on the start message. */
  lemma FailsWhere(c: Client, e: Event)
    requires Inv(c) && !c.state.Final? && Handle(c, e).thrown
    ensures InGame(Handle(c, e).c.state) <==> InGame(c.state) || (c.state.SynchronizeStart? && e.Packet? && e.msg.GameStartInitial?)
  {
    if e.Packet? && Receiving(c.state) {
      SharedInv(c, e.msg);
      var o := Shared(c, e.msg);
      if e.msg.RemovedFromGame? {
        RemovalIsShared(c.state, o.c);
      } else if !o.thrown {
        hide Shared;
        InternalFailsWhere(o.c, e.msg);
      }
    }
  }

  /** The two states of a hand go to each other and, at the end of the game, back to the wait for one; a
      handler that throws stays. */
  lemma HandStates(c: Client, m: Msg)
    requires c.state in {WaitHand, RunHand} && (c.state.WaitHand? && m.HandStart? ==> c.numberOfPlayers > 0)
    ensures var o := Internal(c.state, c, m);
            && o.c.established == c.established
            && o.c.state in {WaitHand, RunHand, WaitGame}
            && (o.thrown ==> o.c.state == c.state)
            && (o.c.state == WaitGame ==> c.state == WaitHand && m.EndOfGame?)
            && (m.EndOfGame? && c.state == WaitHand && !o.thrown ==> o.c.state == WaitGame)
  {
    hide CardsFit, SeatsExist, Renamed;
    if c.state.WaitHand? {
      assert Internal(c.state, c, m) == WaitHandPacket(c, m);
      hide Internal, RunHandPacket;
    } else {
      assert Internal(c.state, c, m) == RunHandPacket(c, m);
      hide Internal, WaitHandPacket;
    }
  }

  /** Before a game every handler stays in its state or goes on to the next; only the one that waits for the
      session establishes it, and then it goes on. */
  lemma LobbyStates(c: Client, m: Msg)
    requires c.state in {StartSession, WaitSession, WaitJoin, WaitGame}
    ensures var s, o := c.state, Internal(c.state, c, m);
            var t := o.c.state;
            && (o.thrown ==> t == s)
            && (if s == WaitSession && t == WaitJoin then o.c.established else o.c.established == c.established)
            && (t == s || (s == StartSession && t == WaitEnterLogin) || (s == WaitSession && t == WaitJoin)
                || (s == WaitJoin && t == WaitGame && m.JoinGameAck?) || (s == WaitGame && t == SynchronizeStart && m.StartEvent?))
  {
    hide SynchronizeStartPacket, WaitStartPacket, WaitHandPacket, RunHandPacket;
  }

  lemma InternalFailsWhere(c: Client, m: Msg)
    requires Inv(c) && Receiving(c.state) && Internal(c.state, c, m).thrown
    ensures InGame(Internal(c.state, c, m).c.state) <==> InGame(c.state) || (c.state.SynchronizeStart? && m.GameStartInitial?)
  {
    hide StartSessionPacket, WaitSessionPacket, WaitJoinPacket, WaitGamePacket;
    hide SynchronizeStartPacket, WaitStartPacket, WaitHandPacket, RunHandPacket, LocalSeat, SubscribedAtServer;
    match c.state {
      case SynchronizeStart =>
        SynchronizeForwards(c, m);
        if m.GameStartInitial? {
          StartNeverFinal(Unsubscribed(c).(state := WaitStart), m);
        }
      case WaitStart => StartNeverFinal(c, m);
      case WaitHand => HandStates(c, m);
      case RunHand => HandStates(c, m);
      case _ => LobbyStates(c, m);
    }
  }

  /** A handler that ends in the final state without an exception failed to enter a state of the
      connection phase, where the subscription is on. */
  lemma OnlyConnectingFails(c: Client, e: Event)
    requires Inv(c) && !c.state.Final? && Handle(c, e).c.state.Final?
    ensures Handle(c, e).c.subscribed && !InGame(c.state) && !e.Packet?
  {
    if e.Packet? {
      PacketNeverFinal(c, e.msg);
      assert false;
    }
    hide HandlePacket, SubscribedAtServer;
  }

  lemma PacketNeverFinal(c: Client, m: Msg)
    requires Inv(c) && !c.state.Final?
    ensures !HandlePacket(c, m).c.state.Final?
  {
    if Receiving(c.state) {
      SharedInv(c, m);
      var o := Shared(c, m);
      hide Shared;
      hide Sorted, Mapped, Numbered, Rejoined, WithoutAll, LocalSeat, SubscribedAtServer;
      if m.RemovedFromGame? {
        RemovalIsShared(c.state, o.c);
      } else if !o.thrown {
        InternalNeverFinal(o.c, m);
      }
    }
  }

  lemma InternalNeverFinal(c: Client, m: Msg)
    requires Inv(c) && Receiving(c.state)
    ensures !Internal(c.state, c, m).c.state.Final?
  {
    hide StartSessionPacket, WaitSessionPacket, WaitJoinPacket, WaitGamePacket;
    hide SynchronizeStartPacket, WaitStartPacket, WaitHandPacket, RunHandPacket, LocalSeat, SubscribedAtServer;
    match c.state {
      case SynchronizeStart =>
        if m.GameStartInitial? {
          StartNeverFinal(Unsubscribed(c).(state := WaitStart), m);
        }
        SynchronizeForwards(c, m);
      case WaitStart => StartNeverFinal(c, m);
      case WaitHand => HandStates(c, m);
      case RunHand => HandStates(c, m);
      case _ => LobbyStates(c, m);
    }
  }

  lemma SynchronizeForwards(c: Client, m: Msg)
    ensures SynchronizeStartPacket(c, m) ==
            if m.GameStartInitial? then WaitStartPacket(Unsubscribed(c).(state := WaitStart), m) else Done(c)
  {
  }

  lemma StartNeverFinal(c: Client, m: Msg)
    requires c.state.WaitStart?
    ensures WaitStartPacket(c, m).c.state in {WaitStart, WaitHand}
  {
    hide Sorted, Mapped, Numbered, Rejoined, WithoutAll;
    if m.GameStartInitial? || m.GameStartRejoin? {
      var (d, made, ok) := StartNumbers(c, m);
      assert d.state.WaitStart? && InitGame(d).c.state.WaitStart?;
    }
  }

  // ---------------------------------------------------------------------------------------------
  // The order of events.

  ghost function StateAt(cfg: Config, es: seq<Event>, i: nat): State
    requires i <= |es|
  {
    Run(cfg, es[..i]).state
  }

  ghost predicate JoinAt(cfg: Config, es: seq<Event>, i: int) {
    0 <= i < |es| && es[i].Packet? && es[i].msg.JoinGameAck? && StateAt(cfg, es, i) == WaitJoin
  }

  ghost predicate StartAt(cfg: Config, es: seq<Event>, j: int) {
    0 <= j < |es| && es[j].Packet? && es[j].msg.StartEvent? && StateAt(cfg, es, j) == WaitGame
  }

  /** A start message that names at least one seat. */
  predicate NamesSeats(m: Msg) {
    match m
    case GameStartInitial(_, seats) => seats != []
    case GameStartRejoin(_, _, rejoining) => rejoining != []
    case _ => false
  }

  /** A game start with at least one seat, taken by a client that waits for it. */
  ghost predicate GameAt(cfg: Config, es: seq<Event>, k: int) {
    0 <= k < |es| && es[k].Packet? && NamesSeats(es[k].msg) && StateAt(cfg, es, k) in {SynchronizeStart, WaitStart}
  }

  ghost predicate NoRemovalAfter(es: seq<Event>, i: int) {
    forall x :: 0 <= x < |es| && i < x ==> es[x] != Packet(RemovedFromGame)
  }

  /** No end of a game was announced after j to a client that waits for a hand. */
  ghost predicate NoEndAfter(cfg: Config, es: seq<Event>, j: int) {
    forall x :: 0 <= x < |es| && j < x ==> !(es[x].Packet? && es[x].msg.EndOfGame? && StateAt(cfg, es, x) == WaitHand)
  }

  predicate Joined(s: State) { s in {WaitGame, SynchronizeStart, WaitStart, WaitHand, RunHand} }
  predicate Started(s: State) { s in {SynchronizeStart, WaitStart, WaitHand, RunHand} }
  predicate Playing(s: State) { s in {WaitHand, RunHand} }

  ghost predicate Explained(cfg: Config, es: seq<Event>, i: int, j: int, k: int) {
    var s := Run(cfg, es).state;
    && (Joined(s) ==> JoinAt(cfg, es, i) && NoRemovalAfter(es, i))
    && (Started(s) ==> i < j && StartAt(cfg, es, j) && NoEndAfter(cfg, es, j))
    && (Playing(s) ==> j < k && GameAt(cfg, es, k))
  }

  /** How one step gets a client into the three phases. */
  lemma PhaseStep(c: Client, e: Event)
    requires Inv(c)
    ensures var s, t := c.state, Step(c, e).state;
            && (Joined(t) ==> Joined(s) || (s == WaitJoin && e.Packet? && e.msg.JoinGameAck? && t == WaitGame))
            && (Started(t) ==> Started(s) || (s == WaitGame && e.Packet? && e.msg.StartEvent? && t == SynchronizeStart))
            && (Playing(t) ==> Playing(s) || (s in {SynchronizeStart, WaitStart} && e.Packet? && NamesSeats(e.msg)))
            && (Joined(t) ==> e != Packet(RemovedFromGame))
            && (Started(t) ==> !(e.Packet? && e.msg.EndOfGame? && s == WaitHand))
  {
    if e.Packet? {
      PacketPhase(c, e.msg);
    }
  }

  lemma PacketPhase(c: Client, m: Msg)
    requires Inv(c)
    ensures var s, o := c.state, HandlePacket(c, m);
            var t := o.c.state;
            !o.thrown ==>
              && (Joined(t) ==> Joined(s) || (s == WaitJoin && m.JoinGameAck? && t == WaitGame))
              && (Started(t) ==> Started(s) || (s == WaitGame && m.StartEvent? && t == SynchronizeStart))
              && (Playing(t) ==> Playing(s) || (s in {SynchronizeStart, WaitStart} && NamesSeats(m)))
              && (Joined(t) ==> m != RemovedFromGame || !Receiving(s))
              && (Started(t) ==> !(m.EndOfGame? && s == WaitHand))
  {
    if Receiving(c.state) {
      SharedInv(c, m);
      var o := Shared(c, m);
      hide Shared;
      if m.RemovedFromGame? {
        RemovalIsShared(c.state, o.c);
      } else if !o.thrown {
        InternalPhase(o.c, m);
      }
    }
  }

  lemma InternalPhase(c: Client, m: Msg)
    requires Inv(c) && Receiving(c.state)
    ensures var s, o := c.state, Internal(c.state, c, m);
            var t := o.c.state;
            !o.thrown ==>
              && (Joined(t) ==> Joined(s) || (s == WaitJoin && m.JoinGameAck? && t == WaitGame))
              && (Started(t) ==> Started(s) || (s == WaitGame && m.StartEvent? && t == SynchronizeStart))
              && (Playing(t) ==> Playing(s) || (s in {SynchronizeStart, WaitStart} && NamesSeats(m)))
              && (Started(t) ==> !(m.EndOfGame? && s == WaitHand))
  {
    hide StartSessionPacket, WaitSessionPacket, WaitJoinPacket, WaitGamePacket;
    hide SynchronizeStartPacket, WaitStartPacket, WaitHandPacket, RunHandPacket, LocalSeat, SubscribedAtServer;
    match c.state {
      case SynchronizeStart =>
        SynchronizeForwards(c, m);
        StartNames(Unsubscribed(c).(state := WaitStart), m);
      case WaitStart => StartNames(c, m);
      case WaitHand => HandStates(c, m);
      case RunHand => HandStates(c, m);
      case _ => LobbyStates(c, m);
    }
  }

  lemma StartNames(c: Client, m: Msg)
    requires c.state.WaitStart?
    ensures var o := WaitStartPacket(c, m);
            o.c.state in {WaitStart, WaitHand} && (!o.thrown && o.c.state == WaitHand ==> NamesSeats(m))
  {
    hide Sorted, Mapped, Numbered, Rejoined, WithoutAll;
    StartNeverFinal(c, m);
  }

  /** What was so about a run is so about a longer one. */
  lemma Longer(cfg: Config, es: seq<Event>, e: Event, x: int)
    ensures JoinAt(cfg, es, x) ==> JoinAt(cfg, es + [e], x)
    ensures StartAt(cfg, es, x) ==> StartAt(cfg, es + [e], x)
    ensures GameAt(cfg, es, x) ==> GameAt(cfg, es + [e], x)
  {
    if 0 <= x < |es| {
      assert (es + [e])[..x] == es[..x];
      hide Run;
    }
  }

  lemma NothingSince(cfg: Config, es: seq<Event>, e: Event, x: int)
    ensures NoRemovalAfter(es, x) && e != Packet(RemovedFromGame) ==> NoRemovalAfter(es + [e], x)
    ensures x == |es| ==> NoRemovalAfter(es + [e], x) && NoEndAfter(cfg, es + [e], x)
    ensures NoEndAfter(cfg, es, x) && !(e.Packet? && e.msg.EndOfGame? && Run(cfg, es).state == WaitHand) ==> NoEndAfter(cfg, es + [e], x)
  {
    hide Run;
    var l := es + [e];
    assert l[..|es|] == es;
    assert forall y :: 0 <= y < |es| ==> l[y] == es[y] && l[..y] == es[..y];
  }

  lemma {:induction false} Explain(cfg: Config, es: seq<Event>) returns (i: int, j: int, k: int)
    ensures Explained(cfg, es, i, j, k)
    ensures Joined(Run(cfg, es).state) ==> i < |es|
    ensures Started(Run(cfg, es).state) ==> j < |es|
  {
    if es == [] {
      i, j, k := 0, 0, 0;
    } else {
      var n := |es| - 1;
      var before, e := es[..n], es[n];
      assert es == before + [e];
      i, j, k := Explain(cfg, before);
      var c := Run(cfg, before);
      PhaseStep(c, e);
      Longer(cfg, before, e, i);
      Longer(cfg, before, e, j);
      Longer(cfg, before, e, k);
      assert Run(cfg, es) == Step(c, e);
      assert StateAt(cfg, es, n) == c.state;
      i := if Joined(c.state) then i else n;
      j := if Started(c.state) then j else n;
      k := if Playing(c.state) then k else n;
      NothingSince(cfg, before, e, i);
      NothingSince(cfg, before, e, j);
      hide Run, Step, NoRemovalAfter, NoEndAfter, StateAt;
    }
  }

  /** A client waits for or plays a hand only after, in this order, a join was acknowledged to a client
      waiting to join, a start event came to a client waiting for its game, and a game start with at
      least one seat came to a client waiting to start; it has not been removed since it joined, and
      the game has not ended since its start event. */
  lemma HandsNeedJoinStartAndSeats(cfg: Config, es: seq<Event>)
    requires Run(cfg, es).state in {WaitHand, RunHand}
    ensures exists i, j, k ::
              && JoinAt(cfg, es, i) && StartAt(cfg, es, j) && GameAt(cfg, es, k) && i < j < k
              && NoRemovalAfter(es, i) && NoEndAfter(cfg, es, j)
  {
    var i, j, k := Explain(cfg, es);
  }

  // ---------------------------------------------------------------------------------------------
  // What a server can do.

  lemma RunSnoc(cfg: Config, es: seq<Event>, e: Event)
    ensures Inv(Run(cfg, es)) && Run(cfg, es + [e]) == Step(Run(cfg, es), e)
  {
    assert (es + [e])[..|es|] == es;
  }

  // ---------------------------------------------------------------------------------------------
  // Seats.

  /** A start message of a full table that names every listed player once seats them around the client:
      seat 0 is the client's, and from then on the i-th seat state of every hand start reaches the very
      player whom the server has in its i-th seat. */
  lemma SeatStatesReachTheirPlayers(c: Client, dealer: nat, seats: seq<nat>, g: nat)
    requires Inv(c) && c.state == WaitStart && NamesEveryone(c.players, seats)
    requires g < |seats| <= MAX_NUMBER_OF_PLAYERS && seats[g] == c.guiId && dealer in seats
    ensures var o := HandlePacket(c, GameStartInitial(dealer, seats));
            && !o.thrown && o.c.state == WaitHand && o.c.origGuiNum == g && o.c.numberOfPlayers == |seats|
            && o.c.game.value.ids[0] == c.guiId
            && forall i :: 0 <= i < |seats| ==>
                 0 <= LocalSeat(i, o.c.origGuiNum, o.c.numberOfPlayers) < |seats| && o.c.game.value.ids[LocalSeat(i, o.c.origGuiNum, o.c.numberOfPlayers)] == seats[i]
  {
    hide Find, Numbered, Mapped, Sorted, LocalSeat, SeatIds, IdsOf;
    SeatedList(c.players, seats, g, dealer);
    StartOutcome(c, dealer, seats, g);
    WaitStartHandles(c, dealer, seats);
    hide HandlePacket, WaitStartPacket;
  }

  lemma WaitStartHandles(c: Client, dealer: nat, seats: seq<nat>)
    requires Inv(c) && c.state == WaitStart
    ensures HandlePacket(c, GameStartInitial(dealer, seats)) == WaitStartPacket(c, GameStartInitial(dealer, seats))
  {
    assert Shared(c, GameStartInitial(dealer, seats)) == Done(c);
  }

  /** The same about the list alone. */
  lemma SeatedList(ps: seq<PlayerData>, seats: seq<nat>, g: nat, dealer: nat)
    requires NamesEveryone(ps, seats) && g < |seats| <= MAX_NUMBER_OF_PLAYERS && dealer in seats
    ensures var n := |seats|;
            var (q, done) := Numbered(ps, seats, n);
            var list := Sorted(Mapped(q, g, n));
            && done == n && Find(q, seats[g]) < |q| && q[Find(q, seats[g])].number == g
            && |list| == n && dealer in IdsOf(list) && SeatIds(list)[0] == seats[g]
            && forall i :: 0 <= i < n ==> 0 <= LocalSeat(i, g, n) < n && SeatIds(list)[LocalSeat(i, g, n)] == seats[i]
  {
    var n := |seats|;
    NumberedMeaning(ps, seats, n);
    SeatedInOrder(ps, seats, g);
    RenumberingIsPermutation(g, n);
    hide Find, Numbered, Mapped, Sorted, LocalSeat;
    var q := Numbered(ps, seats, n).0;
    OwnNumber(ps, q, seats, g);
    var list := Sorted(Mapped(q, g, n));
    forall i | 0 <= i < n
      ensures IdsOf(list)[LocalSeat(i, g, n)] == seats[i] == IdOfSeat(IdsOf(list), LocalSeat(i, g, n))
    {
    }
    var i :| 0 <= i < n && seats[i] == dealer;
    assert IdsOf(list)[LocalSeat(i, g, n)] == dealer;
  }

  /** What a client makes of a start message when nothing is missing. */
  lemma StartOutcome(c: Client, dealer: nat, seats: seq<nat>, g: int)
    requires c.state == WaitStart && seats != []
    requires var (q, done) := Numbered(c.players, seats, |seats|);
             && done == |seats| && Find(q, c.guiId) < |q| && q[Find(q, c.guiId)].number == g
             && dealer in IdsOf(Sorted(Mapped(q, g, |seats|)))
    ensures var list := Sorted(Mapped(Numbered(c.players, seats, |seats|).0, g, |seats|));
            WaitStartPacket(c, GameStartInitial(dealer, seats)) ==
            Done(c.(startDealer := dealer, numberOfPlayers := |list|, origGuiNum := g, players := list,
                    game := Some(GameView(SeatIds(list), 0)), state := WaitHand))
  {
    hide Find, Numbered, Mapped, Sorted, SeatIds, IdsOf;
    var m := GameStartInitial(dealer, seats);
    var d := StartNumbers(c, m).0;
    var list := Sorted(Mapped(d.players, g, |seats|));
    assert InitGame(d) == Done(d.(origGuiNum := g, numberOfPlayers := |list|, players := list, game := Some(GameView(SeatIds(list), 0))));
    assert WithoutAll(list, []) == list;
  }

  lemma OwnNumber(ps: seq<PlayerData>, q: seq<PlayerData>, seats: seq<nat>, g: nat)
    requires g < |seats| && |q| == |ps| && Find(ps, seats[g]) < |ps|
    requires forall i :: 0 <= i < |ps| ==> q[i].id == ps[i].id
    requires forall i :: 0 <= i < |ps| && ps[i].id == seats[g] ==> q[i].number == g
    ensures Find(q, seats[g]) < |q| && q[Find(q, seats[g])].number == g
  {
    assert q[Find(ps, seats[g])].id == seats[g];
  }
}
