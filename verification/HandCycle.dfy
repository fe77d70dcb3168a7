/** The hands of a game at the client: how they begin and end, how they alternate, how they are numbered. */
module HandCycle {
  import Dealer
  import opened Seats
  import opened PlayerList
  import opened Game
  import opened GameDefs
  import opened Wrappers
  import opened ClientState
  import opened ClientSafety
  import opened ClientSeating

  predicate Seated(c: Client, id: nat) {
    c.game.Some? && id in c.game.value.ids
  }

  /** The cards are for this client: in plain text if it has no password, and otherwise encrypted for it, for its
      game and for the hand that comes next. */
  predicate CardsForClient(c: Client, cards: Cards) {
    if c.password == "" then cards.PlainCards?
    else c.game.Some? && cards == EncryptedCards(Some(CardText(c.guiId, c.gameId, c.game.value.handId + 1)))
  }

  /** A hand start that a waiting client takes: with its cards, and no seat state beyond the table. */
  ghost predicate StartsHand(c: Client, e: Event)
    requires Inv(c)
  {
    && c.state == WaitHand && e.Packet? && e.msg.HandStart? && e.msg.handStarts && CardsForClient(c, e.msg.cards)
    && forall i :: 0 <= i < e.msg.states ==> LocalSeat(i, c.origGuiNum, c.numberOfPlayers) < MAX_NUMBER_OF_PLAYERS
  }

  /** The end of a hand, about players who have a seat. */
  ghost predicate EndsHand(c: Client, e: Event) {
    && c.state == RunHand && e.Packet?
    && match e.msg
       case EndOfHandHideCards(id) => Seated(c, id)
       case EndOfHandShowCards(ids) => forall i :: 0 <= i < |ids| ==> Seated(c, ids[i])
       case _ => false
  }

  /** A game start that the client takes and that succeeds. */
  ghost predicate StartsGame(c: Client, e: Event) {
    e.Packet? && TakesStart(c, e.msg) && Startable(c, e.msg)
  }

  /** The number of the hand before the first one. */
  function HandBefore(m: Msg): int {
    if m.GameStartRejoin? then m.handNum else 0
  }

  // ---------------------------------------------------------------------------------------------
  // One step.

  /** A step of a client that plays: it changes between the two states of a hand by the messages above and by
      nothing else, and a hand start counts. */
  lemma HandStep(c: Client, e: Event)
    requires Inv(c) && Playing(c.state)
    ensures var d := Step(c, e);
            Playing(d.state) ==>
              && d.state == (if StartsHand(c, e) then RunHand else if EndsHand(c, e) then WaitHand else c.state)
              && d.game.Some? && d.game.value.handId == c.game.value.handId + if StartsHand(c, e) then 1 else 0
    ensures StartsHand(c, e) || EndsHand(c, e) ==> Playing(Step(c, e).state)
  {
    hide SubscribedAtServer, HandlePacket, LocalSeat;
    if e.Packet? {
      if e.msg.RemovedFromGame? {
        RemovalEndsPlay(c);
      } else if c.state.WaitHand? {
        WaitHandStep(c, e.msg);
      } else {
        RunHandStep(c, e.msg);
      }
    }
  }

  lemma RemovalEndsPlay(c: Client)
    requires Inv(c) && Playing(c.state)
    ensures HandlePacket(c, RemovedFromGame).c.state == WaitJoin
  {
    hide SubscribedAtServer;
  }

  lemma PlayPacket(c: Client, m: Msg)
    requires Inv(c) && Playing(c.state) && !m.RemovedFromGame?
    ensures var o := Shared(c, m);
            HandlePacket(c, m) == (if o.thrown then o else if c.state.WaitHand? then WaitHandPacket(o.c, m) else RunHandPacket(o.c, m))
            && o.c == c.(players := o.c.players) && (m.HandStart? || m.EndOfHandHideCards? || m.EndOfHandShowCards? ==> o == Done(c))
  {
    hide SubscribedAtServer, WaitHandPacket, RunHandPacket, Without;
  }

  lemma WaitHandStep(c: Client, m: Msg)
    requires Inv(c) && c.state.WaitHand? && !m.RemovedFromGame?
    ensures var o := HandlePacket(c, m);
            !o.thrown && Playing(o.c.state) ==>
              && o.c.state == (if StartsHand(c, Packet(m)) then RunHand else WaitHand)
              && o.c.game.Some? && o.c.game.value.handId == c.game.value.handId + if StartsHand(c, Packet(m)) then 1 else 0
    ensures StartsHand(c, Packet(m)) ==> !HandlePacket(c, m).thrown && HandlePacket(c, m).c.state == RunHand
  {
    hide SubscribedAtServer, HandlePacket, Shared, Renamed, LocalSeat, SeatsExist, CardsFit;
    PlayPacket(c, m);
    if m.HandStart? {
      TakesHand(c, m);
      hide StartsHand;
    }
  }

  lemma TakesHand(c: Client, m: Msg)
    requires Inv(c) && c.state.WaitHand? && m.HandStart?
    ensures StartsHand(c, Packet(m)) <==> CardsFit(c, m.cards, c.game.value.handId) && SeatsExist(c, m.states) && m.handStarts
  {
    hide SubscribedAtServer, LocalSeat;
  }

  lemma RunHandStep(c: Client, m: Msg)
    requires Inv(c) && c.state.RunHand? && !m.RemovedFromGame?
    ensures var o := HandlePacket(c, m);
            !o.thrown ==> o.c.state == (if EndsHand(c, Packet(m)) then WaitHand else RunHand) && o.c.game == c.game
    ensures EndsHand(c, Packet(m)) ==> !HandlePacket(c, m).thrown
  {
    PlayPacket(c, m);
    hide SubscribedAtServer, HandlePacket, Shared;
  }

  /** The players whom a message of a hand names, each of whom must have a seat. */
  function Named(s: State, m: Msg): seq<nat> {
    match m
    case EndOfGame(winner) => if s == WaitHand then [winner] else []
    case AfterHandShowCards(id) => if s == WaitHand then [id] else []
    case PlayerIdChanged(oldId, _) => if s == WaitHand then [oldId] else []
    case PlayersActionDone(id, _) => if s == RunHand then [id] else []
    case PlayersTurn(id) => if s == RunHand then [id] else []
    case AllInShowCards(ids) => if s == RunHand then ids else []
    case EndOfHandHideCards(id) => if s == RunHand then [id] else []
    case EndOfHandShowCards(ids) => if s == RunHand then ids else []
    case _ => []
  }

  /** What ends the play: the connection, the server's word, a message about somebody without a seat, a hand start that is
      not for this client, an impossible bet. */
  ghost predicate EndsPlay(c: Client, e: Event)
    requires Inv(c)
  {
    match e
    case Packet(m) =>
      || m in {RemovedFromGame, ErrorMsg, SharedOther(true)}
      || (exists i :: 0 <= i < |Named(c.state, m)| && !Seated(c, Named(c.state, m)[i]))
      || (c.state == WaitHand && (m.EndOfGame? || (m.HandStart? && !StartsHand(c, e))))
      || (c.state == RunHand && m.PlayersActionDone? && !m.betValid)
    case Resolved(code, _) => !code.Aborted?
    case _ => e.SessionClosed? || e.Failure?
  }

  /** A client plays on exactly until then. */
  lemma PlaysUntil(c: Client, e: Event)
    requires Inv(c) && Playing(c.state)
    ensures !Playing(Step(c, e).state) <==> EndsPlay(c, e)
  {
    hide SubscribedAtServer, HandlePacket, LocalSeat;
    if e.Packet? {
      StepOfPacket(c, e.msg);
      hide Step;
      if e.msg.RemovedFromGame? {
        RemovalEndsPlay(c);
      } else if c.state.WaitHand? {
        WaitsUntil(c, e.msg);
      } else {
        PlaysHandUntil(c, e.msg);
      }
    }
  }

  lemma WaitsUntil(c: Client, m: Msg)
    requires Inv(c) && c.state.WaitHand? && !m.RemovedFromGame?
    ensures var o := HandlePacket(c, m); o.thrown || !Playing(o.c.state) <==> EndsPlay(c, Packet(m))
  {
    hide SubscribedAtServer, HandlePacket, Renamed, LocalSeat, SeatsExist, CardsFit;
    PlayPacket(c, m);
    if m.HandStart? {
      TakesHand(c, m);
      hide StartsHand;
    }
    OneNamed(c, m);
    hide Seated;
  }

  lemma PlaysHandUntil(c: Client, m: Msg)
    requires Inv(c) && c.state.RunHand? && !m.RemovedFromGame?
    ensures var o := HandlePacket(c, m); o.thrown || !Playing(o.c.state) <==> EndsPlay(c, Packet(m))
  {
    hide SubscribedAtServer, HandlePacket, StartsHand;
    PlayPacket(c, m);
    OneNamed(c, m);
  }

  lemma OneNamed(c: Client, m: Msg)
    ensures |Named(c.state, m)| == 1 ==>
              ((exists i :: 0 <= i < |Named(c.state, m)| && !Seated(c, Named(c.state, m)[i])) <==> !Seated(c, Named(c.state, m)[0]))
  {
    hide Seated;
  }

  /** A client comes to play by a game start that succeeds, and by nothing else. */
  lemma GameStep(c: Client, e: Event)
    requires Inv(c) && !Playing(c.state)
    ensures Playing(Step(c, e).state) <==> StartsGame(c, e)
    ensures StartsGame(c, e) ==>
              var d := Step(c, e);
              d.state == WaitHand && d.game.Some? && d.game.value.handId == HandBefore(e.msg)
  {
    PhaseStep(c, e);
    hide Handle, HandlePacket, WaitStartPacket, Taking, Startable, Inv;
    if e.Packet? && NamesSeats(e.msg) && c.state in {SynchronizeStart, WaitStart} {
      StepOfPacket(c, e.msg);
      if TakesStart(c, e.msg) {
        TakenStart(c, e.msg);
      } else {
        StartNotTaken(c, e.msg);
      }
    } else if StartsGame(c, e) {
      StartableNames(c, e.msg);
    }
  }

  lemma StepOfPacket(c: Client, m: Msg)
    requires Inv(c)
    ensures var o := HandlePacket(c, m); Step(c, Packet(m)) == if o.thrown then o.c.(state := Final) else o.c
  {
    hide HandlePacket;
  }

  lemma StartableNames(c: Client, m: Msg)
    requires IsStart(m) && Startable(c, m)
    ensures NamesSeats(m)
  {
    hide StartNumbers, Find;
  }

  lemma TakenStart(c: Client, m: Msg)
    requires Inv(c) && TakesStart(c, m)
    ensures !HandlePacket(c, m).thrown <==> Startable(c, m)
    ensures Startable(c, m) ==>
              var d := HandlePacket(c, m).c;
              d.state == WaitHand && d.game.Some? && d.game.value.handId == HandBefore(m)
  {
    StartSucceeds(c, m);
    StartIsHandled(c, m);
    hide HandlePacket, WaitStartPacket, Taking, Startable, Inv, ClientNumber, Meant, Entries, Mapped, Sorted;
    if Startable(c, m) {
      FirstHandNumber(Taking(c), m);
    }
  }

  lemma FirstHandNumber(c: Client, m: Msg)
    requires IsStart(m) && !WaitStartPacket(c, m).thrown
    ensures var d := WaitStartPacket(c, m).c; d.game.Some? && d.game.value.handId == HandBefore(m)
  {
    hide StartNumbers, InitGame, WithoutAll;
  }

  lemma StartNotTaken(c: Client, m: Msg)
    requires Inv(c) && c.state == SynchronizeStart && m.GameStartRejoin?
    ensures HandlePacket(c, m) == Done(c)
  {
  }

  /** A new id takes the place of the first seat with the old one. */
  lemma {:induction false} RenamedSeat(ids: seq<nat>, oldId: nat, newId: nat)
    ensures Renamed(ids, oldId, newId) == if oldId in ids then ids[Dealer.SeatOf(ids, oldId) := newId] else ids
  {
    if ids != [] {
      RenamedSeat(ids[1..], oldId, newId);
      assert ids == [ids[0]] + ids[1..];
    }
  }

  // ---------------------------------------------------------------------------------------------
  // Every run.

  ghost predicate GameStartAt(cfg: Config, es: seq<Event>, i: int) {
    0 <= i < |es| && StartsGame(Run(cfg, es[..i]), es[i])
  }

  ghost predicate HandStartAt(cfg: Config, es: seq<Event>, i: int) {
    0 <= i < |es| && StartsHand(Run(cfg, es[..i]), es[i])
  }

  ghost predicate HandEndAt(cfg: Config, es: seq<Event>, i: int) {
    0 <= i < |es| && EndsHand(Run(cfg, es[..i]), es[i])
  }

  /** The hands that were started after k, and those that ended. */
  ghost function StartsAfter(cfg: Config, es: seq<Event>, k: int): set<int> {
    set i | k < i < |es| && HandStartAt(cfg, es, i)
  }

  ghost function EndsAfter(cfg: Config, es: seq<Event>, k: int): set<int> {
    set i | k < i < |es| && HandEndAt(cfg, es, i)
  }

  /** Some start came behind all ends. */
  ghost predicate InHand(starts: set<int>, ends: set<int>) {
    exists i :: i in starts && forall j :: j in ends ==> j < i
  }

  /** The client is in a hand if and only if one was started and none has ended since; starts and ends alternate,
      a start first; the hand number counts the starts. */
  ghost predicate Tally(c: Client, starts: set<int>, ends: set<int>, base: int) {
    && Playing(c.state) && c.game.Some?
    && (c.state == RunHand <==> InHand(starts, ends))
    && |starts| == |ends| + (if c.state == RunHand then 1 else 0)
    && c.game.value.handId == base + |starts|
  }

  /** So it is about the hands since the game start at k. */
  ghost predicate Accounted(cfg: Config, es: seq<Event>, k: int) {
    0 <= k < |es| && es[k].Packet? && Tally(Run(cfg, es), StartsAfter(cfg, es, k), EndsAfter(cfg, es, k), HandBefore(es[k].msg))
  }

  /** At every moment of every run: a client that plays has got a successful game start, has played ever since,
      and at each of these moments the account of its hands is as above. */
  lemma HandsAlternate(cfg: Config, es: seq<Event>)
    requires Playing(Run(cfg, es).state)
    ensures exists k :: GameStartAt(cfg, es, k) && forall n :: k < n <= |es| ==> Accounted(cfg, es[..n], k)
  {
    var k := Account(cfg, es);
  }

  lemma {:induction false} Account(cfg: Config, es: seq<Event>) returns (k: int)
    requires Playing(Run(cfg, es).state)
    ensures 0 <= k < |es| && GameStartAt(cfg, es, k) && forall n :: k < n <= |es| ==> Accounted(cfg, es[..n], k)
  {
    hide Run, Accounted, GameStartAt, Inv, Playing;
    if es == [] {
      StartDoesNotPlay(cfg);
      assert false;
    } else {
      var before, e := es[..|es| - 1], es[|es| - 1];
      assert es == before + [e];
      if Playing(Run(cfg, before).state) {
        k := Account(cfg, before);
        assert before[..|before|] == before;
        NextAccount(cfg, before, e, k);
        LongerAccount(cfg, before, e, k);
      } else {
        k := |before|;
        FirstAccount(cfg, before, e);
      }
    }
  }

  lemma LongerAccount(cfg: Config, es: seq<Event>, e: Event, k: int)
    requires GameStartAt(cfg, es, k) && Accounted(cfg, es + [e], k) && forall n :: k < n <= |es| ==> Accounted(cfg, es[..n], k)
    ensures GameStartAt(cfg, es + [e], k) && forall n :: k < n <= |es| + 1 ==> Accounted(cfg, (es + [e])[..n], k)
  {
    hide Run, Accounted, StartsGame, Inv;
    var l := es + [e];
    assert l[..k] == es[..k];
    assert l[..|l|] == l;
    forall n | k < n <= |l|
      ensures Accounted(cfg, l[..n], k)
    {
      if n <= |es| {
        assert l[..n] == es[..n];
      }
    }
  }

  lemma StartDoesNotPlay(cfg: Config)
    ensures !Playing(Run(cfg, []).state)
  {
  }

  lemma FirstAccount(cfg: Config, es: seq<Event>, e: Event)
    requires !Playing(Run(cfg, es).state) && Playing(Run(cfg, es + [e]).state)
    ensures GameStartAt(cfg, es + [e], |es|) && forall n :: |es| < n <= |es| + 1 ==> Accounted(cfg, (es + [e])[..n], |es|)
  {
    var l := es + [e];
    assert l[..|l|] == l && l[..|es|] == es;
    RunSnoc(cfg, es, e);
    GameStep(Run(cfg, es), e);
    hide Run, Step, Startable, Inv;
    assert StartsAfter(cfg, l, |es|) == {} && EndsAfter(cfg, l, |es|) == {};
    hide StartsAfter, EndsAfter, Tally, StartsGame;
    FirstTally(Run(cfg, l), StartsAfter(cfg, l, |es|), EndsAfter(cfg, l, |es|), HandBefore(e.msg));
  }

  lemma FirstTally(c: Client, starts: set<int>, ends: set<int>, base: int)
    requires c.state == WaitHand && c.game.Some? && c.game.value.handId == base && starts == ends == {}
    ensures Tally(c, starts, ends, base)
  {
  }

  lemma SetsAfter(cfg: Config, es: seq<Event>, e: Event, k: int)
    requires k < |es|
    ensures StartsAfter(cfg, es + [e], k) == StartsAfter(cfg, es, k) + if StartsHand(Run(cfg, es), e) then {|es|} else {}
    ensures EndsAfter(cfg, es + [e], k) == EndsAfter(cfg, es, k) + if EndsHand(Run(cfg, es), e) then {|es|} else {}
    ensures |es| !in StartsAfter(cfg, es, k) && |es| !in EndsAfter(cfg, es, k)
  {
    hide Run, StartsHand, EndsHand;
    var l := es + [e];
    assert l[..|es|] == es && l[|es|] == e;
    assert forall i :: 0 <= i < |es| ==> l[i] == es[i] && l[..i] == es[..i];
  }

  lemma NextAccount(cfg: Config, es: seq<Event>, e: Event, k: int)
    requires Accounted(cfg, es, k) && Playing(Run(cfg, es + [e]).state)
    ensures Accounted(cfg, es + [e], k)
  {
    var c, n := Run(cfg, es), |es|;
    RunSnoc(cfg, es, e);
    HandStep(c, e);
    SetsAfter(cfg, es, e, k);
    assert !(StartsHand(c, e) && EndsHand(c, e)) && (StartsHand(c, e) ==> c.state == WaitHand) && (EndsHand(c, e) ==> c.state == RunHand);
    hide Run, Step, StartsHand, EndsHand, Inv, HandBefore, Tally;
    BeforeNow(cfg, es, k);
    NextTally(c, Step(c, e), StartsAfter(cfg, es, k), EndsAfter(cfg, es, k), HandBefore(es[k].msg), n, StartsHand(c, e), EndsHand(c, e));
  }

  lemma BeforeNow(cfg: Config, es: seq<Event>, k: int)
    ensures forall i :: i in StartsAfter(cfg, es, k) || i in EndsAfter(cfg, es, k) ==> i < |es|
  {
  }

  lemma NextTally(c: Client, d: Client, starts: set<int>, ends: set<int>, base: int, n: int, s: bool, t: bool)
    requires Tally(c, starts, ends, base) && Playing(d.state) && forall i :: i in starts || i in ends ==> i < n
    requires !(s && t) && (s ==> c.state == WaitHand) && (t ==> c.state == RunHand)
    requires d.state == (if s then RunHand else if t then WaitHand else c.state)
    requires d.game.Some? && d.game.value.handId == c.game.value.handId + if s then 1 else 0
    ensures Tally(d, starts + (if s then {n} else {}), ends + (if t then {n} else {}), base)
  {
    NextInHand(starts, ends, n, s, t);
    hide InHand;
  }

  lemma NextInHand(starts: set<int>, ends: set<int>, n: int, s: bool, t: bool)
    requires (forall i :: i in starts || i in ends ==> i < n) && !(s && t)
    ensures InHand(starts + (if s then {n} else {}), ends + (if t then {n} else {})) <==> s || (InHand(starts, ends) && !t)
  {
    var l := starts + (if s then {n} else {});
    if s {
      assert n in l;
    } else if !t && InHand(starts, ends) {
      var i :| i in starts && forall j :: j in ends ==> j < i;
      assert i in l;
    }
  }
}
