/** Whose seat state reaches whom: the start of a game and the start of its hands together. */
module ClientSeating {
  import opened Dealer
  import opened Seats
  import opened PlayerList
  import opened SortOrder
  import opened SeatNumbers
  import opened SeatOrder
  import opened Game
  import opened GameDefs
  import opened Wrappers
  import opened ClientState
  import opened ClientSafety
  import opened ClientRuns

  // ---------------------------------------------------------------------------------------------
  // Start messages, of a new game or of one that is joined again.

  predicate IsStart(m: Msg) {
    m.GameStartInitial? || m.GameStartRejoin?
  }

  /** The players of the seats in the message. */
  function Meant(m: Msg): seq<nat>
    requires IsStart(m)
  {
    match m
    case GameStartInitial(_, seats) => seats
    case GameStartRejoin(_, _, rejoining) => Ids(rejoining)
  }

  function DealerOf(m: Msg): nat
    requires IsStart(m)
  {
    match m
    case GameStartInitial(dealer, _) => dealer
    case GameStartRejoin(dealer, _, _) => dealer
  }

  /** The player list with the numbers of the message, and with the players made up for it. */
  function Entries(c: Client, m: Msg): seq<PlayerData>
    requires IsStart(m)
  {
    StartNumbers(c, m).0.players
  }

  /** The client's number when the game starts: its last seat in the message, or the number it had if it is
      not named. */
  function ClientNumber(ps: seq<PlayerData>, seats: seq<nat>, id: nat): int {
    var j := LastSeat(seats, |seats|, id);
    if j >= 0 then j else if Find(ps, id) < |ps| then ps[Find(ps, id)].number else 0
  }

  /** Everyone whom the message names is listed, or is made up for a game that is joined again. */
  ghost predicate AllListed(ps: seq<PlayerData>, m: Msg)
    requires IsStart(m)
  {
    match m
    case GameStartInitial(_, seats) => forall j :: 0 <= j < |seats| ==> Find(ps, seats[j]) < |ps|
    case GameStartRejoin(_, _, rejoining) => AllKnown(ps, rejoining)
  }

  /** The state in which the message is taken: the client may still have been synchronizing. */
  function Taking(c: Client): Client {
    if c.state == SynchronizeStart then Unsubscribed(c).(state := WaitStart) else c
  }

  predicate TakesStart(c: Client, m: Msg) {
    IsStart(m) && (c.state == WaitStart || (c.state == SynchronizeStart && m.GameStartInitial?))
  }

  lemma StartIsHandled(c: Client, m: Msg)
    requires Inv(c) && TakesStart(c, m)
    ensures HandlePacket(c, m) == WaitStartPacket(Taking(c), m) && Taking(c).players == c.players && Taking(c).guiId == c.guiId
  {
    hide WaitStartPacket, SynchronizeStartPacket;
    assert Shared(c, m) == Done(c);
    SynchronizeForwards(c, m);
    assert Internal(c.state, c, m) == if c.state == WaitStart then WaitStartPacket(c, m) else SynchronizeStartPacket(c, m);
  }

  /** When a start message succeeds, whatever is listed and named: it names somebody, for a new game only
      listed players, and the client and the dealer have entries. */
  ghost predicate Startable(c: Client, m: Msg)
    requires IsStart(m)
  {
    var q := Entries(c, m);
    && Meant(m) != [] && (m.GameStartInitial? ==> AllListed(c.players, m))
    && Find(q, c.guiId) < |q| && Find(q, DealerOf(m)) < |q|
  }

  /** The game that a start message makes. */
  ghost predicate Starts(d: Client, list: seq<PlayerData>, g: int) {
    d.state == WaitHand && d.origGuiNum == g && d.numberOfPlayers == |list| && d.game.Some? && d.game.value.ids == SeatIds(list)
  }

  lemma {:induction false} FindIsIn(ps: seq<PlayerData>, id: nat)
    ensures Find(ps, id) < |ps| <==> id in IdsOf(ps)
  {
    var ids := IdsOf(ps);
    hide IdsOf;
    if id in ids {
      var i :| 0 <= i < |ids| && ids[i] == id;
      assert ps[i].id == id;
    }
    if Find(ps, id) < |ps| {
      assert ids[Find(ps, id)] == id;
    }
  }

  /** Turning and sorting a list leaves its ids. */
  lemma SortedHasId(q: seq<PlayerData>, g: int, n: nat, id: nat)
    requires n > 0
    ensures id in IdsOf(Sorted(Mapped(q, g, n))) <==> Find(q, id) < |q|
  {
    var mu := Mapped(q, g, n);
    SameFind(q, mu, id);
    FindIsIn(Sorted(mu), id);
    hide Mapped, Sorted, IdsOf;
    var p, r := Find(mu, id), Find(Sorted(mu), id);
    hide Find;
    if p < |mu| {
      assert mu[p] in Sorted(mu);
      var i :| 0 <= i < |mu| && Sorted(mu)[i] == mu[p];
    }
    if r < |mu| {
      assert Sorted(mu)[r] in mu;
      var i :| 0 <= i < |mu| && mu[i] == Sorted(mu)[r];
    }
  }

  /** What the handler makes of the list with its numbers. */
  lemma GameFromEntries(c: Client, m: Msg)
    requires c.state == WaitStart && IsStart(m) && Meant(m) != [] && (m.GameStartInitial? ==> StartNumbers(c, m).2)
    ensures var q, o := Entries(c, m), WaitStartPacket(c, m);
            && (!o.thrown <==> Find(q, c.guiId) < |q| && DealerOf(m) in IdsOf(Sorted(Mapped(q, q[Find(q, c.guiId)].number, |Meant(m)|))))
            && (!o.thrown ==> Starts(o.c, Sorted(Mapped(q, q[Find(q, c.guiId)].number, |Meant(m)|)), q[Find(q, c.guiId)].number))
  {
    hide Find, Numbered, Rejoined, Mapped, Sorted, IdsOf, SeatIds, WithoutAll;
  }

  lemma StartFails(c: Client, m: Msg)
    requires c.state == WaitStart && IsStart(m) && !StartNumbers(c, m).2
    ensures WaitStartPacket(c, m).thrown
  {
    hide StartNumbers, InitGame, WithoutAll;
  }

  /** A start message succeeds exactly then, and makes a game of the sorted list. */
  lemma StartSucceeds(c: Client, m: Msg)
    requires Inv(c) && TakesStart(c, m)
    ensures !HandlePacket(c, m).thrown <==> Startable(c, m)
    ensures Startable(c, m) ==>
              var g := ClientNumber(c.players, Meant(m), c.guiId);
              Starts(HandlePacket(c, m).c, Sorted(Mapped(Entries(c, m), g, |Meant(m)|)), g)
  {
    StartIsHandled(c, m);
    var d, q, seats := Taking(c), Entries(c, m), Meant(m);
    assert d.state == WaitStart;
    hide HandlePacket, Inv, WaitStartPacket, Taking, StartNumbers, Entries, Meant, Find, ClientNumber, AllListed, Mapped, Sorted, Starts, IdsOf;
    SameEntries(c, d, m);
    NumbersGiven(c, m);
    if !StartNumbers(d, m).2 {
      StartFails(d, m);
    } else {
      GameFromEntries(d, m);
      if Find(q, c.guiId) < |q| {
        TheClientsNumber(c, m);
        SortedHasId(q, q[Find(q, c.guiId)].number, |seats|, DealerOf(m));
      }
    }
  }

  lemma SameEntries(c: Client, d: Client, m: Msg)
    requires IsStart(m) && d.players == c.players
    ensures Entries(c, m) == Entries(d, m) && StartNumbers(c, m).2 == StartNumbers(d, m).2
  {
    hide Numbered, Rejoined;
  }

  lemma NumbersGiven(c: Client, m: Msg)
    requires IsStart(m)
    ensures m.GameStartInitial? ==> (StartNumbers(c, m).2 <==> Meant(m) != [] && AllListed(c.players, m))
    ensures m.GameStartRejoin? ==> (StartNumbers(c, m).2 <==> Meant(m) != [])
  {
    hide Numbered, Rejoined, Find;
    if m.GameStartInitial? {
      NumberedClosedForm(c.players, m.seats, |m.seats|);
    }
  }

  lemma TheClientsNumber(c: Client, m: Msg)
    requires IsStart(m) && Meant(m) != [] && (m.GameStartInitial? ==> AllListed(c.players, m))
    requires Find(Entries(c, m), c.guiId) < |Entries(c, m)|
    ensures var q := Entries(c, m);
            q[Find(q, c.guiId)].number == ClientNumber(c.players, Meant(m), c.guiId)
  {
    var ps, seats, id := c.players, Meant(m), c.guiId;
    hide Find, Numbered, Rejoined, LastSeat;
    match m {
      case GameStartInitial(_, _) =>
        NumberedClosedForm(ps, seats, |seats|);
        SameFind(ps, Entries(c, m), id);
      case GameStartRejoin(_, _, rejoining) =>
        RejoinedClosedForm(ps, rejoining, |rejoining|);
        FindFirst(ps, Entries(c, m), id);
        hide CanBeMadeUp;
    }
  }

  // ---------------------------------------------------------------------------------------------
  // Seat states.

  /** In the game that was started, the i-th seat state of a hand reaches a player with this id. */
  ghost predicate StateReaches(d: Client, seats: seq<nat>, i: nat) {
    && d.game.Some? && d.numberOfPlayers > 0 && i < |seats|
    && var s := LocalSeat(i, d.origGuiNum, d.numberOfPlayers);
       0 <= s < |d.game.value.ids| && d.game.value.ids[s] == seats[i]
  }

  ghost predicate AllStatesReach(d: Client, seats: seq<nat>) {
    forall i :: 0 <= i < |seats| ==> StateReaches(d, seats, i)
  }

  lemma ReachesInList(d: Client, seats: seq<nat>, list: seq<PlayerData>, g: int, i: nat)
    requires Starts(d, list, g) && |list| > 0 && i < |seats|
    ensures 0 <= LocalSeat(i, g, |list|) < |list|
    ensures StateReaches(d, seats, i) <==>
            LocalSeat(i, g, |list|) < MAX_NUMBER_OF_PLAYERS && list[LocalSeat(i, g, |list|)].id == seats[i]
  {
    LocalSeatInRange(i, g, |list|);
    hide LocalSeat;
    var s := LocalSeat(i, g, |list|);
    if s < MAX_NUMBER_OF_PLAYERS {
      assert SeatIds(list)[s] == IdOfSeat(IdsOf(list), s) == list[s].id;
    }
  }

  /** An entry for the i-th player of the message takes the seat that the i-th state of a hand goes to. */
  ghost predicate TakesItsSeat(mu: seq<PlayerData>, seats: seq<nat>, g: int, i: nat)
    requires i < |seats| && |mu| > 0
  {
    LocalSeat(i, g, |mu|) < MAX_NUMBER_OF_PLAYERS && exists a: nat, r: nat :: r == LocalSeat(i, g, |mu|) && EntryAt(mu, a, seats[i], r)
  }

  lemma ReachesByPlace(d: Client, mu: seq<PlayerData>, seats: seq<nat>, g: int, i: nat)
    requires Starts(d, Sorted(mu), g) && |mu| > 0 && i < |seats|
    ensures StateReaches(d, seats, i) <==> TakesItsSeat(mu, seats, g, i)
  {
    hide LocalSeat, Sorted, StateReaches, Starts;
    ReachesInList(d, seats, Sorted(mu), g, i);
    PlaceHolds(mu, LocalSeat(i, g, |mu|), seats[i]);
  }

  /** Where the seat states of a hand go after a start that succeeds, for every list and every message, of a
      new game or of one joined again, whatever is repeated in them: a state reaches its player if and
      only if there is such a seat and as many entries come before one of that player's, by turned number
      and place in the list, as the local seat says. */
  lemma SeatStatesReachIff(c: Client, m: Msg)
    requires Inv(c) && TakesStart(c, m) && !HandlePacket(c, m).thrown
    ensures Meant(m) != [] && Entries(c, m) != []
    ensures var seats := Meant(m);
            var g := ClientNumber(c.players, seats, c.guiId);
            forall i: nat :: i < |seats| ==>
              (StateReaches(HandlePacket(c, m).c, seats, i) <==> TakesItsSeat(Mapped(Entries(c, m), g, |seats|), seats, g, i))
  {
    StartSucceeds(c, m);
    hide HandlePacket, Inv, ClientNumber, Meant, Entries, Sorted, Mapped, Find, Starts, StateReaches, TakesItsSeat;
    var seats := Meant(m);
    var g := ClientNumber(c.players, seats, c.guiId);
    var mu := Mapped(Entries(c, m), g, |seats|);
    forall i: nat | i < |seats|
      ensures StateReaches(HandlePacket(c, m).c, seats, i) <==> TakesItsSeat(mu, seats, g, i)
    {
      ReachesByPlace(HandlePacket(c, m).c, mu, seats, g, i);
    }
  }

  // ---------------------------------------------------------------------------------------------
  // Lists and messages without repetition.

  lemma EntriesCarry(c: Client, m: Msg)
    requires IsStart(m) && DistinctIds(c.players) && DistinctSeats(Meant(m)) && Meant(m) != [] && AllListed(c.players, m)
    ensures Carries(Entries(c, m), Meant(m))
  {
    hide Find, Numbered, Rejoined, DistinctIds, DistinctSeats, Carries;
    match m {
      case GameStartInitial(_, seats) => NumberedCarries(c.players, seats);
      case GameStartRejoin(_, _, rejoining) =>
        hide AllKnown;
        RejoinedCarries(c.players, rejoining);
    }
  }

  /** The list as it was is the front of the list with its numbers. */
  ghost predicate Extends(q: seq<PlayerData>, ps: seq<PlayerData>, seats: seq<nat>) {
    && |q| >= |ps| && (forall a :: 0 <= a < |ps| ==> q[a].id == ps[a].id)
    && (forall a :: 0 <= a < |ps| && ps[a].id !in seats ==> q[a].number == ps[a].number)
    && forall a :: |ps| <= a < |q| ==> q[a].id in seats
  }

  lemma NumberedExtends(ps: seq<PlayerData>, seats: seq<nat>)
    requires Numbered(ps, seats, |seats|).1 == |seats|
    ensures Extends(Numbered(ps, seats, |seats|).0, ps, seats)
  {
    NumberedClosedForm(ps, seats, |seats|);
    hide Find, Numbered;
  }

  lemma RejoinedExtends(ps: seq<PlayerData>, rejoining: seq<Rejoining>)
    ensures Extends(Rejoined(ps, rejoining, |rejoining|).0, ps, Ids(rejoining))
  {
    RejoinedClosedForm(ps, rejoining, |rejoining|);
    hide Find, Rejoined, CanBeMadeUp;
    var q, ids := Rejoined(ps, rejoining, |rejoining|).0, Ids(rejoining);
    forall a | |ps| <= a < |q|
      ensures q[a].id in ids
    {
      assert ids[LastSeat(ids, |ids|, q[a].id)] == q[a].id;
    }
  }

  lemma EntriesBetween(c: Client, m: Msg, g: int)
    requires IsStart(m) && Meant(m) != [] && AllListed(c.players, m)
    ensures OthersBetween(Entries(c, m), Meant(m), g) <==> OthersBetween(c.players, Meant(m), g)
  {
    hide Find, Numbered, Rejoined, LastSeat, OthersBetween, Extends;
    match m {
      case GameStartInitial(_, seats) =>
        NumberedClosedForm(c.players, seats, |seats|);
        NumberedExtends(c.players, seats);
      case GameStartRejoin(_, _, rejoining) =>
        RejoinedExtends(c.players, rejoining);
    }
    assert Extends(Entries(c, m), c.players, Meant(m));
    hide Entries, Meant, AllListed;
    BetweenByExtension(c.players, Entries(c, m), Meant(m), g);
  }

  lemma BetweenByExtension(ps: seq<PlayerData>, q: seq<PlayerData>, seats: seq<nat>, g: int)
    requires seats != [] && Extends(q, ps, seats)
    ensures OthersBetween(q, seats, g) <==> OthersBetween(ps, seats, g)
  {
    hide OthersBetween;
    BetweenBeforeNumbering(ps, q, seats, g);
  }

  /** Whoever is not listed and not made up is reached by no state. */
  lemma UnlistedIsNotReached(c: Client, m: Msg, j: nat, g: int)
    requires m.GameStartRejoin? && j < |m.rejoining| && Entries(c, m) != []
    requires DistinctSeats(Meant(m)) && Find(c.players, m.rejoining[j].id) == |c.players| && !m.rejoining[j].named
    ensures !TakesItsSeat(Mapped(Entries(c, m), g, |Meant(m)|), Meant(m), g, j)
  {
    hide Find, Rejoined, TakesItsSeat, Mapped;
    NoEntryIfUnlisted(c.players, m.rejoining, j);
    NoEntryNoSeat(Entries(c, m), Meant(m), g, j);
  }

  lemma NoEntryIfUnlisted(ps: seq<PlayerData>, rejoining: seq<Rejoining>, j: nat)
    requires j < |rejoining| && DistinctSeats(Ids(rejoining)) && Find(ps, rejoining[j].id) == |ps| && !rejoining[j].named
    ensures var q := Rejoined(ps, rejoining, |rejoining|).0;
            Find(q, rejoining[j].id) == |q|
  {
    NotMadeUp(rejoining, j);
    hide Find, Rejoined, LastSeat, NumberAfter, CanBeMadeUp, DistinctSeats, Ids;
    RejoinedClosedForm(ps, rejoining, |rejoining|);
  }

  lemma NotMadeUp(rejoining: seq<Rejoining>, j: nat)
    requires j < |rejoining| && DistinctSeats(Ids(rejoining)) && !rejoining[j].named
    ensures !CanBeMadeUp(rejoining, |rejoining|, rejoining[j].id)
  {
    var ids := Ids(rejoining);
    assert forall i :: 0 <= i < |rejoining| && rejoining[i].id == rejoining[j].id ==> ids[i] == ids[j];
  }

  lemma NoEntryNoSeat(q: seq<PlayerData>, seats: seq<nat>, g: int, j: nat)
    requires q != [] && j < |seats| && Find(q, seats[j]) == |q|
    ensures !TakesItsSeat(Mapped(q, g, |seats|), seats, g, j)
  {
    hide Find, LocalSeat, EntryRank;
    var mu := Mapped(q, g, |seats|);
    hide Mapped;
    assert forall a: nat :: a < |mu| ==> mu[a].id == q[a].id != seats[j];
  }

  lemma RoomForAll(g: nat, n: nat, m: nat)
    requires g < n <= MAX_NUMBER_OF_PLAYERS && m > 0
    ensures m >= n ==> ((forall i :: 0 <= i < n ==> LocalSeat(i, g, m) < MAX_NUMBER_OF_PLAYERS) <==> (g > 0 ==> m <= MAX_NUMBER_OF_PLAYERS))
  {
    if m >= n {
      forall i | 0 <= i < n
        ensures LocalSeat(i, g, m) == if i >= g then i - g else i - g + m
      {
        LocalSeatForm(i, g, m);
      }
      hide LocalSeat;
      if g > 0 {
        assert LocalSeat(g - 1, g, m) == m - 1;
      }
    }
  }

  lemma ListIsLonger(q: seq<PlayerData>, seats: seq<nat>, g: nat)
    requires Carries(q, seats) && g < |seats|
    ensures |q| >= |seats|
  {
    TurnedIsSeated(q, seats, g);
    hide Mapped, Carries, Seated;
    OthersInAll(Mapped(q, g, |seats|), seats, g);
  }

  lemma AllReachInList(d: Client, q: seq<PlayerData>, seats: seq<nat>, g: nat)
    requires Carries(q, seats) && g < |seats| <= MAX_NUMBER_OF_PLAYERS && Starts(d, Sorted(Mapped(q, g, |seats|)), g)
    ensures AllStatesReach(d, seats) <==> OthersBetween(q, seats, g) && (g > 0 ==> |q| <= MAX_NUMBER_OF_PLAYERS)
  {
    var list := Sorted(Mapped(q, g, |seats|));
    AllReachIffOthersBetween(q, seats, g);
    RoomForAll(g, |seats|, |q|);
    ListIsLonger(q, seats, g);
    hide Mapped, Sorted, LocalSeat, OthersBetween, Carries, Starts, StateReaches;
    forall i | 0 <= i < |seats|
      ensures StateReaches(d, seats, i) <==> LocalSeat(i, g, |q|) < MAX_NUMBER_OF_PLAYERS && list[LocalSeat(i, g, |q|)].id == seats[i]
    {
      ReachesInList(d, seats, list, g, i);
    }
  }

  /** With different players on the list and in the message, and the client's number among the seats of the
      message, as it is whenever the message names the client: all states reach their players if and only
      if everyone named has an entry, everyone not named comes between the players of the last and the
      first seat, and the whole list has room unless the client has the first seat. */
  lemma AllStatesReachIff(c: Client, m: Msg)
    requires Inv(c) && TakesStart(c, m) && !HandlePacket(c, m).thrown && DistinctIds(c.players) && DistinctSeats(Meant(m))
    requires 0 <= ClientNumber(c.players, Meant(m), c.guiId) < |Meant(m)| <= MAX_NUMBER_OF_PLAYERS
    ensures var seats := Meant(m);
            var g := ClientNumber(c.players, seats, c.guiId);
            AllStatesReach(HandlePacket(c, m).c, seats) <==>
              AllListed(c.players, m) && OthersBetween(c.players, seats, g) && (g > 0 ==> |Entries(c, m)| <= MAX_NUMBER_OF_PLAYERS)
  {
    var g := ClientNumber(c.players, Meant(m), c.guiId);
    StartSucceeds(c, m);
    if AllListed(c.players, m) {
      hide HandlePacket, Inv, ClientNumber, Meant, Entries, Sorted, Mapped, Find, Starts, StateReaches, OthersBetween, AllListed, DistinctIds, DistinctSeats;
      EntriesCarry(c, m);
      EntriesBetween(c, m, g);
      hide Startable, Carries, AllStatesReach;
      AllReachInList(HandlePacket(c, m).c, Entries(c, m), Meant(m), g);
    } else {
      SeatStatesReachIff(c, m);
      assert m.GameStartRejoin?;
      var j :| 0 <= j < |m.rejoining| && !(Find(c.players, m.rejoining[j].id) < |c.players| || m.rejoining[j].named);
      hide HandlePacket, Inv, ClientNumber, Entries, Sorted, Mapped, Find, Starts, StateReaches, TakesItsSeat, OthersBetween, Startable, DistinctSeats;
      UnlistedIsNotReached(c, m, j, g);
      assert !StateReaches(HandlePacket(c, m).c, Meant(m), j);
    }
  }

  // ---------------------------------------------------------------------------------------------
  // Runs in which a state reaches the wrong player.

  function Three(x: nat): seq<PlayerData> {
    [PlayerData(5, 0, -1), PlayerData(x, 0, -1), PlayerData(6, 0, -1)]
  }

  function ThreeNumbered(x: nat): seq<PlayerData> {
    [PlayerData(5, 0, -1), PlayerData(x, 0, -1), PlayerData(6, 1, -1)]
  }

  lemma ThreeSorted(x: nat)
    requires x != 6
    ensures var ps, seats: seq<nat> := Three(x), [5, 6];
            var q := ThreeNumbered(x);
            && Numbered(ps, seats, 2) == (q, 2) && Find(q, 5) == 0 && Mapped(q, 0, 2) == q && Sorted(q) == q
  {
    var ps, seats: seq<nat> := Three(x), [5, 6];
    var q := ThreeNumbered(x);
    assert ps[0].id == 5 && ps[1].id == x && ps[2].id == 6;
    assert Find(ps, 5) == 0;
    assert Numbered(ps, seats, 0) == (ps, 0);
    assert ps[0 := ps[0].(number := 0)] == ps;
    assert Numbered(ps, seats, 1) == (ps, 1);
    assert Find(ps, 6) == 2;
    assert ps[2 := ps[2].(number := 1)] == q;
    assert Numbered(ps, seats, 2) == (q, 2);
    assert q[0].id == 5 && Find(q, 5) == 0;
    assert Mapped(q, 0, 2) == q;
    SortedThree(q);
  }

  lemma SortedThree(q: seq<PlayerData>)
    requires |q| == 3 && q[0].number <= q[1].number <= q[2].number
    ensures Sorted(q) == q
  {
    var r, s := q[1..], q[2..];
    assert r[1..] == s && s[1..] == [] && Sorted([]) == [];
    assert Sorted(s) == [s[0]] == s;
    assert Sorted(r) == [r[0]] + s == r;
    assert Sorted(q) == [q[0]] + r;
  }

  lemma ThreeIds(x: nat)
    ensures IdsOf(ThreeNumbered(x))[0] == 5 && SeatIds(ThreeNumbered(x))[1] == x
  {
    var q := ThreeNumbered(x);
    hide IdsOf, SeatIds;
    assert IdsOf(q)[0] == 5 && IdsOf(q)[1] == x;
    assert SeatIds(q)[1] == IdOfSeat(IdsOf(q), 1);
  }

  lemma ThreeStart(c: Client, x: nat)
    requires x != 6 && Inv(c) && c.state == WaitStart && c.guiId == 5 && c.players == Three(x)
    ensures var d := Step(c, Packet(GameStartInitial(5, [5, 6])));
            && d.state == WaitHand && d.game.Some? && |d.game.value.ids| >= 2 && d.numberOfPlayers == 3 && d.origGuiNum == 0
            && LocalSeat(1, 0, 3) == 1 && d.game.value.ids[1] == x
  {
    hide Inv, HandlePacket, WaitStartPacket, Find, Numbered, Mapped, Sorted, SeatIds, IdsOf, LocalSeat;
    ThreeSorted(x);
    ThreeIds(x);
    LocalSeatForm(1, 0, 3);
    WaitStartHandles(c, 5, [5, 6]);
    assert 5 in IdsOf(ThreeNumbered(x));
    StartOutcome(c, 5, [5, 6], 0);
  }

  lemma OnlyTheDoubledIsNamed(x: nat)
    requires x != 6
    ensures OthersBetween(Three(x), [5, 6], 0) <==> x == 5
  {
    var ps, seats: seq<nat> := Three(x), [5, 6];
    assert ps[0].id == 5 && ps[1].id == x && ps[2].id == 6;
    assert seats[0] == 5 && seats[1] == 6;
    if x != 5 {
      assert x !in seats && !Between(ps, seats, 0, 1);
    } else {
      assert forall a: nat :: a < |ps| ==> ps[a].id in seats;
    }
  }

  /** The client is player 5 and has the first seat, and the list holds one entry more than the message: any
      player x joined before player 6. From then on the state of the second seat, that of player 6, goes to
      x. This needs nobody who is not named: with x = 5 the client itself was announced once more, and
      everyone on the list is named. */
  lemma StateReachesWrongPlayer(x: nat)
    requires x != 0 && x != 6
    ensures OthersBetween(Three(x), [5, 6], 0) <==> x == 5
    ensures exists cfg, es ::
              && AllPass(es + [Packet(GameStartInitial(5, [5, 6]))])
              && Run(cfg, es).state == WaitStart && Run(cfg, es).guiId == 5 && Run(cfg, es).players == Three(x)
              && var d := Run(cfg, es + [Packet(GameStartInitial(5, [5, 6]))]);
                 && d.state == WaitHand && d.game.Some? && |d.game.value.ids| >= 2 && d.numberOfPlayers > 0
                 && LocalSeat(1, d.origGuiNum, d.numberOfPlayers) == 1 && d.game.value.ids[1] == x
  {
    OnlyTheDoubledIsNamed(x);
    hide Step, Run, Passes, Inv, OthersBetween;
    var es := ReachGame(5);
    var c := Joined1(5);
    Allowed();
    SeesPlayer(c, x);
    es := Next(Direct(), es, c, Packet(GamePlayerJoined(x, true)), c.(players := [PlayerData(5, 0, -1), PlayerData(x, 0, -1)]));
    c := c.(players := [PlayerData(5, 0, -1), PlayerData(x, 0, -1)]);
    SeesPlayer(c, 6);
    es := Next(Direct(), es, c, Packet(GamePlayerJoined(6, true)), c.(players := Three(x)));
    c := c.(players := Three(x));
    es := ReachStart(es, c);
    c := c.(subscribed := false, sent := c.sent + [StartEventAck(c.gameId)] + [Unsubscribe], state := WaitStart);
    assert Run(Direct(), es) == c;
    ThreeStart(c, x);
    var fs := Next(Direct(), es, c, Packet(GameStartInitial(5, [5, 6])), Step(c, Packet(GameStartInitial(5, [5, 6]))));
    assert fs == es + [Packet(GameStartInitial(5, [5, 6]))];
    assert AllPass(es + [Packet(GameStartInitial(5, [5, 6]))]);
    var d := Run(Direct(), es + [Packet(GameStartInitial(5, [5, 6]))]);
    assert d.game.value.ids[1] == x;
  }
}
