/** The player list across a game start: who is on it, and with how much cash. */
module RejoinList {
  import opened PlayerList
  import opened SeatNumbers
  import opened ClientState
  import opened ClientSafety
  import opened ClientSeating

  /** How many entries of the list have this id. */
  function Entries(ps: seq<PlayerData>, id: nat): nat {
    if ps == [] then 0 else Entries(ps[..|ps| - 1], id) + if ps[|ps| - 1].id == id then 1 else 0
  }

  function Times(ids: seq<nat>, id: nat): nat {
    if ids == [] then 0 else (if ids[0] == id then 1 else 0) + Times(ids[1..], id)
  }

  lemma {:induction false} EntriesOfBoth(ps: seq<PlayerData>, q: seq<PlayerData>, id: nat)
    ensures Entries(ps + q, id) == Entries(ps, id) + Entries(q, id)
  {
    if q == [] {
      assert ps + q == ps;
    } else {
      var n := |q| - 1;
      EntriesOfBoth(ps, q[..n], id);
      assert (ps + q)[..|ps| + n] == ps + q[..n] && (ps + q)[|ps| + n] == q[n];
    }
  }

  lemma EntryOfOne(x: PlayerData, id: nat)
    ensures Entries([x], id) == if x.id == id then 1 else 0
  {
    assert [x][..0] == [];
  }

  lemma {:induction false} EntriesFound(ps: seq<PlayerData>, id: nat)
    ensures Entries(ps, id) > 0 <==> Find(ps, id) < |ps|
  {
    hide Find;
    var p := Find(ps, id);
    if ps != [] {
      var n := |ps| - 1;
      EntriesFound(ps[..n], id);
      var q := Find(ps[..n], id);
      assert q < n ==> ps[q].id == id;
    }
  }

  lemma {:induction false} EntriesById(ps: seq<PlayerData>, q: seq<PlayerData>, id: nat)
    requires |ps| == |q| && forall i :: 0 <= i < |ps| ==> ps[i].id == q[i].id
    ensures Entries(ps, id) == Entries(q, id)
  {
    if ps != [] {
      EntriesById(ps[..|ps| - 1], q[..|q| - 1], id);
    }
  }

  /** When a player leaves, one entry of his goes, and nobody else's. */
  lemma EntriesWithout(ps: seq<PlayerData>, gone: nat, id: nat)
    ensures Entries(Without(ps, gone), id) == Entries(ps, id) - if gone == id && Entries(ps, id) > 0 then 1 else 0
  {
    var p := Find(ps, gone);
    EntriesFound(ps, gone);
    if p < |ps| {
      assert ps == ps[..p] + ([ps[p]] + ps[p + 1..]);
      EntriesOfBoth(ps[..p], [ps[p]] + ps[p + 1..], id);
      EntriesOfBoth([ps[p]], ps[p + 1..], id);
      EntriesOfBoth(ps[..p], ps[p + 1..], id);
      EntryOfOne(ps[p], id);
    }
    hide Find, Entries;
  }

  lemma {:induction false} EntriesWithoutAll(ps: seq<PlayerData>, gone: seq<nat>, id: nat)
    ensures var n, t := Entries(ps, id), Times(gone, id); Entries(WithoutAll(ps, gone), id) == if n > t then n - t else 0
    decreases gone
  {
    hide Entries, Without;
    if gone != [] {
      EntriesWithout(ps, gone[0], id);
      EntriesWithoutAll(Without(ps, gone[0]), gone[1..], id);
    }
  }

  lemma {:induction false} EntriesSorted(ps: seq<PlayerData>, id: nat)
    ensures Entries(Sorted(ps), id) == Entries(ps, id)
  {
    if ps != [] {
      EntriesSorted(ps[1..], id);
      EntriesInserted(ps[0], Sorted(ps[1..]), id);
      EntriesOfBoth([ps[0]], ps[1..], id);
      assert ps == [ps[0]] + ps[1..];
      EntryOfOne(ps[0], id);
    }
  }

  lemma {:induction false} EntriesInserted(x: PlayerData, ps: seq<PlayerData>, id: nat)
    ensures Entries(Insert(x, ps), id) == Entries(ps, id) + if x.id == id then 1 else 0
  {
    EntryOfOne(x, id);
    hide Entries;
    if ps == [] || x.number <= ps[0].number {
      EntriesOfBoth([x], ps, id);
    } else {
      EntriesInserted(x, ps[1..], id);
      EntriesOfBoth([ps[0]], Insert(x, ps[1..]), id);
      EntriesOfBoth([ps[0]], ps[1..], id);
      assert ps == [ps[0]] + ps[1..];
    }
  }

  lemma {:induction false} TimesAppend(ids: seq<nat>, x: nat, id: nat)
    ensures Times(ids + [x], id) == Times(ids, id) + if x == id then 1 else 0
  {
    if ids != [] {
      TimesAppend(ids[1..], x, id);
      assert (ids + [x])[1..] == ids[1..] + [x];
    }
  }

  /** Who was listed is not made up, and who was not has at most as many entries as times it was made up. */
  lemma {:induction false} EntriesRejoined(ps: seq<PlayerData>, rejoining: seq<Rejoining>, k: nat, id: nat)
    requires k <= |rejoining|
    ensures var (q, made) := Rejoined(ps, rejoining, k);
            if Entries(ps, id) > 0 then Entries(q, id) == Entries(ps, id) && Times(made, id) == 0
            else Entries(q, id) <= Times(made, id)
  {
    hide Find, Entries;
    if k > 0 {
      EntriesRejoined(ps, rejoining, k - 1, id);
      var (before, made) := Rejoined(ps, rejoining, k - 1);
      var s := rejoining[k - 1];
      var p := Find(before, s.id);
      TimesAppend(made, s.id, id);
      EntriesFound(before, s.id);
      if p < |before| {
        EntriesById(before, before[p := before[p].(number := k - 1, startCash := s.money)], id);
      } else {
        EntriesOfBoth(before, [PlayerData(s.id, k - 1, s.money)], id);
        EntryOfOne(PlayerData(s.id, k - 1, s.money), id);
      }
      hide Times;
    }
  }

  /** A game start that succeeds gives numbers and puts the list in order, but nobody comes to the list by it and
      nobody leaves it: the players that a rejoin had to make up are gone again. */
  lemma StartKeepsPlayers(c: Client, m: Msg, id: nat)
    requires Inv(c) && TakesStart(c, m) && Startable(c, m)
    ensures Entries(HandlePacket(c, m).c.players, id) == Entries(c.players, id)
  {
    StartSucceeds(c, m);
    StartIsHandled(c, m);
    hide HandlePacket, Startable, Inv, ClientSeating.Entries, ClientNumber, Meant, Entries;
    PacketKeepsPlayers(Taking(c), m, id);
  }

  lemma PacketKeepsPlayers(c: Client, m: Msg, id: nat)
    requires IsStart(m) && !WaitStartPacket(c, m).thrown
    ensures Entries(WaitStartPacket(c, m).c.players, id) == Entries(c.players, id)
  {
    hide Entries, Find, Numbered, Rejoined, Sorted, Mapped, IdsOf, SeatIds, WithoutAll;
    var (d, made, ok) := StartNumbers(c, m);
    StartEntries(c, m, id);
    var list := Sorted(Mapped(d.players, d.players[Find(d.players, d.guiId)].number, d.numberOfPlayers));
    EntriesSorted(Mapped(d.players, d.players[Find(d.players, d.guiId)].number, d.numberOfPlayers), id);
    EntriesById(d.players, Mapped(d.players, d.players[Find(d.players, d.guiId)].number, d.numberOfPlayers), id);
    EntriesWithoutAll(list, made, id);
    hide Times;
  }

  lemma StartEntries(c: Client, m: Msg, id: nat)
    requires IsStart(m) && StartNumbers(c, m).2
    ensures var (d, made, ok) := StartNumbers(c, m);
            if Entries(c.players, id) > 0 then Entries(d.players, id) == Entries(c.players, id) && Times(made, id) == 0
            else Entries(d.players, id) <= Times(made, id)
  {
    hide Entries, Numbered, Rejoined;
    match m
    case GameStartInitial(_, seats) =>
      NumberedClosedForm(c.players, seats, |seats|);
      EntriesById(c.players, Numbered(c.players, seats, |seats|).0, id);
    case GameStartRejoin(_, _, rejoining) => EntriesRejoined(c.players, rejoining, |rejoining|, id);
  }

  /** The cash of a game joined again: the first entry of a player has what his last place in the message says,
      and what it had if he is not named. */
  lemma {:induction false} CashOfRejoined(ps: seq<PlayerData>, rejoining: seq<Rejoining>, k: nat, id: nat)
    requires k <= |rejoining| && Find(Rejoined(ps, rejoining, k).0, id) < |Rejoined(ps, rejoining, k).0|
    ensures var q, j := Rejoined(ps, rejoining, k).0, LastSeat(Ids(rejoining), k, id);
            if j >= 0 then q[Find(q, id)].startCash == rejoining[j].money
            else Find(ps, id) < |ps| && q[Find(q, id)].startCash == ps[Find(ps, id)].startCash
  {
    hide Find, LastSeat;
    if k == 0 {
      NoSeatYet(Ids(rejoining));
    } else {
      var before, s := Rejoined(ps, rejoining, k - 1).0, rejoining[k - 1];
      LastSeatNext(Ids(rejoining), k, id);
      FindAppended(before, PlayerData(s.id, k - 1, s.money), id);
      var p := Find(before, s.id);
      if p < |before| {
        SameFind(before, before[p := before[p].(number := k - 1, startCash := s.money)], id);
      }
      if Find(before, id) < |before| {
        CashOfRejoined(ps, rejoining, k - 1, id);
      }
    }
  }
}
