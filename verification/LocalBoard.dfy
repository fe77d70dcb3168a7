/** The board of a local game: taking the bets in and paying the pot out, in the order of the seats. */
module LocalBoard {
  import opened Dealer
  import opened GameDefs
  import opened Pot
  import opened SidePots
  import opened OddChips

  /** A conversion to a 32-bit unsigned number. */
  function ToUnsigned(x: int): nat {
    x % 0x1_0000_0000
  }

  /** What a seat has put into the pot in this hand. */
  function SetOf(active: bool, roundStartCash: int, cash: int): nat {
    if active && roundStartCash - cash > 0 then roundStartCash - cash else 0
  }

  function Sets(active: seq<bool>, start: seq<int>, cash: seq<int>): (r: seq<nat>)
    requires |active| == |start| == |cash|
    ensures |r| == |active| && forall i :: 0 <= i < |r| ==> r[i] == SetOf(active[i], start[i], cash[i])
  {
    seq(|active|, i requires 0 <= i < |active| => SetOf(active[i], start[i], cash[i]))
  }

  /** The smallest of the winners' ids. */
  ghost predicate IsFirst(winners: set<nat>, id: nat) {
    id in winners && forall x :: x in winners ==> id <= x
  }

  /** What is left in the pot, if anything, goes to the winner with the smallest id. */
  ghost predicate Settles(l: Ledger, ids: seq<nat>, r: Ledger)
    requires |l.cash| == |l.won| == |ids|
  {
    && r.pot == 0 && r.winners == l.winners
    && if l.pot > 0 && l.winners != {} then
         exists id :: IsFirst(l.winners, id) && SeatOf(ids, id) < |ids| &&
                      var s := SeatOf(ids, id); r.cash == l.cash[s := l.cash[s] + l.pot] && r.won == l.won[s := l.won[s] + l.pot]
       else r.cash == l.cash && r.won == l.won
  }

  // ---------------------------------------------------------------------------------------------
  // Sorting the sets.

  predicate Ascending(s: seq<nat>) {
    forall i, j :: 0 <= i < j < |s| ==> s[i] <= s[j]
  }

  function Inserted(x: nat, s: seq<nat>): (r: seq<nat>)
    ensures |r| == |s| + 1 && forall y :: y in r <==> y == x || y in s
  {
    if s == [] || x <= s[0] then [x] + s else [s[0]] + Inserted(x, s[1..])
  }

  lemma {:induction false} InsertedInOrder(x: nat, s: seq<nat>)
    requires Ascending(s)
    ensures Ascending(Inserted(x, s))
  {
    if s != [] && x > s[0] {
      InsertedInOrder(x, s[1..]);
      var rest := Inserted(x, s[1..]);
      forall i | 0 <= i < |rest|
        ensures s[0] <= rest[i]
      {
        assert rest[i] in rest;
      }
    }
  }

  lemma {:induction false} InsertedCount(x: nat, s: seq<nat>)
    ensures Positives(Inserted(x, s)) == Positives(s) + if x > 0 then 1 else 0
  {
    if s == [] || x <= s[0] {
      assert ([x] + s)[1..] == s;
    } else {
      InsertedCount(x, s[1..]);
      assert ([s[0]] + Inserted(x, s[1..]))[1..] == Inserted(x, s[1..]);
    }
  }

  /** The sorted sets. */
  function Sort(s: seq<nat>): (r: seq<nat>)
    ensures |r| == |s| && Ascending(r) && Positives(r) == Positives(s)
    ensures forall y :: y in r <==> y in s
  {
    if s == [] then []
    else
      InsertedInOrder(s[0], Sort(s[1..]));
      InsertedCount(s[0], Sort(s[1..]));
      Inserted(s[0], Sort(s[1..]))
  }

  lemma {:induction false} PositivesOfTail(s: seq<nat>, i: nat)
    requires i <= |s| && Ascending(s) && forall j :: 0 <= j < i ==> s[j] == 0
    ensures Positives(s) <= |s| - i && (i < |s| && s[i] > 0 ==> Positives(s) == |s| - i)
  {
    if i > 0 {
      PositivesOfTail(s[1..], i - 1);
    } else if s != [] {
      PositivesOfTail(s[1..], 0);
    }
  }

  lemma {:induction false} ZerosFirst(s: seq<nat>, i: nat)
    requires i <= |s| && Ascending(s) && Positives(s) <= |s| - i
    ensures forall j :: 0 <= j < i ==> s[j] == 0
  {
    if s != [] && i > 0 {
      if s[0] > 0 {
        PositivesOfTail(s, 0);
      } else {
        ZerosFirst(s[1..], i - 1);
        assert forall j :: 1 <= j < i ==> s[j] == s[1..][j - 1];
      }
    }
  }

  /** The first positive entry of the sorted sets is the next level, and there are as many from there on
      as there are players left in the pot. */
  lemma LevelFound(sets: seq<nat>, i: nat)
    requires i < |sets| && (forall j :: 0 <= j < i ==> Sort(sets)[j] == 0) && Sort(sets)[i] > 0
    ensures Positives(sets) == |sets| - i && MinPositive(sets) == Sort(sets)[i]
  {
    var s := Sort(sets);
    PositivesOfTail(s, i);
    hide Sort, Positives;
    var a := MinPositive(sets);
    assert a in s && s[i] in s && s[i] in sets;
    var k :| 0 <= k < |s| && s[k] == a;
    assert i <= k;
  }

  lemma NextLevelSorted(sets: seq<nat>, i: nat)
    requires i < |sets| && Positives(sets) == |sets| - i
    ensures forall j :: 0 <= j <= i ==> Sort(Rest(sets))[j] == 0
  {
    ZerosFirst(Sort(Rest(sets)), i + 1);
  }

  // ---------------------------------------------------------------------------------------------
  // The board.

  /** Every active seat is the first one with its id. */
  ghost predicate IdsIdentify(t: Table)
    requires t.Valid()
  {
    forall s :: 0 <= s < |t.ids| && t.active[s] ==> SeatOf(t.ids, t.ids[s]) == s
  }

  /** So it is when the players' ids differ and only they can be active. */
  lemma DistinctIdsIdentify(t: Table, k: nat)
    requires t.Valid() && k <= |t.ids|
    requires (forall i, j :: 0 <= i < j < k ==> t.ids[i] != t.ids[j]) && forall s :: k <= s < |t.ids| ==> !t.active[s]
    ensures IdsIdentify(t)
  {
  }

  ghost predicate OnlyActive(t: Table, sets: seq<nat>)
    requires t.Valid()
  {
    |sets| == |t.ids| && forall s :: 0 <= s < |t.ids| && !t.active[s] ==> sets[s] == 0
  }

  function IdsOf(t: Table, w: seq<nat>): (r: seq<nat>)
    requires forall i :: 0 <= i < |w| ==> w[i] < |t.ids|
    ensures |r| == |w| && forall i :: 0 <= i < |w| ==> r[i] == t.ids[w[i]]
  {
    seq(|w|, i requires 0 <= i < |w| => t.ids[w[i]])
  }

  lemma NothingShared(l: Ledger, ids: seq<nat>, order: seq<nat>, share: nat)
    requires |ids| == |l.cash| == |l.won| && SeatsIn(order, |ids|)
    ensures Shared(l, ids, order, share, 0, 0) == l
  {
  }

  lemma NextShared(l: Ledger, ids: seq<nat>, order: seq<nat>, share: nat, j: nat)
    requires |ids| == |l.cash| == |l.won| && 0 < j <= |order| && SeatsIn(order, |ids|)
    ensures Shared(l, ids, order, share, 0, j) == Given(Shared(l, ids, order, share, 0, j - 1), ids, order[j - 1], share)
  {
  }

  class LocalBoard {
    const table: Table
    var roundStartCash: seq<int>
    var cash: seq<int>
    var sets: seq<int>
    var lastMoneyWon: seq<int>
    var winners: set<nat>
    var pot: int
    var sumOfSets: int

    ghost predicate Valid()
      reads this
    {
      && table.Valid() && IdsIdentify(table) && |table.ids| <= MAX_NUMBER_OF_PLAYERS
      && |table.ids| == |roundStartCash| == |cash| == |lastMoneyWon| == |sets|
    }

    ghost function View(): Ledger
      reads this
    {
      Ledger(cash, lastMoneyWon, winners, pot)
    }

    /** The bets of the round. */
    method CollectSets()
      requires Valid()
      modifies this`sumOfSets
      ensures sumOfSets == Sum(sets)
    {
      sumOfSets := 0;
      var i := |sets|;
      while i > 0
        invariant 0 <= i <= |sets| && sumOfSets == Sum(sets[i..])
      {
        i := i - 1;
        assert sets[i..][1..] == sets[i + 1..];
        sumOfSets := sumOfSets + sets[i];
      }
      assert sets[0..] == sets;
    }

    /** They go into the pot. */
    method CollectPot()
      requires Valid() && sumOfSets == Sum(sets)
      modifies this`pot, this`sumOfSets, this`sets
      ensures Valid() && pot == old(pot) + old(Sum(sets)) && sumOfSets == 0 && forall i :: 0 <= i < |sets| ==> sets[i] == 0
    {
      pot := pot + sumOfSets;
      sumOfSets := 0;
      var i := 0;
      while i < |sets|
        invariant 0 <= i <= |sets| == |table.ids| && forall j :: 0 <= j < i ==> sets[j] == 0
        modifies this`sets
      {
        sets := sets[i := 0];
        i := i + 1;
      }
    }

    /** The best hand among the seats that are in with the amount. */
    method HighestCardsValue(playerSets: seq<nat>, amount: nat) returns (highest: int)
      requires Valid() && |playerSets| == |table.ids|
      ensures highest == Best(table, playerSets, amount, |table.ids|)
    {
      hide IdsIdentify, SeatOf;
      highest := 0;
      for j := 0 to |table.ids|
        invariant highest == Best(table, playerSets, amount, j)
      {
        if table.active[j] && table.cards[j] > highest && !table.folded[j] && playerSets[j] >= amount {
          highest := table.cards[j];
        }
      }
    }

    /** The ids of the winners at this amount. */
    method PushWinners(playerSets: seq<nat>, amount: nat) returns (potLevel: seq<nat>)
      requires Valid() && |playerSets| == |table.ids|
      ensures potLevel == IdsOf(table, LevelWinners(table, playerSets, amount))
    {
      var highest := HighestCardsValue(playerSets, amount);
      hide Best, IdsIdentify, With, IdsOf;
      potLevel := PushWithValue(playerSets, amount, highest);
    }

    method PushWithValue(playerSets: seq<nat>, amount: nat, value: int) returns (potLevel: seq<nat>)
      requires Valid() && |playerSets| == |table.ids|
      ensures potLevel == IdsOf(table, With(table, playerSets, amount, value, |table.ids|))
    {
      hide IdsIdentify, With, IdsOf, SeatOf;
      potLevel := [];
      NobodyYet(table, playerSets, amount, value);
      for j := 0 to |table.ids|
        invariant potLevel == IdsOf(table, With(table, playerSets, amount, value, j))
      {
        OneMore(table, playerSets, amount, value, j);
        if table.active[j] && value == table.cards[j] && !table.folded[j] && playerSets[j] >= amount {
          potLevel := potLevel + [table.ids[j]];
        }
      }
    }

    /** Is the level the last one for some winner? */
    method IsFinal(potLevel: seq<nat>, playerSets: seq<nat>, amount: nat) returns (finalPot: bool)
      requires Valid() && OnlyActive(table, playerSets) && amount > 0
      requires LevelWinners(table, playerSets, amount) != [] && potLevel == IdsOf(table, LevelWinners(table, playerSets, amount))
      ensures finalPot <==> Final(table, playerSets, amount)
    {
      ghost var w := LevelWinners(table, playerSets, amount);
      WinnersIdentified(table, playerSets, amount);
      hide LevelWinners, SeatOf, OnlyActive, IdsIdentify;
      for j := 0 to |potLevel|
        invariant forall i :: 0 <= i < j ==> playerSets[w[i]] != amount
      {
        var last := IsLastFor(potLevel[j], playerSets, amount);
        if last {
          return true;
        }
      }
      finalPot := false;
    }

    /** Is some seat with this id in with just the amount? */
    method IsLastFor(id: nat, playerSets: seq<nat>, amount: nat) returns (last: bool)
      requires Valid() && OnlyActive(table, playerSets) && amount > 0
      requires SeatOf(table.ids, id) < |table.ids| && table.active[SeatOf(table.ids, id)]
      ensures last <==> playerSets[SeatOf(table.ids, id)] == amount
    {
      hide SeatOf;
      for k := 0 to |table.ids|
        invariant forall s :: 0 <= s < k ==> !(table.ids[s] == id && amount == playerSets[s])
      {
        if table.ids[k] == id && amount == playerSets[k] {
          assert table.active[k];
          assert k == SeatOf(table.ids, table.ids[k]);
          return true;
        }
      }
      last := false;
    }

    method Give(s: nat, d: int)
      requires Valid() && s < |table.ids|
      modifies this`cash, this`lastMoneyWon, this`winners
      ensures Valid() && View() == Given(old(View()), table.ids, s, d)
    {
      cash := cash[s := cash[s] + d];
      winners := winners + {table.ids[s]};
      lastMoneyWon := lastMoneyWon[s := lastMoneyWon[s] + d];
    }

    method FindSeat(id: nat) returns (it: nat)
      ensures it == SeatOf(table.ids, id)
    {
      it := 0;
      while it < |table.ids|
        invariant it <= |table.ids| && forall i :: 0 <= i < it ==> table.ids[i] != id
      {
        if table.ids[it] == id {
          break;
        }
        it := it + 1;
      }
    }

    /** A sum that the winners can share equally. */
    method PayEqually(potLevel: seq<nat>, share: nat, ghost w: seq<nat>)
      requires Valid() && SeatList(|table.ids|, w) && potLevel == IdsOf(table, w) && forall i :: 0 <= i < |w| ==> table.active[w[i]]
      modifies this`cash, this`lastMoneyWon, this`winners
      ensures Valid() && View() == Shared(old(View()), table.ids, w, share, 0, |w|)
    {
      hide Given, Shared;
      ghost var was := View();
      NothingShared(was, table.ids, w, share);
      for j := 0 to |potLevel|
        invariant Valid() && View() == Shared(was, table.ids, w, share, 0, j)
      {
        var it := FindSeat(potLevel[j]);
        assert it == w[j];
        Give(it, share);
        NextShared(was, table.ids, w, share, j + 1);
      }
    }

    /** The walk to the next winner clockwise. */
    method NextWinner(from: nat, potLevel: seq<nat>, ghost w: seq<nat>) returns (it: nat, winnerHit: bool)
      requires Valid() && SeatList(|table.ids|, w) && w != [] && potLevel == IdsOf(table, w) && from < |table.ids|
      requires forall i :: 0 <= i < |w| ==> table.active[w[i]]
      ensures winnerHit && it == NextSeat(w, from)
    {
      ghost var n := |table.ids|;
      ghost var d := Distance(from, NextSeat(w, from), n);
      NothingBetween(w, n, n, from);
      hide NextSeat, SeatOf;
      it, winnerHit := from, false;
      var k := 0;
      while k < MAX_NUMBER_OF_PLAYERS && !winnerHit
        invariant 0 <= k <= d && it < n
        invariant it == if k == 0 then from else Clockwise(from, k, n)
        invariant winnerHit <==> k == d
      {
        it := it + 1;
        if it == |table.ids| {
          it := 0;
        }
        k := k + 1;
        assert it == Clockwise(from, k, n);
        winnerHit := IsWinner(it, potLevel, w);
      }
    }

    method IsWinner(s: nat, potLevel: seq<nat>, ghost w: seq<nat>) returns (hit: bool)
      requires Valid() && SeatList(|table.ids|, w) && potLevel == IdsOf(table, w) && s < |table.ids|
      requires forall i :: 0 <= i < |w| ==> table.active[w[i]]
      ensures hit <==> s in w
    {
      hit := false;
      for l := 0 to |potLevel|
        invariant hit <==> s in w[..l]
      {
        assert w[..l + 1] == w[..l] + [w[l]];
        if table.active[s] && table.ids[s] == potLevel[l] {
          assert s == SeatOf(table.ids, table.ids[s]) == w[l];
          hit := true;
        }
      }
      assert w[..|w|] == w;
    }

    /** A sum with odd chips: they go to the first winners after the dealer. */
    method PayClockwise(dealerSeat: nat, potLevel: seq<nat>, share: nat, mod: nat, ghost w: seq<nat>)
      requires Valid() && SeatList(|table.ids|, w) && w != [] && potLevel == IdsOf(table, w) && dealerSeat < |table.ids|
      requires forall i :: 0 <= i < |w| ==> table.active[w[i]]
      modifies this`cash, this`lastMoneyWon, this`winners
      ensures SeatsIn(PayOrder(w, dealerSeat), |table.ids|)
      ensures Valid() && View() == Shared(old(View()), table.ids, PayOrder(w, dealerSeat), share, mod, |w|)
    {
      hide Given;
      var it := dealerSeat;
      ghost var order := PayOrder(w, dealerSeat);
      for j := 0 to |potLevel|
        invariant Valid() && it < |table.ids|
        invariant it == if j == 0 then dealerSeat else order[j - 1]
        invariant View() == Shared(old(View()), table.ids, order, share, mod, j)
      {
        NextInOrder(w, |table.ids|, dealerSeat, j);
        var hit;
        it, hit := NextWinner(it, potLevel, w);
        if hit {
          if j < mod {
            Give(it, share + 1);
          } else {
            Give(it, share);
          }
        }
      }
    }

    /** Paying a level out; false if odd chips have no dealer to start from. */
    method PayLevel(dealerPosition: nat, potLevel: seq<nat>, sum: nat, ghost w: seq<nat>) returns (ok: bool)
      requires Valid() && SeatList(|table.ids|, w) && w != [] && potLevel == IdsOf(table, w)
      requires forall i :: 0 <= i < |w| ==> table.active[w[i]]
      modifies this`cash, this`lastMoneyWon, this`winners, this`pot
      ensures Valid()
      ensures ok <==> sum % |w| == 0 || SeatOf(table.ids, dealerPosition) < |table.ids|
      ensures View() == if ok then Paid(old(View()), table.ids, w, SeatOf(table.ids, dealerPosition), sum) else old(View())
    {
      hide Shared, PayOrder;
      var mod := sum % |potLevel|;
      if mod == 0 {
        PayEqually(potLevel, sum / |potLevel|, w);
      } else {
        var it := FindSeat(dealerPosition);
        if it == |table.ids| {
          return false;
        }
        PayClockwise(it, potLevel, sum / |potLevel|, mod, w);
      }
      pot := pot - sum;
      ok := true;
    }

    /** The winners of a level: those who are in with the amount, or the best of all who stand. */
    method FindWinners(playerSets: seq<nat>, amount: nat) returns (potLevel: seq<nat>, usedFallback: bool)
      requires Valid() && |playerSets| == |table.ids|
      ensures potLevel == IdsOf(table, Winners(table, playerSets, amount))
      ensures usedFallback <==> LevelWinners(table, playerSets, amount) == []
    {
      hide LevelWinners;
      potLevel := PushWinners(playerSets, amount);
      usedFallback := |potLevel| == 0;
      if usedFallback {
        potLevel := PushWinners(playerSets, 0);
      }
    }

    /** The winners are known: is the level paid out now, or carried over? */
    method PayOrCarry(dealerPosition: nat, playerSets: seq<nat>, amount: nat, sum: nat, potLevel: seq<nat>, usedFallback: bool)
      returns (carry: nat, thrown: bool)
      requires Valid() && |playerSets| == |table.ids| && OnlyActive(table, playerSets) && amount > 0
      requires Winners(table, playerSets, amount) != [] && potLevel == IdsOf(table, Winners(table, playerSets, amount))
      requires usedFallback <==> LevelWinners(table, playerSets, amount) == []
      modifies this`cash, this`lastMoneyWon, this`winners, this`pot
      ensures Valid()
      ensures var w, d := Winners(table, playerSets, amount), SeatOf(table.ids, dealerPosition);
              if !Final(table, playerSets, amount) then !thrown && carry == sum && View() == old(View())
              else
                && (thrown <==> sum % |w| != 0 && d >= |table.ids|)
                && View() == (if thrown then old(View()) else Paid(old(View()), table.ids, w, d, sum))
                && (!thrown ==> carry == 0)
    {
      WinnersActive(table, playerSets, amount);
      ghost var w := Winners(table, playerSets, amount);
      if !usedFallback {
        FirstChoice(table, playerSets, amount);
      } else {
        FallbackIsFinal(table, playerSets, amount);
      }
      hide Winners, LevelWinners, Paid, Final, IdsIdentify, OnlyActive, IdsOf, SeatOf;
      var finalPot := true;
      if !usedFallback {
        finalPot := IsFinal(potLevel, playerSets, amount);
      }
      carry, thrown := 0, false;
      if finalPot {
        var ok := PayLevel(dealerPosition, potLevel, sum, w);
        thrown := !ok;
      } else {
        carry := sum;
      }
    }

    /** One turn of the level loop, for the amount found in the sorted sets; the count of those who are in
        is taken from the position in that list. */
    method Level(dealerPosition: nat, playerSets: seq<nat>, amount: nat, count: nat, potCarryOver: nat) returns (carry: nat, thrown: bool)
      requires Valid() && |playerSets| == |table.ids| && OnlyActive(table, playerSets)
      requires Positives(playerSets) == count > 0 && amount == MinPositive(playerSets)
      requires Sum(playerSets) + potCarryOver <= INT_MAX
      modifies this`cash, this`lastMoneyWon, this`winners, this`pot
      ensures Valid()
      ensures var n := OneLevel(table, SeatOf(table.ids, dealerPosition), playerSets, potCarryOver, old(View()));
              if thrown then n == Stop && View() == old(View()) else n == Go(carry, View())
    {
      var sum := ToUnsigned(count * amount + potCarryOver);
      TakeFits(playerSets, potCarryOver, count, amount);
      OneLevelCases(table, SeatOf(table.ids, dealerPosition), playerSets, potCarryOver, View(), amount, sum);
      hide OneLevel, Winners, LevelWinners, Paid, Take, Final, IdsIdentify, OnlyActive, IdsOf, SeatOf, Sum, ToUnsigned, MinPositive, Positives;
      var potLevel, usedFallback := FindWinners(playerSets, amount);
      if |potLevel| == 0 {
        return 0, true;
      }
      carry, thrown := PayOrCarry(dealerPosition, playerSets, amount, sum, potLevel, usedFallback);
    }

    /** Everyone's part of the level is taken off. */
    method Reevaluate(playerSets: seq<nat>, amount: nat) returns (r: seq<nat>)
      ensures r == Reduced(playerSets, amount)
    {
      r := playerSets;
      var j := 0;
      while j < |r|
        invariant 0 <= j <= |r| == |playerSets|
        invariant forall i :: 0 <= i < |r| ==> r[i] == if i < j then Reduced(playerSets, amount)[i] else playerSets[i]
      {
        if r[j] > 0 {
          r := r[j := r[j] - if r[j] < amount then r[j] else amount];
        }
        j := j + 1;
      }
    }

    /** The sets of the hand. */
    method FillSets() returns (playerSets: seq<nat>)
      requires Valid()
      modifies this`lastMoneyWon
      ensures Valid() && playerSets == Sets(table.active, roundStartCash, cash)
      ensures forall s :: 0 <= s < |lastMoneyWon| ==> lastMoneyWon[s] == 0
    {
      playerSets := [];
      for i := 0 to |table.ids|
        invariant |playerSets| == i && |lastMoneyWon| == |table.ids|
        invariant forall s :: 0 <= s < i ==> playerSets[s] == SetOf(table.active[s], roundStartCash[s], cash[s]) && lastMoneyWon[s] == 0
      {
        if table.active[i] {
          var d := roundStartCash[i] - cash[i];
          playerSets := playerSets + [if 0 < d then d else 0];
        } else {
          playerSets := playerSets + [0];
        }
        lastMoneyWon := lastMoneyWon[i := 0];
      }
    }

    /** The level loop. */
    method DistributeLevels(dealerPosition: nat, playerSets0: seq<nat>) returns (thrown: bool)
      requires Valid() && OnlyActive(table, playerSets0) && |playerSets0| == |table.ids| && Sum(playerSets0) <= INT_MAX
      modifies this`cash, this`lastMoneyWon, this`winners, this`pot
      ensures Valid()
      ensures Outcome(View(), thrown) == Distribute(table, SeatOf(table.ids, dealerPosition), playerSets0, 0, old(View()))
    {
      hide OneLevel, Rest, Sum, Sort, SeatOf, Positives, OnlyActive;
      var playerSets := playerSets0;
      var playerSetsSort := Sort(playerSets);
      var potCarryOver: nat := 0;
      ghost var d := SeatOf(table.ids, dealerPosition);
      var i := 0;
      while i < |playerSetsSort|
        invariant 0 <= i <= |playerSetsSort| == |playerSets| == |table.ids| && playerSetsSort == Sort(playerSets)
        invariant Valid() && OnlyActive(table, playerSets) && Sum(playerSets) + potCarryOver <= INT_MAX
        invariant forall j :: 0 <= j < i ==> playerSetsSort[j] == 0
        invariant Distribute(table, d, playerSets, potCarryOver, View()) == Distribute(table, d, playerSets0, 0, old(View()))
      {
        if playerSetsSort[i] > 0 {
          var amount := playerSetsSort[i];
          LevelFound(playerSets, i);
          ghost var l := View();
          var carry;
          carry, thrown := Level(dealerPosition, playerSets, amount, |playerSetsSort| - i, potCarryOver);
          if thrown {
            return;
          }
          assert Sum(Rest(playerSets)) + carry <= INT_MAX by {
            CarryFits(table, d, playerSets, potCarryOver, l);
          }
          NextLevelSorted(playerSets, i);
          NextIsRest(table, playerSets);
          playerSets := Reevaluate(playerSets, amount);
          playerSetsSort := Sort(playerSets);
          potCarryOver := carry;
        }
        i := i + 1;
      }
      assert Positives(playerSets) == 0 by { NothingLeft(playerSets); }
      thrown := false;
    }

    /** The front of the sorted list of winners. */
    method FirstWinner() returns (winnerId: nat)
      requires winners != {}
      ensures IsFirst(winners, winnerId)
    {
      winnerId :| winnerId in winners;
      var todo := winners - {winnerId};
      while todo != {}
        invariant todo <= winners && winnerId in winners
        invariant forall x :: x in winners && x !in todo ==> winnerId <= x
        decreases todo
      {
        var x :| x in todo;
        if x < winnerId {
          winnerId := x;
        }
        todo := todo - {x};
      }
    }

    /** What is left over, which is an error of the bookkeeping, is not lost. */
    method Settle()
      requires Valid() && forall id :: id in winners ==> SeatOf(table.ids, id) < |table.ids|
      modifies this`cash, this`lastMoneyWon, this`pot
      ensures Valid() && Settles(old(View()), table.ids, View())
    {
      hide SeatOf, IdsIdentify;
      if pot > 0 {
        if winners != {} {
          var winnerId := FirstWinner();
          var it := FindSeat(winnerId);
          if it != |table.ids| {
            cash := cash[it := cash[it] + pot];
            lastMoneyWon := lastMoneyWon[it := lastMoneyWon[it] + pot];
          }
        }
        pot := 0;
      } else if pot < 0 {
        pot := 0;
      }
    }

    /** The pot of a hand, if the bets of all players together fit an integer. */
    method DistributePot(dealerPosition: nat) returns (thrown: bool)
      requires Valid() && Sum(Sets(table.active, roundStartCash, cash)) <= INT_MAX
      modifies this`cash, this`lastMoneyWon, this`winners, this`pot
      ensures Valid()
      ensures var sets := Sets(table.active, roundStartCash, old(cash));
              var o := Distribute(table, SeatOf(table.ids, dealerPosition), sets, 0, Ledger(old(cash), seq(|sets|, _ => 0), {}, old(pot)));
              thrown == o.thrown && if thrown then View() == o.l else Settles(o.l, table.ids, View())
    {
      hide Distribute, SeatOf, Sum, Settles;
      winners := {};
      var playerSets := FillSets();
      ghost var l := View();
      assert l == Ledger(old(cash), seq(|playerSets|, _ => 0), {}, old(pot)) by {
        assert lastMoneyWon == seq(|playerSets|, _ => 0);
      }
      thrown := DistributeLevels(dealerPosition, playerSets);
      if !thrown {
        WinnersAreSeated(table, SeatOf(table.ids, dealerPosition), playerSets, 0, l);
        Settle();
      }
    }
  }

  // ---------------------------------------------------------------------------------------------

  lemma NobodyYet(t: Table, sets: seq<nat>, a: nat, value: int)
    requires t.Valid() && |sets| == |t.ids|
    ensures IdsOf(t, With(t, sets, a, value, 0)) == []
  {
  }

  lemma OneMore(t: Table, sets: seq<nat>, a: nat, value: int, j: nat)
    requires t.Valid() && |sets| == |t.ids| && j < |t.ids|
    ensures IdsOf(t, With(t, sets, a, value, j + 1))
         == IdsOf(t, With(t, sets, a, value, j)) + if Contends(t, sets, a, j) && t.cards[j] == value then [t.ids[j]] else []
  {
    var w := With(t, sets, a, value, j);
    assert With(t, sets, a, value, j + 1) == if Contends(t, sets, a, j) && t.cards[j] == value then w + [j] else w;
    hide With, Contends;
  }

  lemma WinnersIdentified(t: Table, sets: seq<nat>, a: nat)
    requires t.Valid() && |sets| == |t.ids| && IdsIdentify(t)
    ensures var w := LevelWinners(t, sets, a);
            forall j :: 0 <= j < |w| ==> t.active[w[j]] && SeatOf(t.ids, t.ids[w[j]]) == w[j]
  {
    var w := LevelWinners(t, sets, a);
    assert forall j :: 0 <= j < |w| ==> w[j] in w;
  }

  lemma NextInOrder(w: seq<nat>, n: nat, dealer: nat, j: nat)
    requires SeatList(n, w) && j < |w| && dealer < n
    ensures NextSeat(w, if j == 0 then dealer else PayOrder(w, dealer)[j - 1]) == PayOrder(w, dealer)[j]
  {
    if j > 0 {
      RankOfMember(w, n, Turn(Rank(w, dealer), j - 1, |w|));
    }
  }

  lemma TakeFits(sets: seq<nat>, carry: nat, count: nat, amount: nat)
    requires Positives(sets) == count > 0 && amount == MinPositive(sets) && Sum(sets) + carry <= INT_MAX
    ensures ToUnsigned(count * amount + carry) == Take(sets) + carry
  {
    LevelSum(sets);
    SumNotNegative(Rest(sets));
    assert count * amount == amount * count;
  }

  lemma {:induction false} SumNotNegative(sets: seq<nat>)
    ensures Sum(sets) >= 0
  {
    if sets != [] {
      SumNotNegative(sets[1..]);
    }
  }

  lemma WinnersActive(t: Table, sets: seq<nat>, a: nat)
    requires t.Valid() && |sets| == |t.ids|
    ensures forall i :: 0 <= i < |Winners(t, sets, a)| ==> t.active[Winners(t, sets, a)[i]]
  {
    var w := Winners(t, sets, a);
    assert forall i :: 0 <= i < |w| ==> w[i] in w;
  }

  lemma OneLevelCases(t: Table, dealer: nat, sets: seq<nat>, carry: nat, l: Ledger, amount: nat, sum: nat)
    requires t.Valid() && |sets| == |t.ids| == |l.cash| == |l.won| && Positives(sets) > 0
    requires amount == MinPositive(sets) && sum == Take(sets) + carry
    ensures var w := Winners(t, sets, amount);
            OneLevel(t, dealer, sets, carry, l) ==
            if w == [] then Stop
            else if !Final(t, sets, amount) then Go(sum, l)
            else if sum % |w| != 0 && dealer >= |t.ids| then Stop
            else Go(0, Paid(l, t.ids, w, dealer, sum))
  {
    hide Winners, Final, Paid, Take;
  }

  lemma FirstChoice(t: Table, sets: seq<nat>, a: nat)
    requires t.Valid() && |sets| == |t.ids| && LevelWinners(t, sets, a) != []
    ensures Winners(t, sets, a) == LevelWinners(t, sets, a)
  {
  }

  lemma FallbackIsFinal(t: Table, sets: seq<nat>, a: nat)
    requires t.Valid() && |sets| == |t.ids| && LevelWinners(t, sets, a) == []
    ensures Final(t, sets, a)
  {
  }

  lemma CarryFits(t: Table, dealer: nat, sets: seq<nat>, carry: nat, l: Ledger)
    requires t.Valid() && |sets| == |t.ids| == |l.cash| == |l.won| && Positives(sets) > 0
    requires Sum(sets) + carry <= INT_MAX && OneLevel(t, dealer, sets, carry, l).Go?
    ensures Sum(Rest(sets)) + OneLevel(t, dealer, sets, carry, l).carry <= INT_MAX
  {
    LevelSum(sets);
    hide Sum, Take, Rest, Winners, Final, Paid;
  }

  lemma NextIsRest(t: Table, sets: seq<nat>)
    requires t.Valid() && OnlyActive(t, sets) && Positives(sets) > 0
    ensures Rest(sets) == Reduced(sets, MinPositive(sets)) && OnlyActive(t, Rest(sets))
  {
  }

  lemma NothingLeft(sets: seq<nat>)
    requires forall j :: 0 <= j < |sets| ==> Sort(sets)[j] == 0
    ensures Positives(sets) == 0
  {
    PositivesOfTail(Sort(sets), |sets|);
  }

  lemma {:induction false} SharedWinners(l: Ledger, ids: seq<nat>, order: seq<nat>, share: nat, odd: nat, j: nat)
    requires |ids| == |l.cash| == |l.won| && j <= |order| && SeatsIn(order, |ids|)
    ensures var r := Shared(l, ids, order, share, odd, j);
            (forall id :: id in r.winners ==> id in l.winners || id in ids) && (j > 0 ==> r.winners != {}) && l.winners <= r.winners
  {
    if j > 0 {
      SharedWinners(l, ids, order, share, odd, j - 1);
      assert ids[order[j - 1]] in Shared(l, ids, order, share, odd, j).winners;
    }
  }

  lemma PaidWinners(l: Ledger, ids: seq<nat>, w: seq<nat>, dealer: nat, sum: nat)
    requires |ids| == |l.cash| == |l.won| && w != [] && SeatList(|ids|, w)
    ensures var r := Paid(l, ids, w, dealer, sum);
            (forall id :: id in r.winners ==> id in l.winners || id in ids) && r.winners != {}
  {
    var order := if sum % |w| == 0 then w else PayOrder(w, dealer);
    SharedWinners(l, ids, order, sum / |w|, sum % |w|, |w|);
  }

  /** Winners have seats, and there is one whenever something has been distributed. */
  lemma {:induction false} WinnersAreSeated(t: Table, dealer: nat, sets: seq<nat>, carry: nat, l: Ledger)
    requires t.Valid() && |sets| == |t.ids| == |l.cash| == |l.won|
    requires forall id :: id in l.winners ==> id in t.ids
    ensures var o := Distribute(t, dealer, sets, carry, l);
            && (forall id :: id in o.l.winners ==> SeatOf(t.ids, id) < |t.ids|)
            && (!o.thrown && (Positives(sets) > 0 || l.winners != {}) ==> o.l.winners != {})
    decreases Positives(sets)
  {
    hide OneLevel, Rest;
    if Positives(sets) > 0 {
      var n := OneLevel(t, dealer, sets, carry, l);
      if n.Go? {
        LevelSeatsWinners(t, dealer, sets, carry, l);
        WinnersAreSeated(t, dealer, Rest(sets), n.carry, n.l);
      }
    }
  }

  lemma LevelSeatsWinners(t: Table, dealer: nat, sets: seq<nat>, carry: nat, l: Ledger)
    requires t.Valid() && |sets| == |t.ids| == |l.cash| == |l.won| && Positives(sets) > 0
    requires forall id :: id in l.winners ==> id in t.ids
    ensures var n := OneLevel(t, dealer, sets, carry, l);
            n.Go? ==>
              && (forall id :: id in n.l.winners ==> id in t.ids)
              && (n.l.winners != {} || (Positives(Rest(sets)) > 0 && n.l == l))
  {
    hide Winners, Final, Paid, Take, Rest;
    var w := Winners(t, sets, MinPositive(sets));
    if w != [] {
      PaidWinners(l, t.ids, w, dealer, Take(sets) + carry);
      if Positives(Rest(sets)) == 0 {
        LastLevelIsFinal(t, sets);
      }
    }
  }

  /** After a distribution the players have what they had before and what they put in, or the pot, if that
      is more and someone won. So no chip appears or disappears if and only if the pot was what they put
      in, or more than that with someone to take it. */
  lemma PotConserved(t: Table, dealer: nat, sets: seq<nat>, l: Ledger, r: Ledger)
    requires t.Valid() && |sets| == |t.ids| == |l.cash| == |l.won| && l.winners == {}
    requires !Distribute(t, dealer, sets, 0, l).thrown && Settles(Distribute(t, dealer, sets, 0, l).l, t.ids, r)
    ensures Sum(r.cash) == Sum(l.cash) + if l.pot > Sum(sets) && Sum(sets) > 0 then l.pot else Sum(sets)
    ensures Sum(r.cash) == Sum(l.cash) + l.pot <==> l.pot == Sum(sets) || (l.pot > Sum(sets) && Sum(sets) > 0)
    ensures Sum(r.won) - Sum(l.won) == Sum(r.cash) - Sum(l.cash)
    ensures r.pot == 0
  {
    ChipsConserved(t, dealer, sets, 0, l);
    WinnersAreSeated(t, dealer, sets, 0, l);
    SomethingPositive(sets);
    var o := Distribute(t, dealer, sets, 0, l).l;
    assert Positives(sets) == 0 ==> o == l;
    hide Distribute, SeatOf, Sum, Positives, Settles;
    SettledSum(o, t.ids, r);
  }

  /** Players of a hand who tie for the best hand with the same amount in: when somebody who stands covers
      everyone and the pot holds what was put in, each of them gets its share of their side pot, odd chips by
      the distance from the dealer. */
  lemma TieSplitsPot(t: Table, dealer: nat, sets: seq<nat>, l: Ledger, r: Ledger, w: seq<nat>, c: nat, x: nat)
    requires t.Valid() && |sets| == |t.ids| == |l.cash| == |l.won| && l.winners == {} && l.pot == Sum(sets)
    requires dealer < |t.ids| && Tied(t, sets, w, c) && c > 0 && x in w && x < |t.ids| && Covered(t, sets)
    requires Settles(Distribute(t, dealer, sets, 0, l).l, t.ids, r)
    ensures var gain := Share(w, dealer, |t.ids|, x, SidePot(sets, c));
            |r.cash| == |r.won| == |t.ids| && r.won[x] == l.won[x] + gain && r.cash[x] == l.cash[x] + gain
  {
    hide Distribute, Tied, Covered, SeatOf, Sum, Share, Positives, SomeoneStands;
    TieSharesSidePot(t, dealer, sets, 0, l, w, c, x);
    WinningsAreCashed(t, dealer, sets, 0, l, x);
    FailsIffNobodyStands(t, dealer, sets, 0, l);
    assert SomeoneStands(t) by { CoveringStands(t, sets); }
    ChipsConserved(t, dealer, sets, 0, l);
  }

  lemma CoveringStands(t: Table, sets: seq<nat>)
    requires t.Valid() && |sets| == |t.ids| && Covered(t, sets)
    ensures SomeoneStands(t)
  {
  }

  /** A hand moves chips between the players and makes or loses none: when the pot holds what the players have
      bet since its start, all cash together is in the end what it was at the start. */
  lemma HandIsZeroSum(t: Table, dealer: nat, start: seq<int>, l: Ledger, r: Ledger)
    requires t.Valid() && |start| == |t.ids| == |l.cash| == |l.won| && l.winners == {}
    requires forall s :: 0 <= s < |t.ids| ==> if t.active[s] then l.cash[s] <= start[s] else l.cash[s] == start[s]
    requires l.pot == Sum(start) - Sum(l.cash)
    requires !Distribute(t, dealer, Sets(t.active, start, l.cash), 0, l).thrown
    requires Settles(Distribute(t, dealer, Sets(t.active, start, l.cash), 0, l).l, t.ids, r)
    ensures Sum(r.cash) == Sum(start)
  {
    hide Distribute, Sum, Settles;
    SumOfSets(t.active, start, l.cash);
    PotConserved(t, dealer, Sets(t.active, start, l.cash), l, r);
  }

  lemma {:induction false} SumOfSets(active: seq<bool>, start: seq<int>, cash: seq<int>)
    requires |active| == |start| == |cash|
    requires forall s :: 0 <= s < |active| ==> if active[s] then cash[s] <= start[s] else cash[s] == start[s]
    ensures Sum(Sets(active, start, cash)) == Sum(start) - Sum(cash)
  {
    if active != [] {
      SumOfSets(active[1..], start[1..], cash[1..]);
      assert Sets(active, start, cash)[1..] == Sets(active[1..], start[1..], cash[1..]);
    }
  }

  /** An input with which it fails: a pot of 90 is paid out as the 100 chips that two players put in. */
  lemma ChipsMade(l: Ledger, r: Ledger)
    requires |l.cash| == |l.won| == 2 && l.winners == {} && l.pot == 90
    ensures var t, o := TwoStanding(), Distribute(TwoStanding(), 0, [50, 50], 0, l);
            t.Valid() && !o.thrown && (Settles(o.l, t.ids, r) ==> Sum(r.cash) == Sum(l.cash) + 100)
  {
    var t, sets: seq<nat> := TwoStanding(), [50, 50];
    SumOfTwo(50);
    FailsIffNobodyStands(t, 0, sets, 0, l);
    assert SomeoneStands(t);
    hide Distribute, Sum, Settles, SomeoneStands;
    if Settles(Distribute(t, 0, sets, 0, l).l, t.ids, r) {
      PotConserved(t, 0, sets, l, r);
    }
  }

  /** And another one: a pot of 10 into which nobody put anything is lost. */
  lemma ChipsLost(l: Ledger, r: Ledger)
    requires |l.cash| == |l.won| == 2 && l.winners == {} && l.pot == 10
    ensures var t, o := TwoStanding(), Distribute(TwoStanding(), 0, [0, 0], 0, l);
            t.Valid() && !o.thrown && (Settles(o.l, t.ids, r) ==> Sum(r.cash) == Sum(l.cash))
  {
    var t, sets: seq<nat> := TwoStanding(), [0, 0];
    SumOfTwo(0);
    NoneLeft(sets);
    hide Sum, Settles;
    if Settles(Distribute(t, 0, sets, 0, l).l, t.ids, r) {
      hide Distribute;
      PotConserved(t, 0, sets, l, r);
    }
  }

  function TwoStanding(): Table {
    Table([1, 2], [true, true], [false, false], [7, 3])
  }

  lemma SumOfTwo(x: nat)
    ensures Sum([x, x]) == 2 * x
  {
    var two: seq<int>, one: seq<int> := [x, x], [x];
    assert two[1..] == one && one[1..] == [];
    assert Sum(one) == x;
  }

  lemma SettledSum(l: Ledger, ids: seq<nat>, r: Ledger)
    requires |l.cash| == |l.won| == |ids| && Settles(l, ids, r)
    ensures var d := if l.pot > 0 && l.winners != {} then l.pot else 0;
            Sum(r.cash) == Sum(l.cash) + d && Sum(r.won) == Sum(l.won) + d && r.pot == 0
  {
    hide Sum, SeatOf;
    if l.pot > 0 && l.winners != {} {
      var id :| IsFirst(l.winners, id) && SeatOf(ids, id) < |ids| &&
                var s := SeatOf(ids, id); r.cash == l.cash[s := l.cash[s] + l.pot] && r.won == l.won[s := l.won[s] + l.pot];
      SumUpdate(l.cash, SeatOf(ids, id), l.pot);
      SumUpdate(l.won, SeatOf(ids, id), l.pot);
    }
  }

  lemma {:induction false} SomethingPositive(sets: seq<nat>)
    ensures Sum(sets) >= 0 && (Sum(sets) > 0 <==> Positives(sets) > 0)
  {
    if sets != [] {
      SomethingPositive(sets[1..]);
    }
  }
}
