/** The hand loop of a game: what happens before every hand. */
module Game {
  import opened Blinds
  import opened Dealer
  import opened GameDefs

  /** A seat's unique id: the players' in their order, 0 for the seats nobody takes. */
  function IdOfSeat(playerIds: seq<nat>, i: nat): nat {
    if i < |playerIds| then playerIds[i] else 0
  }

  /** A seat's cash: what its player brings along, or the game's start cash. */
  function CashOfSeat(playerCash: seq<int>, startCash: int, i: nat): int {
    if i < |playerCash| && playerCash[i] >= 0 then playerCash[i] else startCash
  }

  class Game {
    const ids: seq<nat>
    const blinds: BlindSchedule
    var cash: seq<int>
    var activeStatus: seq<bool>
    var actionPending: seq<bool>
    var activePlayerList: seq<nat>
    var runningPlayerList: seq<nat>
    var dealerPosition: nat
    var allInCondition: bool

    ghost predicate Valid()
      reads this
    {
      && |cash| == |activeStatus| == |actionPending| == |ids|
      && SeatList(|ids|, activePlayerList)
      && forall s :: 0 <= s < |ids| ==> (activeStatus[s] <==> s in activePlayerList)
    }

    constructor Seats(playerIds: seq<nat>, playerCash: seq<int>, dealer: nat, schedule: BlindSchedule)
      requires |playerCash| == |playerIds|
      ensures Valid() && blinds == schedule && dealerPosition == dealer
      ensures |ids| == MAX_NUMBER_OF_PLAYERS && forall i :: 0 <= i < |ids| ==> ids[i] == IdOfSeat(playerIds, i)
      ensures forall i :: 0 <= i < |cash| ==> cash[i] == CashOfSeat(playerCash, schedule.myGameData.startCash as int, i)
      ensures forall s :: s in activePlayerList <==> 0 <= s < MAX_NUMBER_OF_PLAYERS && s < schedule.myGameData.startQuantityPlayers as int
      ensures runningPlayerList == activePlayerList
    {
      var seats, statuses, list: seq<nat>, money := [], [], [], [];
      for i := 0 to MAX_NUMBER_OF_PLAYERS
        invariant |seats| == |statuses| == |money| == i
        invariant forall j :: 0 <= j < i ==> seats[j] == IdOfSeat(playerIds, j)
        invariant forall j :: 0 <= j < i ==> money[j] == CashOfSeat(playerCash, schedule.myGameData.startCash as int, j)
        invariant forall j :: 0 <= j < i ==> (statuses[j] <==> schedule.myGameData.startQuantityPlayers as int > j)
        invariant SeatList(i, list)
        invariant forall s :: s in list <==> 0 <= s < i && s < schedule.myGameData.startQuantityPlayers as int
      {
        var uniqueId, myStartCash := 0, schedule.myGameData.startCash as int;
        if i < |playerIds| {
          uniqueId := playerIds[i];
          if playerCash[i] >= 0 {
            myStartCash := playerCash[i];
          }
        }
        var active := schedule.myGameData.startQuantityPlayers as int > i;
        seats, statuses, money := seats + [uniqueId], statuses + [active], money + [myStartCash];
        if active {
          list := list + [i];
        }
      }
      ids, blinds, cash, activeStatus := seats, schedule, money, statuses;
      actionPending := seq(MAX_NUMBER_OF_PLAYERS, _ => false);
      activePlayerList, runningPlayerList, dealerPosition, allInCondition := list, list, dealer, false;
    }

    /** A new game; null stands for the exception when no player has the dealer's id. */
    static method NewGame(playerIds: seq<nat>, playerCash: seq<int>, dealer: nat, schedule: BlindSchedule) returns (g: Game?)
      requires |playerCash| == |playerIds|
      ensures g == null <==> dealer !in playerIds
      ensures g != null ==>
                && fresh(g) && g.Valid() && g.dealerPosition == dealer && g.blinds == schedule
                && (forall i :: 0 <= i < |g.cash| ==> g.cash[i] == CashOfSeat(playerCash, schedule.myGameData.startCash as int, i))
                && |g.ids| == MAX_NUMBER_OF_PLAYERS && forall i :: 0 <= i < |g.ids| ==> g.ids[i] == IdOfSeat(playerIds, i)
      ensures g != null ==>
                forall s :: s in g.activePlayerList <==> 0 <= s < MAX_NUMBER_OF_PLAYERS && s < schedule.myGameData.startQuantityPlayers as int
    {
      var i := 0;
      while i < |playerIds|
        invariant i <= |playerIds| && dealer !in playerIds[..i]
      {
        if playerIds[i] == dealer {
          break;
        }
        i := i + 1;
      }
      if i == |playerIds| {
        return null;
      }
      g := new Game.Seats(playerIds, playerCash, dealer, schedule);
    }

    method SeatIt(uniqueId: nat) returns (it: nat)
      ensures it == SeatOf(ids, uniqueId)
    {
      it := 0;
      while it < |ids|
        invariant it <= |ids| && forall i :: 0 <= i < it ==> ids[i] != uniqueId
      {
        if ids[it] == uniqueId {
          break;
        }
        it := it + 1;
      }
    }

    method ActivePlayerIt(uniqueId: nat) returns (it: nat)
      requires Valid()
      ensures it <= |activePlayerList|
      ensures it < |activePlayerList| <==> OnList(ids, activePlayerList, uniqueId)
      ensures it < |activePlayerList| ==> ids[activePlayerList[it]] == uniqueId
    {
      it := 0;
      while it < |activePlayerList|
        invariant it <= |activePlayerList|
        invariant forall i :: 0 <= i < it ==> ids[activePlayerList[i]] != uniqueId
      {
        if ids[activePlayerList[it]] == uniqueId {
          break;
        }
        it := it + 1;
      }
    }

    /** One player leaves. */
    method Leave(it: nat)
      requires Valid() && it < |activePlayerList|
      modifies this`activeStatus, this`activePlayerList
      ensures Valid()
      ensures activePlayerList == old(activePlayerList[..it] + activePlayerList[it + 1..])
    {
      Erased(activePlayerList, it, |ids|);
      activeStatus := activeStatus[activePlayerList[it] := false];
      activePlayerList := activePlayerList[..it] + activePlayerList[it + 1..];
    }

    /** Players with no cash leave: their status is cleared and the list loses them, in one walk. */
    method DropBrokePlayers()
      requires Valid()
      modifies this`activeStatus, this`activePlayerList
      ensures Valid()
      ensures activePlayerList == Pruned(old(activePlayerList), cash)
    {
      hide Pruned;
      var it := 0;
      while it < |activePlayerList|
        invariant 0 <= it <= |activePlayerList| && Valid()
        invariant Pruned(activePlayerList, cash) == Pruned(old(activePlayerList), cash)
        invariant forall i :: 0 <= i < it ==> cash[activePlayerList[i]] != 0
        decreases |activePlayerList| - it
      {
        if cash[activePlayerList[it]] == 0 {
          PrunedErase(activePlayerList, it, cash);
          Leave(it);
        } else {
          it := it + 1;
        }
      }
      NobodyBroke(activePlayerList, cash);
    }

    /** The walk that looks for the next dealer. */
    method RotateDealer() returns (o: Outcome)
      requires Valid()
      modifies this`dealerPosition
      ensures o == NextDealer(ids, activePlayerList, old(dealerPosition))
      ensures dealerPosition == if o.Dealer? then o.id else old(dealerPosition)
    {
      var nextDealerFound := false;
      var dealerPositionIt := SeatIt(dealerPosition);
      if dealerPositionIt == |ids| {
        return SeatNotFound;
      }
      ghost var p := dealerPositionIt;
      for i := 0 to |ids|
        invariant dealerPositionIt == if i == 0 then p else Clockwise(p, i, |ids|)
        invariant dealerPosition == old(dealerPosition)
        invariant Search(ids, activePlayerList, p, 1) == Search(ids, activePlayerList, p, i + 1)
      {
        dealerPositionIt := dealerPositionIt + 1;
        if dealerPositionIt == |ids| {
          dealerPositionIt := 0;
        }
        assert dealerPositionIt == Clockwise(p, i + 1, |ids|);
        var it := ActivePlayerIt(ids[dealerPositionIt]);
        if it != |activePlayerList| {
          dealerPosition := ids[activePlayerList[it]];
          return Dealer(dealerPosition);
        }
      }
      return NextDealerNotFound;
    }

    /** The start of a hand. Whatever the outcome, the hand is counted, the blinds are raised when due
        and the broke players are out; only a found dealer changes the dealer. */
    method InitHand(elapsedMinutes: int64) returns (o: Outcome)
      requires Valid()
      requires blinds.currentHandID as int < INT_MAX
      requires blinds.myGameData.raiseIntervalMode.OnHandNumber? ==>
                 -0x8000_0000 <= blinds.lastHandBlindsRaised as int + blinds.myGameData.everyHands as int <= INT_MAX
      requires -0x222_2222_2222_2222 <= blinds.lastTimeBlindsRaised <= 0x222_2222_2222_2222
      modifies this, blinds
      ensures Valid() && cash == old(cash)
      ensures blinds.currentHandID as int == old(blinds.currentHandID) as int + 1
      ensures old(blinds.Sane()) ==>
                blinds.Sane() && blinds.View() == RaiseStep(blinds.myGameData, old(blinds.View()), blinds.currentHandID as int, elapsedMinutes as int)
      ensures activePlayerList == runningPlayerList == Pruned(old(activePlayerList), cash)
      ensures !allInCondition && forall s :: 0 <= s < |ids| ==> !actionPending[s]
      ensures o == NextDealer(ids, activePlayerList, old(dealerPosition))
      ensures dealerPosition == if o.Dealer? then o.id else old(dealerPosition)
    {
      blinds.currentHandID := blinds.currentHandID + 1;
      blinds.RaiseBlinds(elapsedMinutes);
      allInCondition := false;
      var it := 0;
      while it < |ids|
        invariant 0 <= it <= |ids| && |actionPending| == |ids|
        invariant forall s :: 0 <= s < it ==> !actionPending[s]
        modifies this`actionPending
      {
        actionPending := actionPending[it := false];
        it := it + 1;
      }
      DropBrokePlayers();
      runningPlayerList := activePlayerList;
      o := RotateDealer();
    }

    /** A player's id changes when somebody else takes over the seat. */
    method ReplaceDealer(oldDealer: nat, newDealer: nat)
      modifies this`dealerPosition
      ensures dealerPosition == if old(dealerPosition) == oldDealer then newDealer else old(dealerPosition)
    {
      if dealerPosition == oldDealer {
        dealerPosition := newDealer;
      }
    }
  }

  lemma {:induction false} PrunedErase(list: seq<nat>, i: nat, cash: seq<int>)
    requires i < |list| && (forall j :: 0 <= j < |list| ==> list[j] < |cash|) && cash[list[i]] == 0
    ensures Pruned(list[..i] + list[i + 1..], cash) == Pruned(list, cash)
  {
    if i == 0 {
      assert list[..0] + list[1..] == list[1..];
    } else {
      var rest := list[1..];
      PrunedErase(rest, i - 1, cash);
      assert (list[..i] + list[i + 1..])[1..] == rest[..i - 1] + rest[i..];
    }
  }

  lemma Erased(list: seq<nat>, i: nat, n: nat)
    requires SeatList(n, list) && i < |list|
    ensures var r := list[..i] + list[i + 1..];
            SeatList(n, r) && forall s :: s in r <==> s in list && s != list[i]
  {
    var r := list[..i] + list[i + 1..];
    forall s | s in list && s != list[i]
      ensures s in r
    {
      var j :| 0 <= j < |list| && list[j] == s;
      assert r[if j < i then j else j - 1] == s;
    }
  }

  /** A new game in which every player has a seat starts from a proper layout, so that the dealer's
      rotation is the nearest active seat, if and only if the players' ids differ and, unless the table
      is full, no later player's id is 0. */
  lemma NewGameLayout(playerIds: seq<nat>, ids: seq<nat>)
    requires 1 <= |playerIds| <= MAX_NUMBER_OF_PLAYERS == |ids|
    requires forall i :: 0 <= i < |ids| ==> ids[i] == IdOfSeat(playerIds, i)
    ensures Layout(ids, |playerIds|) <==>
            && (forall i, j :: 0 <= i < j < |playerIds| ==> playerIds[i] != playerIds[j])
            && (|playerIds| < MAX_NUMBER_OF_PLAYERS ==> forall i :: 1 <= i < |playerIds| ==> playerIds[i] != 0)
  {
    assert forall i :: 0 <= i < |playerIds| ==> ids[i] == playerIds[i];
    if forall i, j :: 0 <= i < j < |playerIds| ==> playerIds[i] != playerIds[j] {
    } else {
      var i, j :| 0 <= i < j < |playerIds| && playerIds[i] == playerIds[j];
      assert ids[i] == ids[j];
    }
  }
}
