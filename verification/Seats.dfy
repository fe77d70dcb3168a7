/** The client turns the table so that its own player sits in seat 0. */
module Seats {

  /** The % of the source language: the sign follows the left operand. */
  function CMod(a: int, b: int): int
    requires b > 0
  {
    if a >= 0 then a % b else -((-a) % b)
  }

  /** The number a player gets when a game starts, from its number in the start message. */
  function MapNumber(number: int, guiNumber: int, numPlayers: int): int
    requires numPlayers > 0
  {
    CMod(number + (numPlayers - guiNumber), numPlayers)
  }

  /** The local seat that the i-th seat state of a hand start is applied to. */
  function LocalSeat(i: int, guiNumber: int, totalPlayers: int): int
    requires totalPlayers > 0
  {
    CMod(CMod(i + (totalPlayers - guiNumber), totalPlayers) + totalPlayers, totalPlayers)
  }

  /** The seat at the server that local seat j stands for. */
  function ServerSeat(j: int, guiNumber: int, n: int): int {
    if j + guiNumber < n then j + guiNumber else j + guiNumber - n
  }

  lemma ModOnce(x: int, n: int)
    requires n > 0 && 0 <= x < 2 * n
    ensures x % n == if x < n then x else x - n
  {
    if x >= n {
      var q, r := x / n, x % n;
      assert x == n * q + r && 0 <= r < n;
      assert q == 1 by {
        assert q >= 2 ==> n * q >= n * 2;
        assert q <= 0 ==> n * q <= 0;
      }
    }
  }

  lemma LocalSeatForm(i: int, g: int, n: int)
    requires n > 0 && 0 <= g < n && 0 <= i < n
    ensures LocalSeat(i, g, n) == MapNumber(i, g, n) == if i >= g then i - g else i - g + n
  {
    ModOnce(i + (n - g), n);
    var r := CMod(i + (n - g), n);
    ModOnce(r + n, n);
  }

  /** The seat used is one of the table's for any list of seat states and any original seat. */
  lemma LocalSeatInRange(i: int, g: int, n: int)
    requires n > 0
    ensures 0 <= LocalSeat(i, g, n) < n
  {
    var r := CMod(i + (n - g), n);
    assert -n < r < n;
  }

  /** Renumbering is a permutation of the seats that sends the client's own player to 0 and keeps the
      order around the table. */
  lemma RenumberingIsPermutation(g: int, n: int)
    requires n > 0 && 0 <= g < n
    ensures LocalSeat(g, g, n) == 0
    ensures forall i :: 0 <= i < n ==> 0 <= LocalSeat(i, g, n) < n && ServerSeat(LocalSeat(i, g, n), g, n) == i
    ensures forall j :: 0 <= j < n ==> 0 <= ServerSeat(j, g, n) < n && LocalSeat(ServerSeat(j, g, n), g, n) == j
    ensures forall i :: 0 <= i < n ==>
              var next := if i + 1 < n then i + 1 else 0;
              LocalSeat(next, g, n) == if LocalSeat(i, g, n) + 1 < n then LocalSeat(i, g, n) + 1 else 0
  {
    forall i | 0 <= i < n
      ensures LocalSeat(i, g, n) == MapNumber(i, g, n) == if i >= g then i - g else i - g + n
    {
      LocalSeatForm(i, g, n);
    }
  }

  // ---------------------------------------------------------------------------------------------
  // The seat states of a hand start.

  datatype SeatState = Normal | SessionInactive | NoMoney
  datatype Cell = Cell(sessionActive: bool, cash: int)

  function Update(c: Cell, s: SeatState): Cell {
    match s
    case Normal => c.(sessionActive := true)
    case SessionInactive => c.(sessionActive := false)
    case NoMoney => c.(cash := 0)
  }

  /** The table after the first k states have been applied, and how many there were before the one,
      if any, that has no seat. */
  function ApplyStates(cells: seq<Cell>, states: seq<SeatState>, g: int, n: int, k: nat): (seq<Cell>, nat)
    requires n > 0 && k <= |states|
  {
    if k == 0 then (cells, 0)
    else
      var (before, done) := ApplyStates(cells, states, g, n, k - 1);
      LocalSeatInRange(k - 1, g, n);
      var seat := LocalSeat(k - 1, g, n);
      if done < k - 1 || seat >= |before| then (before, done)
      else (before[seat := Update(before[seat], states[k - 1])], k)
  }

  /** One seat state; false if there is no such seat. */
  method HandleSeatState(cells: array<Cell>, i: nat, seatState: SeatState, origGuiPlayerNum: int, numberOfPlayers: int) returns (ok: bool)
    requires numberOfPlayers > 0
    modifies cells
    ensures 0 <= LocalSeat(i, origGuiPlayerNum, numberOfPlayers)
    ensures ok <==> LocalSeat(i, origGuiPlayerNum, numberOfPlayers) < cells.Length
    ensures var seat, was := LocalSeat(i, origGuiPlayerNum, numberOfPlayers), old(cells[..]);
            cells[..] == if ok then was[seat := Update(was[seat], seatState)] else was
  {
    var numberDiff := numberOfPlayers - origGuiPlayerNum;
    var totalPlayers := numberOfPlayers;
    var playerNum := CMod(CMod(i + numberDiff, totalPlayers) + totalPlayers, totalPlayers);
    LocalSeatInRange(i, origGuiPlayerNum, numberOfPlayers);
    assert playerNum == LocalSeat(i, origGuiPlayerNum, numberOfPlayers);
    hide LocalSeat, CMod;
    if playerNum >= cells.Length {
      return false;
    }
    match seatState {
      case Normal => cells[playerNum] := cells[playerNum].(sessionActive := true);
      case SessionInactive => cells[playerNum] := cells[playerNum].(sessionActive := false);
      case NoMoney => cells[playerNum] := cells[playerNum].(cash := 0);
    }
    ok := true;
  }

  /** The loop over the seat states; false stands for the exception when a seat does not exist. */
  method HandleSeatStates(cells: array<Cell>, states: seq<SeatState>, origGuiPlayerNum: int, numberOfPlayers: int) returns (ok: bool)
    requires numberOfPlayers > 0
    modifies cells
    ensures var (after, done) := ApplyStates(old(cells[..]), states, origGuiPlayerNum, numberOfPlayers, |states|);
            cells[..] == after && (ok <==> done == |states|)
  {
    hide LocalSeat, Update;
    var i := 0;
    while i < |states|
      invariant 0 <= i <= |states|
      invariant ApplyStates(old(cells[..]), states, origGuiPlayerNum, numberOfPlayers, i) == (cells[..], i)
    {
      ok := HandleSeatState(cells, i, states[i], origGuiPlayerNum, numberOfPlayers);
      if !ok {
        StuckAt(old(cells[..]), states, origGuiPlayerNum, numberOfPlayers, i + 1, |states|);
        return false;
      }
      i := i + 1;
    }
    ok := true;
  }

  lemma {:induction false} StuckAt(cells: seq<Cell>, states: seq<SeatState>, g: int, n: int, k: nat, end: nat)
    requires n > 0 && k <= end <= |states| && ApplyStates(cells, states, g, n, k).1 < k
    ensures ApplyStates(cells, states, g, n, end) == ApplyStates(cells, states, g, n, k)
    decreases end
  {
    if end > k {
      StuckAt(cells, states, g, n, k, end - 1);
    }
  }

  lemma {:induction false} AppliedSoFar(cells: seq<Cell>, states: seq<SeatState>, g: int, n: int, k: nat)
    requires 0 < n <= |cells| && 0 <= g < n && k <= |states| <= n
    ensures var (after, done) := ApplyStates(cells, states, g, n, k);
            && done == k && |after| == |cells|
            && (forall j :: 0 <= j < n ==>
                  after[j] == if ServerSeat(j, g, n) < k then Update(cells[j], states[ServerSeat(j, g, n)]) else cells[j])
            && forall j :: n <= j < |cells| ==> after[j] == cells[j]
  {
    RenumberingIsPermutation(g, n);
    if k > 0 {
      AppliedSoFar(cells, states, g, n, k - 1);
      hide LocalSeat;
      var seat := LocalSeat(k - 1, g, n);
      assert ServerSeat(seat, g, n) == k - 1;
    }
  }

  /** A full list of seat states updates each seat of the table once, with the state of its own server
      seat, and no other seat. */
  lemma FullListUpdatesEachSeatOnce(cells: seq<Cell>, states: seq<SeatState>, g: int, n: int)
    requires 0 < n <= |cells| && 0 <= g < n && |states| == n
    ensures var (after, done) := ApplyStates(cells, states, g, n, n);
            && done == n && |after| == |cells|
            && (forall i :: 0 <= i < n ==>
                  var seat := LocalSeat(i, g, n);
                  && 0 <= seat < n
                  && after[seat].sessionActive == (states[i].Normal? || (states[i].NoMoney? && cells[seat].sessionActive))
                  && after[seat].cash == if states[i].NoMoney? then 0 else cells[seat].cash)
            && forall j :: n <= j < |cells| ==> after[j] == cells[j]
  {
    AppliedSoFar(cells, states, g, n, n);
    RenumberingIsPermutation(g, n);
  }
}
