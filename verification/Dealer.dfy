/** Who deals: the rotation of the dealer around the seats while players drop out. */
module Dealer {

  /** The first seat whose player has this id; the number of seats if there is none. */
  function SeatOf(ids: seq<nat>, id: nat): (p: nat)
    ensures p <= |ids| && (forall i :: 0 <= i < p ==> ids[i] != id) && (p < |ids| ==> ids[p] == id)
  {
    if ids == [] then 0
    else if ids[0] == id then 0
    else 1 + SeatOf(ids[1..], id)
  }

  /** The players still in the game are a list of seats, in seat order. */
  ghost predicate SeatList(n: nat, seats: seq<nat>) {
    && (forall i :: 0 <= i < |seats| ==> seats[i] < n)
    && forall i, j :: 0 <= i < j < |seats| ==> seats[i] < seats[j]
  }

  /** Some player on the list has this id. */
  predicate OnList(ids: seq<nat>, seats: seq<nat>, id: nat) {
    exists i :: 0 <= i < |seats| && seats[i] < |ids| && ids[seats[i]] == id
  }

  /** d seats clockwise of p, for d from 1 to n. */
  function Clockwise(p: nat, d: nat, n: nat): nat
    requires p < n && d <= n
  {
    if p + d < n then p + d else p + d - n
  }

  datatype Outcome = SeatNotFound | NextDealerNotFound | Dealer(id: nat)

  function Search(ids: seq<nat>, seats: seq<nat>, p: nat, d: nat): Outcome
    requires p < |ids| && 1 <= d <= |ids| + 1
    decreases |ids| - d
  {
    if d == |ids| + 1 then NextDealerNotFound
    else
      var id := ids[Clockwise(p, d, |ids|)];
      if OnList(ids, seats, id) then Dealer(id) else Search(ids, seats, p, d + 1)
  }

  function NextDealer(ids: seq<nat>, seats: seq<nat>, dealer: nat): Outcome {
    var p := SeatOf(ids, dealer);
    if p == |ids| then SeatNotFound else Search(ids, seats, p, 1)
  }

  /** The active seat that comes first after p, going round once. */
  function NextSeat(seats: seq<nat>, p: nat): nat
    requires seats != []
  {
    var r := Rank(seats, p);
    if r < |seats| then seats[r] else seats[0]
  }

  /** How many active seats come up to and including p. */
  function Rank(seats: seq<nat>, p: nat): (r: nat)
    ensures r <= |seats| && (forall i :: 0 <= i < r ==> seats[i] <= p) && (r < |seats| ==> p < seats[r])
  {
    if seats == [] || p < seats[0] then 0 else 1 + Rank(seats[1..], p)
  }

  /** The seats as a new game lays them out: the players' ids are pairwise different, the other seats
      have id 0, and 0 may be the id of the first player only. */
  ghost predicate Layout(ids: seq<nat>, k: nat) {
    && Filled(ids, k)
    && (k < |ids| ==> forall i :: 1 <= i < k ==> ids[i] != 0)
  }

  ghost predicate Filled(ids: seq<nat>, k: nat) {
    && 1 <= k <= |ids|
    && (forall i, j :: 0 <= i < j < k ==> ids[i] != ids[j])
    && forall i :: k <= i < |ids| ==> ids[i] == 0
  }

  lemma {:induction false} SearchMeaning(ids: seq<nat>, seats: seq<nat>, p: nat, d: nat, stop: nat)
    requires p < |ids| && 1 <= d <= stop <= |ids|
    requires OnList(ids, seats, ids[Clockwise(p, stop, |ids|)])
    requires forall e :: d <= e < stop ==> !OnList(ids, seats, ids[Clockwise(p, e, |ids|)])
    ensures Search(ids, seats, p, d) == Dealer(ids[Clockwise(p, stop, |ids|)])
    decreases stop - d
  {
    if d < stop {
      assert !OnList(ids, seats, ids[Clockwise(p, d, |ids|)]);
      SearchMeaning(ids, seats, p, d + 1, stop);
    }
  }

  lemma {:induction false} SearchFails(ids: seq<nat>, seats: seq<nat>, p: nat, d: nat)
    requires p < |ids| && 1 <= d <= |ids| + 1
    requires forall e :: d <= e <= |ids| ==> !OnList(ids, seats, ids[Clockwise(p, e, |ids|)])
    ensures Search(ids, seats, p, d) == NextDealerNotFound
    decreases |ids| - d
  {
    if d <= |ids| {
      assert !OnList(ids, seats, ids[Clockwise(p, d, |ids|)]);
      SearchFails(ids, seats, p, d + 1);
    }
  }

  lemma {:induction false} SearchSucceeds(ids: seq<nat>, seats: seq<nat>, p: nat, d: nat, e: nat)
    requires p < |ids| && 1 <= d <= e <= |ids| && OnList(ids, seats, ids[Clockwise(p, e, |ids|)])
    ensures Search(ids, seats, p, d).Dealer? && OnList(ids, seats, Search(ids, seats, p, d).id)
    decreases e - d
  {
    if d < e {
      SearchSucceeds(ids, seats, p, d + 1, e);
    }
  }

  function Distance(p: nat, s: nat, n: nat): (d: nat)
    requires p < n && s < n
    ensures 1 <= d <= n && Clockwise(p, d, n) == s
  {
    if p < s then s - p else n + s - p
  }

  /** A hand finds its seat if and only if someone has the dealer's id, and then finds a dealer if and
      only if a player is left, whatever the ids are. The new dealer is on the list. */
  lemma DealerFoundIffPlayersLeft(ids: seq<nat>, seats: seq<nat>, dealer: nat)
    requires SeatList(|ids|, seats)
    ensures var o := NextDealer(ids, seats, dealer);
            && (o.SeatNotFound? <==> dealer !in ids)
            && (o.Dealer? <==> dealer in ids && seats != [])
            && (o.Dealer? ==> OnList(ids, seats, o.id))
  {
    var p := SeatOf(ids, dealer);
    if p < |ids| {
      if seats == [] {
        SearchFails(ids, seats, p, 1);
      } else {
        SearchSucceeds(ids, seats, p, 1, Distance(p, seats[0], |ids|));
      }
    }
  }

  /** A seat whose id is on the list is active, or is an unused one that looks like the first player. */
  lemma ListedSeats(ids: seq<nat>, k: nat, seats: seq<nat>, s: nat)
    requires Layout(ids, k) && SeatList(k, seats) && s < |ids| && OnList(ids, seats, ids[s])
    ensures s in seats || (k <= s && ids[s] == ids[0] && 0 in seats)
  {
    var i :| 0 <= i < |seats| && seats[i] < |ids| && ids[seats[i]] == ids[s];
    var a := seats[i];
    if s < k {
      assert a == s;
    }
  }

  /** The dealer moves to the nearest active seat clockwise of the old one, who need not be active. */
  lemma NearestActiveSeatDeals(ids: seq<nat>, k: nat, seats: seq<nat>, p: nat)
    requires Layout(ids, k) && SeatList(k, seats) && seats != [] && p < k
    ensures NextDealer(ids, seats, ids[p]) == Dealer(ids[NextSeat(seats, p)])
    ensures NextSeat(seats, p) in seats
    ensures forall e :: 1 <= e < Distance(p, NextSeat(seats, p), |ids|) ==> Clockwise(p, e, |ids|) !in seats
  {
    var n, s := |ids|, NextSeat(seats, p);
    assert SeatOf(ids, ids[p]) == p;
    var d := Distance(p, s, n);
    NothingBetween(seats, k, n, p);
    assert OnList(ids, seats, ids[s]) by {
      var i :| 0 <= i < |seats| && seats[i] == s;
      assert ids[seats[i]] == ids[s];
    }
    if e :| 1 <= e < d && OnList(ids, seats, ids[Clockwise(p, e, n)]) {
      var first := FirstListed(ids, seats, p, 1, e);
      ListedSeats(ids, k, seats, Clockwise(p, first, n));
      assert ids[Clockwise(p, first, n)] == ids[0] && 0 in seats && k <= Clockwise(p, first, n);
      assert s == 0 by {
        var i :| 0 <= i < |seats| && seats[i] == 0;
        assert i == 0;
      }
      SearchMeaning(ids, seats, p, 1, first);
    } else {
      assert forall e :: 1 <= e < d ==> !OnList(ids, seats, ids[Clockwise(p, e, n)]);
      SearchMeaning(ids, seats, p, 1, d);
    }
  }

  function FirstListed(ids: seq<nat>, seats: seq<nat>, p: nat, d: nat, e: nat): (f: nat)
    requires p < |ids| && 1 <= d <= e <= |ids| && OnList(ids, seats, ids[Clockwise(p, e, |ids|)])
    ensures d <= f <= e && OnList(ids, seats, ids[Clockwise(p, f, |ids|)])
    ensures forall x :: d <= x < f ==> !OnList(ids, seats, ids[Clockwise(p, x, |ids|)])
    decreases e - d
  {
    if OnList(ids, seats, ids[Clockwise(p, d, |ids|)]) then d else FirstListed(ids, seats, p, d + 1, e)
  }

  lemma NothingBetween(seats: seq<nat>, k: nat, n: nat, p: nat)
    requires SeatList(k, seats) && k <= n && seats != [] && p < k
    ensures NextSeat(seats, p) in seats
    ensures forall e :: 1 <= e < Distance(p, NextSeat(seats, p), n) ==> Clockwise(p, e, n) !in seats
  {
    var s := NextSeat(seats, p);
    forall e, i | 1 <= e < Distance(p, s, n) && 0 <= i < |seats|
      ensures seats[i] != Clockwise(p, e, n)
    {
      assert i < Rank(seats, p) || seats[Rank(seats, p)] <= seats[i];
    }
  }

  /** The restriction on id 0 is what the rotation needs, no more: with distinct players and unused
      seats of id 0, the nearest active seat deals in every situation if and only if no player but
      the first has id 0. */
  lemma RotationNeedsLayout(ids: seq<nat>, k: nat)
    requires Filled(ids, k)
    ensures Layout(ids, k) <==>
            forall seats: seq<nat>, p: nat :: SeatList(k, seats) && seats != [] && p < k ==>
              NextDealer(ids, seats, ids[p]) == Dealer(ids[NextSeat(seats, p)])
  {
    if Layout(ids, k) {
      forall seats: seq<nat>, p: nat | SeatList(k, seats) && seats != [] && p < k
        ensures NextDealer(ids, seats, ids[p]) == Dealer(ids[NextSeat(seats, p)])
      {
        NearestActiveSeatDeals(ids, k, seats, p);
      }
    } else {
      var j :| 1 <= j < k && ids[j] == 0;
      var seats, p := [0, j], k - 1;
      assert SeatList(k, seats);
      assert SeatOf(ids, ids[p]) == p;
      assert ids[seats[1]] == 0;
      assert OnList(ids, seats, ids[Clockwise(p, 1, |ids|)]);
      assert NextDealer(ids, seats, ids[p]) == Dealer(0);
      assert NextSeat(seats, p) == 0 && ids[0] != ids[j];
    }
  }

  /** The smallest table at which it fails: three seats, two players, the second with id 0 and last to deal.
      The first is the nearest active seat, but the search stops at the unused seat, and the second deals
      again. With two seats, two players leave no seat unused. */
  lemma ZeroIdDealsTwice()
    ensures var ids, seats: seq<nat> := [7, 0, 0], [0, 1];
            && Filled(ids, 2) && !Layout(ids, 2) && SeatList(2, seats) && NextSeat(seats, 1) == 0
            && ids[1] == 0 && NextDealer(ids, seats, 0) == Dealer(0) && ids[0] == 7
    ensures forall ids: seq<nat>, k: nat :: |ids| <= 2 && 2 <= k && Filled(ids, k) ==> Layout(ids, k)
  {
    var ids: seq<nat>, seats: seq<nat> := [7, 0, 0], [0, 1];
    assert !(ids[1] != 0);
    assert SeatOf(ids, 0) == 1 && Clockwise(1, 1, 3) == 2;
    assert OnList(ids, seats, ids[2]) by {
      assert ids[seats[1]] == ids[2];
    }
    assert Rank(seats, 1) == 2 by {
      assert seats[1..] == [1] && [1][1..] == [];
    }
  }

  // ---------------------------------------------------------------------------------------------
  // Runs of hands.

  /** The list without the players whose cash is gone. */
  function Pruned(seats: seq<nat>, cash: seq<int>): (r: seq<nat>)
    requires forall i :: 0 <= i < |seats| ==> seats[i] < |cash|
    ensures forall s :: s in r <==> s in seats && s < |cash| && cash[s] != 0
  {
    if seats == [] then []
    else (if cash[seats[0]] == 0 then [] else [seats[0]]) + Pruned(seats[1..], cash)
  }

  lemma {:induction false} PrunedKeepsOrder(n: nat, seats: seq<nat>, cash: seq<int>)
    requires SeatList(n, seats) && n <= |cash|
    ensures SeatList(n, Pruned(seats, cash))
  {
    if seats != [] {
      PrunedKeepsOrder(n, seats[1..], cash);
      var r := Pruned(seats[1..], cash);
      forall i | 0 <= i < |r|
        ensures seats[0] < r[i]
      {
        assert r[i] in r;
        assert r[i] in seats[1..];
      }
    }
  }

  lemma {:induction false} NobodyBroke(seats: seq<nat>, cash: seq<int>)
    requires forall i :: 0 <= i < |seats| ==> seats[i] < |cash| && cash[seats[i]] != 0
    ensures Pruned(seats, cash) == seats
  {
    if seats != [] {
      NobodyBroke(seats[1..], cash);
    }
  }

  /** Cash of every seat at the start of every hand. */
  ghost predicate Cashes(n: nat, hands: seq<seq<int>>) {
    forall h :: 0 <= h < |hands| ==> |hands[h]| == n
  }

  /** The dealers of consecutive hands, as long as one is found. */
  ghost function Dealers(ids: seq<nat>, seats: seq<nat>, dealer: nat, hands: seq<seq<int>>): seq<nat>
    requires SeatList(|ids|, seats) && Cashes(|ids|, hands)
    decreases hands
  {
    if hands == [] then []
    else
      PrunedKeepsOrder(|ids|, seats, hands[0]);
      var left := Pruned(seats, hands[0]);
      var o := NextDealer(ids, left, dealer);
      if o.Dealer? then [o.id] + Dealers(ids, left, o.id, hands[1..]) else []
  }

  /** Nobody on this list ever runs out of cash. */
  ghost predicate AllStay(n: nat, seats: seq<nat>, hands: seq<seq<int>>) {
    Cashes(n, hands) && forall h, s :: 0 <= h < |hands| && s in seats && s < n ==> hands[h][s] != 0
  }

  function Turn(r: nat, j: nat, m: nat): nat
    requires r <= m && j < m
  {
    if r + j < m then r + j else r + j - m
  }

  lemma FirstDealer(ids: seq<nat>, k: nat, seats: seq<nat>, p: nat, cash: seq<int>)
    requires Layout(ids, k) && SeatList(k, seats) && SeatList(|ids|, seats) && seats != [] && p < k
    requires |cash| == |ids| && forall s :: s in seats && s < |ids| ==> cash[s] != 0
    ensures k <= |ids| && Pruned(seats, cash) == seats
    ensures var t := Turn(Rank(seats, p), 0, |seats|);
            NextDealer(ids, seats, ids[p]) == Dealer(ids[seats[t]]) && Rank(seats, seats[t]) == t + 1
  {
    assert k <= |ids|;
    hide NextDealer, Layout, Pruned, Rank, Clockwise, Distance;
    assert Pruned(seats, cash) == seats by {
      assert forall i :: 0 <= i < |seats| ==> seats[i] in seats;
      NobodyBroke(seats, cash);
    }
    NearestActiveSeatDeals(ids, k, seats, p);
    RankOfMember(seats, k, Turn(Rank(seats, p), 0, |seats|));
  }

  lemma FirstHand(ids: seq<nat>, k: nat, seats: seq<nat>, p: nat, hands: seq<seq<int>>)
    requires Layout(ids, k) && SeatList(k, seats) && SeatList(|ids|, seats) && seats != [] && p < k
    requires AllStay(|ids|, seats, hands) && hands != []
    ensures AllStay(|ids|, seats, hands[1..])
    ensures var t := Turn(Rank(seats, p), 0, |seats|);
            && Rank(seats, seats[t]) == t + 1
            && Dealers(ids, seats, ids[p], hands) == [ids[seats[t]]] + Dealers(ids, seats, ids[seats[t]], hands[1..])
  {
    FirstDealer(ids, k, seats, p, hands[0]);
    hide NextDealer, Layout, Pruned, Rank, Clockwise, Distance;
  }

  /** While the same players stay, the dealer visits them in seat order, beginning after the seat of
      the last dealer, over and over. */
  lemma {:induction false} DealersInSeatOrder(ids: seq<nat>, k: nat, seats: seq<nat>, p: nat, hands: seq<seq<int>>)
    requires Layout(ids, k) && SeatList(k, seats) && SeatList(|ids|, seats) && seats != [] && p < k
    requires AllStay(|ids|, seats, hands) && |hands| <= |seats|
    ensures var ds := Dealers(ids, seats, ids[p], hands);
            && |ds| == |hands|
            && forall j :: 0 <= j < |ds| ==> ds[j] == ids[seats[Turn(Rank(seats, p), j, |seats|)]]
    decreases hands
  {
    if hands != [] {
      FirstHand(ids, k, seats, p, hands);
      var r, m := Rank(seats, p), |seats|;
      var t := Turn(r, 0, m);
      DealersInSeatOrder(ids, k, seats, seats[t], hands[1..]);
      hide Dealers, Rank, AllStay, Layout;
      var ds := Dealers(ids, seats, ids[p], hands);
      var rest := Dealers(ids, seats, ids[seats[t]], hands[1..]);
      forall j | 0 <= j < |ds|
        ensures ds[j] == ids[seats[Turn(r, j, m)]]
      {
        assert j > 0 ==> ds[j] == rest[j - 1] && Turn(t + 1, j - 1, m) == Turn(r, j, m);
      }
    }
  }

  lemma {:induction false} RankOfMember(seats: seq<nat>, n: nat, t: nat)
    requires SeatList(n, seats) && t < |seats|
    ensures Rank(seats, seats[t]) == t + 1
  {
    var r := Rank(seats, seats[t]);
    assert t < r;
    assert t + 1 < |seats| ==> seats[t] < seats[t + 1];
  }

  /** Fairness: whatever happened before, if from some hand on the same players stay for as many hands
      as there are of them, each of them is the dealer in exactly one of those hands. */
  lemma Fairness(ids: seq<nat>, k: nat, before: seq<nat>, p: nat, hands: seq<seq<int>>)
    requires Layout(ids, k) && SeatList(k, before) && p < k && Cashes(|ids|, hands) && hands != []
    requires var seats := Pruned(before, hands[0]);
             seats != [] && |hands| == |seats| && AllStay(|ids|, seats, hands)
    ensures SeatList(|ids|, before)
    ensures var ds := Dealers(ids, before, ids[p], hands);
            && |ds| == |hands|
            && (forall s <- Pruned(before, hands[0]) :: exists h :: 0 <= h < |ds| && ds[h] == ids[s])
            && forall g, h :: 0 <= g < h < |ds| ==> ds[g] != ds[h]
  {
    var seats := Pruned(before, hands[0]);
    SameDealers(ids, k, before, ids[p], hands);
    hide NextDealer, Rank, Dealers, Layout, Pruned, AllStay;
    DealersInSeatOrder(ids, k, seats, p, hands);
    TurnsVisitAll(ids, k, seats, Rank(seats, p), Dealers(ids, seats, ids[p], hands));
  }

  /** Who drops out before the first hand makes no difference any more. */
  lemma SameDealers(ids: seq<nat>, k: nat, before: seq<nat>, dealer: nat, hands: seq<seq<int>>)
    requires k <= |ids| && SeatList(k, before) && Cashes(|ids|, hands) && hands != []
    requires AllStay(|ids|, Pruned(before, hands[0]), hands)
    ensures var seats := Pruned(before, hands[0]);
            && SeatList(|ids|, before) && SeatList(k, seats) && SeatList(|ids|, seats)
            && Dealers(ids, before, dealer, hands) == Dealers(ids, seats, dealer, hands)
  {
    hide NextDealer, Rank;
    var seats := Pruned(before, hands[0]);
    PrunedKeepsOrder(k, before, hands[0]);
    assert forall i :: 0 <= i < |seats| ==> seats[i] in seats;
    NobodyBroke(seats, hands[0]);
  }

  /** Going round once from any place visits everyone once. */
  lemma TurnsVisitAll(ids: seq<nat>, k: nat, seats: seq<nat>, r: nat, ds: seq<nat>)
    requires Layout(ids, k) && SeatList(k, seats) && r <= |seats| == |ds|
    requires forall j :: 0 <= j < |ds| ==> ds[j] == ids[seats[Turn(r, j, |seats|)]]
    ensures forall s <- seats :: exists h :: 0 <= h < |ds| && ds[h] == ids[s]
    ensures forall g, h :: 0 <= g < h < |ds| ==> ds[g] != ds[h]
  {
    var m := |seats|;
    forall s | s in seats
      ensures exists h :: 0 <= h < |ds| && ds[h] == ids[s]
    {
      var i :| 0 <= i < m && seats[i] == s;
      var h := if i >= r then i - r else if r == m then i else i + m - r;
      assert Turn(r, h, m) == i;
      assert ds[h] == ids[s];
    }
    forall g, h | 0 <= g < h < |ds|
      ensures ds[g] != ds[h]
    {
      var x, y := seats[Turn(r, g, m)], seats[Turn(r, h, m)];
      assert x != y;
    }
  }
}
