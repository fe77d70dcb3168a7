/** The numbers that the players of a list get from a start message, whatever the list and the message: a
    list may hold a player twice, and a message may name one twice. */
module SeatNumbers {
  import opened PlayerList
  import opened SortOrder

  /** The last of the first k seats with this id, -1 if there is none. */
  function LastSeat(seats: seq<nat>, k: nat, id: nat): (j: int)
    requires k <= |seats|
    ensures -1 <= j < k && (j >= 0 ==> seats[j] == id) && forall i :: j < i < k ==> seats[i] != id
  {
    if k == 0 then -1 else if seats[k - 1] == id then k - 1 else LastSeat(seats, k - 1, id)
  }

  /** The number an entry has after the first k seats: only the first entry with an id gets one. */
  function NumberAfter(ps: seq<PlayerData>, seats: seq<nat>, k: nat, a: nat): int
    requires k <= |seats| && a < |ps|
  {
    var j := LastSeat(seats, k, ps[a].id);
    if Find(ps, ps[a].id) == a && j >= 0 then j else ps[a].number
  }

  lemma SameFind(ps: seq<PlayerData>, q: seq<PlayerData>, id: nat)
    requires |q| == |ps| && forall a :: 0 <= a < |ps| ==> q[a].id == ps[a].id
    ensures Find(q, id) == Find(ps, id)
  {
    var p, r := Find(ps, id), Find(q, id);
    hide Find;
    assert p < |ps| ==> q[p].id == id;
    assert r < |ps| ==> ps[r].id == id;
  }

  /** A start message goes through if and only if everyone it names is listed, and then it leaves the list
      as it was but for the numbers. */
  lemma {:induction false} NumberedClosedForm(ps: seq<PlayerData>, seats: seq<nat>, k: nat)
    requires k <= |seats|
    ensures var (q, done) := Numbered(ps, seats, k);
            && done <= k && (done == k <==> forall j :: 0 <= j < k ==> Find(ps, seats[j]) < |ps|)
            && |q| == |ps| && (forall a :: 0 <= a < |ps| ==> q[a].id == ps[a].id)
            && (done == k ==> forall a :: 0 <= a < |ps| ==> q[a] == ps[a].(number := NumberAfter(ps, seats, k, a)))
  {
    hide Find, LastSeat;
    if k == 0 {
      NoSeatYet(seats);
    } else {
      NumberedClosedForm(ps, seats, k - 1);
      SameFind(ps, Numbered(ps, seats, k - 1).0, seats[k - 1]);
      forall a | 0 <= a < |ps|
        ensures NumberAfter(ps, seats, k, a) == if a == Find(ps, seats[k - 1]) then k - 1 else NumberAfter(ps, seats, k - 1, a)
      {
        OneMoreSeat(ps, seats, k, a);
      }
      hide NumberAfter;
    }
  }

  lemma NoSeatYet(seats: seq<nat>)
    ensures forall id :: LastSeat(seats, 0, id) == -1
  {
  }

  lemma OneMoreSeat(ps: seq<PlayerData>, seats: seq<nat>, k: nat, a: nat)
    requires 0 < k <= |seats| && a < |ps|
    ensures NumberAfter(ps, seats, k, a) == if a == Find(ps, seats[k - 1]) then k - 1 else NumberAfter(ps, seats, k - 1, a)
  {
    hide Find;
  }

  // ---------------------------------------------------------------------------------------------
  // A game that is joined again.

  function Ids(rejoining: seq<Rejoining>): (r: seq<nat>)
    ensures |r| == |rejoining| && forall i :: 0 <= i < |r| ==> r[i] == rejoining[i].id
  {
    seq(|rejoining|, i requires 0 <= i < |rejoining| => rejoining[i].id)
  }

  /** One of the first k players of the message has this id and can be made up. */
  ghost predicate CanBeMadeUp(rejoining: seq<Rejoining>, k: nat, id: nat)
    requires k <= |rejoining|
  {
    exists j :: 0 <= j < k && rejoining[j].id == id && rejoining[j].named
  }

  /** Who was listed keeps its place and gets its number; behind come the players that were made up, each
      once and with the last of its numbers. */
  ghost predicate RejoinedSoFar(ps: seq<PlayerData>, rejoining: seq<Rejoining>, k: nat, q: seq<PlayerData>)
    requires k <= |rejoining|
  {
    var ids := Ids(rejoining);
    && |q| >= |ps|
    && (forall a :: 0 <= a < |ps| ==> q[a].id == ps[a].id && q[a].number == NumberAfter(ps, ids, k, a))
    && (forall a :: |ps| <= a < |q| ==> Find(q, q[a].id) == a && LastSeat(ids, k, q[a].id) >= 0 && q[a].number == LastSeat(ids, k, q[a].id))
    && forall id :: Find(q, id) < |q| <==> Find(ps, id) < |ps| || CanBeMadeUp(rejoining, k, id)
  }

  lemma FindFirst(ps: seq<PlayerData>, q: seq<PlayerData>, id: nat)
    requires |q| >= |ps| && forall a :: 0 <= a < |ps| ==> q[a].id == ps[a].id
    ensures Find(ps, id) < |ps| ==> Find(q, id) == Find(ps, id)
    ensures Find(ps, id) == |ps| ==> Find(q, id) >= |ps|
  {
    var p, r := Find(ps, id), Find(q, id);
    hide Find;
    assert p < |ps| ==> q[p].id == id;
    assert r < |ps| ==> ps[r].id == id;
  }

  lemma MadeUpNext(rejoining: seq<Rejoining>, k: nat, id: nat)
    requires 0 < k <= |rejoining|
    ensures CanBeMadeUp(rejoining, k, id) <==> CanBeMadeUp(rejoining, k - 1, id) || (rejoining[k - 1].id == id && rejoining[k - 1].named)
  {
    if CanBeMadeUp(rejoining, k, id) {
      var j :| 0 <= j < k && rejoining[j].id == id && rejoining[j].named;
      assert j < k - 1 ==> CanBeMadeUp(rejoining, k - 1, id);
    }
    if CanBeMadeUp(rejoining, k - 1, id) {
      var j :| 0 <= j < k - 1 && rejoining[j].id == id && rejoining[j].named;
    }
  }

  lemma FindAppended(q: seq<PlayerData>, x: PlayerData, id: nat)
    ensures Find(q, id) < |q| ==> Find(q + [x], id) == Find(q, id)
    ensures Find(q, id) == |q| ==> Find(q + [x], id) == if x.id == id then |q| else |q| + 1
  {
    var p, r := Find(q, id), Find(q + [x], id);
    hide Find;
    assert forall i :: 0 <= i < |q| ==> (q + [x])[i] == q[i];
    assert (q + [x])[|q|] == x;
    assert p < |q| ==> (q + [x])[p].id == id;
  }

  lemma {:induction false} RejoinedClosedForm(ps: seq<PlayerData>, rejoining: seq<Rejoining>, k: nat)
    requires k <= |rejoining|
    ensures RejoinedSoFar(ps, rejoining, k, Rejoined(ps, rejoining, k).0)
  {
    hide Find, LastSeat;
    if k == 0 {
      NoSeatYet(Ids(rejoining));
    } else {
      RejoinedClosedForm(ps, rejoining, k - 1);
      RejoinedNext(ps, rejoining, k, Rejoined(ps, rejoining, k - 1).0);
      hide RejoinedSoFar;
    }
  }

  /** The list after one more player of the message. */
  function WithNext(q: seq<PlayerData>, s: Rejoining, number: nat): seq<PlayerData> {
    var p := Find(q, s.id);
    if p < |q| then q[p := q[p].(number := number, startCash := s.money)]
    else if s.named then q + [PlayerData(s.id, number, s.money)] else q
  }

  lemma RejoinedNext(ps: seq<PlayerData>, rejoining: seq<Rejoining>, k: nat, q: seq<PlayerData>)
    requires 0 < k <= |rejoining| && RejoinedSoFar(ps, rejoining, k - 1, q)
    ensures RejoinedSoFar(ps, rejoining, k, WithNext(q, rejoining[k - 1], k - 1))
  {
    hide Find, LastSeat, NumberAfter, CanBeMadeUp;
    var ids, s := Ids(rejoining), rejoining[k - 1];
    var r := WithNext(q, s, k - 1);
    forall id
      ensures Find(r, id) < |r| <==> Find(ps, id) < |ps| || CanBeMadeUp(rejoining, k, id)
      ensures Find(q, id) < |q| ==> Find(r, id) == Find(q, id)
    {
      MadeUpNext(rejoining, k, id);
      FindAppended(q, PlayerData(s.id, k - 1, s.money), id);
      if Find(q, s.id) < |q| {
        SameFind(q, r, id);
      }
    }
    forall a | 0 <= a < |ps|
      ensures r[a].id == ps[a].id && r[a].number == NumberAfter(ps, ids, k, a)
    {
      OneMoreSeat(ps, ids, k, a);
      FindFirst(ps, q, s.id);
    }
    forall a | |ps| <= a < |r|
      ensures Find(r, r[a].id) == a && LastSeat(ids, k, r[a].id) >= 0 && r[a].number == LastSeat(ids, k, r[a].id)
    {
      LastSeatNext(ids, k, r[a].id);
      FindAppended(q, PlayerData(s.id, k - 1, s.money), s.id);
    }
  }

  lemma LastSeatNext(seats: seq<nat>, k: nat, id: nat)
    requires 0 < k <= |seats|
    ensures LastSeat(seats, k, id) == if seats[k - 1] == id then k - 1 else LastSeat(seats, k - 1, id)
  {
  }

  // ---------------------------------------------------------------------------------------------
  // Lists and messages without repetition.

  ghost predicate DistinctSeats(seats: seq<nat>) {
    forall i, j :: 0 <= i < j < |seats| ==> seats[i] != seats[j]
  }

  /** Everyone named is listed once and has the number of its seat. */
  ghost predicate Carries(q: seq<PlayerData>, seats: seq<nat>) {
    && DistinctIds(q) && DistinctSeats(seats) && seats != []
    && forall j :: 0 <= j < |seats| ==> Find(q, seats[j]) < |q| && q[Find(q, seats[j])].number == j
  }

  lemma NumberOfNamed(ps: seq<PlayerData>, seats: seq<nat>, j: nat)
    requires DistinctSeats(seats) && j < |seats| && Find(ps, seats[j]) < |ps|
    ensures NumberAfter(ps, seats, |seats|, Find(ps, seats[j])) == j
  {
    hide Find;
    var l := LastSeat(seats, |seats|, seats[j]);
    assert l >= j;
  }

  lemma NumberedCarries(ps: seq<PlayerData>, seats: seq<nat>)
    requires DistinctIds(ps) && DistinctSeats(seats) && seats != [] && forall j :: 0 <= j < |seats| ==> Find(ps, seats[j]) < |ps|
    ensures Carries(Numbered(ps, seats, |seats|).0, seats)
  {
    hide Find, Numbered, LastSeat, NumberAfter, DistinctSeats;
    var q := Numbered(ps, seats, |seats|).0;
    NumberedClosedForm(ps, seats, |seats|);
    forall j | 0 <= j < |seats|
      ensures Find(q, seats[j]) < |q| && q[Find(q, seats[j])].number == j
    {
      SameFind(ps, q, seats[j]);
      NumberOfNamed(ps, seats, j);
    }
  }

  lemma RejoinedDistinct(ps: seq<PlayerData>, rejoining: seq<Rejoining>, q: seq<PlayerData>)
    requires DistinctIds(ps) && RejoinedSoFar(ps, rejoining, |rejoining|, q)
    ensures DistinctIds(q)
  {
    hide Find, LastSeat, NumberAfter, CanBeMadeUp;
    forall i, j | 0 <= i < j < |q|
      ensures q[i].id != q[j].id
    {
      if j >= |ps| {
        assert Find(q, q[j].id) == j;
      } else {
        assert ps[i].id != ps[j].id;
      }
    }
  }

  /** Everyone the message names is listed or can be made up. */
  ghost predicate AllKnown(ps: seq<PlayerData>, rejoining: seq<Rejoining>) {
    forall j :: 0 <= j < |rejoining| ==> Find(ps, rejoining[j].id) < |ps| || rejoining[j].named
  }

  lemma RejoinedAt(ps: seq<PlayerData>, rejoining: seq<Rejoining>, q: seq<PlayerData>, j: nat)
    requires DistinctSeats(Ids(rejoining)) && RejoinedSoFar(ps, rejoining, |rejoining|, q) && j < |rejoining| && AllKnown(ps, rejoining)
    ensures Find(q, Ids(rejoining)[j]) < |q| && q[Find(q, Ids(rejoining)[j])].number == j
  {
    hide Find, LastSeat, NumberAfter, DistinctSeats;
    var id := rejoining[j].id;
    assert Find(q, id) < |q| by {
      assert Find(ps, id) < |ps| || CanBeMadeUp(rejoining, |rejoining|, id);
    }
    hide CanBeMadeUp;
    FindFirst(ps, q, id);
    if Find(ps, id) < |ps| {
      NumberOfNamed(ps, Ids(rejoining), j);
    } else {
      LastOfDistinct(Ids(rejoining), j);
    }
  }

  lemma RejoinedCarries(ps: seq<PlayerData>, rejoining: seq<Rejoining>)
    requires DistinctIds(ps) && DistinctSeats(Ids(rejoining)) && rejoining != [] && AllKnown(ps, rejoining)
    ensures Carries(Rejoined(ps, rejoining, |rejoining|).0, Ids(rejoining))
  {
    hide Find, Rejoined, DistinctSeats, DistinctIds, RejoinedSoFar, Ids, AllKnown;
    var q, ids := Rejoined(ps, rejoining, |rejoining|).0, Ids(rejoining);
    RejoinedClosedForm(ps, rejoining, |rejoining|);
    RejoinedDistinct(ps, rejoining, q);
    forall j | 0 <= j < |ids|
      ensures Find(q, ids[j]) < |q| && q[Find(q, ids[j])].number == j
    {
      RejoinedAt(ps, rejoining, q, j);
    }
  }

  lemma LastOfDistinct(seats: seq<nat>, j: nat)
    requires DistinctSeats(seats) && j < |seats|
    ensures LastSeat(seats, |seats|, seats[j]) == j
  {
    var l := LastSeat(seats, |seats|, seats[j]);
    assert l >= j;
  }
}
