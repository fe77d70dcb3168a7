/** The client's list of the players in its game, and how a game start puts it in seat order. */
module PlayerList {
  import opened Seats

  datatype PlayerData = PlayerData(id: nat, number: int, startCash: int)

  /** The first entry with this id; the length of the list if there is none. */
  function Find(ps: seq<PlayerData>, id: nat): (p: nat)
    ensures p <= |ps| && (forall i :: 0 <= i < p ==> ps[i].id != id) && (p < |ps| ==> ps[p].id == id)
  {
    if ps == [] then 0
    else if ps[0].id == id then 0
    else 1 + Find(ps[1..], id)
  }

  /** The first entry with this id leaves. */
  function Without(ps: seq<PlayerData>, id: nat): seq<PlayerData> {
    var p := Find(ps, id);
    if p == |ps| then ps else ps[..p] + ps[p + 1..]
  }

  /** The list after the first k players of a start message have got their numbers, and how many there
      were before the one, if any, that is not listed. */
  function Numbered(ps: seq<PlayerData>, seats: seq<nat>, k: nat): (seq<PlayerData>, nat)
    requires k <= |seats|
  {
    if k == 0 then (ps, 0)
    else
      var (before, done) := Numbered(ps, seats, k - 1);
      var p := Find(before, seats[k - 1]);
      if done < k - 1 || p == |before| then (before, done)
      else (before[p := before[p].(number := k - 1)], k)
  }

  /** A player of a game that is joined again, and whether the client knows a name to list it under. */
  datatype Rejoining = Rejoining(id: nat, money: int, named: bool)

  /** The first k players of a rejoin message get their numbers and their cash, and the ids of those
      that had to be made up for this. */
  function Rejoined(ps: seq<PlayerData>, seats: seq<Rejoining>, k: nat): (seq<PlayerData>, seq<nat>)
    requires k <= |seats|
  {
    if k == 0 then (ps, [])
    else
      var (before, made) := Rejoined(ps, seats, k - 1);
      var s := seats[k - 1];
      var p := Find(before, s.id);
      if p < |before| then (before[p := before[p].(number := k - 1, startCash := s.money)], made)
      else (if s.named then before + [PlayerData(s.id, k - 1, s.money)] else before, made + [s.id])
  }

  function WithoutAll(ps: seq<PlayerData>, ids: seq<nat>): seq<PlayerData> {
    if ids == [] then ps else WithoutAll(Without(ps, ids[0]), ids[1..])
  }

  /** Numbers turned so that the client's own is 0. */
  function Mapped(ps: seq<PlayerData>, g: int, n: int): (r: seq<PlayerData>)
    requires n > 0
    ensures |r| == |ps| && forall i :: 0 <= i < |ps| ==> r[i] == ps[i].(number := MapNumber(ps[i].number, g, n))
  {
    if ps == [] then [] else [ps[0].(number := MapNumber(ps[0].number, g, n))] + Mapped(ps[1..], g, n)
  }

  /** The stable sort of the list by number. */
  function Insert(x: PlayerData, ps: seq<PlayerData>): (r: seq<PlayerData>)
    ensures |r| == |ps| + 1 && forall y :: y in r <==> y == x || y in ps
  {
    if ps == [] || x.number <= ps[0].number then [x] + ps else [ps[0]] + Insert(x, ps[1..])
  }

  function Sorted(ps: seq<PlayerData>): (r: seq<PlayerData>)
    ensures |r| == |ps| && forall y :: y in r <==> y in ps
  {
    if ps == [] then [] else Insert(ps[0], Sorted(ps[1..]))
  }

  ghost predicate Increasing(ps: seq<PlayerData>) {
    forall i, j :: 0 <= i < j < |ps| ==> ps[i].number < ps[j].number
  }

  ghost predicate DistinctNumbers(ps: seq<PlayerData>) {
    forall i, j :: 0 <= i < j < |ps| ==> ps[i].number != ps[j].number
  }

  lemma {:induction false} InsertIncreasing(x: PlayerData, ps: seq<PlayerData>)
    requires Increasing(ps) && forall i :: 0 <= i < |ps| ==> ps[i].number != x.number
    ensures Increasing(Insert(x, ps))
  {
    if ps != [] && x.number > ps[0].number {
      InsertIncreasing(x, ps[1..]);
      var rest := Insert(x, ps[1..]);
      forall i | 0 <= i < |rest|
        ensures ps[0].number < rest[i].number
      {
        assert rest[i] in rest;
      }
    }
  }

  lemma {:induction false} SortedIncreasing(ps: seq<PlayerData>)
    requires DistinctNumbers(ps)
    ensures Increasing(Sorted(ps))
  {
    if ps != [] {
      SortedIncreasing(ps[1..]);
      var rest := Sorted(ps[1..]);
      forall i | 0 <= i < |rest|
        ensures rest[i].number != ps[0].number
      {
        assert rest[i] in rest;
        var k :| 0 <= k < |ps[1..]| && ps[1..][k] == rest[i];
        assert ps[k + 1] == rest[i];
      }
      InsertIncreasing(ps[0], rest);
    }
  }

  /** As many increasing numbers as there are below n are exactly those. */
  lemma IncreasingFillsRange(ps: seq<PlayerData>)
    requires Increasing(ps) && forall i :: 0 <= i < |ps| ==> 0 <= ps[i].number < |ps|
    ensures forall i :: 0 <= i < |ps| ==> ps[i].number == i
  {
    forall i | 0 <= i < |ps|
      ensures ps[i].number == i
    {
      AtLeast(ps, i);
      AtMost(ps, i);
    }
  }

  lemma {:induction false} AtLeast(ps: seq<PlayerData>, i: nat)
    requires Increasing(ps) && i < |ps| && ps[0].number >= 0
    ensures ps[i].number >= i
  {
    if i > 0 {
      AtLeast(ps, i - 1);
    }
  }

  lemma {:induction false} AtMost(ps: seq<PlayerData>, i: nat)
    requires Increasing(ps) && i < |ps| && ps[|ps| - 1].number < |ps|
    ensures ps[i].number <= i
    decreases |ps| - i
  {
    if i < |ps| - 1 {
      AtMost(ps, i + 1);
    }
  }

  /** The start message names every listed player once, and nobody else. */
  ghost predicate NamesEveryone(ps: seq<PlayerData>, seats: seq<nat>) {
    && (forall i, j :: 0 <= i < j < |ps| ==> ps[i].id != ps[j].id)
    && (forall i, j :: 0 <= i < j < |seats| ==> seats[i] != seats[j])
    && |ps| == |seats|
    && (forall i :: 0 <= i < |ps| ==> ps[i].id in seats)
    && forall j :: 0 <= j < |seats| ==> Find(ps, seats[j]) < |ps|
  }

  lemma {:induction false} NumberedMeaning(ps: seq<PlayerData>, seats: seq<nat>, k: nat)
    requires NamesEveryone(ps, seats) && k <= |seats|
    ensures var (q, done) := Numbered(ps, seats, k);
            && done == k && |q| == |ps|
            && (forall i :: 0 <= i < |ps| ==> q[i].id == ps[i].id)
            && forall i, j :: 0 <= i < |ps| && 0 <= j < k && ps[i].id == seats[j] ==> q[i].number == j
  {
    hide Find;
    if k > 0 {
      NumberedMeaning(ps, seats, k - 1);
      var before := Numbered(ps, seats, k - 1).0;
      var p := Find(before, seats[k - 1]);
      var q := Find(ps, seats[k - 1]);
      assert before[q].id == seats[k - 1];
      assert p <= q;
    }
  }

  /** After a start message that names everyone, the sorted list has in local seat j the player whom the
      server put j seats clockwise of the client, and the client itself in seat 0. */
  lemma SeatedInOrder(ps: seq<PlayerData>, seats: seq<nat>, g: nat)
    requires NamesEveryone(ps, seats) && g < |seats|
    ensures Numbered(ps, seats, |seats|).1 == |seats|
    ensures var l := Sorted(Mapped(Numbered(ps, seats, |seats|).0, g, |seats|));
            && |l| == |seats|
            && (forall j :: 0 <= j < |seats| ==> 0 <= ServerSeat(j, g, |seats|) < |seats| && l[j].id == seats[ServerSeat(j, g, |seats|)])
            && l[0].id == seats[g]
  {
    hide Numbered, Mapped, Sorted, Find, MapNumber;
    var n := |seats|;
    NumberedMeaning(ps, seats, n);
    var q := Numbered(ps, seats, n).0;
    var m := Mapped(q, g, n);
    TurnedNumbers(ps, q, m, seats, g);
    SortedIncreasing(m);
    SortedAround(m, seats, g);
  }

  lemma SortedAround(m: seq<PlayerData>, seats: seq<nat>, g: nat)
    requires g < |seats| == |m| && Increasing(Sorted(m))
    requires forall i :: 0 <= i < |m| ==>
               0 <= m[i].number < |seats| && 0 <= ServerSeat(m[i].number, g, |seats|) < |seats| && m[i].id == seats[ServerSeat(m[i].number, g, |seats|)]
    ensures forall j :: 0 <= j < |seats| ==> 0 <= ServerSeat(j, g, |seats|) < |seats| && Sorted(m)[j].id == seats[ServerSeat(j, g, |seats|)]
    ensures Sorted(m)[0].id == seats[g]
  {
    hide Sorted, Increasing;
    var l, n := Sorted(m), |seats|;
    forall i | 0 <= i < n
      ensures 0 <= l[i].number < n && l[i].id == seats[ServerSeat(l[i].number, g, n)]
    {
      assert l[i] in m;
    }
    IncreasingFillsRange(l);
    assert ServerSeat(0, g, n) == g;
  }

  lemma TurnedNumbers(ps: seq<PlayerData>, q: seq<PlayerData>, m: seq<PlayerData>, seats: seq<nat>, g: nat)
    requires NamesEveryone(ps, seats) && g < |seats| && |q| == |ps| == |m|
    requires forall i :: 0 <= i < |ps| ==> q[i].id == ps[i].id
    requires forall i, j :: 0 <= i < |ps| && 0 <= j < |seats| && ps[i].id == seats[j] ==> q[i].number == j
    requires forall i :: 0 <= i < |m| ==> m[i] == q[i].(number := MapNumber(q[i].number, g, |seats|))
    ensures forall i :: 0 <= i < |m| ==>
              0 <= m[i].number < |seats| && 0 <= ServerSeat(m[i].number, g, |seats|) < |seats| && m[i].id == seats[ServerSeat(m[i].number, g, |seats|)]
    ensures DistinctNumbers(m)
  {
    hide Find, MapNumber;
    var n := |seats|;
    forall i | 0 <= i < n
      ensures 0 <= m[i].number < n && 0 <= ServerSeat(m[i].number, g, n) < n && m[i].id == seats[ServerSeat(m[i].number, g, n)]
    {
      var j :| 0 <= j < n && seats[j] == ps[i].id;
      assert q[i].number == j;
      LocalSeatForm(j, g, n);
    }
    forall i, j | 0 <= i < j < n
      ensures m[i].number != m[j].number
    {
      assert q[i].id != q[j].id;
    }
  }
}
