/** The stable sort of the player list: where every entry goes. */
module SortOrder {
  import opened Counting
  import opened PlayerList

  /** Entry a comes before entry b: it has a smaller number, or the same one and is listed earlier. */
  predicate Precedes(ps: seq<PlayerData>, a: nat, b: nat)
  {
    a < |ps| && b < |ps| && (ps[a].number < ps[b].number || (ps[a].number == ps[b].number && a < b))
  }

  ghost function EntryRank(ps: seq<PlayerData>, p: nat): (r: nat)
    ensures r <= |ps|
  {
    Count(|ps|, (a: nat) => Precedes(ps, a, p))
  }

  ghost function Smaller(ps: seq<PlayerData>, v: int): nat {
    Count(|ps|, (a: nat) => a < |ps| && ps[a].number < v)
  }

  lemma SmallerCons(x: PlayerData, ps: seq<PlayerData>, v: int)
    ensures Smaller([x] + ps, v) == Smaller(ps, v) + if x.number < v then 1 else 0
  {
    var all := [x] + ps;
    CountShift(|all|, (a: nat) => a < |all| && all[a].number < v, (a: nat) => a < |ps| && ps[a].number < v);
  }

  lemma {:induction false} SmallerInsert(x: PlayerData, ps: seq<PlayerData>, v: int)
    ensures Smaller(Insert(x, ps), v) == Smaller(ps, v) + if x.number < v then 1 else 0
  {
    hide Smaller;
    if ps == [] || x.number <= ps[0].number {
      SmallerCons(x, ps, v);
    } else {
      SmallerInsert(x, ps[1..], v);
      SmallerCons(ps[0], Insert(x, ps[1..]), v);
      assert ps == [ps[0]] + ps[1..];
      SmallerCons(ps[0], ps[1..], v);
    }
  }

  lemma {:induction false} SmallerSorted(ps: seq<PlayerData>, v: int)
    ensures Smaller(Sorted(ps), v) == Smaller(ps, v)
  {
    hide Smaller;
    if ps != [] {
      SmallerSorted(ps[1..], v);
      SmallerInsert(ps[0], Sorted(ps[1..]), v);
      assert ps == [ps[0]] + ps[1..];
      SmallerCons(ps[0], ps[1..], v);
    }
  }

  ghost predicate NotDecreasing(ps: seq<PlayerData>) {
    forall i, j :: 0 <= i < j < |ps| ==> ps[i].number <= ps[j].number
  }

  lemma {:induction false} InsertKeepsOrder(x: PlayerData, ps: seq<PlayerData>)
    requires NotDecreasing(ps)
    ensures NotDecreasing(Insert(x, ps))
  {
    if ps != [] && x.number > ps[0].number {
      InsertKeepsOrder(x, ps[1..]);
      var rest := Insert(x, ps[1..]);
      forall i | 0 <= i < |rest|
        ensures ps[0].number <= rest[i].number
      {
        assert rest[i] in rest;
      }
    }
  }

  lemma {:induction false} SortedInOrder(ps: seq<PlayerData>)
    ensures NotDecreasing(Sorted(ps))
  {
    if ps != [] {
      SortedInOrder(ps[1..]);
      InsertKeepsOrder(ps[0], Sorted(ps[1..]));
    }
  }

  /** The new entry goes behind the smaller ones. */
  lemma {:induction false} InsertedAt(x: PlayerData, ps: seq<PlayerData>)
    requires NotDecreasing(ps)
    ensures Smaller(ps, x.number) < |Insert(x, ps)| && Insert(x, ps)[Smaller(ps, x.number)] == x
  {
    if ps == [] || x.number <= ps[0].number {
      CountNone(|ps|, (a: nat) => a < |ps| && ps[a].number < x.number);
    } else {
      InsertedAt(x, ps[1..]);
      assert ps == [ps[0]] + ps[1..];
      SmallerCons(ps[0], ps[1..], x.number);
      hide Smaller;
    }
  }

  /** The others keep their places, or move up by one. */
  lemma {:induction false} InsertMoves(x: PlayerData, ps: seq<PlayerData>, r: nat)
    requires NotDecreasing(ps) && r < |ps|
    ensures Insert(x, ps)[if ps[r].number < x.number then r else r + 1] == ps[r]
  {
    if x.number > ps[0].number && r > 0 {
      InsertMoves(x, ps[1..], r - 1);
    }
  }

  lemma RankHead(ps: seq<PlayerData>)
    requires ps != []
    ensures EntryRank(ps, 0) == Smaller(ps[1..], ps[0].number)
  {
    var rest := ps[1..];
    CountShift(|ps|, (a: nat) => Precedes(ps, a, 0), (a: nat) => a < |rest| && rest[a].number < ps[0].number);
  }

  lemma RankTail(ps: seq<PlayerData>, p: nat)
    requires 0 < p < |ps|
    ensures EntryRank(ps, p) == EntryRank(ps[1..], p - 1) + if ps[0].number <= ps[p].number then 1 else 0
  {
    var rest := ps[1..];
    CountShift(|ps|, (a: nat) => Precedes(ps, a, p), (a: nat) => Precedes(rest, a, p - 1));
  }

  /** In the sorted list every entry is at its rank. */
  lemma {:induction false} SortedByRank(ps: seq<PlayerData>, p: nat)
    requires p < |ps|
    ensures EntryRank(ps, p) < |ps| && Sorted(ps)[EntryRank(ps, p)] == ps[p]
  {
    var rest := ps[1..];
    SortedInOrder(rest);
    if p == 0 {
      RankHead(ps);
      SmallerSorted(rest, ps[0].number);
      InsertedAt(ps[0], Sorted(rest));
    } else {
      SortedByRank(rest, p - 1);
      RankTail(ps, p);
      InsertMoves(ps[0], Sorted(rest), EntryRank(rest, p - 1));
    }
  }

  ghost predicate DistinctIds(ps: seq<PlayerData>) {
    forall i, j :: 0 <= i < j < |ps| ==> ps[i].id != ps[j].id
  }

  lemma {:induction false} InsertedIds(x: PlayerData, ps: seq<PlayerData>)
    requires DistinctIds(ps) && forall i :: 0 <= i < |ps| ==> ps[i].id != x.id
    ensures DistinctIds(Insert(x, ps))
  {
    if ps != [] && x.number > ps[0].number {
      InsertedIds(x, ps[1..]);
      var rest := Insert(x, ps[1..]);
      forall i | 0 <= i < |rest|
        ensures rest[i].id != ps[0].id
      {
        assert rest[i] in rest;
      }
    }
  }

  lemma {:induction false} SortedIds(ps: seq<PlayerData>)
    requires DistinctIds(ps)
    ensures DistinctIds(Sorted(ps))
  {
    if ps != [] {
      SortedIds(ps[1..]);
      var rest := Sorted(ps[1..]);
      forall i | 0 <= i < |rest|
        ensures rest[i].id != ps[0].id
      {
        assert rest[i] in rest;
        var k :| 0 <= k < |ps[1..]| && ps[1..][k] == rest[i];
        assert ps[k + 1] == rest[i];
      }
      InsertedIds(ps[0], rest);
    }
  }

  /** In an ordered list, those with a number below v are in front. */
  lemma {:induction false} SmallerPrefix(ps: seq<PlayerData>, i: nat, v: int)
    requires NotDecreasing(ps) && i < |ps|
    ensures i < Smaller(ps, v) <==> ps[i].number < v
  {
    assert ps == [ps[0]] + ps[1..];
    SmallerCons(ps[0], ps[1..], v);
    if i > 0 {
      SmallerPrefix(ps[1..], i - 1, v);
      hide Smaller;
    } else if v <= ps[0].number {
      NoneSmaller(ps[1..], ps[0].number, v);
    }
  }

  lemma NoneSmaller(ps: seq<PlayerData>, u: int, v: int)
    requires v <= u && forall i :: 0 <= i < |ps| ==> u <= ps[i].number
    ensures Smaller(ps, v) == 0
  {
    CountNone(|ps|, (a: nat) => a < |ps| && ps[a].number < v);
  }

  /** Every place of the sorted list is the rank of an entry. */
  lemma {:induction false} EveryPlace(ps: seq<PlayerData>, r: nat) returns (a: nat)
    requires r < |ps|
    ensures a < |ps| && EntryRank(ps, a) == r
  {
    hide EntryRank, Smaller, Sorted;
    var rest, v := ps[1..], ps[0].number;
    var k := Smaller(rest, v);
    RankHead(ps);
    if r == k {
      a := 0;
    } else {
      SmallerAtMost(rest, v);
      var b := EveryPlace(rest, if r < k then r else r - 1);
      SortedByRank(rest, b);
      SortedInOrder(rest);
      SmallerSorted(rest, v);
      SmallerPrefix(Sorted(rest), EntryRank(rest, b), v);
      RankTail(ps, b + 1);
      a := b + 1;
    }
  }

  lemma SmallerAtMost(ps: seq<PlayerData>, v: int)
    ensures Smaller(ps, v) <= |ps|
  {
  }

  /** An entry with this id and this rank. */
  ghost predicate EntryAt(ps: seq<PlayerData>, a: nat, id: nat, r: nat) {
    a < |ps| && ps[a].id == id && EntryRank(ps, a) == r
  }

  /** Whose id is at a place of the sorted list, for every list. */
  lemma PlaceHolds(ps: seq<PlayerData>, r: nat, id: nat)
    requires r < |ps|
    ensures Sorted(ps)[r].id == id <==> exists a: nat :: EntryAt(ps, a, id, r)
  {
    hide Sorted, EntryRank;
    var a := EveryPlace(ps, r);
    SortedByRank(ps, a);
    if Sorted(ps)[r].id == id {
      assert EntryAt(ps, a, id, r);
    }
    if b: nat :| EntryAt(ps, b, id, r) {
      SortedByRank(ps, b);
    }
  }

  /** With different ids, a player is at a place of the sorted list if and only if that is its rank. */
  lemma AtItsRank(ps: seq<PlayerData>, p: nat, r: nat)
    requires DistinctIds(ps) && p < |ps| && r < |ps|
    ensures Sorted(ps)[r].id == ps[p].id <==> r == EntryRank(ps, p)
  {
    SortedIds(ps);
    SortedByRank(ps, p);
    hide Sorted, EntryRank;
  }
}
