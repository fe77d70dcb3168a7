/** Where a player of the start message ends up in the sorted list, and with it whose seat state reaches
    whom, when the list holds more players than the message names. */
module SeatOrder {
  import opened Counting
  import opened Seats
  import opened PlayerList
  import opened SortOrder
  import opened SeatNumbers

  lemma TurnedMeaning(q: seq<PlayerData>, seats: seq<nat>, g: int)
    requires Carries(q, seats)
    ensures var mu := Mapped(q, g, |seats|);
            && |mu| == |q| && DistinctIds(mu) && (forall a :: 0 <= a < |q| ==> mu[a].id == q[a].id && mu[a].number == MapNumber(q[a].number, g, |seats|))
            && forall j :: 0 <= j < |seats| ==>
                 Find(q, seats[j]) < |q| && Find(mu, seats[j]) == Find(q, seats[j]) && mu[Find(q, seats[j])].number == MapNumber(j, g, |seats|)
  {
    hide Find, MapNumber;
    var mu := Mapped(q, g, |seats|);
    forall j | 0 <= j < |seats|
      ensures Find(mu, seats[j]) == Find(q, seats[j])
    {
      SameFind(q, mu, seats[j]);
    }
  }

  /** The i-th seat state of a hand reaches the player of the i-th seat of the message if and only if as many
      entries precede that player as the local seat says. */
  lemma ReachesByRank(q: seq<PlayerData>, seats: seq<nat>, g: int, i: nat)
    requires Carries(q, seats) && i < |seats|
    ensures var mu := Mapped(q, g, |seats|);
            && |mu| == |q| > 0 && Find(mu, seats[i]) < |mu|
            && 0 <= LocalSeat(i, g, |q|) < |q|
            && (Sorted(mu)[LocalSeat(i, g, |q|)].id == seats[i] <==> LocalSeat(i, g, |q|) == EntryRank(mu, Find(mu, seats[i])))
  {
    hide Find, MapNumber, LocalSeat, Sorted, EntryRank, Mapped;
    TurnedMeaning(q, seats, g);
    assert |q| > 0 by { assert Find(q, seats[i]) < |q|; }
    LocalSeatInRange(i, g, |q|);
    AtItsRank(Mapped(q, g, |seats|), Find(q, seats[i]), LocalSeat(i, g, |q|));
  }

  /** A player whom the message does not name, between those of its last and of its first seat in the order
      of the turned numbers and of the list. */
  predicate Between(ps: seq<PlayerData>, seats: seq<nat>, g: int, a: nat)
    requires seats != [] && a < |ps|
  {
    var n, x := |seats|, MapNumber(ps[a].number, g, |seats|);
    (x == n - 1 - g && Find(ps, seats[n - 1]) < a) || (g > 0 && x == n - g && a < Find(ps, seats[0]))
  }

  ghost predicate OthersBetween(ps: seq<PlayerData>, seats: seq<nat>, g: int)
    requires seats != []
  {
    forall a: nat :: a < |ps| && ps[a].id !in seats ==> Between(ps, seats, g, a)
  }

  /** The numbers of the message, and players that are made up for it behind the list, change nothing about
      who comes between. */
  lemma BetweenBeforeNumbering(ps: seq<PlayerData>, q: seq<PlayerData>, seats: seq<nat>, g: int)
    requires seats != [] && |q| >= |ps| && forall a :: 0 <= a < |ps| ==> q[a].id == ps[a].id
    requires forall a :: 0 <= a < |ps| && ps[a].id !in seats ==> q[a].number == ps[a].number
    requires forall a :: |ps| <= a < |q| ==> q[a].id in seats
    ensures OthersBetween(q, seats, g) <==> OthersBetween(ps, seats, g)
  {
    hide Find, MapNumber;
    FindFirst(ps, q, seats[0]);
    FindFirst(ps, q, seats[|seats| - 1]);
    forall a: nat | a < |ps| && ps[a].id !in seats
      ensures Between(q, seats, g, a) <==> Between(ps, seats, g, a)
    {
    }
    hide Between;
    assert forall a: nat :: a < |q| && q[a].id !in seats ==> a < |ps| && ps[a].id !in seats;
  }

  ghost predicate Other(mu: seq<PlayerData>, seats: seq<nat>, a: nat) {
    a < |mu| && mu[a].id !in seats
  }

  ghost function OthersBefore(mu: seq<PlayerData>, seats: seq<nat>, p: nat): nat {
    Count(|mu|, (a: nat) => Other(mu, seats, a) && Precedes(mu, a, p))
  }

  ghost function Others(mu: seq<PlayerData>, seats: seq<nat>): nat {
    Count(|mu|, (a: nat) => Other(mu, seats, a))
  }

  /** The entry of the i-th named player, and its number in a turned list. */
  function Of(mu: seq<PlayerData>, seats: seq<nat>, i: int): nat {
    if 0 <= i < |seats| then Find(mu, seats[i]) else 0
  }

  function TurnedNumber(i: int, g: int, n: int): int {
    if i >= g then i - g else i - g + n
  }

  /** A turned list: the i-th named player is listed with its turned number, and so is nobody else who is
      named. */
  ghost predicate Seated(mu: seq<PlayerData>, seats: seq<nat>, g: nat) {
    && g < |seats|
    && (forall i :: 0 <= i < |seats| ==>
          Of(mu, seats, i) < |mu| && !Other(mu, seats, Of(mu, seats, i)) && mu[Of(mu, seats, i)].number == TurnedNumber(i, g, |seats|))
    && forall a: nat :: a < |mu| && !Other(mu, seats, a) ==>
         0 <= mu[a].number < |seats| && Of(mu, seats, ServerSeat(mu[a].number, g, |seats|)) == a
  }

  lemma SeatedEntry(mu: seq<PlayerData>, seats: seq<nat>, g: nat, i: int)
    requires Seated(mu, seats, g) && 0 <= i < |seats|
    ensures var p := Of(mu, seats, i);
            p < |mu| && !Other(mu, seats, p) && mu[p].number == TurnedNumber(i, g, |seats|)
  {
  }

  function NumberOf(mu: seq<PlayerData>, a: nat): nat {
    if a < |mu| && mu[a].number >= 0 then mu[a].number else 0
  }

  /** Among the named, those with a number below j are j. */
  lemma NamedBelow(mu: seq<PlayerData>, seats: seq<nat>, g: nat, j: nat)
    requires Seated(mu, seats, g) && j <= |seats|
    ensures Count(|mu|, (a: nat) => !Other(mu, seats, a) && NumberOf(mu, a) < j) == j
  {
    hide Of;
    var n := |seats|;
    var f := (a: nat) => !Other(mu, seats, a) && NumberOf(mu, a) < j;
    var p, inv := (i: nat) => Of(mu, seats, ServerSeat(i, g, n)), (a: nat) => NumberOf(mu, a);
    forall i: nat | i < j
      ensures p(i) < |mu| && f(p(i)) && inv(p(i)) == i
    {
      SeatedEntry(mu, seats, g, ServerSeat(i, g, n));
    }
    hide Seated, Other;
    assert forall a: nat :: a < |mu| && f(a) ==> inv(a) < j && p(inv(a)) == a by {
      BackFromNumber(mu, seats, g);
    }
    CountImage(|mu|, f, j, p, inv);
  }

  lemma BackFromNumber(mu: seq<PlayerData>, seats: seq<nat>, g: nat)
    requires Seated(mu, seats, g)
    ensures forall a: nat :: a < |mu| && !Other(mu, seats, a) ==>
              NumberOf(mu, a) == mu[a].number < |seats| && Of(mu, seats, ServerSeat(NumberOf(mu, a), g, |seats|)) == a
  {
    hide Of, Other;
  }

  /** As many others as the list is longer than the message. */
  lemma OthersInAll(mu: seq<PlayerData>, seats: seq<nat>, g: nat)
    requires Seated(mu, seats, g)
    ensures |mu| >= |seats| && Others(mu, seats) == |mu| - |seats|
  {
    NamedBelow(mu, seats, g, |seats|);
    BackFromNumber(mu, seats, g);
    hide Other, NumberOf, Seated, Of;
    var all := (a: nat) => true;
    CountSplit(|mu|, all, (a: nat) => !Other(mu, seats, a) && NumberOf(mu, a) < |seats|, (a: nat) => Other(mu, seats, a));
    CountAll(|mu|, all);
  }

  /** The rank of a named player: those of smaller numbers, and the others before it. */
  lemma RankOfNamed(mu: seq<PlayerData>, seats: seq<nat>, g: nat, i: int)
    requires Seated(mu, seats, g) && 0 <= i < |seats|
    ensures EntryRank(mu, Of(mu, seats, i)) == TurnedNumber(i, g, |seats|) + OthersBefore(mu, seats, Of(mu, seats, i))
  {
    var p, j := Of(mu, seats, i), TurnedNumber(i, g, |seats|);
    NamedBelow(mu, seats, g, j);
    SeatedEntry(mu, seats, g, i);
    forall a: nat | a < |mu| && !Other(mu, seats, a)
      ensures Precedes(mu, a, p) <==> NumberOf(mu, a) < j
    {
      PrecedesNamed(mu, seats, g, i, a);
    }
    hide Other, NumberOf, Seated, Of, Precedes;
    CountSplit(|mu|, (a: nat) => Precedes(mu, a, p), (a: nat) => !Other(mu, seats, a) && NumberOf(mu, a) < j,
               (a: nat) => Other(mu, seats, a) && Precedes(mu, a, p));
  }

  lemma PrecedesNamed(mu: seq<PlayerData>, seats: seq<nat>, g: nat, i: int, a: nat)
    requires Seated(mu, seats, g) && 0 <= i < |seats| && a < |mu| && !Other(mu, seats, a)
    ensures Precedes(mu, a, Of(mu, seats, i)) <==> NumberOf(mu, a) < TurnedNumber(i, g, |seats|)
  {
    hide Of;
    SeatedEntry(mu, seats, g, i);
    BackFromNumber(mu, seats, g);
    hide Seated, Other;
    assert ServerSeat(TurnedNumber(i, g, |seats|), g, |seats|) == i;
  }

  /** A named player is where its seat state goes if and only if the right number of others precedes it:
      none for the client's seat and those after it, all for the ones before. */
  lemma OthersDecide(mu: seq<PlayerData>, seats: seq<nat>, g: nat, i: int)
    requires Seated(mu, seats, g) && 0 <= i < |seats|
    ensures |mu| >= |seats| && Others(mu, seats) == |mu| - |seats|
    ensures LocalSeat(i, g, |mu|) == EntryRank(mu, Of(mu, seats, i)) <==>
            OthersBefore(mu, seats, Of(mu, seats, i)) == if i >= g then 0 else Others(mu, seats)
  {
    OthersInAll(mu, seats, g);
    LocalSeatForm(i, g, |mu|);
    RankOfNamed(mu, seats, g, i);
    hide Seated, EntryRank, OthersBefore, Others, Of, LocalSeat;
  }

  lemma NoOtherBefore(mu: seq<PlayerData>, seats: seq<nat>, p: nat)
    ensures OthersBefore(mu, seats, p) == 0 <==> forall a: nat :: Other(mu, seats, a) ==> !Precedes(mu, a, p)
  {
    hide Precedes, Other;
    var f := (a: nat) => Other(mu, seats, a) && Precedes(mu, a, p);
    CountNone(|mu|, f);
    OtherIsListed(mu, seats);
    if OthersBefore(mu, seats, p) == 0 {
      forall a: nat | Other(mu, seats, a)
        ensures !Precedes(mu, a, p)
      {
        assert !f(a);
      }
    } else {
      var a: nat :| a < |mu| && f(a);
      assert Other(mu, seats, a) && Precedes(mu, a, p);
    }
  }

  lemma OtherIsListed(mu: seq<PlayerData>, seats: seq<nat>)
    ensures forall a: nat :: Other(mu, seats, a) ==> a < |mu|
  {
  }

  lemma AllOthersBefore(mu: seq<PlayerData>, seats: seq<nat>, p: nat)
    ensures OthersBefore(mu, seats, p) == Others(mu, seats) <==> forall a: nat :: Other(mu, seats, a) ==> Precedes(mu, a, p)
  {
    hide Precedes, Other;
    var f, h := (a: nat) => Other(mu, seats, a) && Precedes(mu, a, p), (a: nat) => Other(mu, seats, a);
    CountBelow(|mu|, f, h);
    OtherIsListed(mu, seats);
    if OthersBefore(mu, seats, p) == Others(mu, seats) {
      forall a: nat | Other(mu, seats, a)
        ensures Precedes(mu, a, p)
      {
        assert h(a) ==> f(a);
      }
    } else {
      var a: nat :| a < |mu| && h(a) && !f(a);
      assert Other(mu, seats, a) && !Precedes(mu, a, p);
    }
  }

  /** An entry that is not named, between the players of the last and of the first seat. */
  predicate InGap(mu: seq<PlayerData>, seats: seq<nat>, g: nat, a: nat) {
    Precedes(mu, Of(mu, seats, |seats| - 1), a) && (g > 0 ==> Precedes(mu, a, Of(mu, seats, 0)))
  }

  ghost predicate OthersInGap(mu: seq<PlayerData>, seats: seq<nat>, g: nat) {
    forall a: nat :: Other(mu, seats, a) ==> InGap(mu, seats, g, a)
  }

  /** Two entries are always in some order. */
  lemma Ordered(mu: seq<PlayerData>, a: nat, b: nat)
    requires a < |mu| && b < |mu| && a != b
    ensures Precedes(mu, a, b) != Precedes(mu, b, a)
  {
  }

  /** Who is in the gap is behind all from the client's seat on, and before all up to the client's. */
  lemma GapAndNamed(mu: seq<PlayerData>, seats: seq<nat>, g: nat, i: int, a: nat)
    requires Seated(mu, seats, g) && 0 <= i < |seats| && Other(mu, seats, a) && InGap(mu, seats, g, a)
    ensures Precedes(mu, a, Of(mu, seats, i)) <==> i < g
  {
    hide Of;
    SeatedEntry(mu, seats, g, i);
    SeatedEntry(mu, seats, g, |seats| - 1);
    SeatedEntry(mu, seats, g, 0);
    hide Seated, Other;
    OtherIsListed(mu, seats);
  }

  lemma GapIsEnough(mu: seq<PlayerData>, seats: seq<nat>, g: nat, i: int)
    requires Seated(mu, seats, g) && 0 <= i < |seats| && OthersInGap(mu, seats, g)
    ensures |mu| > 0 && LocalSeat(i, g, |mu|) == EntryRank(mu, Of(mu, seats, i))
  {
    var p := Of(mu, seats, i);
    OthersDecide(mu, seats, g, i);
    NoOtherBefore(mu, seats, p);
    AllOthersBefore(mu, seats, p);
    forall a: nat | Other(mu, seats, a)
      ensures Precedes(mu, a, p) <==> i < g
    {
      GapAndNamed(mu, seats, g, i, a);
    }
    hide EntryRank, OthersBefore, Of, LocalSeat, Seated, Others, Precedes, Other;
  }

  lemma OneInGap(mu: seq<PlayerData>, seats: seq<nat>, g: nat, a: nat)
    requires Seated(mu, seats, g) && Other(mu, seats, a) && |mu| > 0
    requires LocalSeat(|seats| - 1, g, |mu|) == EntryRank(mu, Of(mu, seats, |seats| - 1))
    requires LocalSeat(0, g, |mu|) == EntryRank(mu, Of(mu, seats, 0))
    ensures InGap(mu, seats, g, a)
  {
    var last := Of(mu, seats, |seats| - 1);
    OthersDecide(mu, seats, g, |seats| - 1);
    OthersDecide(mu, seats, g, 0);
    NoOtherBefore(mu, seats, last);
    AllOthersBefore(mu, seats, Of(mu, seats, 0));
    SeatedEntry(mu, seats, g, |seats| - 1);
    OtherIsListed(mu, seats);
    hide EntryRank, OthersBefore, Of, LocalSeat, Seated, Others, Precedes, Other;
    Ordered(mu, a, last);
  }

  // ---------------------------------------------------------------------------------------------
  // The same of the list as it is before it is turned.

  lemma TurnedIsSeated(q: seq<PlayerData>, seats: seq<nat>, g: nat)
    requires Carries(q, seats) && g < |seats|
    ensures Seated(Mapped(q, g, |seats|), seats, g)
  {
    var mu := Mapped(q, g, |seats|);
    hide Mapped, Find, Carries, Of, Other, MapNumber;
    forall i | 0 <= i < |seats|
      ensures Of(mu, seats, i) < |mu| && !Other(mu, seats, Of(mu, seats, i)) && mu[Of(mu, seats, i)].number == TurnedNumber(i, g, |seats|)
    {
      NamedEntry(q, seats, g, i);
      NamedIsNoOther(mu, seats, i);
    }
    forall a: nat | a < |mu| && !Other(mu, seats, a)
      ensures 0 <= mu[a].number < |seats| && Of(mu, seats, ServerSeat(mu[a].number, g, |seats|)) == a
    {
      NoOtherIsNamed(q, seats, g, a);
    }
  }

  lemma NamedIsNoOther(mu: seq<PlayerData>, seats: seq<nat>, i: int)
    requires 0 <= i < |seats| && Of(mu, seats, i) < |mu| && mu[Of(mu, seats, i)].id == seats[i]
    ensures !Other(mu, seats, Of(mu, seats, i))
  {
    hide Of;
  }

  lemma NoOtherIsNamed(q: seq<PlayerData>, seats: seq<nat>, g: nat, a: nat)
    requires Carries(q, seats) && g < |seats| && a < |q| && !Other(Mapped(q, g, |seats|), seats, a)
    ensures var mu := Mapped(q, g, |seats|);
            0 <= mu[a].number < |seats| && Of(mu, seats, ServerSeat(mu[a].number, g, |seats|)) == a
  {
    var n, mu := |seats|, Mapped(q, g, |seats|);
    var k :| 0 <= k < n && seats[k] == mu[a].id;
    hide Mapped, Find, Carries, Of, MapNumber, Other, TurnedNumber, ServerSeat;
    NamedEntry(q, seats, g, k);
    OneOfEachId(q, seats, g, a, Of(mu, seats, k));
    TurnedBack(k, g, n);
  }

  lemma TurnedBack(k: int, g: int, n: int)
    requires 0 <= k < n && 0 <= g < n
    ensures 0 <= TurnedNumber(k, g, n) < n && ServerSeat(TurnedNumber(k, g, n), g, n) == k
  {
  }

  lemma NamedEntry(q: seq<PlayerData>, seats: seq<nat>, g: nat, i: int)
    requires Carries(q, seats) && g < |seats| && 0 <= i < |seats|
    ensures var mu := Mapped(q, g, |seats|);
            var p := Of(mu, seats, i);
            p < |mu| && mu[p].id == seats[i] && mu[p].number == TurnedNumber(i, g, |seats|)
  {
    hide Mapped, MapNumber;
    TurnedMeaning(q, seats, g);
    LocalSeatForm(i, g, |seats|);
  }

  lemma OneOfEachId(q: seq<PlayerData>, seats: seq<nat>, g: nat, a: nat, b: nat)
    requires Carries(q, seats)
    ensures var mu := Mapped(q, g, |seats|);
            a < |mu| && b < |mu| && mu[a].id == mu[b].id ==> a == b
  {
    TurnedMeaning(q, seats, g);
    hide Mapped, Find, MapNumber, Numbered;
  }

  lemma GapOfNumbers(mu: seq<PlayerData>, last: nat, first: nat, a: nat, n: nat, g: nat)
    requires last < |mu| && first < |mu| && a < |mu| && g < n && mu[a].number < n
    requires mu[last].number == n - 1 - g && (g > 0 ==> mu[first].number == n - g)
    ensures Precedes(mu, last, a) && (g > 0 ==> Precedes(mu, a, first)) <==>
            (mu[a].number == n - 1 - g && last < a) || (g > 0 && mu[a].number == n - g && a < first)
  {
  }

  lemma MapNumberBelow(x: int, g: int, n: int)
    requires n > 0
    ensures MapNumber(x, g, n) < n
  {
  }

  lemma GapIsBetween(q: seq<PlayerData>, seats: seq<nat>, g: nat, a: nat)
    requires Carries(q, seats) && g < |seats| && a < |q| && q[a].id !in seats
    ensures InGap(Mapped(q, g, |seats|), seats, g, a) <==> Between(q, seats, g, a)
  {
    var n, mu := |seats|, Mapped(q, g, |seats|);
    TurnedMeaning(q, seats, g);
    TurnedIsSeated(q, seats, g);
    SeatedEntry(mu, seats, g, n - 1);
    SeatedEntry(mu, seats, g, 0);
    MapNumberBelow(q[a].number, g, n);
    hide Mapped, MapNumber, Carries, Seated, Find, Precedes, Other, DistinctIds;
    GapOfNumbers(mu, Of(mu, seats, n - 1), Of(mu, seats, 0), a, n, g);
  }

  /** All seat states reach their players if and only if the players whom the message does not name come, in
      the sorted list, right between those of its last and of its first seat. */
  lemma AllReachIffOthersBetween(q: seq<PlayerData>, seats: seq<nat>, g: nat)
    requires Carries(q, seats) && g < |seats|
    ensures |Sorted(Mapped(q, g, |seats|))| == |q| > 0
    ensures forall i :: 0 <= i < |seats| ==> 0 <= LocalSeat(i, g, |q|) < |q|
    ensures (forall i :: 0 <= i < |seats| ==> Sorted(Mapped(q, g, |seats|))[LocalSeat(i, g, |q|)].id == seats[i]) <==> OthersBetween(q, seats, g)
  {
    var mu := Mapped(q, g, |seats|);
    TurnedMeaning(q, seats, g);
    TurnedIsSeated(q, seats, g);
    forall a: nat | a < |q| && q[a].id !in seats
      ensures Other(mu, seats, a) && (InGap(mu, seats, g, a) <==> Between(q, seats, g, a))
    {
      GapIsBetween(q, seats, g, a);
    }
    assert OthersInGap(mu, seats, g) <==> OthersBetween(q, seats, g) by {
      hide InGap, Between, Mapped, Find;
      assert forall a: nat :: Other(mu, seats, a) <==> a < |q| && q[a].id !in seats;
    }
    hide Mapped, LocalSeat, Sorted, EntryRank, Find, OthersBetween, Carries, Seated, OthersInGap, InGap, Between, Other;
    forall i | 0 <= i < |seats|
      ensures 0 <= LocalSeat(i, g, |q|) < |q|
      ensures Sorted(mu)[LocalSeat(i, g, |q|)].id == seats[i] <==> LocalSeat(i, g, |q|) == EntryRank(mu, Of(mu, seats, i))
    {
      ReachesByRank(q, seats, g, i);
    }
    ReachesByRank(q, seats, g, 0);
    if OthersInGap(mu, seats, g) {
      forall i | 0 <= i < |seats|
        ensures LocalSeat(i, g, |mu|) == EntryRank(mu, Of(mu, seats, i))
      {
        GapIsEnough(mu, seats, g, i);
      }
    }
    if forall i :: 0 <= i < |seats| ==> LocalSeat(i, g, |mu|) == EntryRank(mu, Of(mu, seats, i)) {
      GapIsNeeded(mu, seats, g);
    }
  }

  lemma GapIsNeeded(mu: seq<PlayerData>, seats: seq<nat>, g: nat)
    requires Seated(mu, seats, g) && |mu| > 0
    requires forall i :: 0 <= i < |seats| ==> LocalSeat(i, g, |mu|) == EntryRank(mu, Of(mu, seats, i))
    ensures OthersInGap(mu, seats, g)
  {
    assert LocalSeat(|seats| - 1, g, |mu|) == EntryRank(mu, Of(mu, seats, |seats| - 1));
    assert LocalSeat(0, g, |mu|) == EntryRank(mu, Of(mu, seats, 0));
    hide EntryRank, Of, LocalSeat, Other, InGap;
    forall a: nat | Other(mu, seats, a)
      ensures InGap(mu, seats, g, a)
    {
      OneInGap(mu, seats, g, a);
    }
  }
}
