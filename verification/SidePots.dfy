/** Who wins how much: the rule of the side pots, and what becomes of chips that nobody left in the
    hand has matched. */
module SidePots {
  import opened Dealer
  import opened Pot

  /** A seat that has not folded and has a hand with a value. */
  predicate Stands(t: Table, s: nat)
    requires t.Valid() && s < |t.ids|
  {
    t.active[s] && !t.folded[s] && t.cards[s] >= 0
  }

  /** The largest set of a seat that stands, among the first k. */
  function StakeUpTo(t: Table, sets: seq<nat>, k: nat): (r: nat)
    requires t.Valid() && |sets| == |t.ids| && k <= |sets|
    ensures forall s :: 0 <= s < k && Stands(t, s) ==> sets[s] <= r
    ensures r == 0 || exists s :: 0 <= s < k && Stands(t, s) && sets[s] == r
  {
    if k == 0 then 0
    else
      var r := StakeUpTo(t, sets, k - 1);
      if Stands(t, k - 1) && sets[k - 1] > r then sets[k - 1] else r
  }

  /** What is matched by somebody who stands. */
  function Stake(t: Table, sets: seq<nat>): nat
    requires t.Valid() && |sets| == |t.ids|
  {
    StakeUpTo(t, sets, |sets|)
  }

  /** The chips above an amount. */
  function Excess(sets: seq<nat>, c: nat): nat {
    if sets == [] then 0 else (if sets[0] > c then sets[0] - c else 0) + Excess(sets[1..], c)
  }

  lemma {:induction false} ExcessLevel(sets: seq<nat>, a: nat, c: nat)
    requires IsLevel(sets, a) && c >= a
    ensures Excess(Reduced(sets, a), c - a) == Excess(sets, c)
  {
    if sets != [] {
      ExcessLevel(sets[1..], a, c);
      assert Reduced(sets, a)[1..] == Reduced(sets[1..], a);
    }
  }

  lemma {:induction false} ExcessOfAll(sets: seq<nat>)
    ensures Excess(sets, 0) == Sum(sets)
  {
    if sets != [] {
      ExcessOfAll(sets[1..]);
    }
  }

  lemma {:induction false} NoExcess(sets: seq<nat>, c: nat)
    ensures Excess(sets, c) == 0 <==> forall i :: 0 <= i < |sets| ==> sets[i] <= c
  {
    if sets != [] {
      NoExcess(sets[1..], c);
      assert forall i :: 1 <= i < |sets| ==> sets[i] == sets[1..][i - 1];
    }
  }

  /** A level has a winner of its own as long as somebody who stands matches it. */
  lemma LevelIsMatched(t: Table, sets: seq<nat>)
    requires t.Valid() && |sets| == |t.ids| && Positives(sets) > 0
    ensures LevelWinners(t, sets, MinPositive(sets)) != [] <==> Stake(t, sets) > 0
    ensures Stake(t, sets) > 0 ==> Stake(t, sets) >= MinPositive(sets)
  {
    var a := MinPositive(sets);
    StandingWins(t, sets, a);
    hide LevelWinners, Best, With;
    if s :| 0 <= s < |t.ids| && Contends(t, sets, a, s) && t.cards[s] >= 0 {
      assert Stands(t, s);
    }
    if Stake(t, sets) > 0 {
      var s :| 0 <= s < |sets| && Stands(t, s) && sets[s] == Stake(t, sets);
      assert Contends(t, sets, a, s);
    }
  }

  /** A level lowers the stake by its amount. */
  lemma StakeAfterLevel(t: Table, sets: seq<nat>)
    requires t.Valid() && |sets| == |t.ids| && Positives(sets) > 0
    ensures Stake(t, Rest(sets)) == if Stake(t, sets) == 0 then 0 else Stake(t, sets) - MinPositive(sets)
  {
    hide Rest, MinPositive;
    var r, a := Rest(sets), MinPositive(sets);
    if Stake(t, sets) > 0 {
      var s :| 0 <= s < |sets| && Stands(t, s) && sets[s] == Stake(t, sets);
      assert r[s] == sets[s] - a;
    }
    if Stake(t, r) > 0 {
      var s :| 0 <= s < |sets| && Stands(t, s) && r[s] == Stake(t, r);
      assert sets[s] == r[s] + a;
    }
  }

  lemma ExcessAfterLevel(t: Table, sets: seq<nat>)
    requires t.Valid() && |sets| == |t.ids| && Positives(sets) > 0
    ensures Excess(Rest(sets), Stake(t, Rest(sets)))
         == Excess(sets, Stake(t, sets)) - if Stake(t, sets) == 0 then Take(sets) else 0
  {
    hide Stake, Excess, Rest, Take, MinPositive, Positives, Table.Valid;
    LevelIsMatched(t, sets);
    StakeAfterLevel(t, sets);
    if Stake(t, sets) == 0 {
      AllIsExcess(sets);
    } else {
      ExcessReduced(sets, Stake(t, sets));
    }
  }

  lemma AllIsExcess(sets: seq<nat>)
    requires Positives(sets) > 0
    ensures Excess(Rest(sets), 0) == Excess(sets, 0) - Take(sets)
  {
    ExcessOfAll(sets);
    ExcessOfAll(Rest(sets));
    LevelSum(sets);
    hide Excess, Rest, Take;
  }

  lemma ExcessReduced(sets: seq<nat>, c: nat)
    requires Positives(sets) > 0 && c >= MinPositive(sets)
    ensures Excess(Rest(sets), c - MinPositive(sets)) == Excess(sets, c)
  {
    ExcessLevel(sets, MinPositive(sets), c);
  }

  /** What is carried over is matched by somebody who stands. */
  lemma CarriedIsMatched(t: Table, sets: seq<nat>)
    requires t.Valid() && |sets| == |t.ids| && Positives(sets) > 0
    requires !Final(t, sets, MinPositive(sets))
    ensures Stake(t, Rest(sets)) > 0
  {
    var a := MinPositive(sets);
    var w := LevelWinners(t, sets, a);
    assert w[0] in w;
    StandingWins(t, sets, a);
    assert t.cards[w[0]] >= 0;
    assert Stands(t, w[0]) && sets[w[0]] > a;
    assert Rest(sets)[w[0]] > 0;
  }

  // ---------------------------------------------------------------------------------------------
  // What a seat can win.

  /** The side pot of a seat that still has something in, with what was carried over. */
  function Claim(sets: seq<nat>, carry: nat, s: nat): nat
    requires s < |sets|
  {
    if sets[s] > 0 then carry + SidePot(sets, sets[s]) else 0
  }

  /** No one who has not folded has a better hand. */
  ghost predicate HoldsBest(t: Table, s: nat)
    requires t.Valid() && s < |t.ids|
  {
    Stands(t, s) && forall x :: 0 <= x < |t.ids| && t.active[x] && !t.folded[x] ==> t.cards[x] <= t.cards[s]
  }

  lemma FallbackGoesToBest(t: Table, sets: seq<nat>, s: nat)
    requires t.Valid() && |sets| == |t.ids| && s < |sets|
    ensures s in LevelWinners(t, sets, 0) <==> HoldsBest(t, s)
  {
    var n := |t.ids|;
    var b := Best(t, sets, 0, n);
    assert forall x :: 0 <= x < n ==> (Contends(t, sets, 0, x) <==> t.active[x] && !t.folded[x]);
    if HoldsBest(t, s) {
      assert t.cards[s] <= b;
    }
  }

  /** What becomes of the chips above the stake, if nothing can be carried over any more. */
  function Unmatched(t: Table, sets: seq<nat>, carry: nat): nat
    requires t.Valid() && |sets| == |t.ids|
  {
    Excess(sets, Stake(t, sets)) + if Stake(t, sets) == 0 then carry else 0
  }

  /** All that a seat can get from here: its side pot, and the unmatched chips if its hand is the best. */
  ghost function Due(t: Table, sets: seq<nat>, carry: nat, s: nat): nat
    requires t.Valid() && |sets| == |t.ids| && s < |sets|
  {
    Claim(sets, carry, s) + if HoldsBest(t, s) then Unmatched(t, sets, carry) else 0
  }

  /** Unmatched chips stay what they are until a level comes that nobody matches, which takes its part. */
  lemma UnmatchedAfterLevel(t: Table, dealer: nat, sets: seq<nat>, carry: nat, l: Ledger)
    requires t.Valid() && |sets| == |t.ids| == |l.cash| == |l.won| && Positives(sets) > 0
    ensures var n := OneLevel(t, dealer, sets, carry, l);
            n.Go? ==>
              Unmatched(t, Rest(sets), n.carry) == Unmatched(t, sets, carry) - if Stake(t, sets) == 0 then Take(sets) + carry else 0
  {
    LevelIsMatched(t, sets);
    StakeAfterLevel(t, sets);
    ExcessAfterLevel(t, sets);
    UnmatchedIsFinal(t, sets);
    if !Final(t, sets, MinPositive(sets)) {
      CarriedIsMatched(t, sets);
    }
    hide Final, Winners, LevelWinners, Paid, Take, Rest, Excess, Stake;
  }

  lemma UnmatchedIsFinal(t: Table, sets: seq<nat>)
    requires t.Valid() && |sets| == |t.ids| && Positives(sets) > 0
    ensures LevelWinners(t, sets, MinPositive(sets)) == [] ==>
              Final(t, sets, MinPositive(sets)) && Winners(t, sets, MinPositive(sets)) == LevelWinners(t, sets, 0)
  {
  }

  lemma ClaimAfterLevel(sets: seq<nat>, carry: nat, s: nat)
    requires Positives(sets) > 0 && s < |sets|
    ensures sets[s] > 0 ==> Claim(sets, carry, s) == carry + Take(sets) + SidePot(Rest(sets), Rest(sets)[s])
    ensures sets[s] == 0 ==> Rest(sets)[s] == 0 && Claim(sets, carry, s) == 0
  {
    if sets[s] > 0 {
      LevelSidePot(sets, sets[s]);
    }
    hide SidePot, Take, Rest;
  }

  lemma WinnersMatch(t: Table, sets: seq<nat>, s: nat)
    requires t.Valid() && |sets| == |t.ids| && Positives(sets) > 0 && s < |sets|
    ensures Stake(t, sets) > 0 && s in Winners(t, sets, MinPositive(sets)) ==> sets[s] > 0
    ensures Stake(t, sets) == 0 && s in Winners(t, sets, MinPositive(sets)) ==> HoldsBest(t, s)
  {
    LevelIsMatched(t, sets);
    FallbackGoesToBest(t, sets, s);
    UnmatchedIsFinal(t, sets);
    hide Stake, HoldsBest, Best;
  }

  lemma LevelWithinDue(t: Table, dealer: nat, sets: seq<nat>, carry: nat, l: Ledger, s: nat)
    requires t.Valid() && |sets| == |t.ids| == |l.cash| == |l.won| && s < |t.ids| && Positives(sets) > 0
    ensures var n := OneLevel(t, dealer, sets, carry, l);
            n.Go? ==> 0 <= n.l.won[s] - l.won[s] && n.l.won[s] - l.won[s] + Due(t, Rest(sets), n.carry, s) <= Due(t, sets, carry, s)
  {
    hide OneLevel, Winners, Take, Rest, Unmatched, HoldsBest, SidePot, Stake;
    LevelPays(t, dealer, sets, carry, l, s);
    UnmatchedAfterLevel(t, dealer, sets, carry, l);
    WinnersMatch(t, sets, s);
    ClaimAfterLevel(sets, carry, s);
    SidePotOfNothing(Rest(sets));
  }

  /** The rule of the side pots, for every hand: nobody wins more than what all have put in up to his own
      amount, except that the chips which nobody left in the hand has matched go to the best hand. */
  lemma {:induction false} WinningsWithinSidePot(t: Table, dealer: nat, sets: seq<nat>, carry: nat, l: Ledger, s: nat)
    requires t.Valid() && |sets| == |t.ids| == |l.cash| == |l.won| && s < |t.ids|
    ensures 0 <= Distribute(t, dealer, sets, carry, l).l.won[s] - l.won[s] <= Due(t, sets, carry, s)
    decreases Positives(sets)
  {
    hide OneLevel, Rest, Due;
    if Positives(sets) > 0 {
      LevelWithinDue(t, dealer, sets, carry, l, s);
      var n := OneLevel(t, dealer, sets, carry, l);
      if n.Go? {
        WinningsWithinSidePot(t, dealer, Rest(sets), n.carry, n.l, s);
      }
    }
  }

  // ---------------------------------------------------------------------------------------------
  // The best hand.

  /** Everyone else who can win has a hand of less value. */
  ghost predicate StrictlyBest(t: Table, s: nat)
    requires t.Valid()
  {
    && s < |t.ids| && t.active[s] && !t.folded[s] && t.cards[s] >= 0
    && forall x :: 0 <= x < |t.ids| && x != s && t.active[x] && !t.folded[x] ==> t.cards[x] < t.cards[s]
  }

  lemma BestWinsAlone(t: Table, sets: seq<nat>, a: nat, s: nat)
    requires t.Valid() && |sets| == |t.ids| && StrictlyBest(t, s) && sets[s] >= a
    ensures LevelWinners(t, sets, a) == [s]
  {
    var n := |t.ids|;
    var b, w := Best(t, sets, a, n), LevelWinners(t, sets, a);
    assert Contends(t, sets, a, s);
    assert t.cards[s] <= b;
    assert b == t.cards[s];
    assert s in w;
    assert forall x :: x in w ==> x == s;
    Single(w, s);
  }

  lemma Single(w: seq<nat>, s: nat)
    requires s in w && (forall x :: x in w ==> x == s) && forall i, j :: 0 <= i < j < |w| ==> w[i] < w[j]
    ensures w == [s]
  {
    var first, last := w[0], w[|w| - 1];
    assert first in w && last in w;
  }

  lemma OnlyOneShare(l: Ledger, ids: seq<nat>, s: nat, dealer: nat, sum: nat)
    requires |ids| == |l.cash| == |l.won| && s < |ids|
    ensures Paid(l, ids, [s], dealer, sum).won[s] == l.won[s] + sum
  {
    assert sum % 1 == 0 && sum / 1 == sum;
    assert Shared(l, ids, [s], sum, 0, 0) == l;
  }

  /** One level with the strictly best hand in it: won, if it is the last for that player, else saved up. */
  lemma BestLevel(t: Table, dealer: nat, sets: seq<nat>, carry: nat, l: Ledger, s: nat)
    requires t.Valid() && |sets| == |t.ids| == |l.cash| == |l.won| && StrictlyBest(t, s) && sets[s] > 0 && Positives(sets) > 0
    ensures OneLevel(t, dealer, sets, carry, l)
         == if sets[s] == MinPositive(sets) then Go(0, Paid(l, t.ids, [s], dealer, Take(sets) + carry)) else Go(Take(sets) + carry, l)
  {
    var a := MinPositive(sets);
    BestWinsAlone(t, sets, a, s);
    assert Winners(t, sets, a) == [s];
    assert Final(t, sets, a) <==> sets[s] == a by {
      assert [s][0] == s;
    }
    hide Winners, Final, Paid, StrictlyBest, LevelWinners, Take;
    assert (Take(sets) + carry) % 1 == 0;
  }

  /** One level that nobody matches: it goes to the strictly best hand. */
  lemma UnmatchedLevel(t: Table, dealer: nat, sets: seq<nat>, carry: nat, l: Ledger, s: nat)
    requires t.Valid() && |sets| == |t.ids| == |l.cash| == |l.won| && StrictlyBest(t, s) && Positives(sets) > 0 && Stake(t, sets) == 0
    ensures OneLevel(t, dealer, sets, carry, l) == Go(0, Paid(l, t.ids, [s], dealer, Take(sets) + carry))
  {
    LevelIsMatched(t, sets);
    UnmatchedIsFinal(t, sets);
    BestWinsAlone(t, sets, 0, s);
    hide Winners, Final, Paid, StrictlyBest, LevelWinners, Take, Stake;
    assert (Take(sets) + carry) % 1 == 0;
  }

  /** The last level that the strictly best hand is in is paid to it, with what was carried over. */
  lemma LastLevelPays(t: Table, dealer: nat, sets: seq<nat>, carry: nat, l: Ledger, s: nat)
    requires t.Valid() && |sets| == |t.ids| == |l.cash| == |l.won| && s < |t.ids| && StrictlyBest(t, s)
    requires Positives(sets) > 0 && sets[s] == MinPositive(sets)
    ensures var n := OneLevel(t, dealer, sets, carry, l);
            n.Go? && n.l.won[s] == l.won[s] + Take(sets) + carry && Rest(sets)[s] == 0
  {
    hide Table.Valid, OneLevel, Paid, StrictlyBest, Take, Rest, Positives, MinPositive;
    BestLevel(t, dealer, sets, carry, l, s);
    LeftOfLevel(sets, s);
    OnlyOneShare(l, t.ids, s, dealer, Take(sets) + carry);
  }

  /** A level that the strictly best hand is in: paid to it, or carried over for it. */
  lemma BestInLevelPays(t: Table, dealer: nat, sets: seq<nat>, carry: nat, l: Ledger, s: nat)
    requires t.Valid() && |sets| == |t.ids| == |l.cash| == |l.won| && s < |t.ids| && StrictlyBest(t, s) && Positives(sets) > 0 && sets[s] > 0
    ensures var n := OneLevel(t, dealer, sets, carry, l);
            n.Go? && n.l.won[s] - l.won[s] + Claim(Rest(sets), n.carry, s) == Claim(sets, carry, s)
  {
    hide Table.Valid, OneLevel, Paid, StrictlyBest, Take, Rest, SidePot, Positives, MinPositive;
    ClaimAfterLevel(sets, carry, s);
    if sets[s] == MinPositive(sets) {
      LastLevelPays(t, dealer, sets, carry, l, s);
      SidePotOfNothing(Rest(sets));
    } else {
      BestLevel(t, dealer, sets, carry, l, s);
      LeftOfLevel(sets, s);
    }
  }

  lemma LeftOfLevel(sets: seq<nat>, s: nat)
    requires Positives(sets) > 0 && s < |sets| && sets[s] > 0
    ensures Rest(sets)[s] == sets[s] - MinPositive(sets) && sets[s] >= MinPositive(sets)
  {
  }

  /** A level that nobody matches and the strictly best hand is not in: it gets all the same. */
  lemma UnmatchedLevelPays(t: Table, dealer: nat, sets: seq<nat>, carry: nat, l: Ledger, s: nat)
    requires t.Valid() && |sets| == |t.ids| == |l.cash| == |l.won| && s < |t.ids| && StrictlyBest(t, s) && Positives(sets) > 0
    requires sets[s] == 0 && Stake(t, sets) == 0
    ensures var n := OneLevel(t, dealer, sets, carry, l);
            n.Go? && n.l.won[s] - l.won[s] + Claim(Rest(sets), n.carry, s) == Claim(sets, carry, s) + Take(sets) + carry
  {
    hide OneLevel, Paid, StrictlyBest, Take, Rest, SidePot, Stake, Positives, MinPositive;
    ClaimAfterLevel(sets, carry, s);
    OnlyOneShare(l, t.ids, s, dealer, Take(sets) + carry);
    UnmatchedLevel(t, dealer, sets, carry, l, s);
  }

  /** Any other level brings the strictly best hand nothing. */
  lemma OtherLevelPays(t: Table, dealer: nat, sets: seq<nat>, carry: nat, l: Ledger, s: nat)
    requires t.Valid() && |sets| == |t.ids| == |l.cash| == |l.won| && s < |t.ids| && Positives(sets) > 0
    requires sets[s] == 0 && Stake(t, sets) > 0
    ensures var n := OneLevel(t, dealer, sets, carry, l);
            n.Go? ==> n.l.won[s] - l.won[s] + Claim(Rest(sets), n.carry, s) == Claim(sets, carry, s)
  {
    hide OneLevel, Winners, Take, Rest, SidePot, Stake, Positives, MinPositive;
    ClaimAfterLevel(sets, carry, s);
    LevelPays(t, dealer, sets, carry, l, s);
    WinnersMatch(t, sets, s);
  }

  lemma BestLevelPays(t: Table, dealer: nat, sets: seq<nat>, carry: nat, l: Ledger, s: nat)
    requires t.Valid() && |sets| == |t.ids| == |l.cash| == |l.won| && s < |t.ids| && StrictlyBest(t, s) && Positives(sets) > 0
    ensures var n := OneLevel(t, dealer, sets, carry, l);
            n.Go? ==>
              n.l.won[s] - l.won[s] + Claim(Rest(sets), n.carry, s) == Claim(sets, carry, s) + if Stake(t, sets) == 0 then Take(sets) + carry else 0
  {
    StandingSetIsMatched(t, sets, s);
    hide OneLevel, StrictlyBest, Take, Rest, Claim, Stake, Positives, Table.Valid;
    if sets[s] > 0 {
      BestInLevelPays(t, dealer, sets, carry, l, s);
    } else if Stake(t, sets) == 0 {
      UnmatchedLevelPays(t, dealer, sets, carry, l, s);
    } else {
      OtherLevelPays(t, dealer, sets, carry, l, s);
    }
  }

  lemma StandingSetIsMatched(t: Table, sets: seq<nat>, s: nat)
    requires t.Valid() && |sets| == |t.ids| && s < |t.ids| && StrictlyBest(t, s)
    ensures sets[s] <= Stake(t, sets)
  {
    assert Stands(t, s);
  }

  /** The strictly best hand wins all that is due to it: its side pot and every chip that nobody left in
      the hand has matched. */
  lemma {:induction false} BestHandWinsItsDue(t: Table, dealer: nat, sets: seq<nat>, carry: nat, l: Ledger, s: nat)
    requires t.Valid() && |sets| == |t.ids| == |l.cash| == |l.won| && StrictlyBest(t, s)
    requires carry > 0 ==> Positives(sets) > 0
    requires !Distribute(t, dealer, sets, carry, l).thrown
    ensures Distribute(t, dealer, sets, carry, l).l.won[s] == l.won[s] + Claim(sets, carry, s) + Unmatched(t, sets, carry)
    decreases Positives(sets)
  {
    if Positives(sets) == 0 {
      NoneLeft(sets);
      NoExcess(sets, Stake(t, sets));
    } else {
      LevelConserves(t, dealer, sets, carry, l);
      BestLevelPays(t, dealer, sets, carry, l, s);
      UnmatchedAfterLevel(t, dealer, sets, carry, l);
      hide OneLevel, Rest, Unmatched, Claim, StrictlyBest, Stake, Take, Sum;
      var n := OneLevel(t, dealer, sets, carry, l);
      BestHandWinsItsDue(t, dealer, Rest(sets), n.carry, n.l, s);
    }
  }

  /** Someone who stands is in with as much as anyone. */
  ghost predicate Covered(t: Table, sets: seq<nat>)
    requires t.Valid() && |sets| == |t.ids|
  {
    exists s :: 0 <= s < |t.ids| && Stands(t, s) && forall i :: 0 <= i < |sets| ==> sets[i] <= sets[s]
  }

  lemma CoveredIffNoExcess(t: Table, sets: seq<nat>, s: nat)
    requires t.Valid() && |sets| == |t.ids| && s < |sets| && Stands(t, s) && sets[s] > 0
    ensures Covered(t, sets) <==> Excess(sets, Stake(t, sets)) == 0
    ensures Stake(t, sets) > 0
  {
    NoExcess(sets, Stake(t, sets));
    var x :| 0 <= x < |sets| && Stands(t, x) && sets[x] == Stake(t, sets);
  }

  /** The strictly best hand wins its side pot and no more if and only if somebody who stands has put in as
      much as anyone. */
  lemma BestHandWinsSidePot(t: Table, dealer: nat, sets: seq<nat>, carry: nat, l: Ledger, s: nat)
    requires t.Valid() && |sets| == |t.ids| == |l.cash| == |l.won| && StrictlyBest(t, s) && sets[s] > 0
    requires !Distribute(t, dealer, sets, carry, l).thrown
    ensures Distribute(t, dealer, sets, carry, l).l.won[s] >= l.won[s] + carry + SidePot(sets, sets[s])
    ensures Distribute(t, dealer, sets, carry, l).l.won[s] == l.won[s] + carry + SidePot(sets, sets[s]) <==> Covered(t, sets)
  {
    NoneLeft(sets);
    assert Stands(t, s);
    CoveredIffNoExcess(t, sets, s);
    hide Covered, Excess, Stake, SidePot, StrictlyBest, Distribute;
    BestHandWinsItsDue(t, dealer, sets, carry, l, s);
  }

  /** Where it does not: the second player folds with 100 in, the first one stands with 50. The first wins
      all 150, though its side pot is 100. */
  lemma FoldedExcess(l: Ledger)
    requires |l.cash| == |l.won| == 2
    ensures var t := Table([1, 2], [true, true], [false, true], [7, 0]);
            var o := Distribute(t, 0, [50, 100], 0, l);
            && t.Valid() && !Covered(t, [50, 100]) && SidePot([50, 100], 50) == 100
            && !o.thrown && o.l.won[0] == l.won[0] + 150
  {
    var t, sets: seq<nat> := Table([1, 2], [true, true], [false, true], [7, 0]), [50, 100];
    assert Stands(t, 0) && StrictlyBest(t, 0) && SomeoneStands(t);
    assert !Stands(t, 1);
    assert StakeUpTo(t, sets, 0) == 0 && StakeUpTo(t, sets, 1) == 50 && StakeUpTo(t, sets, 2) == 50;
    assert sets[1..] == [100] && [100][1..] == [];
    assert Excess(sets, 50) == 50 && SidePot(sets, 50) == 100;
    hide Distribute, StakeUpTo, StrictlyBest, SomeoneStands, Covered;
    FailsIffNobodyStands(t, 0, sets, 0, l);
    CoveredIffNoExcess(t, sets, 0);
    BestHandWinsItsDue(t, 0, sets, 0, l, 0);
  }
}
