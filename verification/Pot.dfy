/** The distribution of the pot at the end of a hand, level by level: side pots, ties, odd chips. */
module Pot {
  import opened Dealer

  /** What the distribution reads of the seats. */
  datatype Table = Table(ids: seq<nat>, active: seq<bool>, folded: seq<bool>, cards: seq<int>) {
    predicate Valid() {
      |ids| == |active| == |folded| == |cards|
    }
  }

  /** What it changes: cash and winnings of the seats, the ids of the winners, the pot. */
  datatype Ledger = Ledger(cash: seq<int>, won: seq<int>, winners: set<nat>, pot: int)

  datatype Outcome = Outcome(l: Ledger, thrown: bool)

  function Sum(s: seq<int>): int {
    if s == [] then 0 else s[0] + Sum(s[1..])
  }

  lemma {:induction false} SumUpdate(s: seq<int>, i: nat, d: int)
    requires i < |s|
    ensures Sum(s[i := s[i] + d]) == Sum(s) + d
  {
    var u := s[i := s[i] + d];
    if i == 0 {
      assert u[1..] == s[1..];
    } else {
      assert u[1..] == s[1..][i - 1 := s[1..][i - 1] + d];
      SumUpdate(s[1..], i - 1, d);
    }
  }

  // ---------------------------------------------------------------------------------------------
  // Levels.

  /** How many players have something left in the pot. */
  function Positives(sets: seq<nat>): nat {
    if sets == [] then 0 else (if sets[0] > 0 then 1 else 0) + Positives(sets[1..])
  }

  function MinPositive(sets: seq<nat>): (a: nat)
    requires Positives(sets) > 0
    ensures a > 0 && a in sets && forall i :: 0 <= i < |sets| ==> sets[i] == 0 || sets[i] >= a
  {
    if Positives(sets[1..]) == 0 then
      NoneLeft(sets[1..]);
      sets[0]
    else
      var b := MinPositive(sets[1..]);
      if 0 < sets[0] < b then sets[0] else b
  }

  lemma {:induction false} NoneLeft(sets: seq<nat>)
    ensures Positives(sets) == 0 <==> forall i :: 0 <= i < |sets| ==> sets[i] == 0
  {
    if sets != [] {
      NoneLeft(sets[1..]);
      assert forall i :: 1 <= i < |sets| ==> sets[i] == sets[1..][i - 1];
    }
  }

  /** What is left when everyone's share of a level is taken. */
  function Reduced(sets: seq<nat>, a: nat): (r: seq<nat>)
    ensures |r| == |sets| && forall i :: 0 <= i < |r| ==> r[i] == if sets[i] < a then 0 else sets[i] - a
  {
    seq(|sets|, i requires 0 <= i < |sets| => if sets[i] < a then 0 else sets[i] - a)
  }

  /** A level takes the same from everyone who has something left. */
  ghost predicate IsLevel(sets: seq<nat>, a: nat) {
    a > 0 && forall i :: 0 <= i < |sets| ==> sets[i] == 0 || sets[i] >= a
  }

  lemma {:induction false} ReducedSum(sets: seq<nat>, a: nat)
    requires IsLevel(sets, a)
    ensures Sum(Reduced(sets, a)) == Sum(sets) - a * Positives(sets)
    ensures Positives(Reduced(sets, a)) <= Positives(sets) && (a in sets ==> Positives(Reduced(sets, a)) < Positives(sets))
  {
    if sets != [] {
      var rest := sets[1..];
      ReducedSum(rest, a);
      assert Reduced(sets, a)[1..] == Reduced(rest, a);
      assert a * (Positives(rest) + 1) == a * Positives(rest) + a;
    }
  }

  /** What all players together have put in up to the amount c: the side pot of a player who has c in. */
  function SidePot(sets: seq<nat>, c: nat): nat {
    if sets == [] then 0 else (if sets[0] < c then sets[0] else c) + SidePot(sets[1..], c)
  }

  lemma {:induction false} SidePotLevel(sets: seq<nat>, a: nat, c: nat)
    requires IsLevel(sets, a) && c >= a
    ensures SidePot(sets, c) == a * Positives(sets) + SidePot(Reduced(sets, a), c - a)
  {
    if sets != [] {
      var rest := sets[1..];
      SidePotLevel(rest, a, c);
      assert Reduced(sets, a)[1..] == Reduced(rest, a);
      assert a * (Positives(rest) + 1) == a * Positives(rest) + a;
    }
  }

  lemma {:induction false} SidePotOfNothing(sets: seq<nat>)
    ensures SidePot(sets, 0) == 0
  {
    if sets != [] {
      SidePotOfNothing(sets[1..]);
    }
  }

  /** The chips of the next level, and what is left after it. */
  function Take(sets: seq<nat>): nat
    requires Positives(sets) > 0
  {
    MinPositive(sets) * Positives(sets)
  }

  function Rest(sets: seq<nat>): (r: seq<nat>)
    requires Positives(sets) > 0
    ensures |r| == |sets| && Positives(r) < Positives(sets)
    ensures forall i :: 0 <= i < |r| ==> r[i] == if sets[i] == 0 then 0 else sets[i] - MinPositive(sets)
  {
    ReducedSum(sets, MinPositive(sets));
    Reduced(sets, MinPositive(sets))
  }

  lemma LevelSum(sets: seq<nat>)
    requires Positives(sets) > 0
    ensures Sum(Rest(sets)) == Sum(sets) - Take(sets)
  {
    ReducedSum(sets, MinPositive(sets));
  }

  lemma LevelSidePot(sets: seq<nat>, c: nat)
    requires Positives(sets) > 0 && c >= MinPositive(sets)
    ensures SidePot(sets, c) == Take(sets) + SidePot(Rest(sets), c - MinPositive(sets))
  {
    SidePotLevel(sets, MinPositive(sets), c);
  }

  // ---------------------------------------------------------------------------------------------
  // Winners of a level.

  /** Seat s can win a level of this amount. */
  predicate Contends(t: Table, sets: seq<nat>, a: nat, s: nat)
    requires t.Valid() && |sets| == |t.ids| && s < |t.ids|
  {
    t.active[s] && !t.folded[s] && sets[s] >= a
  }

  /** The best hand among the first k seats, at least 0. */
  function Best(t: Table, sets: seq<nat>, a: nat, k: nat): (b: int)
    requires t.Valid() && |sets| == |t.ids| && k <= |t.ids|
    ensures b >= 0 && forall s :: 0 <= s < k && Contends(t, sets, a, s) ==> t.cards[s] <= b
    ensures b == 0 || exists s :: 0 <= s < k && Contends(t, sets, a, s) && t.cards[s] == b
  {
    if k == 0 then 0
    else
      var b := Best(t, sets, a, k - 1);
      if Contends(t, sets, a, k - 1) && t.cards[k - 1] > b then t.cards[k - 1] else b
  }

  /** The contenders among the first k seats with a hand of this value, in seat order. */
  function With(t: Table, sets: seq<nat>, a: nat, value: int, k: nat): (w: seq<nat>)
    requires t.Valid() && |sets| == |t.ids| && k <= |t.ids|
    ensures SeatList(k, w)
    ensures forall s :: s in w <==> 0 <= s < k && Contends(t, sets, a, s) && t.cards[s] == value
  {
    if k == 0 then []
    else
      var w := With(t, sets, a, value, k - 1);
      if Contends(t, sets, a, k - 1) && t.cards[k - 1] == value then w + [k - 1] else w
  }

  function LevelWinners(t: Table, sets: seq<nat>, a: nat): (w: seq<nat>)
    requires t.Valid() && |sets| == |t.ids|
    ensures SeatList(|t.ids|, w)
  {
    With(t, sets, a, Best(t, sets, a, |t.ids|), |t.ids|)
  }

  /** When everyone who is in with the amount has folded, the best remaining hand of all takes it. */
  function Winners(t: Table, sets: seq<nat>, a: nat): (w: seq<nat>)
    requires t.Valid() && |sets| == |t.ids|
    ensures SeatList(|t.ids|, w)
  {
    if LevelWinners(t, sets, a) != [] then LevelWinners(t, sets, a) else LevelWinners(t, sets, 0)
  }

  /** Someone who has not folded has a hand with a value. */
  ghost predicate SomeoneStands(t: Table)
    requires t.Valid()
  {
    exists s :: 0 <= s < |t.ids| && t.active[s] && !t.folded[s] && t.cards[s] >= 0
  }

  lemma WinnersIffSomeoneStands(t: Table, sets: seq<nat>, a: nat)
    requires t.Valid() && |sets| == |t.ids|
    ensures Winners(t, sets, a) != [] <==> SomeoneStands(t)
  {
    StandingWins(t, sets, 0);
    StandingWins(t, sets, a);
  }

  lemma StandingWins(t: Table, sets: seq<nat>, a: nat)
    requires t.Valid() && |sets| == |t.ids|
    ensures LevelWinners(t, sets, a) != [] <==> exists s :: 0 <= s < |t.ids| && Contends(t, sets, a, s) && t.cards[s] >= 0
  {
    var n := |t.ids|;
    var b, w := Best(t, sets, a, n), LevelWinners(t, sets, a);
    if w != [] {
      assert w[0] in w;
    }
    if s :| 0 <= s < n && Contends(t, sets, a, s) && t.cards[s] >= 0 {
      assert t.cards[s] <= b;
      var x := if b == 0 then s else var y :| 0 <= y < n && Contends(t, sets, a, y) && t.cards[y] == b; y;
      assert x in w;
    }
  }

  /** A level is paid out when it is the last one for one of its winners. */
  predicate Final(t: Table, sets: seq<nat>, a: nat)
    requires t.Valid() && |sets| == |t.ids|
  {
    var w := LevelWinners(t, sets, a);
    w == [] || exists j :: 0 <= j < |w| && sets[w[j]] == a
  }

  // ---------------------------------------------------------------------------------------------
  // Payment.

  /** The winners clockwise of the dealer. */
  function PayOrder(w: seq<nat>, dealer: nat): (r: seq<nat>)
    ensures |r| == |w| && forall j :: 0 <= j < |r| ==> r[j] == w[Turn(Rank(w, dealer), j, |w|)]
  {
    seq(|w|, j requires 0 <= j < |w| => w[Turn(Rank(w, dealer), j, |w|)])
  }

  function Given(l: Ledger, ids: seq<nat>, s: nat, d: int): Ledger
    requires s < |ids| == |l.cash| == |l.won|
  {
    Ledger(l.cash[s := l.cash[s] + d], l.won[s := l.won[s] + d], l.winners + {ids[s]}, l.pot)
  }

  /** The first j winners have got their shares, of which the first `odd` are one chip larger. */
  function Shared(l: Ledger, ids: seq<nat>, order: seq<nat>, share: nat, odd: nat, j: nat): (r: Ledger)
    requires |ids| == |l.cash| == |l.won| && j <= |order| && SeatsIn(order, |ids|)
    ensures |r.cash| == |r.won| == |ids| && r.pot == l.pot
  {
    if j == 0 then l
    else Given(Shared(l, ids, order, share, odd, j - 1), ids, order[j - 1], if j - 1 < odd then share + 1 else share)
  }

  ghost predicate SeatsIn(seats: seq<nat>, n: nat) {
    forall i :: 0 <= i < |seats| ==> seats[i] < n
  }

  lemma {:induction false} SharedSum(l: Ledger, ids: seq<nat>, order: seq<nat>, share: nat, odd: nat, j: nat)
    requires |ids| == |l.cash| == |l.won| && j <= |order| && SeatsIn(order, |ids|)
    ensures var r, total := Shared(l, ids, order, share, odd, j), share * j + if j < odd then j else odd;
            Sum(r.cash) == Sum(l.cash) + total && Sum(r.won) == Sum(l.won) + total
  {
    hide Sum;
    if j > 0 {
      SharedSum(l, ids, order, share, odd, j - 1);
      GivenSum(Shared(l, ids, order, share, odd, j - 1), ids, order[j - 1], if j - 1 < odd then share + 1 else share);
      OneMoreShare(share, j);
      hide Shared, Given;
    }
  }

  lemma GivenSum(l: Ledger, ids: seq<nat>, s: nat, d: int)
    requires s < |ids| == |l.cash| == |l.won|
    ensures Sum(Given(l, ids, s, d).cash) == Sum(l.cash) + d && Sum(Given(l, ids, s, d).won) == Sum(l.won) + d
  {
    hide Sum;
    SumUpdate(l.cash, s, d);
    SumUpdate(l.won, s, d);
  }

  lemma OneMoreShare(share: nat, j: nat)
    requires j > 0
    ensures share * j == share * (j - 1) + share
  {
  }

  /** Each seat of the order, if no seat is in it twice, gets its share once; no other seat gets
      anything. */
  lemma {:induction false} SharedEach(l: Ledger, ids: seq<nat>, order: seq<nat>, share: nat, odd: nat, j: nat)
    requires |ids| == |l.cash| == |l.won| && j <= |order| && SeatsIn(order, |ids|)
    requires forall x, y :: 0 <= x < y < |order| ==> order[x] != order[y]
    ensures var r := Shared(l, ids, order, share, odd, j);
            && (forall s :: 0 <= s < |ids| && s !in order[..j] ==> r.won[s] == l.won[s] && r.cash[s] == l.cash[s])
            && forall x :: 0 <= x < j ==>
                 var d := if x < odd then share + 1 else share;
                 r.won[order[x]] == l.won[order[x]] + d && r.cash[order[x]] == l.cash[order[x]] + d
  {
    if j > 0 {
      SharedEach(l, ids, order, share, odd, j - 1);
      assert order[..j] == order[..j - 1] + [order[j - 1]];
      assert order[j - 1] !in order[..j - 1];
      hide SeatsIn;
    }
  }

  /** The level's sum in equal shares; odd chips go to the first winners after the dealer. */
  function Paid(l: Ledger, ids: seq<nat>, w: seq<nat>, dealer: nat, sum: nat): (r: Ledger)
    requires |ids| == |l.cash| == |l.won| && w != [] && SeatList(|ids|, w)
    ensures |r.cash| == |r.won| == |ids|
  {
    var order := if sum % |w| == 0 then w else PayOrder(w, dealer);
    Shared(l, ids, order, sum / |w|, sum % |w|, |w|).(pot := l.pot - sum)
  }

  lemma PaidSum(l: Ledger, ids: seq<nat>, w: seq<nat>, dealer: nat, sum: nat)
    requires |ids| == |l.cash| == |l.won| && w != [] && SeatList(|ids|, w)
    ensures var r := Paid(l, ids, w, dealer, sum);
            Sum(r.cash) == Sum(l.cash) + sum && Sum(r.won) == Sum(l.won) + sum && r.pot == l.pot - sum
  {
    hide Shared, Sum;
    var m := |w|;
    var order := if sum % m == 0 then w else PayOrder(w, dealer);
    assert SeatsIn(order, |ids|);
    QuotientAndRest(sum, m);
    SharedSum(l, ids, order, sum / m, sum % m, m);
  }

  lemma QuotientAndRest(sum: nat, m: nat)
    requires m > 0
    ensures sum / m * m + sum % m == sum && 0 <= sum % m < m
  {
  }

  /** Winners get equal shares, but for one odd chip each at most; the others get nothing. */
  lemma PaidEach(l: Ledger, ids: seq<nat>, w: seq<nat>, dealer: nat, sum: nat)
    requires |ids| == |l.cash| == |l.won| && w != [] && SeatList(|ids|, w)
    ensures var r := Paid(l, ids, w, dealer, sum);
            && (forall s :: 0 <= s < |ids| && s !in w ==> r.won[s] == l.won[s])
            && (forall s :: s in w ==> sum / |w| <= r.won[s] - l.won[s] <= sum / |w| + if sum % |w| == 0 then 0 else 1)
  {
    hide Shared, Rank, Turn, SeatsIn;
    var m := |w|;
    var r := Rank(w, dealer);
    var order := if sum % m == 0 then w else PayOrder(w, dealer);
    OrderIsPermutation(w, r, order, sum % m == 0);
    assert SeatsIn(order, |ids|) by { InOrder(w, order, |ids|); }
    SharedEach(l, ids, order, sum / m, sum % m, m);
    assert order[..m] == order;
    forall s | s in w
      ensures sum / m <= Paid(l, ids, w, dealer, sum).won[s] - l.won[s] <= sum / m + if sum % m == 0 then 0 else 1
    {
      assert s in order;
      var x :| 0 <= x < m && order[x] == s;
    }
  }

  lemma InOrder(w: seq<nat>, order: seq<nat>, n: nat)
    requires SeatList(n, w) && forall s :: s in order <==> s in w
    ensures SeatsIn(order, n)
  {
    forall i | 0 <= i < |order|
      ensures order[i] < n
    {
      assert order[i] in order;
    }
  }

  lemma OrderIsPermutation(w: seq<nat>, r: nat, order: seq<nat>, same: bool)
    requires (forall i, j :: 0 <= i < j < |w| ==> w[i] < w[j]) && |order| == |w| && r <= |w|
    requires if same then order == w else forall j :: 0 <= j < |w| ==> order[j] == w[Turn(r, j, |w|)]
    ensures forall x, y :: 0 <= x < y < |order| ==> order[x] != order[y]
    ensures forall s :: s in order <==> s in w
  {
    var m := |w|;
    if !same {
      forall i | 0 <= i < m
        ensures w[i] in order
      {
        var h := if i >= r then i - r else if r == m then i else i + m - r;
        assert Turn(r, h, m) == i;
        assert order[h] == w[i];
      }
      forall x, y | 0 <= x < y < m
        ensures order[x] != order[y]
      {
        assert Turn(r, x, m) != Turn(r, y, m);
      }
    }
  }

  lemma PaidWithin(l: Ledger, ids: seq<nat>, w: seq<nat>, dealer: nat, sum: nat, s: nat)
    requires |ids| == |l.cash| == |l.won| && w != [] && SeatList(|ids|, w) && s < |ids|
    ensures l.won[s] <= Paid(l, ids, w, dealer, sum).won[s] <= l.won[s] + if s in w then sum else 0
  {
    PaidEach(l, ids, w, dealer, sum);
    ShareWithinSum(sum, |w|);
    hide Paid;
  }

  lemma ShareWithinSum(sum: nat, m: nat)
    requires m > 0
    ensures 0 <= sum / m && sum / m + (if sum % m == 0 then 0 else 1) <= sum
  {
    DivisionBound(sum / m, sum % m, m, sum);
  }

  lemma DivisionBound(q: int, r: int, m: int, sum: int)
    requires m > 0 && q * m + r == sum && 0 <= r < m && sum >= 0
    ensures 0 <= q && q + (if r == 0 then 0 else 1) <= sum
  {
    assert q < 0 ==> q * m <= -m;
    assert q >= 0 ==> q * m >= q;
  }

  // ---------------------------------------------------------------------------------------------
  // The whole distribution.

  datatype Next = Stop | Go(carry: nat, l: Ledger)

  /** One level: paid out, carried over to the next one, or impossible. `dealer` is the dealer's seat, or
      the number of seats if there is none with the dealer's id, in which case odd chips cannot be
      dealt out. */
  function OneLevel(t: Table, dealer: nat, sets: seq<nat>, carry: nat, l: Ledger): (n: Next)
    requires t.Valid() && |sets| == |t.ids| == |l.cash| == |l.won| && Positives(sets) > 0
    ensures n.Go? ==> |n.l.cash| == |n.l.won| == |t.ids|
  {
    var a := MinPositive(sets);
    var sum, w := Take(sets) + carry, Winners(t, sets, a);
    if w == [] then Stop
    else if !Final(t, sets, a) then Go(sum, l)
    else if sum % |w| != 0 && dealer >= |t.ids| then Stop
    else Go(0, Paid(l, t.ids, w, dealer, sum))
  }

  function Distribute(t: Table, dealer: nat, sets: seq<nat>, carry: nat, l: Ledger): (o: Outcome)
    requires t.Valid() && |sets| == |t.ids| == |l.cash| == |l.won|
    ensures |o.l.cash| == |o.l.won| == |t.ids|
    decreases Positives(sets)
  {
    if Positives(sets) == 0 then Outcome(l, false)
    else
      match OneLevel(t, dealer, sets, carry, l)
      case Stop => Outcome(l, true)
      case Go(c, m) => Distribute(t, dealer, Rest(sets), c, m)
  }

  /** The last level is always paid out. */
  lemma LastLevelIsFinal(t: Table, sets: seq<nat>)
    requires t.Valid() && |sets| == |t.ids| && Positives(sets) > 0 && Positives(Rest(sets)) == 0
    ensures Final(t, sets, MinPositive(sets))
  {
    var a := MinPositive(sets);
    NoneLeft(Rest(sets));
    var w := LevelWinners(t, sets, a);
    if w != [] {
      assert w[0] in w;
      assert Contends(t, sets, a, w[0]);
      assert Rest(sets)[w[0]] == 0;
    }
  }

  lemma LevelConserves(t: Table, dealer: nat, sets: seq<nat>, carry: nat, l: Ledger)
    requires t.Valid() && |sets| == |t.ids| == |l.cash| == |l.won| && Positives(sets) > 0
    ensures var n, rest := OneLevel(t, dealer, sets, carry, l), Rest(sets);
            n.Go? ==>
              && (n.carry > 0 ==> Positives(rest) > 0)
              && Sum(n.l.cash) + Sum(rest) + n.carry == Sum(l.cash) + Sum(sets) + carry
              && Sum(n.l.won) + Sum(rest) + n.carry == Sum(l.won) + Sum(sets) + carry
              && n.l.pot - Sum(rest) - n.carry == l.pot - Sum(sets) - carry
  {
    hide Sum, Paid, Take, Rest, Final, Winners;
    var a := MinPositive(sets);
    var w := Winners(t, sets, a);
    LevelSum(sets);
    if w != [] {
      PaidSum(l, t.ids, w, dealer, Take(sets) + carry);
      if Positives(Rest(sets)) == 0 {
        LastLevelIsFinal(t, sets);
      }
    }
  }

  /** Every chip that was put in is paid out, and every chip paid out was put in. */
  lemma {:induction false} ChipsConserved(t: Table, dealer: nat, sets: seq<nat>, carry: nat, l: Ledger)
    requires t.Valid() && |sets| == |t.ids| == |l.cash| == |l.won|
    requires carry > 0 ==> Positives(sets) > 0
    requires !Distribute(t, dealer, sets, carry, l).thrown
    ensures var r := Distribute(t, dealer, sets, carry, l).l;
            && Sum(r.cash) == Sum(l.cash) + Sum(sets) + carry
            && Sum(r.won) == Sum(l.won) + Sum(sets) + carry
            && r.pot == l.pot - Sum(sets) - carry
    decreases Positives(sets)
  {
    hide OneLevel, Sum, Rest;
    if Positives(sets) == 0 {
      SumOfNothing(sets);
    } else {
      LevelConserves(t, dealer, sets, carry, l);
      var n := OneLevel(t, dealer, sets, carry, l);
      ChipsConserved(t, dealer, Rest(sets), n.carry, n.l);
    }
  }

  lemma {:induction false} SumOfNothing(sets: seq<nat>)
    requires Positives(sets) == 0
    ensures Sum(sets) == 0
  {
    if sets != [] {
      SumOfNothing(sets[1..]);
    }
  }

  /** With the dealer at the table the distribution fails if and only if there is something to
      distribute and nobody to take it. */
  lemma {:induction false} FailsIffNobodyStands(t: Table, dealer: nat, sets: seq<nat>, carry: nat, l: Ledger)
    requires t.Valid() && |sets| == |t.ids| == |l.cash| == |l.won| && dealer < |t.ids|
    ensures Distribute(t, dealer, sets, carry, l).thrown <==> Positives(sets) > 0 && !SomeoneStands(t)
    decreases Positives(sets)
  {
    hide OneLevel, SomeoneStands, Rest;
    if Positives(sets) > 0 {
      var n := OneLevel(t, dealer, sets, carry, l);
      assert n.Stop? <==> !SomeoneStands(t) by { StopsIffNobodyStands(t, dealer, sets, carry, l); }
      if n.Go? {
        FailsIffNobodyStands(t, dealer, Rest(sets), n.carry, n.l);
      }
    }
  }

  lemma StopsIffNobodyStands(t: Table, dealer: nat, sets: seq<nat>, carry: nat, l: Ledger)
    requires t.Valid() && |sets| == |t.ids| == |l.cash| == |l.won| && Positives(sets) > 0 && dealer < |t.ids|
    ensures OneLevel(t, dealer, sets, carry, l).Stop? <==> !SomeoneStands(t)
  {
    WinnersIffSomeoneStands(t, sets, MinPositive(sets));
    hide Winners, Final, SomeoneStands, Paid, Take;
  }

  /** A seat that cannot win: not in the game, or folded. */
  lemma {:induction false} FoldedWinNothing(t: Table, dealer: nat, sets: seq<nat>, carry: nat, l: Ledger, s: nat)
    requires t.Valid() && |sets| == |t.ids| == |l.cash| == |l.won| && s < |t.ids|
    requires !t.active[s] || t.folded[s]
    ensures Distribute(t, dealer, sets, carry, l).l.won[s] == l.won[s]
    decreases Positives(sets)
  {
    hide OneLevel, Rest;
    if Positives(sets) > 0 {
      var n := OneLevel(t, dealer, sets, carry, l);
      if n.Go? {
        LevelPays(t, dealer, sets, carry, l, s);
        FoldedWinNothing(t, dealer, Rest(sets), n.carry, n.l, s);
      }
    }
  }

  lemma WinnersStand(t: Table, sets: seq<nat>, a: nat, s: nat)
    requires t.Valid() && |sets| == |t.ids| && s < |sets|
    ensures s in Winners(t, sets, a) ==> t.active[s] && !t.folded[s]
  {
    hide With, Best;
  }

  /** What one level can bring a seat: nothing unless it is among its winners. */
  lemma LevelPays(t: Table, dealer: nat, sets: seq<nat>, carry: nat, l: Ledger, s: nat)
    requires t.Valid() && |sets| == |t.ids| == |l.cash| == |l.won| && Positives(sets) > 0 && s < |t.ids|
    ensures var n := OneLevel(t, dealer, sets, carry, l);
            n.Go? ==>
              && n.carry <= Take(sets) + carry
              && 0 <= n.l.won[s] - l.won[s]
              && n.l.won[s] - l.won[s] + n.carry <= Take(sets) + carry
              && (s !in Winners(t, sets, MinPositive(sets)) ==> n.l.won[s] == l.won[s])
    ensures s in Winners(t, sets, MinPositive(sets)) ==> t.active[s] && !t.folded[s]
  {
    hide Winners, Final, Paid, Take;
    WinnersStand(t, sets, MinPositive(sets), s);
    var w := Winners(t, sets, MinPositive(sets));
    if w != [] {
      PaidWithin(l, t.ids, w, dealer, Take(sets) + carry, s);
    }
  }
}
