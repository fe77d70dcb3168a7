/** Ties: how much each of several winners gets, odd chips included, said by where they sit. */
module OddChips {
  import opened Dealer
  import opened Pot
  import opened SidePots

  /** The winners who sit strictly before seat x, going clockwise from the dealer, who comes last himself. */
  function Ahead(w: seq<nat>, dealer: nat, n: nat, x: nat): set<nat>
    requires dealer < n && x < n && forall i :: 0 <= i < |w| ==> w[i] < n
  {
    set y | y in w && y < n && Distance(dealer, y, n) < Distance(dealer, x, n)
  }

  /** What winner x gets of a sum: an equal share, and one of the odd chips if fewer winners than there are odd
      chips sit before it. */
  function Share(w: seq<nat>, dealer: nat, n: nat, x: nat, sum: nat): nat
    requires dealer < n && x < n && w != [] && forall i :: 0 <= i < |w| ==> w[i] < n
  {
    sum / |w| + if |Ahead(w, dealer, n, x)| < sum % |w| then 1 else 0
  }

  /** Behind the dealer first, then from seat 0 on up to the dealer. */
  lemma DistanceOf(w: seq<nat>, n: nat, dealer: nat, i: nat)
    requires SeatList(n, w) && dealer < n && i < |w|
    ensures Distance(dealer, w[i], n) == if i < Rank(w, dealer) then n + w[i] - dealer else w[i] - dealer
  {
  }

  /** The order of payment is the order of the distance from the dealer. */
  lemma OrderByDistance(w: seq<nat>, n: nat, dealer: nat, i: nat, j: nat)
    requires SeatList(n, w) && dealer < n && i < j < |w|
    ensures PayOrder(w, dealer)[i] < n && PayOrder(w, dealer)[j] < n
    ensures Distance(dealer, PayOrder(w, dealer)[i], n) < Distance(dealer, PayOrder(w, dealer)[j], n)
  {
    var r, m := Rank(w, dealer), |w|;
    DistanceOf(w, n, dealer, Turn(r, i, m));
    DistanceOf(w, n, dealer, Turn(r, j, m));
    hide Distance, Rank;
  }

  function Elements(order: seq<nat>): set<nat> {
    set y | y in order
  }

  /** In a list without repetition, as many come before a place as it says. */
  lemma {:induction false} FirstOf(order: seq<nat>, j: nat)
    requires j <= |order| && forall x, y :: 0 <= x < y < |order| ==> order[x] != order[y]
    ensures |Elements(order[..j])| == j
  {
    if j > 0 {
      FirstOf(order, j - 1);
      assert order[..j] == order[..j - 1] + [order[j - 1]];
      assert Elements(order[..j]) == Elements(order[..j - 1]) + {order[j - 1]};
      assert order[j - 1] !in order[..j - 1];
    }
  }

  /** So many winners sit before the j-th to be paid. */
  lemma AheadOfOrder(w: seq<nat>, n: nat, dealer: nat, j: nat)
    requires SeatList(n, w) && dealer < n && j < |w|
    ensures PayOrder(w, dealer)[j] < n && |Ahead(w, dealer, n, PayOrder(w, dealer)[j])| == j
  {
    var order := PayOrder(w, dealer);
    OrderIsPermutation(w, Rank(w, dealer), order, false);
    FirstOf(order, j);
    hide PayOrder, Rank, Turn;
    assert order[j] in w;
    forall i | 0 <= i < |order|
      ensures order[i] in Ahead(w, dealer, n, order[j]) <==> i < j
    {
      assert order[i] in w;
      if i < j {
        OrderByDistance(w, n, dealer, i, j);
      } else if i > j {
        OrderByDistance(w, n, dealer, j, i);
      }
      hide Distance;
    }
    FirstAreAhead(order, j, Ahead(w, dealer, n, order[j]));
  }

  lemma FirstAreAhead(order: seq<nat>, j: nat, ahead: set<nat>)
    requires j < |order| && (forall y :: y in ahead ==> y in order)
    requires forall i :: 0 <= i < |order| ==> (order[i] in ahead <==> i < j)
    ensures ahead == Elements(order[..j])
  {
    forall y | y in ahead
      ensures y in order[..j]
    {
      var i :| 0 <= i < |order| && order[i] == y;
      assert order[..j][i] == y;
    }
    forall y | y in order[..j]
      ensures y in ahead
    {
      var i :| 0 <= i < j && order[..j][i] == y;
      assert order[i] == y;
    }
  }

  // ---------------------------------------------------------------------------------------------
  // One payment.

  /** When a sum is paid to winners, each of them gets its share by where it sits, and nobody else gets
      anything; without odd chips the dealer makes no difference. */
  lemma PaidByDistance(l: Ledger, ids: seq<nat>, w: seq<nat>, dealer: nat, sum: nat, x: nat)
    requires |ids| == |l.cash| == |l.won| && w != [] && SeatList(|ids|, w) && dealer < |ids| && x < |ids|
    ensures var r, gain := Paid(l, ids, w, dealer, sum), if x in w then Share(w, dealer, |ids|, x, sum) else 0;
            r.won[x] == l.won[x] + gain && r.cash[x] == l.cash[x] + gain
  {
    var q, odd, order := PaidInOrder(l, ids, w, dealer, sum);
    hide *;
    OrderFacts(w, |ids|, dealer, odd, order);
    SharedTo(l, ids, order, q, odd, x);
    if x in w {
      assert x in order;
      var j :| 0 <= j < |order| && order[j] == x;
      ShareOfPlace(w, dealer, |ids|, x, sum, q, odd, order, j);
    }
  }

  lemma PaidInOrder(l: Ledger, ids: seq<nat>, w: seq<nat>, dealer: nat, sum: nat) returns (q: nat, odd: nat, order: seq<nat>)
    requires |ids| == |l.cash| == |l.won| && w != [] && SeatList(|ids|, w)
    ensures q == sum / |w| && odd == sum % |w| && order == if odd == 0 then w else PayOrder(w, dealer)
    ensures SeatsIn(order, |ids|) && Paid(l, ids, w, dealer, sum) == Shared(l, ids, order, q, odd, |order|).(pot := l.pot - sum)
  {
    q, odd := sum / |w|, sum % |w|;
    order := if odd == 0 then w else PayOrder(w, dealer);
    assert SeatsIn(order, |ids|) by { OrderFacts(w, |ids|, dealer, odd, order); }
    hide PayOrder, Shared, SeatsIn, SeatList;
  }

  lemma OrderFacts(w: seq<nat>, n: nat, dealer: nat, odd: nat, order: seq<nat>)
    requires SeatList(n, w) && order == if odd == 0 then w else PayOrder(w, dealer)
    ensures |order| == |w| && SeatsIn(order, n) && forall s :: s in order <==> s in w
    ensures forall x, y :: 0 <= x < y < |order| ==> order[x] != order[y]
  {
    OrderIsPermutation(w, Rank(w, dealer), order, odd == 0);
    InOrder(w, order, n);
  }

  lemma SharedTo(l: Ledger, ids: seq<nat>, order: seq<nat>, share: nat, odd: nat, x: nat)
    requires |ids| == |l.cash| == |l.won| && SeatsIn(order, |ids|) && x < |ids|
    requires forall i, j :: 0 <= i < j < |order| ==> order[i] != order[j]
    ensures var r := Shared(l, ids, order, share, odd, |order|);
            && (x !in order ==> r.won[x] == l.won[x] && r.cash[x] == l.cash[x])
            && forall j :: 0 <= j < |order| && order[j] == x ==>
                 var d := if j < odd then share + 1 else share;
                 r.won[x] == l.won[x] + d && r.cash[x] == l.cash[x] + d
  {
    hide Shared, SeatsIn;
    SharedEach(l, ids, order, share, odd, |order|);
    assert order[..|order|] == order;
  }

  lemma ShareOfPlace(w: seq<nat>, dealer: nat, n: nat, x: nat, sum: nat, q: nat, odd: nat, order: seq<nat>, j: nat)
    requires SeatList(n, w) && w != [] && dealer < n && x < n && j < |w| == |order| && order[j] == x
    requires q == sum / |w| && odd == sum % |w| && order == if odd == 0 then w else PayOrder(w, dealer)
    ensures Share(w, dealer, n, x, sum) == if j < odd then q + 1 else q
  {
    hide PayOrder, Ahead;
    if odd != 0 {
      AheadOfOrder(w, n, dealer, j);
    }
  }

  /** The same of a level: it is paid out when it is the last one for one of its winners, who then share what
      it takes and what was carried over. */
  lemma LevelPaysByDistance(t: Table, dealer: nat, sets: seq<nat>, carry: nat, l: Ledger, x: nat)
    requires t.Valid() && |sets| == |t.ids| == |l.cash| == |l.won| && Positives(sets) > 0 && dealer < |t.ids| && x < |t.ids|
    requires Final(t, sets, MinPositive(sets)) && Winners(t, sets, MinPositive(sets)) != []
    ensures var n, w := OneLevel(t, dealer, sets, carry, l), Winners(t, sets, MinPositive(sets));
            var gain := if x in w then Share(w, dealer, |t.ids|, x, Take(sets) + carry) else 0;
            n.Go? && n.carry == 0 && n.l.won[x] == l.won[x] + gain && n.l.cash[x] == l.cash[x] + gain
  {
    var w := Winners(t, sets, MinPositive(sets));
    hide Winners, Final, Paid, Share, Take, MinPositive, Positives;
    PaidOut(t, dealer, sets, carry, l);
    hide OneLevel, SeatList;
    PaidByDistance(l, t.ids, w, dealer, Take(sets) + carry, x);
  }

  lemma PaidOut(t: Table, dealer: nat, sets: seq<nat>, carry: nat, l: Ledger)
    requires t.Valid() && |sets| == |t.ids| == |l.cash| == |l.won| && Positives(sets) > 0 && dealer < |t.ids|
    requires Final(t, sets, MinPositive(sets)) && Winners(t, sets, MinPositive(sets)) != []
    ensures OneLevel(t, dealer, sets, carry, l) == Go(0, Paid(l, t.ids, Winners(t, sets, MinPositive(sets)), dealer, Take(sets) + carry))
  {
    hide Winners, Final, Paid, Take, MinPositive, Positives, SeatList;
  }

  // ---------------------------------------------------------------------------------------------
  // A tie.

  /** The seats in w hold the best hand of all who stand. */
  ghost predicate BestHands(t: Table, w: seq<nat>)
    requires t.Valid()
  {
    && w != [] && SeatList(|t.ids|, w)
    && forall x :: x in w <==> 0 <= x < |t.ids| && Stands(t, x) && forall y :: 0 <= y < |t.ids| && Stands(t, y) ==> t.cards[y] <= t.cards[x]
  }

  /** They do, and all have the same amount in. */
  ghost predicate Tied(t: Table, sets: seq<nat>, w: seq<nat>, c: nat)
    requires t.Valid() && |sets| == |t.ids|
  {
    BestHands(t, w) && forall x :: x in w && x < |t.ids| ==> sets[x] == c
  }

  lemma {:induction false} SameMembers(v: seq<nat>, w: seq<nat>, n: nat)
    requires SeatList(n, v) && SeatList(n, w) && forall x :: x in v <==> x in w
    ensures v == w
  {
    assert v != [] ==> v[0] in v;
    assert w != [] ==> w[0] in w;
    if v != [] {
      var i :| 0 <= i < |w| && w[i] == v[0];
      var j :| 0 <= j < |v| && v[j] == w[0];
      assert v[0] == w[0];
      TailMembers(v, w);
      TailMembers(w, v);
      SameMembers(v[1..], w[1..], n);
      assert v == [v[0]] + v[1..] && w == [w[0]] + w[1..];
    }
  }

  lemma TailMembers(v: seq<nat>, w: seq<nat>)
    requires v != [] && w != [] && v[0] == w[0] && (forall x :: x in v ==> x in w)
    requires forall i, j :: 0 <= i < j < |v| ==> v[i] < v[j]
    ensures forall x :: x in v[1..] ==> x in w[1..]
  {
    forall x | x in v[1..]
      ensures x in w[1..]
    {
      var k :| 0 <= k < |v[1..]| && v[1..][k] == x;
      assert v[k + 1] == x && x in v && x != v[0];
      var i :| 0 <= i < |w| && w[i] == x;
      assert w[1..][i - 1] == x;
    }
  }

  /** While they are in, they are the winners of a level. */
  lemma TiedWin(t: Table, sets: seq<nat>, w: seq<nat>, c: nat, a: nat)
    requires t.Valid() && |sets| == |t.ids| && Tied(t, sets, w, c) && a <= c
    ensures LevelWinners(t, sets, a) == Winners(t, sets, a) == w
  {
    var v, b := LevelWinners(t, sets, a), Best(t, sets, a, |t.ids|);
    var x := w[0];
    assert x in w && Contends(t, sets, a, x) && t.cards[x] >= 0;
    forall s
      ensures s in v <==> s in w
    {
      if s in v {
        assert t.cards[x] <= t.cards[s];
        assert Stands(t, s);
        assert forall y :: 0 <= y < |t.ids| && Stands(t, y) ==> t.cards[y] <= t.cards[x];
      }
      if s in w {
        assert Contends(t, sets, a, s);
        if b > 0 {
          var y :| 0 <= y < |t.ids| && Contends(t, sets, a, y) && t.cards[y] == b;
          assert Stands(t, y);
        }
      }
    }
    SameMembers(v, w, |t.ids|);
  }

  lemma TiedAfterLevel(t: Table, sets: seq<nat>, w: seq<nat>, c: nat)
    requires t.Valid() && |sets| == |t.ids| && Positives(sets) > 0 && Tied(t, sets, w, c) && c > 0
    ensures c >= MinPositive(sets) && Tied(t, Rest(sets), w, c - MinPositive(sets))
  {
    assert w[0] in w && sets[w[0]] == c;
    hide BestHands, MinPositive, Rest, Positives;
  }

  /** What a level makes of a tie: nothing yet, or the side pot is shared. */
  lemma TiedLevel(t: Table, dealer: nat, sets: seq<nat>, carry: nat, l: Ledger, w: seq<nat>, c: nat)
    requires t.Valid() && |sets| == |t.ids| == |l.cash| == |l.won| && Positives(sets) > 0 && Tied(t, sets, w, c) && c > 0
    ensures c > MinPositive(sets) ==> OneLevel(t, dealer, sets, carry, l) == Go(Take(sets) + carry, l)
    ensures c == MinPositive(sets) ==> Final(t, sets, MinPositive(sets)) && Winners(t, sets, MinPositive(sets)) == w
  {
    TiedAfterLevel(t, sets, w, c);
    var a := MinPositive(sets);
    TiedWin(t, sets, w, c, a);
    assert Final(t, sets, a) <==> c == a by {
      assert forall j :: 0 <= j < |w| ==> w[j] in w && sets[w[j]] == c;
      if c == a {
        assert sets[w[0]] == a;
      }
    }
    hide Winners, LevelWinners, Final, Tied, Paid, Take;
  }

  /** While somebody who stands covers everyone, who has nothing in gets nothing. */
  lemma {:induction false} NothingInNothingWon(t: Table, dealer: nat, sets: seq<nat>, carry: nat, l: Ledger, x: nat)
    requires t.Valid() && |sets| == |t.ids| == |l.cash| == |l.won| && x < |t.ids| && sets[x] == 0 && Covered(t, sets)
    ensures Distribute(t, dealer, sets, carry, l).l.won[x] == l.won[x]
    decreases Positives(sets)
  {
    hide OneLevel, Rest, Covered;
    if Positives(sets) > 0 {
      var n := OneLevel(t, dealer, sets, carry, l);
      if n.Go? {
        NotAmongWinners(t, sets, x);
        LevelPays(t, dealer, sets, carry, l, x);
        CoveredAfterLevel(t, sets);
        NothingInNothingWon(t, dealer, Rest(sets), n.carry, n.l, x);
      }
    }
  }

  lemma NotAmongWinners(t: Table, sets: seq<nat>, x: nat)
    requires t.Valid() && |sets| == |t.ids| && Positives(sets) > 0 && x < |t.ids| && sets[x] == 0 && Covered(t, sets)
    ensures x !in Winners(t, sets, MinPositive(sets))
  {
    var a := MinPositive(sets);
    StandingWins(t, sets, a);
    var s :| 0 <= s < |t.ids| && Stands(t, s) && forall i :: 0 <= i < |sets| ==> sets[i] <= sets[s];
    assert Contends(t, sets, a, s);
    hide Best, With;
  }

  lemma CoveredAfterLevel(t: Table, sets: seq<nat>)
    requires t.Valid() && |sets| == |t.ids| && Positives(sets) > 0 && Covered(t, sets)
    ensures Covered(t, Rest(sets))
  {
    var s :| 0 <= s < |t.ids| && Stands(t, s) && forall i :: 0 <= i < |sets| ==> sets[i] <= sets[s];
    var r := Rest(sets);
    hide Stands, MinPositive;
    assert forall i :: 0 <= i < |r| ==> r[i] <= r[s];
  }

  lemma {:induction false} WonNeverLess(t: Table, dealer: nat, sets: seq<nat>, carry: nat, l: Ledger, x: nat)
    requires t.Valid() && |sets| == |t.ids| == |l.cash| == |l.won| && x < |t.ids|
    ensures Distribute(t, dealer, sets, carry, l).l.won[x] >= l.won[x]
    decreases Positives(sets)
  {
    hide OneLevel, Rest;
    if Positives(sets) > 0 {
      var n := OneLevel(t, dealer, sets, carry, l);
      if n.Go? {
        LevelPays(t, dealer, sets, carry, l, x);
        WonNeverLess(t, dealer, Rest(sets), n.carry, n.l, x);
      }
    }
  }

  /** What a paid level leaves to be distributed. */
  lemma AfterPaidLevel(t: Table, dealer: nat, sets: seq<nat>, carry: nat, l: Ledger, x: nat)
    requires t.Valid() && |sets| == |t.ids| == |l.cash| == |l.won| && x < |t.ids| && Positives(sets) > 0
    requires Rest(sets)[x] == 0 && OneLevel(t, dealer, sets, carry, l).Go?
    ensures var n, won := OneLevel(t, dealer, sets, carry, l), Distribute(t, dealer, sets, carry, l).l.won[x];
            won >= n.l.won[x] && (Covered(t, sets) ==> won == n.l.won[x])
  {
    var n := OneLevel(t, dealer, sets, carry, l);
    hide OneLevel, Rest, Covered;
    assert Distribute(t, dealer, sets, carry, l) == Distribute(t, dealer, Rest(sets), n.carry, n.l);
    hide Distribute;
    WonNeverLess(t, dealer, Rest(sets), n.carry, n.l, x);
    if Covered(t, sets) {
      CoveredAfterLevel(t, sets);
      NothingInNothingWon(t, dealer, Rest(sets), n.carry, n.l, x);
    }
  }

  /** The level at which a tie is paid. */
  lemma TiePaid(t: Table, dealer: nat, sets: seq<nat>, carry: nat, l: Ledger, w: seq<nat>, x: nat)
    requires t.Valid() && |sets| == |t.ids| == |l.cash| == |l.won| && dealer < |t.ids| && Positives(sets) > 0
    requires Tied(t, sets, w, MinPositive(sets)) && x in w && x < |t.ids|
    ensures var gain := Share(w, dealer, |t.ids|, x, carry + SidePot(sets, MinPositive(sets)));
            && Distribute(t, dealer, sets, carry, l).l.won[x] >= l.won[x] + gain
            && (Covered(t, sets) ==> Distribute(t, dealer, sets, carry, l).l.won[x] == l.won[x] + gain)
  {
    hide OneLevel, Winners, Final, Rest, Take, SidePot, Tied, Covered, Share, Positives, SeatList, Distribute;
    var a, rest := MinPositive(sets), Rest(sets);
    hide MinPositive;
    StillIn(t, sets, w, a);
    TiedLevel(t, dealer, sets, carry, l, w, a);
    TiedAfterLevel(t, sets, w, a);
    TiedOut(t, rest, w, x);
    LevelSidePot(sets, a);
    SidePotOfNothing(rest);
    LevelPaysByDistance(t, dealer, sets, carry, l, x);
    AfterPaidLevel(t, dealer, sets, carry, l, x);
  }

  /** Players who tie for the best hand with the same amount in share their side pot, and each odd chip goes to
      the next of them clockwise of the dealer. They get no more if somebody who stands covers everyone. */
  lemma {:induction false} TieSharesSidePot(t: Table, dealer: nat, sets: seq<nat>, carry: nat, l: Ledger, w: seq<nat>, c: nat, x: nat)
    requires t.Valid() && |sets| == |t.ids| == |l.cash| == |l.won| && dealer < |t.ids| && Tied(t, sets, w, c) && c > 0 && x in w && x < |t.ids|
    ensures var gain := Share(w, dealer, |t.ids|, x, carry + SidePot(sets, c));
            && Distribute(t, dealer, sets, carry, l).l.won[x] >= l.won[x] + gain
            && (Covered(t, sets) ==> Distribute(t, dealer, sets, carry, l).l.won[x] == l.won[x] + gain)
    decreases Positives(sets)
  {
    hide OneLevel, Rest, Take, MinPositive, SidePot, Tied, Covered, Share, Positives, Distribute, SeatList;
    StillIn(t, sets, w, c);
    TiedAfterLevel(t, sets, w, c);
    if c > MinPositive(sets) {
      TieCarried(t, dealer, sets, carry, l, w, c);
      LevelSidePot(sets, c);
      if Covered(t, sets) {
        CoveredAfterLevel(t, sets);
      }
      TieSharesSidePot(t, dealer, Rest(sets), Take(sets) + carry, l, w, c - MinPositive(sets), x);
    } else {
      TiePaid(t, dealer, sets, carry, l, w, x);
    }
  }

  lemma StillIn(t: Table, sets: seq<nat>, w: seq<nat>, c: nat)
    requires t.Valid() && |sets| == |t.ids| && Tied(t, sets, w, c) && c > 0
    ensures Positives(sets) > 0 && w != [] && SeatList(|t.ids|, w)
  {
    NoneLeft(sets);
    assert w[0] in w;
  }

  /** After a level the rest is distributed. */
  lemma Onward(t: Table, dealer: nat, sets: seq<nat>, carry: nat, l: Ledger)
    requires t.Valid() && |sets| == |t.ids| == |l.cash| == |l.won| && Positives(sets) > 0 && OneLevel(t, dealer, sets, carry, l).Go?
    ensures var n := OneLevel(t, dealer, sets, carry, l);
            Distribute(t, dealer, sets, carry, l) == Distribute(t, dealer, Rest(sets), n.carry, n.l)
  {
    hide OneLevel, Rest;
  }

  /** A level below the tied amount is carried over. */
  lemma TieCarried(t: Table, dealer: nat, sets: seq<nat>, carry: nat, l: Ledger, w: seq<nat>, c: nat)
    requires t.Valid() && |sets| == |t.ids| == |l.cash| == |l.won| && Positives(sets) > 0 && Tied(t, sets, w, c) && c > MinPositive(sets)
    ensures Distribute(t, dealer, sets, carry, l) == Distribute(t, dealer, Rest(sets), Take(sets) + carry, l)
  {
    hide OneLevel, Rest, Take, MinPositive, Tied, Positives, Distribute;
    TiedLevel(t, dealer, sets, carry, l, w, c);
    Onward(t, dealer, sets, carry, l);
  }

  lemma TiedOut(t: Table, rest: seq<nat>, w: seq<nat>, x: nat)
    requires t.Valid() && |rest| == |t.ids| && Tied(t, rest, w, 0) && x in w && x < |t.ids|
    ensures rest[x] == 0
  {
  }

  /** An odd chip: the first and the third of three seats tie, the second has folded with one chip in, the third
      is the dealer. The first gets three of the five chips. */
  lemma NextAfterDealerGetsOddChip(l: Ledger)
    requires |l.cash| == |l.won| == 3
    ensures var t := Table([1, 2, 3], [true, true, true], [false, true, false], [7, 5, 7]);
            var r := Distribute(t, 2, [2, 1, 2], 0, l).l;
            r.won[0] == l.won[0] + 3 && r.won[2] == l.won[2] + 2
  {
    var t, sets: seq<nat>, w: seq<nat> := Table([1, 2, 3], [true, true, true], [false, true, false], [7, 5, 7]), [2, 1, 2], [0, 2];
    hide Distribute, SidePot, Ahead, Share, Tied, Covered;
    TieOfTwo(t, sets, w);
    FiveChips(w);
    TieSharesSidePot(t, 2, sets, 0, l, w, 2, 0);
    TieSharesSidePot(t, 2, sets, 0, l, w, 2, 2);
  }

  lemma TieOfTwo(t: Table, sets: seq<nat>, w: seq<nat>)
    requires t == Table([1, 2, 3], [true, true, true], [false, true, false], [7, 5, 7]) && sets == [2, 1, 2] && w == [0, 2]
    ensures t.Valid() && Tied(t, sets, w, 2) && Covered(t, sets) && 0 in w && 2 in w
  {
    assert w[0] == 0 && w[1] == 2;
    assert Stands(t, 0) && Stands(t, 2) && !Stands(t, 1);
    hide Stands;
  }

  lemma FiveChips(w: seq<nat>)
    requires w == [0, 2]
    ensures SidePot([2, 1, 2], 2) == 5 && Share(w, 2, 3, 0, 5) == 3 && Share(w, 2, 3, 2, 5) == 2
  {
    var sets: seq<nat> := [2, 1, 2];
    assert sets[1..] == [1, 2] && sets[1..][1..] == [2] && sets[1..][1..][1..] == [];
    assert w[0] == 0 && w[1] == 2;
    assert Ahead(w, 2, 3, 0) == {};
    assert Ahead(w, 2, 3, 2) == {0};
  }

  // ---------------------------------------------------------------------------------------------
  // Cash.

  lemma {:induction false} SharedAlike(l: Ledger, ids: seq<nat>, order: seq<nat>, share: nat, odd: nat, j: nat, x: nat)
    requires |ids| == |l.cash| == |l.won| && j <= |order| && SeatsIn(order, |ids|) && x < |ids|
    ensures var r := Shared(l, ids, order, share, odd, j); r.cash[x] - l.cash[x] == r.won[x] - l.won[x]
  {
    if j > 0 {
      SharedAlike(l, ids, order, share, odd, j - 1, x);
    }
  }

  lemma LevelAlike(t: Table, dealer: nat, sets: seq<nat>, carry: nat, l: Ledger, x: nat)
    requires t.Valid() && |sets| == |t.ids| == |l.cash| == |l.won| && Positives(sets) > 0 && x < |t.ids|
    ensures var n := OneLevel(t, dealer, sets, carry, l); n.Go? ==> n.l.cash[x] - l.cash[x] == n.l.won[x] - l.won[x]
  {
    var w := Winners(t, sets, MinPositive(sets));
    hide Winners, Final, Take, MinPositive, Shared;
    if w != [] {
      var q, odd, order := PaidInOrder(l, t.ids, w, dealer, Take(sets) + carry);
      hide Paid;
      SharedAlike(l, t.ids, order, q, odd, |order|, x);
    }
  }

  /** The cash of a seat grows by what it wins. */
  lemma {:induction false} WinningsAreCashed(t: Table, dealer: nat, sets: seq<nat>, carry: nat, l: Ledger, x: nat)
    requires t.Valid() && |sets| == |t.ids| == |l.cash| == |l.won| && x < |t.ids|
    ensures var r := Distribute(t, dealer, sets, carry, l).l; r.cash[x] - l.cash[x] == r.won[x] - l.won[x]
    decreases Positives(sets)
  {
    hide OneLevel, Rest;
    if Positives(sets) > 0 {
      var n := OneLevel(t, dealer, sets, carry, l);
      if n.Go? {
        LevelAlike(t, dealer, sets, carry, l, x);
        WinningsAreCashed(t, dealer, Rest(sets), n.carry, n.l, x);
      }
    }
  }
}
