/** How the small blind rises from hand to hand. */
module Blinds {
  import opened GameDefs

  newtype int32 = x: int | -0x8000_0000 <= x < 0x8000_0000
  newtype int64 = x: int | -0x8000_0000_0000_0000 <= x < 0x8000_0000_0000_0000


  datatype RaiseIntervalMode = OnHandNumber | OnMinutes
  datatype RaiseMode = DoubleBlinds | ManualBlindsOrder
  datatype AfterManualBlindsMode = DoubleAfter | RaiseAbout | StayAtLastBlind

  datatype GameData = GameData(
    raiseIntervalMode: RaiseIntervalMode, everyHands: int32, everyMinutes: int32,
    raiseMode: RaiseMode, afterManualBlindsMode: AfterManualBlindsMode, afterMBAlwaysRaiseValue: int32,
    startQuantityPlayers: int32, startCash: int32)

  function Min(a: int, b: int): int {
    if a <= b then a else b
  }

  /** Half of the chips in play. */
  function MaxBlind(g: GameData): int {
    Min(g.startQuantityPlayers as int * g.startCash as int / 2, INT_MAX)
  }

  /** Numbers of players, chips and blinds are not negative. */
  predicate SaneData(g: GameData) {
    0 <= g.startQuantityPlayers && 0 <= g.startCash && 0 <= g.afterMBAlwaysRaiseValue
  }

  ghost predicate SaneList(bs: seq<int32>) {
    forall i :: 0 <= i < |bs| ==> 0 <= bs[i]
  }

  /** The blind, what is left of the manual order, and when it was last raised. */
  datatype BlindState = BlindState(blind: int, order: seq<int32>, lastHand: int, lastTime: int)

  predicate Fires(g: GameData, s: BlindState, hand: int, minutes: int) {
    if g.raiseIntervalMode.OnHandNumber? then s.lastHand + g.everyHands as int <= hand
    else s.lastTime + g.everyMinutes as int <= minutes
  }

  /** One raise. */
  function Raised(g: GameData, blind: int, order: seq<int32>): (int, seq<int32>) {
    var m := MaxBlind(g);
    if g.raiseMode.DoubleBlinds? then (Min(2 * blind, m), order)
    else if order != [] then (Min(order[0] as int, m), order[1..])
    else
      match g.afterManualBlindsMode
      case DoubleAfter => (Min(2 * blind, m), order)
      case RaiseAbout => (Min(blind + g.afterMBAlwaysRaiseValue as int, m), order)
      case StayAtLastBlind => (Min(blind, m), order)
  }

  function RaiseStep(g: GameData, s: BlindState, hand: int, minutes: int): BlindState {
    if !Fires(g, s, hand, minutes) then s
    else
      var (b, o) := Raised(g, s.blind, s.order);
      BlindState(b, o, if g.raiseIntervalMode.OnHandNumber? then hand else s.lastHand,
                 if g.raiseIntervalMode.OnHandNumber? then s.lastTime else minutes)
  }

  /** What the cast to int leaves of a 64-bit value. */
  function ToInt32(x: int64): int32 {
    ((x as int + 0x8000_0000) % 0x1_0000_0000 - 0x8000_0000) as int32
  }

  lemma CastKeeps(x: int64)
    ensures -0x8000_0000 <= x as int <= INT_MAX ==> ToInt32(x) as int == x as int
  {
  }

  /** Division by two as the machine does it, towards zero. */
  function Half(x: int64): int64 {
    var v := x as int;
    (if v >= 0 then v / 2 else -((-v) / 2)) as int64
  }

  function Min64(a: int64, b: int64): int64 {
    if a <= b then a else b
  }

  class BlindSchedule {
    const myGameData: GameData
    var currentSmallBlind: int32
    var currentHandID: int32
    var lastHandBlindsRaised: int32
    var lastTimeBlindsRaised: int64
    var blindsList: seq<int32>

    ghost function View(): BlindState
      reads this
    {
      BlindState(currentSmallBlind as int, blindsList, lastHandBlindsRaised as int, lastTimeBlindsRaised as int)
    }

    ghost predicate Sane()
      reads this
    {
      SaneData(myGameData) && 0 <= currentSmallBlind && SaneList(blindsList)
    }

    constructor (gameData: GameData, firstSmallBlind: int32, manualBlindsList: seq<int32>)
      ensures View() == BlindState(firstSmallBlind as int, manualBlindsList, 1, 0)
      ensures myGameData == gameData && currentHandID == 0
      ensures SaneData(gameData) && 0 <= firstSmallBlind && SaneList(manualBlindsList) ==> Sane()
    {
      myGameData := gameData;
      currentSmallBlind, currentHandID, lastHandBlindsRaised, lastTimeBlindsRaised := firstSmallBlind, 0, 1, 0;
      blindsList := manualBlindsList;
    }

    /** Doubling without leaving 64 bits, capped. */
    method DoubleCapped(maxBlind: int64)
      requires maxBlind as int <= INT_MAX
      modifies this`currentSmallBlind
      ensures 0 <= maxBlind && 0 <= old(currentSmallBlind) ==>
                currentSmallBlind as int == Min(2 * old(currentSmallBlind) as int, maxBlind as int)
    {
      if currentSmallBlind as int64 <= Half(maxBlind) {
        currentSmallBlind := ToInt32(Min64((currentSmallBlind as int64) * 2, maxBlind));
      } else {
        currentSmallBlind := ToInt32(maxBlind);
      }
    }

    /** The manual order, and what happens after it. */
    method ManualRaise(maxBlind: int64)
      requires maxBlind as int <= INT_MAX
      modifies this`currentSmallBlind, this`blindsList
      ensures old(blindsList) != [] ==> currentSmallBlind == old(blindsList)[0] && blindsList == old(blindsList)[1..]
      ensures old(blindsList) == [] ==> blindsList == []
      ensures old(blindsList) == [] && 0 <= maxBlind && 0 <= old(currentSmallBlind) && 0 <= myGameData.afterMBAlwaysRaiseValue ==>
                var b, m := old(currentSmallBlind) as int, maxBlind as int;
                currentSmallBlind as int ==
                  match myGameData.afterManualBlindsMode
                  case DoubleAfter => Min(2 * b, m)
                  case RaiseAbout => Min(b + myGameData.afterMBAlwaysRaiseValue as int, m)
                  case StayAtLastBlind => b
    {
      if blindsList != [] {
        currentSmallBlind := blindsList[0];
        blindsList := blindsList[1..];
      } else {
        if myGameData.afterManualBlindsMode.DoubleAfter? {
          DoubleCapped(maxBlind);
        } else {
          if myGameData.afterManualBlindsMode.RaiseAbout? {
            var newBlind := currentSmallBlind as int64 + myGameData.afterMBAlwaysRaiseValue as int64;
            if newBlind <= maxBlind {
              currentSmallBlind := ToInt32(newBlind);
            } else {
              currentSmallBlind := ToInt32(maxBlind);
            }
          }
        }
      }
    }

    /** The new blind: all intermediates fit 64 bits, and for sane settings the result is the
        unbounded one, so nothing is lost by the casts. */
    method RaiseSmallBlind(maxBlind: int64)
      requires maxBlind as int <= INT_MAX
      modifies this`currentSmallBlind, this`blindsList
      ensures old(Sane()) && maxBlind as int == MaxBlind(myGameData) ==>
                Sane() && (View().blind, View().order) == Raised(myGameData, old(View()).blind, old(View()).order)
    {
      if SaneData(myGameData) {
        MaxBlindNotNegative(myGameData);
      }
      hide MaxBlind;
      if myGameData.raiseMode.DoubleBlinds? {
        DoubleCapped(maxBlind);
      } else {
        ManualRaise(maxBlind);
      }
      CastKeeps(Min64(currentSmallBlind as int64, maxBlind));
      hide ToInt32;
      currentSmallBlind := ToInt32(Min64(currentSmallBlind as int64, maxBlind));
    }

    /** `elapsedMinutes` is the reading of the blinds timer in whole minutes, a 64-bit number of
        seconds divided by 60. The sum of hand numbers is a 32-bit one and must not overflow. */
    method RaiseBlinds(elapsedMinutes: int64)
      requires myGameData.raiseIntervalMode.OnHandNumber? ==>
                 -0x8000_0000 <= lastHandBlindsRaised as int + myGameData.everyHands as int <= INT_MAX
      requires -0x222_2222_2222_2222 <= lastTimeBlindsRaised <= 0x222_2222_2222_2222
      modifies this`currentSmallBlind, this`blindsList, this`lastHandBlindsRaised, this`lastTimeBlindsRaised
      ensures old(Sane()) ==> Sane() && View() == RaiseStep(myGameData, old(View()), currentHandID as int, elapsedMinutes as int)
    {
      var raiseBlinds := false;
      if myGameData.raiseIntervalMode.OnHandNumber? {
        if lastHandBlindsRaised + myGameData.everyHands <= currentHandID {
          raiseBlinds := true;
          lastHandBlindsRaised := currentHandID;
        }
      } else {
        if lastTimeBlindsRaised + myGameData.everyMinutes as int64 <= elapsedMinutes {
          raiseBlinds := true;
          lastTimeBlindsRaised := elapsedMinutes;
        }
      }
      if raiseBlinds {
        ProductFits(myGameData.startQuantityPlayers as int, myGameData.startCash as int);
        var maxBlind := Half(myGameData.startQuantityPlayers as int64 * myGameData.startCash as int64);
        if maxBlind as int > INT_MAX {
          maxBlind := INT_MAX as int64;
        }
        RaiseSmallBlind(maxBlind);
      }
    }
  }

  lemma ProductFits(a: int, b: int)
    requires -0x8000_0000 <= a < 0x8000_0000 && -0x8000_0000 <= b < 0x8000_0000
    ensures -0x4000_0000_0000_0000 <= a * b <= 0x4000_0000_0000_0000
  {
    var p, q := if a < 0 then -a else a, if b < 0 then -b else b;
    ProductBound(p, q, 0x8000_0000);
    assert a * b == p * q || a * b == -(p * q);
  }

  lemma ProductBound(p: nat, q: nat, m: nat)
    requires p <= m && q <= m
    ensures 0 <= p * q <= m * m
  {
    assert p * q <= p * m <= m * m;
  }

  // ---------------------------------------------------------------------------------------------
  // Whole games: hands 1, 2, 3, ... with `minutes(k)` on the timer at the k-th.

  function StartOf(start: int, order: seq<int32>): BlindState {
    BlindState(start, order, 1, 0)
  }

  function AfterHands(g: GameData, start: int, order: seq<int32>, minutes: nat -> int, k: nat): BlindState {
    if k == 0 then StartOf(start, order) else RaiseStep(g, AfterHands(g, start, order, minutes, k - 1), k, minutes(k))
  }

  /** The number of raises among the first k hands. */
  function Raises(g: GameData, start: int, order: seq<int32>, minutes: nat -> int, k: nat): nat {
    if k == 0 then 0
    else Raises(g, start, order, minutes, k - 1) + if Fires(g, AfterHands(g, start, order, minutes, k - 1), k, minutes(k)) then 1 else 0
  }

  /** The blind and the rest of the order after r raises. */
  function AfterRaises(g: GameData, start: int, order: seq<int32>, r: nat): (int, seq<int32>) {
    if r == 0 then (start, order)
    else var (b, o) := AfterRaises(g, start, order, r - 1); Raised(g, b, o)
  }

  lemma {:induction false} BlindDependsOnRaises(g: GameData, start: int, order: seq<int32>, minutes: nat -> int, k: nat)
    ensures var s := AfterHands(g, start, order, minutes, k);
            (s.blind, s.order) == AfterRaises(g, start, order, Raises(g, start, order, minutes, k))
  {
    if k > 0 {
      BlindDependsOnRaises(g, start, order, minutes, k - 1);
    }
  }

  function Pow2(n: nat): nat {
    if n == 0 then 1 else 2 * Pow2(n - 1)
  }

  /** With a raise every N hands, the raises fall on the hands 1 + N, 1 + 2N, ... */
  lemma {:induction false} RaisesByHand(g: GameData, start: int, order: seq<int32>, minutes: nat -> int, k: nat)
    requires g.raiseIntervalMode.OnHandNumber? && 1 <= g.everyHands && 1 <= k
    ensures var j := (k - 1) / g.everyHands as int;
            Raises(g, start, order, minutes, k) == j && AfterHands(g, start, order, minutes, k).lastHand == 1 + g.everyHands as int * j
  {
    var n := g.everyHands as int;
    if k == 1 {
      assert AfterHands(g, start, order, minutes, 0).lastHand == 1 && Raises(g, start, order, minutes, 0) == 0;
      assert 0 / n == 0;
    } else {
      hide Raised, AfterHands, Raises;
      RaisesByHand(g, start, order, minutes, k - 1);
      HandArithmetic(k, n);
      RaiseAtHand(g, start, order, minutes, k);
    }
  }

  lemma HandArithmetic(k: nat, n: int)
    requires n >= 1 && k >= 2
    ensures var q := (k - 2) / n;
            if 1 + n * q + n <= k then (k - 1) / n == q + 1 && k == 1 + n * ((k - 1) / n) else (k - 1) / n == q
  {
    NextQuotient(k - 2, n);
    var q := (k - 2) / n;
    assert n * (q + 1) == n * q + n;
  }

  lemma RaiseAtHand(g: GameData, start: int, order: seq<int32>, minutes: nat -> int, k: nat)
    requires g.raiseIntervalMode.OnHandNumber? && 1 <= k
    ensures var s, t := AfterHands(g, start, order, minutes, k - 1), AfterHands(g, start, order, minutes, k);
            var fires := s.lastHand + g.everyHands as int <= k;
            && t.lastHand == (if fires then k else s.lastHand)
            && Raises(g, start, order, minutes, k) == Raises(g, start, order, minutes, k - 1) + if fires then 1 else 0
  {
    hide Raised;
  }

  lemma NextQuotient(x: nat, n: int)
    requires n >= 1
    ensures (x + 1) / n == if n * (x / n) + n <= x + 1 then x / n + 1 else x / n
  {
    var q := x / n;
    assert n * q <= x < n * q + n;
    if n * q + n <= x + 1 {
      assert x + 1 == n * (q + 1);
      QuotientUnique(x + 1, n, q + 1);
    } else {
      QuotientUnique(x + 1, n, q);
    }
  }

  lemma QuotientUnique(x: int, n: int, q: int)
    requires n >= 1 && n * q <= x < n * q + n
    ensures x / n == q
  {
    var p := x / n;
    assert n * p <= x < n * p + n;
    assert n * (p - q) < n && n * (q - p) < n;
    MultipleBelow(n, p - q);
    MultipleBelow(n, q - p);
  }

  lemma MultipleBelow(n: int, d: int)
    requires n >= 1 && n * d < n
    ensures d <= 0
  {
    assert n * (d - 1) < 0;
  }

  /** With a raise every I minutes, on any clock that starts at zero or later and never runs
      backwards, the raises can never outpace the clock. */
  lemma {:induction false} RaisesByMinutes(g: GameData, start: int, order: seq<int32>, minutes: nat -> int, k: nat)
    requires g.raiseIntervalMode.OnMinutes?
    requires 0 <= minutes(0) && forall i: nat :: minutes(i) <= minutes(i + 1)
    ensures var s := AfterHands(g, start, order, minutes, k);
            Raises(g, start, order, minutes, k) * g.everyMinutes as int <= s.lastTime <= minutes(k)
  {
    hide Raised, RaiseStep, Fires;
    if k > 0 {
      RaisesByMinutes(g, start, order, minutes, k - 1);
      assert minutes(k - 1) <= minutes(k - 1 + 1);
      RaisedByMinutes(g, AfterHands(g, start, order, minutes, k - 1), k, minutes(k), Raises(g, start, order, minutes, k - 1));
    }
  }

  lemma RaisedByMinutes(g: GameData, s: BlindState, hand: int, now: int, r: nat)
    requires g.raiseIntervalMode.OnMinutes? && r * g.everyMinutes as int <= s.lastTime <= now
    ensures var t := RaiseStep(g, s, hand, now);
            (if Fires(g, s, hand, now) then r + 1 else r) * g.everyMinutes as int <= t.lastTime <= now
  {
    hide Raised;
    var n := g.everyMinutes as int;
    assert (r + 1) * n == r * n + n;
  }

  /** When the blinds were last raised before a hand, and that this is what the schedule keeps. */
  lemma {:induction false} LastRaise(g: GameData, start: int, order: seq<int32>, minutes: nat -> int, k: nat) returns (i: nat)
    requires g.raiseIntervalMode.OnMinutes?
    ensures i <= k && Raises(g, start, order, minutes, i) == Raises(g, start, order, minutes, k)
    ensures Raises(g, start, order, minutes, i) == if i == 0 then 0 else Raises(g, start, order, minutes, i - 1) + 1
    ensures AfterHands(g, start, order, minutes, k).lastTime == if i == 0 then 0 else minutes(i)
  {
    i := k;
    if k > 0 {
      RaiseAtMinute(g, start, order, minutes, k);
      hide AfterHands, Raises;
      if Raises(g, start, order, minutes, k) == Raises(g, start, order, minutes, k - 1) {
        i := LastRaise(g, start, order, minutes, k - 1);
      }
    }
  }

  lemma RaiseAtMinute(g: GameData, start: int, order: seq<int32>, minutes: nat -> int, k: nat)
    requires g.raiseIntervalMode.OnMinutes? && 1 <= k
    ensures var s, t := AfterHands(g, start, order, minutes, k - 1), AfterHands(g, start, order, minutes, k);
            var fires := s.lastTime + g.everyMinutes as int <= minutes(k);
            && t.lastTime == (if fires then minutes(k) else s.lastTime)
            && Raises(g, start, order, minutes, k) == Raises(g, start, order, minutes, k - 1) + if fires then 1 else 0
  {
    hide Raised;
  }

  /** On any clock: with a raise every I minutes, the blinds are raised at a hand exactly if at least I minutes have
      passed since the hand i at which they were raised last, or since the start. */
  lemma RaisedWhenDue(g: GameData, start: int, order: seq<int32>, minutes: nat -> int, k: nat) returns (i: nat)
    requires g.raiseIntervalMode.OnMinutes? && 1 <= k
    ensures i < k && Raises(g, start, order, minutes, i) == Raises(g, start, order, minutes, k - 1)
    ensures Raises(g, start, order, minutes, i) == if i == 0 then 0 else Raises(g, start, order, minutes, i - 1) + 1
    ensures Raises(g, start, order, minutes, k)
         == Raises(g, start, order, minutes, k - 1) + if minutes(k) - (if i == 0 then 0 else minutes(i)) >= g.everyMinutes as int then 1 else 0
  {
    i := LastRaise(g, start, order, minutes, k - 1);
    RaiseAtMinute(g, start, order, minutes, k);
    hide AfterHands, Raises;
  }

  /** The cap is the largest small blind of which twice fits into all chips, and an int. */
  lemma CapIsLargest(g: GameData, b: nat)
    requires SaneData(g)
    ensures var chips := g.startQuantityPlayers as int * g.startCash as int;
            0 <= MaxBlind(g) && 2 * MaxBlind(g) <= chips && (b <= MaxBlind(g) <==> 2 * b <= chips && b <= 0x7FFF_FFFF)
  {
    MaxBlindNotNegative(g);
  }

  /** The r-th blind of a doubling game. */
  lemma {:induction false} DoublingClosedForm(g: GameData, start: int, order: seq<int32>, r: nat)
    requires SaneData(g) && g.raiseMode.DoubleBlinds? && 0 <= start
    ensures AfterRaises(g, start, order, r) == (if r == 0 then start else Min(start * Pow2(r), MaxBlind(g)), order)
  {
    if r > 0 {
      DoublingClosedForm(g, start, order, r - 1);
      MaxBlindNotNegative(g);
      hide MaxBlind, Pow2;
      DoubleMin(start, r - 1, MaxBlind(g));
      NotRaisedYet(start, r);
    }
  }

  lemma NotRaisedYet(start: int, r: nat)
    requires r > 0
    ensures r == 1 ==> start * Pow2(r - 1) == start
  {
  }

  lemma MaxBlindNotNegative(g: GameData)
    requires SaneData(g)
    ensures 0 <= MaxBlind(g) <= INT_MAX
  {
    ProductBound(g.startQuantityPlayers as int, g.startCash as int, INT_MAX);
  }

  lemma DoubleMin(start: int, n: nat, m: int)
    requires 0 <= m
    ensures start * Pow2(n + 1) == 2 * (start * Pow2(n))
    ensures Min(2 * Min(start * Pow2(n), m), m) == Min(start * Pow2(n + 1), m)
  {
    assert start * (2 * Pow2(n)) == 2 * (start * Pow2(n));
  }

  /** The doubling schedule: at the k-th hand the small blind is the start blind for the first N
      hands and then the start blind doubled j times, capped, with j = (k - 1) / N; the last raise
      was at hand 1 + N * j. */
  lemma DoublingSchedule(g: GameData, start: int, order: seq<int32>, minutes: nat -> int, k: nat)
    requires SaneData(g) && g.raiseMode.DoubleBlinds? && g.raiseIntervalMode.OnHandNumber?
    requires 1 <= g.everyHands && 0 <= start <= INT_MAX && 1 <= k
    ensures var s, j := AfterHands(g, start, order, minutes, k), (k - 1) / g.everyHands as int;
            && s.blind == (if j == 0 then start else Min(start * Pow2(j), MaxBlind(g)))
            && s.lastHand == 1 + g.everyHands as int * j
            && 0 <= s.blind <= INT_MAX
  {
    RaisesByHand(g, start, order, minutes, k);
    BlindDependsOnRaises(g, start, order, minutes, k);
    var j := (k - 1) / g.everyHands as int;
    DoublingClosedForm(g, start, order, j);
    MaxBlindNotNegative(g);
    assert 0 <= start * Pow2(j);
  }

  /** The blind after r raises of a manual order: the r-th entry, capped, while the order lasts;
      afterwards the last one (or the start blind, if there was no order) in its mode. */
  function ManualBlind(g: GameData, start: int, order: seq<int32>, r: nat): int {
    var m := MaxBlind(g);
    if r == 0 then start
    else if r <= |order| then Min(order[r - 1] as int, m)
    else
      var base, extra := if order == [] then start else order[|order| - 1] as int, r - |order|;
      match g.afterManualBlindsMode
      case DoubleAfter => Min(base * Pow2(extra), m)
      case RaiseAbout => Min(base + extra * g.afterMBAlwaysRaiseValue as int, m)
      case StayAtLastBlind => Min(base, m)
  }

  /** Where the order has run out. */
  lemma ManualExtra(g: GameData, start: int, order: seq<int32>, r: nat)
    requires SaneData(g) && 0 <= start && SaneList(order) && r > |order|
    ensures var b, m := ManualBlind(g, start, order, r - 1), MaxBlind(g);
            ManualBlind(g, start, order, r) ==
              match g.afterManualBlindsMode
              case DoubleAfter => Min(2 * b, m)
              case RaiseAbout => Min(b + g.afterMBAlwaysRaiseValue as int, m)
              case StayAtLastBlind => Min(b, m)
  {
    MaxBlindNotNegative(g);
    hide MaxBlind;
    var base, extra := if order == [] then start else order[|order| - 1] as int, r - |order|;
    assert order != [] ==> 0 <= order[|order| - 1];
    DoubleMin(base, extra - 1, MaxBlind(g));
    RaiseAboutStep(g, base, extra);
    assert Pow2(0) == 1 && base * Pow2(0) == base && base + 0 * g.afterMBAlwaysRaiseValue as int == base;
    assert extra == 1 ==> base * Pow2(1) == 2 * base;
  }

  lemma {:induction false} ManualClosedForm(g: GameData, start: int, order: seq<int32>, r: nat)
    requires SaneData(g) && g.raiseMode.ManualBlindsOrder? && 0 <= start && SaneList(order)
    ensures AfterRaises(g, start, order, r) == (ManualBlind(g, start, order, r), if r <= |order| then order[r..] else [])
  {
    if r > 0 {
      ManualClosedForm(g, start, order, r - 1);
      if r > |order| {
        ManualExtra(g, start, order, r);
        hide ManualBlind, MaxBlind;
        assert order[|order|..] == [];
      }
    }
  }

  lemma RaiseAboutStep(g: GameData, base: int, extra: int)
    requires SaneData(g) && extra >= 1
    ensures var v, m := g.afterMBAlwaysRaiseValue as int, MaxBlind(g);
            Min(Min(base + (extra - 1) * v, m) + v, m) == Min(base + extra * v, m)
  {
    var v := g.afterMBAlwaysRaiseValue as int;
    assert (extra - 1) * v + v == extra * v;
  }

  /** Manual schedules, by hands or by minutes: the blind at the k-th hand is the one that the number
      of raises so far calls for. */
  lemma ManualSchedule(g: GameData, start: int, order: seq<int32>, minutes: nat -> int, k: nat)
    requires SaneData(g) && g.raiseMode.ManualBlindsOrder? && 0 <= start && SaneList(order)
    ensures AfterHands(g, start, order, minutes, k).blind == ManualBlind(g, start, order, Raises(g, start, order, minutes, k))
  {
    BlindDependsOnRaises(g, start, order, minutes, k);
    ManualClosedForm(g, start, order, Raises(g, start, order, minutes, k));
  }
}
