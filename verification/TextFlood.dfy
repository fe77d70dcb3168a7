/** The flood limiter of the chat cleaner. */
module TextFlood {

  datatype FloodInfos = FloodInfos(floodLevel: int, timeStamp: int)

  type MsgTimes = map<nat, FloodInfos>

  datatype Op = Message(playerId: nat, now: int) | Clean(now: int) | Remove(playerId: nat)

  /** One message: the new list, and whether it trips the limiter at level L. */
  function Noted(m: MsgTimes, L: int, p: nat, now: int): (MsgTimes, bool) {
    if p !in m then (m[p := FloodInfos(0, now)], false)
    else if now - m[p].timeStamp <= 1 then
      if m[p].floodLevel == L then (m[p := FloodInfos(0, now)], true)
      else (m[p := FloodInfos(m[p].floodLevel + 1, now)], false)
    else (m[p := FloodInfos(m[p].floodLevel, now)], false)
  }

  predicate Stale(i: FloodInfos, now: int) {
    now - i.timeStamp > 3
  }

  /** The regular cleaning: stale players lose a level, and at level 0 their entry. */
  function Cleaned(m: MsgTimes, now: int): MsgTimes {
    map p | p in m && !(Stale(m[p], now) && m[p].floodLevel == 0) ::
      if Stale(m[p], now) then FloodInfos(if m[p].floodLevel - 1 < 0 then 0 else m[p].floodLevel - 1, m[p].timeStamp) else m[p]
  }

  class TextFloodCheck {
    var textFloodLevelToTrigger: int
    var msgTimesList: MsgTimes

    constructor ()
      ensures msgTimesList == map[] && textFloodLevelToTrigger == 3
    {
      msgTimesList, textFloodLevelToTrigger := map[], 3;
    }

    method Run(playerId: nat, elapsed: int) returns (trigger: bool)
      modifies this`msgTimesList
      ensures (msgTimesList, trigger) == Noted(old(msgTimesList), textFloodLevelToTrigger, playerId, elapsed)
    {
      if playerId !in msgTimesList {
        msgTimesList := msgTimesList[playerId := FloodInfos(0, elapsed)];
      } else {
        var level;
        if elapsed - msgTimesList[playerId].timeStamp <= 1 {
          if msgTimesList[playerId].floodLevel == textFloodLevelToTrigger {
            msgTimesList := msgTimesList[playerId := FloodInfos(0, elapsed)];
            return true;
          }
          level := msgTimesList[playerId].floodLevel + 1;
        } else {
          level := msgTimesList[playerId].floodLevel;
        }
        msgTimesList := msgTimesList[playerId := FloodInfos(level, elapsed)];
      }
      trigger := false;
    }

    /** The walk over the list, which erases and rewrites entries on its way. */
    method CleanMsgTimesList(elapsed: int)
      modifies this`msgTimesList
      ensures msgTimesList == Cleaned(old(msgTimesList), elapsed)
    {
      ghost var was := msgTimesList;
      var todo := msgTimesList.Keys;
      while todo != {}
        invariant todo <= msgTimesList.Keys <= was.Keys
        invariant forall p :: p in todo ==> msgTimesList[p] == was[p]
        invariant forall p :: p in was && p !in todo ==> (p in msgTimesList <==> p in Cleaned(was, elapsed))
        invariant forall p :: p in msgTimesList && p !in todo ==> msgTimesList[p] == Cleaned(was, elapsed)[p]
        decreases todo
      {
        var it :| it in todo;
        if elapsed - msgTimesList[it].timeStamp > 3 {
          if msgTimesList[it].floodLevel == 0 {
            msgTimesList := msgTimesList - {it};
          } else {
            var lower := msgTimesList[it].floodLevel - 1;
            msgTimesList := msgTimesList[it := FloodInfos(if lower < 0 then 0 else lower, msgTimesList[it].timeStamp)];
          }
        }
        todo := todo - {it};
      }
      assert msgTimesList.Keys == Cleaned(was, elapsed).Keys;
    }

    method RemoveNickFromList(playerId: nat)
      modifies this`msgTimesList
      ensures msgTimesList == old(msgTimesList) - {playerId}
    {
      msgTimesList := msgTimesList - {playerId};
    }
  }

  // ---------------------------------------------------------------------------------------------
  // Whole runs, from an empty list and with a fixed level.

  function Apply(m: MsgTimes, L: int, op: Op): MsgTimes {
    match op
    case Message(p, now) => Noted(m, L, p, now).0
    case Clean(now) => Cleaned(m, now)
    case Remove(p) => m - {p}
  }

  function After(ops: seq<Op>, L: int): MsgTimes {
    if ops == [] then map[] else Apply(After(ops[..|ops| - 1], L), L, ops[|ops| - 1])
  }

  /** How often p has tripped the limiter. */
  function Triggers(ops: seq<Op>, L: int, p: nat): nat {
    if ops == [] then 0
    else
      var op, before := ops[|ops| - 1], ops[..|ops| - 1];
      Triggers(before, L, p) + if op.Message? && op.playerId == p && Noted(After(before, L), L, p, op.now).1 then 1 else 0
  }

  /** When p last wrote, whatever the limiter has kept of it. */
  function LastMessage(ops: seq<Op>, p: nat): (bool, int) {
    if ops == [] then (false, 0)
    else
      var op := ops[|ops| - 1];
      if op.Message? && op.playerId == p then (true, op.now) else LastMessage(ops[..|ops| - 1], p)
  }

  /** How many messages of p came within a second of its previous one. */
  function Close(ops: seq<Op>, p: nat): nat {
    if ops == [] then 0
    else
      var op, before := ops[|ops| - 1], ops[..|ops| - 1];
      var (wrote, at) := LastMessage(before, p);
      Close(before, p) + if op.Message? && op.playerId == p && wrote && op.now - at <= 1 then 1 else 0
  }

  function Level(m: MsgTimes, p: nat): int {
    if p in m then m[p].floodLevel else 0
  }

  lemma {:induction false} TimesAreOfLastMessages(ops: seq<Op>, L: int, p: nat)
    ensures var m := After(ops, L);
            p in m ==> LastMessage(ops, p) == (true, m[p].timeStamp)
  {
    if ops != [] {
      TimesAreOfLastMessages(ops[..|ops| - 1], L, p);
    }
  }

  /** The limiter is amortised: every trip is paid for with L + 1 close messages of that player, and the
      level is what is left over, whatever is cleaned or removed in between. */
  lemma {:induction false} Amortised(ops: seq<Op>, L: int, p: nat)
    requires L >= 0
    ensures 0 <= Level(After(ops, L), p) <= L
    ensures (L + 1) * Triggers(ops, L, p) + Level(After(ops, L), p) <= Close(ops, p)
  {
    if ops != [] {
      var op, before := ops[|ops| - 1], ops[..|ops| - 1];
      Amortised(before, L, p);
      TimesAreOfLastMessages(before, L, p);
      AmortisedStep(After(before, L), L, op, p, Triggers(before, L, p), Close(before, p));
      hide Noted, Cleaned, Stale;
    }
  }

  lemma AmortisedStep(m: MsgTimes, L: int, op: Op, p: nat, t: nat, c: nat)
    requires L >= 0 && 0 <= Level(m, p) <= L && (L + 1) * t + Level(m, p) <= c
    ensures var n := Apply(m, L, op);
            var trips := op.Message? && op.playerId == p && Noted(m, L, p, op.now).1;
            var close := op.Message? && op.playerId == p && p in m && op.now - m[p].timeStamp <= 1;
            && 0 <= Level(n, p) <= L
            && (L + 1) * (if trips then t + 1 else t) + Level(n, p) <= if close then c + 1 else c
  {
    assert (L + 1) * (t + 1) == (L + 1) * t + L + 1;
  }

  /** Nothing is cleaned and nobody is removed. */
  ghost predicate OnlyMessages(ops: seq<Op>) {
    forall i :: 0 <= i < |ops| ==> ops[i].Message?
  }

  /** Without cleaning and removal the account is exact, so the limiter trips at every (L + 1)-st close
      message, no sooner and no later. */
  lemma {:induction false} ExactWithoutCleaning(ops: seq<Op>, L: int, p: nat)
    requires L >= 0 && OnlyMessages(ops)
    ensures (L + 1) * Triggers(ops, L, p) + Level(After(ops, L), p) == Close(ops, p)
    ensures LastMessage(ops, p).0 <==> p in After(ops, L)
  {
    if ops != [] {
      var op, before := ops[|ops| - 1], ops[..|ops| - 1];
      ExactWithoutCleaning(before, L, p);
      TimesAreOfLastMessages(before, L, p);
      Amortised(before, L, p);
      OneMoreTrip(L, Triggers(before, L, p));
    }
  }

  lemma OneMoreTrip(L: int, t: int)
    ensures (L + 1) * (t + 1) == (L + 1) * t + L + 1
  {
  }

  lemma TripsEveryTime(ops: seq<Op>, L: int, p: nat)
    requires L >= 0 && OnlyMessages(ops)
    ensures Triggers(ops, L, p) == Close(ops, p) / (L + 1) && Level(After(ops, L), p) == Close(ops, p) % (L + 1)
  {
    ExactWithoutCleaning(ops, L, p);
    Amortised(ops, L, p);
    DivisionUnique(L + 1, Triggers(ops, L, p), Level(After(ops, L), p), Close(ops, p));
  }

  lemma DivisionUnique(n: int, t: int, r: int, c: int)
    requires n >= 1 && 0 <= r < n && n * t + r == c
    ensures t == c / n && r == c % n
  {
    var d := t - c / n;
    assert n * d == c % n - r;
    assert d >= 1 ==> n * d >= n;
    assert d <= -1 ==> n * d <= -n;
  }

  lemma AfterNext(ops: seq<Op>, L: int, op: Op)
    ensures After(ops + [op], L) == Apply(After(ops, L), L, op)
  {
    assert (ops + [op])[..|ops|] == ops;
  }

  /** What a cleaning does, by the time of each player's last message: three seconds after it, a player loses a level,
      and with none left to lose its place on the list; nobody else is touched. */
  lemma CleaningForgives(ops: seq<Op>, L: int, now: int, p: nat)
    requires L >= 0
    ensures var m, n, at := After(ops, L), After(ops + [Clean(now)], L), LastMessage(ops, p).1;
            && (p in n <==> p in m && (now - at <= 3 || Level(m, p) > 0))
            && (p in n ==> n[p].timeStamp == at && n[p].floodLevel == if now - at > 3 then Level(m, p) - 1 else Level(m, p))
  {
    AfterNext(ops, L, Clean(now));
    TimesAreOfLastMessages(ops, L, p);
    Amortised(ops, L, p);
    hide After, LastMessage, Close, Triggers;
  }

  /** What a player was spared: a level at each cleaning more than three seconds after his last message, all his
      levels when he was taken off the list, and a close message that found him off it. */
  function Spared(ops: seq<Op>, L: int, p: nat): int {
    if ops == [] then 0
    else
      var op, before := ops[|ops| - 1], ops[..|ops| - 1];
      var (wrote, at) := LastMessage(before, p);
      var level := Level(After(before, L), p);
      Spared(before, L, p) +
      match op
      case Message(q, now) => if q == p && p !in After(before, L) && wrote && now - at <= 1 then 1 else 0
      case Clean(now) => if level > 0 && now - at > 3 then 1 else 0
      case Remove(q) => if q == p then level else 0
  }

  /** The account is exact over every run: close messages are what the trips have cost, what the level has left, and
      what was spared. */
  lemma {:induction false} ExactAccount(ops: seq<Op>, L: int, p: nat)
    requires L >= 0
    ensures (L + 1) * Triggers(ops, L, p) + Level(After(ops, L), p) + Spared(ops, L, p) == Close(ops, p)
  {
    if ops != [] {
      var op, before := ops[|ops| - 1], ops[..|ops| - 1];
      ExactAccount(before, L, p);
      TimesAreOfLastMessages(before, L, p);
      Amortised(before, L, p);
      OneMoreTrip(L, Triggers(before, L, p));
      LevelStep(After(before, L), L, op, p);
      hide Noted, Cleaned, Stale, Apply;
    }
  }

  /** What one operation does to a level. */
  lemma LevelStep(m: MsgTimes, L: int, op: Op, p: nat)
    requires L >= 0 && 0 <= Level(m, p) <= L
    ensures var n, level := Apply(m, L, op), Level(m, p);
            match op
            case Message(q, now) =>
              var close := q == p && p in m && now - m[p].timeStamp <= 1;
              && (q == p ==> (Noted(m, L, q, now).1 <==> close && level == L))
              && Level(n, p) == if !close then level else if level == L then 0 else level + 1
            case Clean(now) => Level(n, p) == if p in m && level > 0 && now - m[p].timeStamp > 3 then level - 1 else level
            case Remove(q) => Level(n, p) == if q == p then 0 else level
  {
  }
}
