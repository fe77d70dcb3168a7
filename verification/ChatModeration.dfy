/** The chat cleaner's filter and its flood limiter together, over whole chats: a sanction takes the player off
    the limiter's list, so what one decides changes what the other sees next. */
module ChatModeration {
  import T = TextFlood
  import F = MessageFilter

  datatype Moderation = Moderation(times: T.MsgTimes, lists: F.Lists)

  /** The level of the limiter and the limits of the filter. */
  datatype Settings = Settings(floodLevel: int, limits: F.Limits)

  /** A message, with what the four checks of its text found, or one of the two regular cleanings. */
  datatype Event =
    | Said(gameId: nat, playerId: nat, nick: string, badWord: bool, capsFlood: bool, letterRepeating: bool, url: bool, now: int)
    | CleanTimes(now: int)
    | ForgetKicks(now: int, forgetSeconds: int)

  function Highest(k: F.Checks): F.OffenceType {
    if k.url then F.URL
    else if k.letterRepeating then F.LETTER_REPEATING
    else if k.capsFlood then F.CAPS_FLOOD
    else if k.textFlood then F.TEXT_FLOOD_LINES
    else if k.badWord then F.BAD_WORD
    else F.NONE
  }

  /** What a check of the filter keeps of its findings is this offence. */
  lemma HighestIsKept(k: F.Checks, o: F.OffenceType)
    ensures F.IsHighest(k, o) <==> o == Highest(k)
  {
    assert F.IsHighest(k, Highest(k));
    if F.IsHighest(k, o) {
      F.HighestIsUnique(k, o, Highest(k));
    }
  }

  function Trips(m: Moderation, s: Settings, e: Event): bool
    requires e.Said?
  {
    T.Noted(m.times, s.floodLevel, e.playerId, e.now).1
  }

  function OffenceOf(m: Moderation, s: Settings, e: Event): F.OffenceType
    requires e.Said?
  {
    Highest(F.Checks(e.badWord, e.capsFlood, e.letterRepeating, e.url, Trips(m, s, e)))
  }

  /** What happens, as MessageFilter.Check and the cleanings do it. */
  function Step(m: Moderation, s: Settings, e: Event): (Moderation, F.ActionType) {
    match e
    case Said(gameId, p, nick, _, _, _, _, now) =>
      var times := T.Noted(m.times, s.floodLevel, p, now).0;
      var (lists, action) := F.Punished(m.lists, s.limits, gameId, p, nick, OffenceOf(m, s, e), now);
      (Moderation(if F.Sanction(action) then times - {p} else times, lists), action)
    case CleanTimes(now) => (m.(times := T.Cleaned(m.times, now)), F.NOTHING)
    case ForgetKicks(now, forgetSeconds) => (m.(lists := F.Forgotten(m.lists, now, forgetSeconds)), F.NOTHING)
  }

  /** A step with a message is a check of the filter: what MessageFilter.Check promises determines it. */
  lemma CheckIsStep(m: Moderation, s: Settings, e: Event, offence: F.OffenceType, after: Moderation, action: F.ActionType)
    requires e.Said?
    requires var (times, flood) := T.Noted(m.times, s.floodLevel, e.playerId, e.now);
             && F.IsHighest(F.Checks(e.badWord, e.capsFlood, e.letterRepeating, e.url, flood), offence)
             && (after.lists, action) == F.Punished(m.lists, s.limits, e.gameId, e.playerId, e.nick, offence, e.now)
             && after.times == if F.Sanction(action) then times - {e.playerId} else times
    ensures Step(m, s, e) == (after, action)
  {
    HighestIsKept(F.Checks(e.badWord, e.capsFlood, e.letterRepeating, e.url, Trips(m, s, e)), offence);
    hide F.Punished, T.Noted, F.IsHighest, Highest;
  }

  function After(es: seq<Event>, s: Settings): Moderation {
    if es == [] then Moderation(map[], F.Lists(map[], map[])) else Step(After(es[..|es| - 1], s), s, es[|es| - 1]).0
  }

  // ---------------------------------------------------------------------------------------------
  // Each part sees a run of its own.

  function OpsOf(m: Moderation, s: Settings, e: Event): seq<T.Op> {
    match e
    case Said(_, p, _, _, _, _, _, now) => [T.Message(p, now)] + if F.Sanction(Step(m, s, e).1) then [T.Remove(p)] else []
    case CleanTimes(now) => [T.Clean(now)]
    case ForgetKicks(_, _) => []
  }

  /** What the limiter is asked to do. */
  function Ops(es: seq<Event>, s: Settings): seq<T.Op> {
    if es == [] then [] else Ops(es[..|es| - 1], s) + OpsOf(After(es[..|es| - 1], s), s, es[|es| - 1])
  }

  function OffencesOf(m: Moderation, s: Settings, e: Event): seq<F.Event> {
    match e
    case Said(gameId, p, nick, _, _, _, _, now) => [F.Offended(gameId, p, nick, OffenceOf(m, s, e), now)]
    case CleanTimes(_) => []
    case ForgetKicks(now, forgetSeconds) => [F.Forget(now, forgetSeconds)]
  }

  /** What the filter has to decide about. */
  function Offences(es: seq<Event>, s: Settings): seq<F.Event> {
    if es == [] then [] else Offences(es[..|es| - 1], s) + OffencesOf(After(es[..|es| - 1], s), s, es[|es| - 1])
  }

  lemma AfterSnoc(ops: seq<T.Op>, L: int, op: T.Op)
    ensures T.After(ops + [op], L) == T.Apply(T.After(ops, L), L, op)
  {
    assert (ops + [op])[..|ops|] == ops;
  }

  lemma StateSnoc(es: seq<F.Event>, l: F.Limits, e: F.Event)
    ensures F.State(es + [e], l) == F.Next(F.State(es, l), l, e).0
  {
    assert (es + [e])[..|es|] == es;
  }

  /** Over every chat the limiter and the filter are where their own runs have brought them, so whatever holds
      for all of their runs holds here. */
  lemma {:induction false} PartsRunAlone(es: seq<Event>, s: Settings)
    ensures After(es, s).times == T.After(Ops(es, s), s.floodLevel)
    ensures After(es, s).lists == F.State(Offences(es, s), s.limits)
  {
    hide F.Punished, F.Forgotten, T.Noted, T.Cleaned, Highest;
    if es != [] {
      var before, e := es[..|es| - 1], es[|es| - 1];
      PartsRunAlone(before, s);
      var m := After(before, s);
      LimiterStep(Ops(before, s), s, m, e);
      FilterStep(Offences(before, s), s, m, e);
      hide Step, OpsOf, OffencesOf;
    }
  }

  lemma LimiterStep(ops: seq<T.Op>, s: Settings, m: Moderation, e: Event)
    requires m.times == T.After(ops, s.floodLevel)
    ensures Step(m, s, e).0.times == T.After(ops + OpsOf(m, s, e), s.floodLevel)
  {
    hide F.Punished, F.Forgotten, T.Noted, T.Cleaned, Highest;
    match e
    case Said(_, p, _, _, _, _, _, now) =>
      AfterSnoc(ops, s.floodLevel, T.Message(p, now));
      AfterSnoc(ops + [T.Message(p, now)], s.floodLevel, T.Remove(p));
      assert ops + ([T.Message(p, now)] + [T.Remove(p)]) == (ops + [T.Message(p, now)]) + [T.Remove(p)];
      assert [T.Message(p, now)] + [] == [T.Message(p, now)];
    case CleanTimes(now) => AfterSnoc(ops, s.floodLevel, T.Clean(now));
    case ForgetKicks(_, _) => assert ops + [] == ops;
  }

  lemma FilterStep(fs: seq<F.Event>, s: Settings, m: Moderation, e: Event)
    requires m.lists == F.State(fs, s.limits)
    ensures Step(m, s, e).0.lists == F.State(fs + OffencesOf(m, s, e), s.limits)
  {
    hide F.Punished, F.Forgotten, T.Noted, T.Cleaned, Highest;
    match e
    case Said(gameId, p, nick, _, _, _, _, now) => StateSnoc(fs, s.limits, F.Offended(gameId, p, nick, OffenceOf(m, s, e), now));
    case CleanTimes(_) => assert fs + [] == fs;
    case ForgetKicks(now, forgetSeconds) => StateSnoc(fs, s.limits, F.Forget(now, forgetSeconds));
  }

  // ---------------------------------------------------------------------------------------------
  // What flooding costs.

  predicate By(e: Event, p: nat) {
    e.Said? && e.playerId == p
  }

  /** When p last wrote. */
  function LastSaid(es: seq<Event>, p: nat): (bool, int) {
    if es == [] then (false, 0) else if By(es[|es| - 1], p) then (true, es[|es| - 1].now) else LastSaid(es[..|es| - 1], p)
  }

  /** How many messages of p came within a second of its previous one. */
  function CloseMessages(es: seq<Event>, p: nat): nat {
    if es == [] then 0
    else
      var before, e := es[..|es| - 1], es[|es| - 1];
      CloseMessages(before, p) + if By(e, p) && LastSaid(before, p).0 && e.now - LastSaid(before, p).1 <= 1 then 1 else 0
  }

  /** How many messages of p were answered with a warning, and how many with a kick, a ban or a mute. */
  ghost function Warnings(es: seq<Event>, s: Settings, p: nat): nat {
    F.Warnings(Offences(es, s), s.limits, p)
  }

  ghost function Sanctions(es: seq<Event>, s: Settings, p: nat): nat {
    F.Sanctions(Offences(es, s), s.limits, p)
  }

  lemma CountSnoc(fs: seq<F.Event>, l: F.Limits, e: F.Event, p: nat)
    ensures F.Warnings(fs + [e], l, p) == F.Warnings(fs, l, p) + if F.By(e, p) && F.Next(F.State(fs, l), l, e).1 == F.WARN then 1 else 0
    ensures F.Sanctions(fs + [e], l, p) == F.Sanctions(fs, l, p) + if F.By(e, p) && F.Next(F.State(fs, l), l, e).1 in {F.KICK, F.KICKBAN, F.MUTE} then 1 else 0
  {
    hide F.Next, F.State;
    assert (fs + [e])[..|fs|] == fs;
  }

  /** What one event adds to the filter's accounts of p. */
  lemma FilterAccounts(fs: seq<F.Event>, s: Settings, m: Moderation, e: Event, p: nat)
    requires m.lists == F.State(fs, s.limits)
    ensures var all, a := fs + OffencesOf(m, s, e), Step(m, s, e).1;
            && F.Warnings(all, s.limits, p) == F.Warnings(fs, s.limits, p) + (if By(e, p) && a == F.WARN then 1 else 0)
            && F.Sanctions(all, s.limits, p) == F.Sanctions(fs, s.limits, p) + if By(e, p) && a in {F.KICK, F.KICKBAN, F.MUTE} then 1 else 0
  {
    hide F.Punished, F.Forgotten, T.Noted, T.Cleaned, Highest, F.Warnings, F.Sanctions, F.State;
    match e
    case Said(gameId, q, nick, _, _, _, _, now) => CountSnoc(fs, s.limits, F.Offended(gameId, q, nick, OffenceOf(m, s, e), now), p);
    case CleanTimes(_) => assert fs + [] == fs;
    case ForgetKicks(now, forgetSeconds) => CountSnoc(fs, s.limits, F.Forget(now, forgetSeconds), p);
  }

  lemma CloseSnoc(ops: seq<T.Op>, op: T.Op, p: nat)
    ensures T.LastMessage(ops + [op], p) == if op.Message? && op.playerId == p then (true, op.now) else T.LastMessage(ops, p)
    ensures T.Close(ops + [op], p)
         == T.Close(ops, p) + if op.Message? && op.playerId == p && T.LastMessage(ops, p).0 && op.now - T.LastMessage(ops, p).1 <= 1 then 1 else 0
  {
    assert (ops + [op])[..|ops|] == ops;
  }

  lemma TripsSnoc(ops: seq<T.Op>, L: int, op: T.Op, p: nat)
    ensures T.Triggers(ops + [op], L, p)
         == T.Triggers(ops, L, p) + if op.Message? && op.playerId == p && T.Noted(T.After(ops, L), L, p, op.now).1 then 1 else 0
  {
    assert (ops + [op])[..|ops|] == ops;
  }

  /** What one event adds to the limiter's accounts of p. */
  lemma LimiterAccounts(ops: seq<T.Op>, s: Settings, m: Moderation, e: Event, p: nat)
    requires m.times == T.After(ops, s.floodLevel)
    ensures var all := ops + OpsOf(m, s, e);
            && T.LastMessage(all, p) == (if By(e, p) then (true, e.now) else T.LastMessage(ops, p))
            && T.Close(all, p) == T.Close(ops, p) + (if By(e, p) && T.LastMessage(ops, p).0 && e.now - T.LastMessage(ops, p).1 <= 1 then 1 else 0)
            && T.Triggers(all, s.floodLevel, p) == T.Triggers(ops, s.floodLevel, p) + if By(e, p) && Trips(m, s, e) then 1 else 0
  {
    hide F.Punished, F.Forgotten, T.Noted, T.Cleaned, Highest, T.After, T.Close, T.LastMessage, T.Triggers, Step;
    match e
    case Said(_, q, _, _, _, _, _, now) =>
      var first, second := T.Message(q, now), T.Remove(q);
      CloseSnoc(ops, first, p);
      TripsSnoc(ops, s.floodLevel, first, p);
      CloseSnoc(ops + [first], second, p);
      TripsSnoc(ops + [first], s.floodLevel, second, p);
      assert ops + ([first] + [second]) == (ops + [first]) + [second] && [first] + [] == [first];
    case CleanTimes(now) =>
      CloseSnoc(ops, T.Clean(now), p);
      TripsSnoc(ops, s.floodLevel, T.Clean(now), p);
    case ForgetKicks(_, _) => assert ops + [] == ops;
  }

  /** The checks of the text found nothing in any message of p. */
  ghost predicate CleanTexts(es: seq<Event>, p: nat) {
    forall i :: 0 <= i < |es| && By(es[i], p) ==> !es[i].badWord && !es[i].capsFlood && !es[i].letterRepeating && !es[i].url
  }

  /** The warning list only knows p for flooding. */
  predicate WarnedForFlooding(l: F.Lists, p: nat) {
    p in l.warns ==> l.warns[p].lastWarnType == F.TEXT_FLOOD_LINES
  }

  lemma FloodStep(m: Moderation, s: Settings, e: Event, p: nat)
    requires WarnedForFlooding(m.lists, p)
    requires By(e, p) ==> !e.badWord && !e.capsFlood && !e.letterRepeating && !e.url
    ensures var (n, a) := Step(m, s, e);
            && WarnedForFlooding(n.lists, p)
            && (By(e, p) && Trips(m, s, e) ==>
                  a == (if p in m.lists.warns then a else F.WARN) && (p in m.lists.warns ==> a in {F.KICK, F.KICKBAN, F.MUTE})
                  && (p in n.lists.warns <==> p !in m.lists.warns))
            && (!(By(e, p) && Trips(m, s, e)) ==> (p in n.lists.warns <==> p in m.lists.warns) && (By(e, p) ==> a == F.NOTHING))
  {
    hide T.Noted, T.Cleaned;
  }

  /** The account of a player whose texts are clean: each trip of the limiter is answered, with a warning and
      a sanction in turn. */
  lemma {:induction false} FloodAccount(es: seq<Event>, s: Settings, p: nat)
    requires CleanTexts(es, p)
    ensures var m := After(es, s);
            && WarnedForFlooding(m.lists, p)
            && Warnings(es, s, p) == Sanctions(es, s, p) + (if p in m.lists.warns then 1 else 0)
            && T.Triggers(Ops(es, s), s.floodLevel, p) == Warnings(es, s, p) + Sanctions(es, s, p)
            && T.Close(Ops(es, s), p) == CloseMessages(es, p) && T.LastMessage(Ops(es, s), p) == LastSaid(es, p)
  {
    if es != [] {
      var before, e := es[..|es| - 1], es[|es| - 1];
      FloodAccount(before, s, p);
      PartsRunAlone(before, s);
      LimiterAccounts(Ops(before, s), s, After(before, s), e, p);
      FilterAccounts(Offences(before, s), s, After(before, s), e, p);
      FloodStep(After(before, s), s, e, p);
      hide Step, OpsOf, OffencesOf, T.Close, T.Triggers, T.LastMessage, T.After, F.Warnings, F.Sanctions, F.State, Trips, WarnedForFlooding;
    }
  }

  /** Nobody is sanctioned for flooding alone unless it floods: each warning and each sanction of a player whose
      texts are clean is paid for with L + 1 messages of its own within a second of its previous one, so each
      sanction with twice as many, in every chat and whatever the others write. */
  lemma FloodersPay(es: seq<Event>, s: Settings, p: nat)
    requires s.floodLevel >= 0 && CleanTexts(es, p)
    ensures (s.floodLevel + 1) * (Warnings(es, s, p) + Sanctions(es, s, p)) <= CloseMessages(es, p)
    ensures Sanctions(es, s, p) <= Warnings(es, s, p) <= Sanctions(es, s, p) + 1
    ensures 2 * (s.floodLevel + 1) * Sanctions(es, s, p) <= CloseMessages(es, p)
  {
    hide Warnings, Sanctions, T.Triggers, T.Close, CloseMessages;
    FloodAccount(es, s, p);
    T.Amortised(Ops(es, s), s.floodLevel, p);
    PaidFor(s.floodLevel + 1, Warnings(es, s, p), Sanctions(es, s, p), T.Level(T.After(Ops(es, s), s.floodLevel), p), CloseMessages(es, p));
  }

  lemma PaidFor(n: int, w: nat, k: nat, level: int, close: nat)
    requires n >= 1 && k <= w && level >= 0 && n * (w + k) + level <= close
    ensures n * (w + k) <= close && 2 * n * k <= close
  {
    Twice(n, w, k);
  }

  lemma Twice(n: int, w: nat, k: nat)
    requires n >= 1 && k <= w
    ensures 2 * n * k <= n * (w + k)
  {
    assert n * (w + k) == n * w + n * k;
    assert n * w == n * (w - k) + n * k && n * (w - k) >= 0;
  }
}
