/** What the lists of the chat cleaner say and what it answers, by the history of the chat alone: who was warned,
    kicked and banned when, and when kicks were forgotten. */
module FilterHistory {
  import opened MessageFilter

  // ---------------------------------------------------------------------------------------------
  // Kicks.

  ghost predicate KickAt(es: seq<Event>, l: Limits, nick: string, i: int) {
    0 <= i < |es| && Named(es[i], nick) && Answer(es, l, i) == KICK
  }

  ghost predicate BanAt(es: seq<Event>, l: Limits, nick: string, i: int) {
    0 <= i < |es| && Named(es[i], nick) && Answer(es, l, i) == KICKBAN
  }

  /** The last kick of the nick before the j-th event is the i-th. */
  ghost predicate LastKickBefore(es: seq<Event>, l: Limits, nick: string, i: int, j: int) {
    i < j && KickAt(es, l, nick, i) && forall k :: i < k < j ==> !KickAt(es, l, nick, k)
  }

  /** The j-th event makes the kicks of the nick before it void: it is a ban, or the regular forgetting when the
      last of these kicks was too long ago. */
  ghost predicate ClearsAt(es: seq<Event>, l: Limits, nick: string, j: int) {
    || BanAt(es, l, nick, j)
    || (0 <= j < |es| && es[j].Forget? && exists i :: LastKickBefore(es, l, nick, i, j) && es[j].now - es[i].now > es[j].forgetSeconds)
  }

  /** The kicks that still count. */
  ghost function LiveKicks(es: seq<Event>, l: Limits, nick: string): set<int> {
    set i | 0 <= i < |es| && KickAt(es, l, nick, i) && forall j :: i < j < |es| ==> !ClearsAt(es, l, nick, j)
  }

  /** What one event does to the entry of a nick. */
  lemma KickEntry(s: Lists, l: Limits, e: Event, nick: string)
    ensures var (t, a) := Next(s, l, e);
            if Named(e, nick) && a == KICK then nick in t.kicks && t.kicks[nick] == ClientKickInfos(e.now, KickNumber(s, nick) + 1)
            else if Named(e, nick) && a == KICKBAN then nick in s.kicks && nick !in t.kicks
            else if e.Forget? && nick in s.kicks && e.now - s.kicks[nick].lastKickTimestamp > e.forgetSeconds then nick !in t.kicks
            else (nick in t.kicks <==> nick in s.kicks) && (nick in s.kicks ==> t.kicks[nick] == s.kicks[nick])
  {
  }

  lemma SameBefore(es: seq<Event>, l: Limits, e: Event, nick: string, i: int)
    requires i < |es|
    ensures KickAt(es + [e], l, nick, i) == KickAt(es, l, nick, i) && BanAt(es + [e], l, nick, i) == BanAt(es, l, nick, i)
  {
    if 0 <= i {
      assert (es + [e])[..i] == es[..i];
    }
  }

  lemma SameLastKick(es: seq<Event>, l: Limits, e: Event, nick: string, i: int, j: int)
    requires j <= |es|
    ensures LastKickBefore(es + [e], l, nick, i, j) == LastKickBefore(es, l, nick, i, j)
  {
    forall k | i <= k < j
      ensures KickAt(es + [e], l, nick, k) == KickAt(es, l, nick, k)
    {
      SameBefore(es, l, e, nick, k);
    }
    hide KickAt;
  }

  lemma SameClears(es: seq<Event>, l: Limits, e: Event, nick: string, j: int)
    requires j < |es|
    ensures ClearsAt(es + [e], l, nick, j) == ClearsAt(es, l, nick, j)
  {
    hide LastKickBefore, BanAt;
    SameBefore(es, l, e, nick, j);
    forall i
      ensures LastKickBefore(es + [e], l, nick, i, j) == LastKickBefore(es, l, nick, i, j)
      ensures LastKickBefore(es, l, nick, i, j) ==> 0 <= i < j
    {
      SameLastKick(es, l, e, nick, i, j);
      BeforeLast(es, l, nick, i, j);
    }
  }

  lemma BeforeLast(es: seq<Event>, l: Limits, nick: string, i: int, j: int)
    ensures LastKickBefore(es, l, nick, i, j) ==> 0 <= i < j && i < |es|
  {
  }

  /** What counts after one more event. */
  lemma LiveNext(es: seq<Event>, l: Limits, e: Event, nick: string)
    ensures var all, n := es + [e], |es|;
            LiveKicks(all, l, nick) == (if ClearsAt(all, l, nick, n) then {} else LiveKicks(es, l, nick)) + if KickAt(all, l, nick, n) then {n} else {}
  {
    hide KickAt, ClearsAt;
    var all, n := es + [e], |es|;
    forall i | i < n
      ensures KickAt(all, l, nick, i) == KickAt(es, l, nick, i) && ClearsAt(all, l, nick, i) == ClearsAt(es, l, nick, i)
    {
      SameBefore(es, l, e, nick, i);
      SameClears(es, l, e, nick, i);
    }
  }

  /** The entry of a nick on the kick list is what the kicks that still count make it: there is one if and only if
      there are any, with their number, and with the time of the last. */
  ghost predicate KickEntryIsLive(es: seq<Event>, l: Limits, nick: string) {
    var kicks, live := State(es, l).kicks, LiveKicks(es, l, nick);
    && (nick in kicks <==> live != {})
    && (nick in kicks ==>
          && kicks[nick].kickNumber == |live|
          && exists k :: LastKickBefore(es, l, nick, k, |es|) && 0 <= k < |es| && kicks[nick].lastKickTimestamp == es[k].now)
  }

  /** After every history: a nick is on the kick list exactly if it was kicked and since then neither banned nor
      forgotten, which takes a regular cleaning that finds its last kick too long ago; its number is the
      number of such kicks and its time that of the last. */
  lemma {:induction false} KickListMeaning(es: seq<Event>, l: Limits, nick: string)
    ensures KickEntryIsLive(es, l, nick)
  {
    hide KickEntryIsLive;
    if es == [] {
      NoKicksYet(l, nick);
    } else {
      KickListMeaning(es[..|es| - 1], l, nick);
      assert es == es[..|es| - 1] + [es[|es| - 1]];
      KickEntryNext(es[..|es| - 1], l, es[|es| - 1], nick);
    }
  }

  lemma NoKicksYet(l: Limits, nick: string)
    ensures KickEntryIsLive([], l, nick)
  {
    assert LiveKicks([], l, nick) == {};
  }

  lemma LastKickIsOne(es: seq<Event>, l: Limits, nick: string, i: int, k: int, j: int)
    requires LastKickBefore(es, l, nick, i, j) && LastKickBefore(es, l, nick, k, j)
    ensures i == k
  {
  }

  lemma KickAnswer(es: seq<Event>, l: Limits, e: Event, nick: string)
    ensures var all, n, (t, a) := es + [e], |es|, Next(State(es, l), l, e);
            && State(all, l) == t && Answer(all, l, n) == a
            && (KickAt(all, l, nick, n) <==> Named(e, nick) && a == KICK) && (BanAt(all, l, nick, n) <==> Named(e, nick) && a == KICKBAN)
  {
    assert (es + [e])[..|es|] == es;
    hide Next;
  }

  lemma KickEntryNext(es: seq<Event>, l: Limits, e: Event, nick: string)
    requires KickEntryIsLive(es, l, nick)
    ensures KickEntryIsLive(es + [e], l, nick)
  {
    if KickAt(es + [e], l, nick, |es|) {
      KickNext(es, l, e, nick);
    } else {
      NoKickNext(es, l, e, nick);
    }
  }

  /** The number a nick has is that of its live kicks. */
  lemma NumberIsLive(es: seq<Event>, l: Limits, nick: string)
    requires KickEntryIsLive(es, l, nick)
    ensures KickNumber(State(es, l), nick) == |LiveKicks(es, l, nick)|
  {
    hide LiveKicks, State;
  }

  lemma KickNext(es: seq<Event>, l: Limits, e: Event, nick: string)
    requires KickEntryIsLive(es, l, nick) && KickAt(es + [e], l, nick, |es|)
    ensures KickEntryIsLive(es + [e], l, nick)
  {
    var all, n := es + [e], |es|;
    KickAnswer(es, l, e, nick);
    KickEntry(State(es, l), l, e, nick);
    LiveNext(es, l, e, nick);
    LiveBefore(es, l, nick);
    NumberIsLive(es, l, nick);
    LastKickNext(es, l, e, nick);
    assert all[n] == e && !ClearsAt(all, l, nick, n);
    hide Next, State, LiveKicks, KickAt, ClearsAt, LastKickBefore;
    assert n in LiveKicks(all, l, nick);
  }

  lemma NoKickNext(es: seq<Event>, l: Limits, e: Event, nick: string)
    requires KickEntryIsLive(es, l, nick) && !KickAt(es + [e], l, nick, |es|)
    ensures KickEntryIsLive(es + [e], l, nick)
  {
    var all, n := es + [e], |es|;
    KickAnswer(es, l, e, nick);
    KickEntry(State(es, l), l, e, nick);
    LiveNext(es, l, e, nick);
    if nick in State(es, l).kicks {
      ClearedIff(es, l, e, nick);
      hide Next, State, LiveKicks, KickAt, BanAt, ClearsAt;
      if !ClearsAt(all, l, nick, n) {
        var k :| LastKickBefore(es, l, nick, k, n) && 0 <= k < n && State(es, l).kicks[nick].lastKickTimestamp == es[k].now;
        LastKickNext(es, l, e, nick);
        assert all[k] == es[k] && LastKickBefore(all, l, nick, k, n + 1);
      }
    } else {
      hide Next, State, LiveKicks, KickAt, BanAt, ClearsAt;
    }
  }

  lemma LiveBefore(es: seq<Event>, l: Limits, nick: string)
    ensures |es| !in LiveKicks(es, l, nick)
  {
  }

  /** When a listed nick is cleared. */
  lemma ClearedIff(es: seq<Event>, l: Limits, e: Event, nick: string)
    requires KickEntryIsLive(es, l, nick) && nick in State(es, l).kicks
    ensures ClearsAt(es + [e], l, nick, |es|) <==>
            BanAt(es + [e], l, nick, |es|) || (e.Forget? && e.now - State(es, l).kicks[nick].lastKickTimestamp > e.forgetSeconds)
  {
    var n, all := |es|, es + [e];
    hide State, LiveKicks, BanAt, KickAt;
    var k :| LastKickBefore(es, l, nick, k, n) && 0 <= k < n && State(es, l).kicks[nick].lastKickTimestamp == es[k].now;
    hide LastKickBefore;
    forall i
      ensures LastKickBefore(all, l, nick, i, n) <==> i == k
    {
      SameLastKick(es, l, e, nick, i, n);
      if LastKickBefore(es, l, nick, i, n) {
        LastKickIsOne(es, l, nick, i, k, n);
      }
    }
    assert all[n] == e && all[k] == es[k];
  }

  lemma LastKickNext(es: seq<Event>, l: Limits, e: Event, nick: string)
    ensures forall k :: LastKickBefore(es, l, nick, k, |es|) && !KickAt(es + [e], l, nick, |es|) ==>
                          0 <= k < |es| && LastKickBefore(es + [e], l, nick, k, |es| + 1)
    ensures KickAt(es + [e], l, nick, |es|) ==> LastKickBefore(es + [e], l, nick, |es|, |es| + 1)
  {
    forall k | LastKickBefore(es, l, nick, k, |es|) && !KickAt(es + [e], l, nick, |es|)
      ensures 0 <= k < |es| && LastKickBefore(es + [e], l, nick, k, |es| + 1)
    {
      SameLastKick(es, l, e, nick, k, |es|);
      BeforeLast(es, l, nick, k, |es|);
      hide KickAt;
    }
  }

  // ---------------------------------------------------------------------------------------------
  // Warnings.

  ghost predicate WarningAt(es: seq<Event>, l: Limits, p: nat, i: int) {
    0 <= i < |es| && By(es[i], p) && Answer(es, l, i) == WARN
  }

  ghost predicate SanctionAt(es: seq<Event>, l: Limits, p: nat, i: int) {
    0 <= i < |es| && By(es[i], p) && Answer(es, l, i) in {KICK, KICKBAN, MUTE}
  }

  /** The warnings of a player since his last sanction. */
  ghost function LiveWarnings(es: seq<Event>, l: Limits, p: nat): set<int> {
    set i | 0 <= i < |es| && WarningAt(es, l, p, i) && forall j :: i < j < |es| ==> !SanctionAt(es, l, p, j)
  }

  /** The last of them was for this offence. */
  ghost predicate LastWarnedFor(es: seq<Event>, l: Limits, p: nat, o: OffenceType) {
    exists k :: k in LiveWarnings(es, l, p) && (forall j :: j in LiveWarnings(es, l, p) ==> j <= k) && 0 <= k < |es| && By(es[k], p) && es[k].offence == o
  }

  lemma WarnAnswer(es: seq<Event>, l: Limits, e: Event, p: nat)
    ensures var all, n, (t, a) := es + [e], |es|, Next(State(es, l), l, e);
            && State(all, l) == t && Answer(all, l, n) == a
            && (WarningAt(all, l, p, n) <==> By(e, p) && a == WARN) && (SanctionAt(all, l, p, n) <==> By(e, p) && a in {KICK, KICKBAN, MUTE})
  {
    assert (es + [e])[..|es|] == es;
    hide Next;
  }

  lemma SameWarnings(es: seq<Event>, l: Limits, e: Event, p: nat, i: int)
    requires i < |es|
    ensures WarningAt(es + [e], l, p, i) == WarningAt(es, l, p, i) && SanctionAt(es + [e], l, p, i) == SanctionAt(es, l, p, i)
  {
    if 0 <= i {
      assert (es + [e])[..i] == es[..i];
    }
  }

  lemma WarningsNext(es: seq<Event>, l: Limits, e: Event, p: nat)
    ensures var all, n := es + [e], |es|;
            && n !in LiveWarnings(es, l, p) && (forall i :: i in LiveWarnings(es, l, p) ==> 0 <= i < n && By(es[i], p))
            && LiveWarnings(all, l, p)
            == (if SanctionAt(all, l, p, n) then {} else LiveWarnings(es, l, p)) + if WarningAt(all, l, p, n) then {n} else {}
  {
    assert forall i :: i in LiveWarnings(es, l, p) ==> WarningAt(es, l, p, i);
    assert forall i :: WarningAt(es, l, p, i) ==> 0 <= i < |es| && By(es[i], p);
    hide WarningAt, SanctionAt;
    forall i | i < |es|
      ensures WarningAt(es + [e], l, p, i) == WarningAt(es, l, p, i) && SanctionAt(es + [e], l, p, i) == SanctionAt(es, l, p, i)
    {
      SameWarnings(es, l, e, p, i);
    }
  }

  /** What one event does to the entry of a player. */
  lemma WarnEntry(s: Lists, l: Limits, e: Event, p: nat)
    ensures var (t, a) := Next(s, l, e);
            if By(e, p) && a == WARN then
              p in t.warns && t.warns[p].warnLevel == WarnLevel(s, p) + 1 && t.warns[p].lastWarnType == e.offence
            else if By(e, p) && a in {KICK, KICKBAN, MUTE} then p !in t.warns
            else (p in t.warns <==> p in s.warns) && (p in s.warns ==> t.warns[p] == s.warns[p])
  {
  }

  ghost predicate WarnEntryIsLive(es: seq<Event>, l: Limits, p: nat) {
    var warns, live := State(es, l).warns, LiveWarnings(es, l, p);
    && (p in warns <==> live != {})
    && (p in warns ==> warns[p].warnLevel == |live| && LastWarnedFor(es, l, p, warns[p].lastWarnType))
  }

  /** After every history: a player is on the warning list exactly if he was warned and not sanctioned since, with
      the number of these warnings and the offence of the last. */
  lemma {:induction false} WarnListMeaning(es: seq<Event>, l: Limits, p: nat)
    ensures WarnEntryIsLive(es, l, p)
  {
    hide WarnEntryIsLive;
    if es == [] {
      NoWarningsYet(l, p);
    } else {
      WarnListMeaning(es[..|es| - 1], l, p);
      assert es == es[..|es| - 1] + [es[|es| - 1]];
      WarnEntryNext(es[..|es| - 1], l, es[|es| - 1], p);
    }
  }

  lemma NoWarningsYet(l: Limits, p: nat)
    ensures WarnEntryIsLive([], l, p)
  {
    assert LiveWarnings([], l, p) == {};
  }

  lemma WarnEntryNext(es: seq<Event>, l: Limits, e: Event, p: nat)
    requires WarnEntryIsLive(es, l, p)
    ensures WarnEntryIsLive(es + [e], l, p)
  {
    var all, n := es + [e], |es|;
    WarnAnswer(es, l, e, p);
    WarnEntry(State(es, l), l, e, p);
    WarningsNext(es, l, e, p);
    hide Next, State, WarningAt, SanctionAt, LiveWarnings;
    assert all[n] == e && forall i :: 0 <= i < n ==> all[i] == es[i];
    if WarningAt(all, l, p, n) {
      assert n in LiveWarnings(all, l, p);
    }
  }

  // ---------------------------------------------------------------------------------------------
  // Answers.

  /** The answer to an offence, by the history before it: there is a sanction exactly if the player has used up his
      warnings, or the last one was for the same offence; it is a mute in a game, a ban after as many kicks as the
      limit says, and otherwise a kick. */
  lemma AnswerByHistory(es: seq<Event>, l: Limits, e: Event)
    requires e.Offended?
    ensures var a, warned, kicked := Answer(es + [e], l, |es|), LiveWarnings(es, l, e.playerId), LiveKicks(es, l, e.nick);
            var due := warned != {} && (|warned| == l.warnLevelToKick || LastWarnedFor(es, l, e.playerId, e.offence));
            && (a == NOTHING <==> e.offence == NONE)
            && (a == WARN <==> e.offence != NONE && !due)
            && (a == MUTE <==> e.offence != NONE && due && e.gameId != 0)
            && (a == KICKBAN <==> e.offence != NONE && due && e.gameId == 0 && kicked != {} && |kicked| == l.kickNumberToBan)
            && (a == KICK <==> e.offence != NONE && due && e.gameId == 0 && (kicked == {} || |kicked| != l.kickNumberToBan))
  {
    WarnListMeaning(es, l, e.playerId);
    KickListMeaning(es, l, e.nick);
    KickAnswer(es, l, e, e.nick);
    LastWarnedOnce(es, l, e.playerId);
    hide State, LiveWarnings, LiveKicks, LastWarnedFor, KickAt, BanAt, Answer;
  }

  lemma LastWarnedOnce(es: seq<Event>, l: Limits, p: nat)
    ensures forall o, q :: LastWarnedFor(es, l, p, o) && LastWarnedFor(es, l, p, q) ==> o == q
  {
    hide LiveWarnings;
  }
}
