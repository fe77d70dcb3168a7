/** The escalation of the chat cleaner: warnings, kicks, bans, and mutes in a game. */
module MessageFilter {
  import opened TextFlood

  datatype ActionType = NOTHING | WARN | KICK | KICKBAN | MUTE
  datatype OffenceType = NONE | BAD_WORD | TEXT_FLOOD_LINES | CAPS_FLOOD | LETTER_REPEATING | URL

  function Rank(o: OffenceType): nat {
    match o
    case NONE => 0
    case BAD_WORD => 1
    case TEXT_FLOOD_LINES => 2
    case CAPS_FLOOD => 3
    case LETTER_REPEATING => 4
    case URL => 5
  }

  datatype ClientWarnInfos = ClientWarnInfos(nick: string, lastWarnType: OffenceType, warnLevel: int)
  datatype ClientKickInfos = ClientKickInfos(lastKickTimestamp: int, kickNumber: int)

  datatype Lists = Lists(warns: map<nat, ClientWarnInfos>, kicks: map<string, ClientKickInfos>)

  /** The thresholds: warnings before a kick, kicks before a ban. */
  datatype Limits = Limits(warnLevelToKick: int, kickNumberToBan: int)

  /** The offences a message triggers. */
  datatype Checks = Checks(badWord: bool, capsFlood: bool, letterRepeating: bool, url: bool, textFlood: bool)

  predicate Triggered(k: Checks, o: OffenceType) {
    match o
    case NONE => true
    case BAD_WORD => k.badWord
    case TEXT_FLOOD_LINES => k.textFlood
    case CAPS_FLOOD => k.capsFlood
    case LETTER_REPEATING => k.letterRepeating
    case URL => k.url
  }

  /** The offence that counts is a triggered one and no triggered one ranks higher. */
  predicate IsHighest(k: Checks, o: OffenceType) {
    Triggered(k, o) && forall x: OffenceType :: Triggered(k, x) ==> Rank(x) <= Rank(o)
  }

  lemma HighestIsUnique(k: Checks, o: OffenceType, x: OffenceType)
    requires IsHighest(k, o) && IsHighest(k, x)
    ensures o == x
  {
    assert Rank(o) == Rank(x);
  }

  /** The kick list after a kick of this nick, and whether it became a ban. */
  function Kicked(kicks: map<string, ClientKickInfos>, l: Limits, nick: string, now: int): (map<string, ClientKickInfos>, ActionType) {
    if nick !in kicks then (kicks[nick := ClientKickInfos(now, 1)], KICK)
    else if kicks[nick].kickNumber == l.kickNumberToBan then (kicks - {nick}, KICKBAN)
    else (kicks[nick := ClientKickInfos(now, kicks[nick].kickNumber + 1)], KICK)
  }

  /** What an offence leads to. */
  function Punished(s: Lists, l: Limits, gameId: nat, p: nat, nick: string, o: OffenceType, now: int): (Lists, ActionType) {
    if o == NONE then (s, NOTHING)
    else if p !in s.warns then (s.(warns := s.warns[p := ClientWarnInfos(nick, o, 1)]), WARN)
    else if s.warns[p].warnLevel == l.warnLevelToKick || s.warns[p].lastWarnType == o then
      if gameId != 0 then (s.(warns := s.warns - {p}), MUTE)
      else var (kicks, action) := Kicked(s.kicks, l, nick, now); (Lists(s.warns - {p}, kicks), action)
    else (s.(warns := s.warns[p := ClientWarnInfos(nick, o, s.warns[p].warnLevel + 1)]), WARN)
  }

  predicate Sanction(a: ActionType) {
    a == KICK || a == KICKBAN || a == MUTE
  }

  function Forgotten(s: Lists, now: int, forgetSeconds: int): Lists {
    s.(kicks := map n | n in s.kicks && !(now - s.kicks[n].lastKickTimestamp > forgetSeconds) :: s.kicks[n])
  }

  class MessageFilter {
    const myTextFloodCheck: TextFloodCheck
    var myClientWarnLevelList: map<nat, ClientWarnInfos>
    var myClientKickCounterList: map<string, ClientKickInfos>
    var warnLevelToKick: int
    var kickNumberToBan: int

    ghost function View(): Lists
      reads this
    {
      Lists(myClientWarnLevelList, myClientKickCounterList)
    }

    constructor ()
      ensures View() == Lists(map[], map[]) && warnLevelToKick == 3 && kickNumberToBan == 3
      ensures fresh(myTextFloodCheck) && myTextFloodCheck.msgTimesList == map[]
    {
      myTextFloodCheck := new TextFloodCheck();
      myClientWarnLevelList, myClientKickCounterList, warnLevelToKick, kickNumberToBan := map[], map[], 3, 3;
    }

    /** All checks run on every message, the flood check with them, and the highest offence is kept.
        Which of the four checks of the text hit is given. */
    method Offence(playerId: nat, badWord: bool, capsFlood: bool, letterRepeating: bool, url: bool, elapsed: int)
      returns (offence: OffenceType, flood: bool)
      modifies myTextFloodCheck`msgTimesList
      ensures (myTextFloodCheck.msgTimesList, flood)
           == Noted(old(myTextFloodCheck.msgTimesList), myTextFloodCheck.textFloodLevelToTrigger, playerId, elapsed)
      ensures IsHighest(Checks(badWord, capsFlood, letterRepeating, url, flood), offence)
    {
      offence := NONE;
      if badWord {
        offence := BAD_WORD;
      }
      if capsFlood && Rank(offence) < Rank(CAPS_FLOOD) {
        offence := CAPS_FLOOD;
      }
      if letterRepeating && Rank(offence) < Rank(LETTER_REPEATING) {
        offence := LETTER_REPEATING;
      }
      if url && Rank(offence) < Rank(URL) {
        offence := URL;
      }
      flood := myTextFloodCheck.Run(playerId, elapsed);
      if flood && Rank(offence) < Rank(TEXT_FLOOD_LINES) {
        offence := TEXT_FLOOD_LINES;
      }
    }

    method CountKick(nick: string, elapsed: int) returns (action: ActionType)
      modifies this`myClientKickCounterList
      ensures (myClientKickCounterList, action)
           == Kicked(old(myClientKickCounterList), Limits(warnLevelToKick, kickNumberToBan), nick, elapsed)
    {
      action := KICK;
      if nick !in myClientKickCounterList {
        myClientKickCounterList := myClientKickCounterList[nick := ClientKickInfos(elapsed, 1)];
      } else {
        if myClientKickCounterList[nick].kickNumber == kickNumberToBan {
          action := KICKBAN;
          myClientKickCounterList := myClientKickCounterList - {nick};
        } else {
          myClientKickCounterList := myClientKickCounterList[nick := ClientKickInfos(elapsed, myClientKickCounterList[nick].kickNumber + 1)];
        }
      }
    }

    /** One message. A sanction also takes the player off the flood list. */
    method Check(gameId: nat, playerId: nat, nick: string, badWord: bool, capsFlood: bool, letterRepeating: bool, url: bool, elapsed: int)
      returns (action: ActionType, ghost offence: OffenceType)
      modifies this`myClientWarnLevelList, this`myClientKickCounterList, myTextFloodCheck`msgTimesList
      ensures var (times, flood) := Noted(old(myTextFloodCheck.msgTimesList), myTextFloodCheck.textFloodLevelToTrigger, playerId, elapsed);
              && IsHighest(Checks(badWord, capsFlood, letterRepeating, url, flood), offence)
              && (View(), action) == Punished(old(View()), Limits(warnLevelToKick, kickNumberToBan), gameId, playerId, nick, offence, elapsed)
              && myTextFloodCheck.msgTimesList == if Sanction(action) then times - {playerId} else times
    {
      hide IsHighest, Noted, Kicked;
      var o, flood := Offence(playerId, badWord, capsFlood, letterRepeating, url, elapsed);
      offence := o;
      action := NOTHING;
      if o != NONE {
        if playerId !in myClientWarnLevelList {
          myClientWarnLevelList := myClientWarnLevelList[playerId := ClientWarnInfos(nick, o, 1)];
          action := WARN;
        } else {
          if myClientWarnLevelList[playerId].warnLevel == warnLevelToKick || myClientWarnLevelList[playerId].lastWarnType == o {
            myTextFloodCheck.RemoveNickFromList(playerId);
            myClientWarnLevelList := myClientWarnLevelList - {playerId};
            if gameId != 0 {
              action := MUTE;
            } else {
              action := CountKick(nick, elapsed);
              KickIsSanction(old(myClientKickCounterList), Limits(warnLevelToKick, kickNumberToBan), nick, elapsed);
            }
          } else {
            myClientWarnLevelList := myClientWarnLevelList[playerId := ClientWarnInfos(nick, o, myClientWarnLevelList[playerId].warnLevel + 1)];
            action := WARN;
          }
        }
      }
    }

    /** The regular forgetting of old kicks: the keys are collected first and removed afterwards. */
    method CleanKickCounterList(elapsed: int, forgetSeconds: int)
      modifies this`myClientKickCounterList
      ensures View() == Forgotten(old(View()), elapsed, forgetSeconds)
    {
      var keysToRemove: set<string> := {};
      var todo := myClientKickCounterList.Keys;
      while todo != {}
        invariant todo <= myClientKickCounterList.Keys
        invariant forall n :: n in keysToRemove <==>
                    n in myClientKickCounterList && n !in todo && elapsed - myClientKickCounterList[n].lastKickTimestamp > forgetSeconds
        decreases todo
      {
        var key :| key in todo;
        if elapsed - myClientKickCounterList[key].lastKickTimestamp > forgetSeconds {
          keysToRemove := keysToRemove + {key};
        }
        todo := todo - {key};
      }
      myClientKickCounterList := myClientKickCounterList - keysToRemove;
    }
  }

  lemma KickIsSanction(kicks: map<string, ClientKickInfos>, l: Limits, nick: string, now: int)
    ensures Sanction(Kicked(kicks, l, nick, now).1)
  {
  }

  // ---------------------------------------------------------------------------------------------
  // Whole runs, with fixed limits.

  datatype Event =
    | Offended(gameId: nat, playerId: nat, nick: string, offence: OffenceType, now: int)
    | Forget(now: int, forgetSeconds: int)

  function Next(s: Lists, l: Limits, e: Event): (Lists, ActionType) {
    match e
    case Offended(gameId, p, nick, o, now) => Punished(s, l, gameId, p, nick, o, now)
    case Forget(now, forgetSeconds) => (Forgotten(s, now, forgetSeconds), NOTHING)
  }

  function State(es: seq<Event>, l: Limits): Lists {
    if es == [] then Lists(map[], map[]) else Next(State(es[..|es| - 1], l), l, es[|es| - 1]).0
  }

  /** The answer to the i-th event. */
  function Answer(es: seq<Event>, l: Limits, i: nat): ActionType
    requires i < |es|
  {
    Next(State(es[..i], l), l, es[i]).1
  }

  predicate By(e: Event, p: nat) {
    e.Offended? && e.playerId == p
  }

  predicate Named(e: Event, nick: string) {
    e.Offended? && e.nick == nick
  }

  /** How many of the events with this property were answered in one of these ways. */
  ghost function Count(es: seq<Event>, l: Limits, which: Event -> bool, actions: set<ActionType>): nat {
    if es == [] then 0
    else
      Count(es[..|es| - 1], l, which, actions)
      + if which(es[|es| - 1]) && Next(State(es[..|es| - 1], l), l, es[|es| - 1]).1 in actions then 1 else 0
  }

  ghost function Warnings(es: seq<Event>, l: Limits, p: nat): nat {
    Count(es, l, e => By(e, p), {WARN})
  }

  ghost function Sanctions(es: seq<Event>, l: Limits, p: nat): nat {
    Count(es, l, e => By(e, p), {KICK, KICKBAN, MUTE})
  }

  ghost function Kicks(es: seq<Event>, l: Limits, nick: string): nat {
    Count(es, l, e => Named(e, nick), {KICK})
  }

  ghost function Bans(es: seq<Event>, l: Limits, nick: string): nat {
    Count(es, l, e => Named(e, nick), {KICKBAN})
  }

  function WarnLevel(s: Lists, p: nat): int {
    if p in s.warns then s.warns[p].warnLevel else 0
  }

  function KickNumber(s: Lists, nick: string): int {
    if nick in s.kicks then s.kicks[nick].kickNumber else 0
  }

  ghost predicate Sane(l: Limits) {
    l.warnLevelToKick >= 1 && l.kickNumberToBan >= 1
  }

  lemma {:induction false} WarningAccount(es: seq<Event>, l: Limits, p: nat)
    requires Sane(l)
    ensures var s, w, n := State(es, l), Warnings(es, l, p), Sanctions(es, l, p);
            && (p in s.warns ==> 1 <= WarnLevel(s, p) <= l.warnLevelToKick)
            && n + (if p in s.warns then 1 else 0) <= w <= l.warnLevelToKick * n + WarnLevel(s, p)
  {
    if es != [] {
      var before, e := es[..|es| - 1], es[|es| - 1];
      WarningAccount(before, l, p);
      var n := Sanctions(before, l, p);
      assert l.warnLevelToKick * (n + 1) == l.warnLevelToKick * n + l.warnLevelToKick;
      WarningStep(State(before, l), l, e, p);
      hide Next;
    }
  }

  lemma WarningStep(s: Lists, l: Limits, e: Event, p: nat)
    requires l.warnLevelToKick >= 1 && (p in s.warns ==> 1 <= WarnLevel(s, p) <= l.warnLevelToKick)
    ensures var (t, a) := Next(s, l, e);
            if By(e, p) && a == WARN then p in t.warns && WarnLevel(t, p) == WarnLevel(s, p) + 1 && WarnLevel(s, p) != l.warnLevelToKick
            else if By(e, p) && a in {KICK, KICKBAN, MUTE} then p in s.warns && p !in t.warns
            else (p in t.warns <==> p in s.warns) && WarnLevel(t, p) == WarnLevel(s, p)
  {
  }

  /** Nobody is sanctioned without a warning since the last sanction, and nobody is warned more than
      the limit allows between two of them. */
  lemma WarningsBracketSanctions(es: seq<Event>, l: Limits, p: nat)
    requires Sane(l)
    ensures var w, s := Warnings(es, l, p), Sanctions(es, l, p);
            s <= w <= l.warnLevelToKick * (s + 1)
  {
    WarningAccount(es, l, p);
    var n := Sanctions(es, l, p);
    assert l.warnLevelToKick * (n + 1) == l.warnLevelToKick * n + l.warnLevelToKick;
  }

  /** What a warning leaves behind stays until the player's next offence. */
  lemma {:induction false} WarningStays(es: seq<Event>, l: Limits, p: nat, i: nat, j: nat)
    requires i < j <= |es| && By(es[i], p) && es[i].offence != NONE && Answer(es, l, i) == WARN
    requires forall k :: i < k < j ==> !(By(es[k], p) && es[k].offence != NONE)
    ensures var s := State(es[..j], l);
            p in s.warns && s.warns[p].lastWarnType == es[i].offence
    decreases j
  {
    assert es[..j][..j - 1] == es[..j - 1];
    if j > i + 1 {
      WarningStays(es, l, p, i, j - 1);
      assert es[..j][j - 1] == es[j - 1];
    }
  }

  /** Of two consecutive offences of a player that are of the same type, at most one gets a warning. */
  lemma SameOffenceTwice(es: seq<Event>, l: Limits, p: nat, i: nat, j: nat)
    requires i < j < |es| && By(es[i], p) && By(es[j], p) && es[i].offence == es[j].offence != NONE
    requires forall k :: i < k < j ==> !(By(es[k], p) && es[k].offence != NONE)
    ensures Answer(es, l, i) == WARN ==> Sanction(Answer(es, l, j))
  {
    if Answer(es, l, i) == WARN {
      WarningStays(es, l, p, i, j);
    }
  }

  ghost predicate NothingForgotten(es: seq<Event>) {
    forall i :: 0 <= i < |es| ==> es[i].Offended?
  }

  lemma KickStep(s: Lists, l: Limits, e: Event, nick: string)
    requires nick in s.kicks ==> 1 <= KickNumber(s, nick) <= l.kickNumberToBan
    requires l.kickNumberToBan >= 1
    ensures var (t, a) := Next(s, l, e);
            && (nick in t.kicks ==> 1 <= KickNumber(t, nick) <= l.kickNumberToBan)
            && if Named(e, nick) && a == KICK then KickNumber(t, nick) == KickNumber(s, nick) + 1
               else if Named(e, nick) && a == KICKBAN then KickNumber(s, nick) == l.kickNumberToBan && KickNumber(t, nick) == 0
               else 0 <= KickNumber(t, nick) <= KickNumber(s, nick) && (e.Offended? ==> KickNumber(t, nick) == KickNumber(s, nick))
  {
  }

  /** Every ban of a nick is paid for with as many kicks as the limit says, and exactly so when nothing
      is forgotten; the counters on the list stay between 1 and the limit. */
  lemma {:induction false} BansArePaid(es: seq<Event>, l: Limits, nick: string)
    requires Sane(l)
    ensures var s, k, b := State(es, l), Kicks(es, l, nick), Bans(es, l, nick);
            && (nick in s.kicks ==> 1 <= KickNumber(s, nick) <= l.kickNumberToBan)
            && l.kickNumberToBan * b + KickNumber(s, nick) <= k
            && (NothingForgotten(es) ==> l.kickNumberToBan * b + KickNumber(s, nick) == k)
  {
    if es != [] {
      var before, e := es[..|es| - 1], es[|es| - 1];
      BansArePaid(before, l, nick);
      var b := Bans(before, l, nick);
      assert l.kickNumberToBan * (b + 1) == l.kickNumberToBan * b + l.kickNumberToBan;
      KickStep(State(before, l), l, e, nick);
      assert NothingForgotten(es) ==> NothingForgotten(before) && e.Offended?;
      hide Next;
    }
  }

  /** So a nick without a ban in between has been kicked exactly as often as the limit says when it is
      banned: the kicks between two bans, and before the first, number the limit. */
  lemma KicksBetweenBans(es: seq<Event>, l: Limits, nick: string)
    requires Sane(l) && NothingForgotten(es) && es != []
    requires Named(es[|es| - 1], nick) && Answer(es, l, |es| - 1) == KICKBAN
    ensures Kicks(es, l, nick) == l.kickNumberToBan * Bans(es, l, nick) && Bans(es, l, nick) >= 1
  {
    BansArePaid(es, l, nick);
    BansArePaid(es[..|es| - 1], l, nick);
    KickStep(State(es[..|es| - 1], l), l, es[|es| - 1], nick);
  }

  /** In a game nobody is kicked or banned, and outside nobody is muted. */
  lemma MuteOnlyInGames(es: seq<Event>, l: Limits, i: nat)
    requires i < |es| && es[i].Offended?
    ensures Answer(es, l, i) == MUTE ==> es[i].gameId != 0
    ensures Answer(es, l, i) in {KICK, KICKBAN} ==> es[i].gameId == 0
  {
  }

  /** A nick all of whose offences were in games has never been kicked or banned and is not on the kick
      list, whatever the others did and however often it was muted. */
  lemma {:induction false} GamesNeverKick(es: seq<Event>, l: Limits, nick: string)
    requires forall i :: 0 <= i < |es| && Named(es[i], nick) ==> es[i].gameId != 0
    ensures nick !in State(es, l).kicks && Kicks(es, l, nick) == 0 && Bans(es, l, nick) == 0
  {
    if es != [] {
      var n := |es| - 1;
      GamesNeverKick(es[..n], l, nick);
      if es[n].Offended? {
        MuteOnlyInGames(es, l, n);
      }
    }
  }

  /** A player all of whose offences were in the lobby has never been muted. */
  lemma {:induction false} LobbyNeverMutes(es: seq<Event>, l: Limits, p: nat)
    requires forall i :: 0 <= i < |es| && By(es[i], p) ==> es[i].gameId == 0
    ensures Count(es, l, e => By(e, p), {MUTE}) == 0
  {
    if es != [] {
      var n := |es| - 1;
      LobbyNeverMutes(es[..n], l, p);
      if es[n].Offended? {
        MuteOnlyInGames(es, l, n);
      }
      hide Next;
    }
  }
}
