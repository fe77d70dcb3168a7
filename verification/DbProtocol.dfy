/** The producer/consumer protocol around the database worker: callers push queries under a mutex
    and post a counting semaphore afterwards; one worker waits, takes a query per token and drains. */
module DbProtocol {
  import opened DbQueries
  import opened Decimal
  import opened Wrappers

  /** Where the worker is. `Top` is the loop condition together with the reconnect branch, `Token`
      means that a semaphore count has been taken and no query yet, `Handled` is the point before
      `try_wait`. */
  datatype Phase = Top | Waiting | Token | Working(q: Query) | Handled | Exited

  /** `owed` counts the posts that callers have yet to make, `pushed` and `requested` are history. */
  datatype Db = Db(
    queue: seq<Query>, sem: nat, owed: nat, phase: Phase, terminate: bool, permanentError: bool,
    trace: seq<Entry>, replies: seq<Reply>, pushed: seq<Query>, requested: seq<nat>)

  const INITIAL_DB := Db([], 0, 0, Top, false, false, [], [], [], [])

  /** `Push` is one of the calls that queue a single query, `PushEndGame` is EndGame with its two;
      `LoginUnconnected` is a login request that found the worker not connected. `Retry` is a round
      of the reconnect branch. */
  datatype Event =
    | Push(q: Query)
    | PushEndGame(id: nat, endTime: string)
    | LoginUnconnected(id: nat)
    | Post
    | SignalTermination
    | StartWaiting
    | Retry(permanent: bool)
    | Exit
    | Acquire
    | Take
    | Finish(o: Outcome)
    | TryWait

  predicate SinglePush(k: Kind) {
    !k.EndGame? && !k.UpdateScore?
  }

  predicate Enabled(s: Db, e: Event) {
    match e
    case Push(q) => SinglePush(q.kind)
    case Post => s.owed > 0
    case StartWaiting => s.phase.Top? && !s.terminate && !s.permanentError
    case Retry(_) => s.phase.Top? && !s.terminate && !s.permanentError
    case Exit => s.phase.Top? && (s.terminate || s.permanentError)
    case Acquire => s.phase.Waiting? && s.sem > 0
    case Take => s.phase.Token?
    case Finish(_) => s.phase.Working?
    case TryWait => s.phase.Handled?
    case _ => true
  }

  function EndGamePair(id: nat, endTime: string): seq<Query> {
    [Query(EndGame, id, [endTime]), Query(UpdateScore, id, [])]
  }

  function Step(s: Db, e: Event): Db
    requires Enabled(s, e)
  {
    match e
    case Push(q) =>
      s.(queue := s.queue + [q], owed := s.owed + 1, pushed := s.pushed + [q],
         requested := if q.kind.Login? then s.requested + [q.id] else s.requested)
    case PushEndGame(id, time) =>
      s.(queue := s.queue + EndGamePair(id, time), owed := s.owed + 2, pushed := s.pushed + EndGamePair(id, time))
    case LoginUnconnected(id) => s.(requested := s.requested + [id], replies := s.replies + [LoginFailed(id)])
    case Post => s.(owed := s.owed - 1, sem := s.sem + 1)
    case SignalTermination => s.(terminate := true, owed := s.owed + 1)
    case StartWaiting => s.(phase := Waiting)
    case Retry(permanent) => s.(permanentError := permanent)
    case Exit => s.(phase := Exited)
    case Acquire => s.(sem := s.sem - 1, phase := Token)
    case Take => if s.queue == [] then s.(phase := Handled) else s.(queue := s.queue[1..], phase := Working(s.queue[0]))
    case Finish(o) =>
      var done := Process(IdsAfter(s.trace), s.phase.q, o);
      s.(trace := s.trace + [Entry(s.phase.q, o, done)], replies := s.replies + done.replies, phase := Handled)
    case TryWait => if s.sem > 0 then s.(sem := s.sem - 1, phase := Token) else s.(phase := Top)
  }

  ghost predicate Legal(s: Db, es: seq<Event>)
    decreases |es|
  {
    es == [] || (Enabled(s, es[0]) && Legal(Step(s, es[0]), es[1..]))
  }

  function Run(s: Db, es: seq<Event>): Db
    requires Legal(s, es)
    decreases |es|
  {
    if es == [] then s else Run(Step(s, es[0]), es[1..])
  }

  lemma {:induction false} RunSnoc(s: Db, es: seq<Event>, e: Event)
    requires Legal(s, es) && Enabled(Run(s, es), e)
    ensures Legal(s, es + [e]) && Run(s, es + [e]) == Step(Run(s, es), e)
    decreases |es|
  {
    hide Step, Enabled;
    if es == [] {
      assert [] + [e] == [e] && [e][1..] == [];
      assert Legal(Step(s, e), []);
    } else {
      assert (es + [e])[1..] == es[1..] + [e];
      RunSnoc(Step(s, es[0]), es[1..], e);
    }
  }

  ghost predicate Reachable(s: Db) {
    exists es :: Legal(INITIAL_DB, es) && Run(INITIAL_DB, es) == s
  }

  // ---------------------------------------------------------------------------------------------

  function InHand(s: Db): seq<Query> {
    if s.phase.Working? then [s.phase.q] else []
  }

  function Processed(t: seq<Entry>): (qs: seq<Query>)
    ensures |qs| == |t|
  {
    seq(|t|, i requires 0 <= i < |t| => t[i].q)
  }

  /** Every queued query has a count of the semaphore, a post still owed, or the worker's token. */
  predicate Covered(s: Db) {
    |s.queue| <= s.sem + s.owed + (if s.phase.Token? then 1 else 0)
  }

  predicate Fifo(s: Db) {
    s.pushed == Processed(s.trace) + InHand(s) + s.queue
  }

  /** An end query is directly followed by the score query of its game, and conversely. */
  ghost predicate Paired(qs: seq<Query>) {
    && (forall i :: 0 <= i < |qs| && qs[i].kind.EndGame? ==>
          i + 1 < |qs| && qs[i + 1] == Query(UpdateScore, qs[i].id, []))
    && (forall i :: 0 <= i < |qs| && qs[i].kind.UpdateScore? ==>
          i > 0 && qs[i - 1].kind.EndGame? && qs[i - 1].id == qs[i].id)
  }

  function Count<T(==)>(p: T -> bool, xs: seq<T>): nat {
    if xs == [] then 0 else (if p(xs[0]) then 1 else 0) + Count(p, xs[1..])
  }

  lemma {:induction false} CountAppend<T>(p: T -> bool, xs: seq<T>, ys: seq<T>)
    ensures Count(p, xs + ys) == Count(p, xs) + Count(p, ys)
  {
    if xs == [] {
      assert xs + ys == ys;
    } else {
      assert (xs + ys)[1..] == xs[1..] + ys;
      CountAppend(p, xs[1..], ys);
    }
  }

  lemma CountOne<T>(p: T -> bool, x: T)
    ensures Count(p, [x]) == if p(x) then 1 else 0
  {
    assert Count(p, [x][1..]) == 0;
  }

  function IsReplyTo(id: nat): Reply -> bool {
    (r: Reply) => r == LoginSuccess(id) || r == LoginBlocked(id) || r == LoginFailed(id)
  }

  function IsLoginOf(id: nat): Query -> bool {
    (q: Query) => q.kind.Login? && q.id == id
  }

  function IsRequest(id: nat): nat -> bool {
    (x: nat) => x == id
  }

  /** Requests made for a login id are answered, being worked on, or still queued. */
  predicate Balanced(s: Db, id: nat) {
    Count(IsRequest(id), s.requested)
    == Count(IsReplyTo(id), s.replies) + Count(IsLoginOf(id), InHand(s)) + Count(IsLoginOf(id), s.queue)
  }

  ghost predicate Inv(s: Db) {
    Covered(s) && Fifo(s) && Paired(s.pushed) && Genuine(s.trace)
  }

  lemma PairedAppend(qs: seq<Query>, id: nat, endTime: string)
    requires Paired(qs)
    ensures Paired(qs + EndGamePair(id, endTime))
  {
    var all := qs + EndGamePair(id, endTime);
    forall i | 0 <= i < |all| && all[i].kind.EndGame?
      ensures i + 1 < |all| && all[i + 1] == Query(UpdateScore, all[i].id, [])
    {
      if i < |qs| {
        assert qs[i].kind.EndGame?;
      }
    }
    forall i | 0 <= i < |all| && all[i].kind.UpdateScore?
      ensures i > 0 && all[i - 1].kind.EndGame? && all[i - 1].id == all[i].id
    {
      if i < |qs| {
        assert qs[i].kind.UpdateScore?;
      }
    }
  }

  lemma GenuineAppend(t: seq<Entry>, q: Query, o: Outcome)
    requires Genuine(t)
    ensures Genuine(t + [Entry(q, o, Process(IdsAfter(t), q, o))])
  {
    hide Process;
    var u := t + [Entry(q, o, Process(IdsAfter(t), q, o))];
    forall i | 0 <= i < |u| ensures u[i].done == Process(IdsAfter(u[..i]), u[i].q, u[i].o) {
      if i < |t| {
        assert u[..i] == t[..i] && u[i] == t[i];
      } else {
        assert u[..i] == t;
      }
    }
  }

  lemma StepInv(s: Db, e: Event)
    requires Inv(s) && Enabled(s, e)
    ensures Inv(Step(s, e))
  {
    hide Process, Genuine, Paired;
    match e
    case Push(q) => PairedSingle(s.pushed, q);
    case PushEndGame(id, time) => PairedAppend(s.pushed, id, time);
    case Take =>
      if s.queue != [] {
        assert s.queue == [s.queue[0]] + s.queue[1..];
      }
    case Finish(o) => FinishInv(s, o);
    case _ =>
  }

  lemma FinishInv(s: Db, o: Outcome)
    requires Inv(s) && Enabled(s, Finish(o))
    ensures Inv(Step(s, Finish(o)))
  {
    hide Process, Genuine, Paired;
    var t := Step(s, Finish(o));
    GenuineAppend(s.trace, s.phase.q, o);
    assert Processed(t.trace) == Processed(s.trace) + [s.phase.q];
  }

  lemma PairedSingle(qs: seq<Query>, q: Query)
    requires Paired(qs) && SinglePush(q.kind)
    ensures Paired(qs + [q])
  {
    var all := qs + [q];
    forall i | 0 <= i < |all| && all[i].kind.EndGame?
      ensures i + 1 < |all| && all[i + 1] == Query(UpdateScore, all[i].id, [])
    {
      assert qs[i].kind.EndGame?;
    }
  }

  lemma LoginAnsweredOnce(ids: map<nat, nat>, q: Query, o: Outcome, id: nat)
    ensures Count(IsReplyTo(id), Process(ids, q, o).replies) == if IsLoginOf(id)(q) then 1 else 0
  {
    var rs := Process(ids, q, o).replies;
    if |rs| == 1 {
      CountOne(IsReplyTo(id), rs[0]);
    } else if |rs| == 2 {
      assert rs == [rs[0]] + [rs[1]];
      CountAppend(IsReplyTo(id), [rs[0]], [rs[1]]);
      CountOne(IsReplyTo(id), rs[0]);
      CountOne(IsReplyTo(id), rs[1]);
    }
  }

  lemma PushBalanced(s: Db, q: Query, id: nat)
    requires Balanced(s, id) && Enabled(s, Push(q))
    ensures Balanced(Step(s, Push(q)), id)
  {
    hide Count;
    CountAppend(IsLoginOf(id), s.queue, [q]);
    CountOne(IsLoginOf(id), q);
    CountAppend(IsRequest(id), s.requested, [q.id]);
    CountOne(IsRequest(id), q.id);
  }

  lemma PushEndGameBalanced(s: Db, g: nat, time: string, id: nat)
    requires Balanced(s, id)
    ensures Balanced(Step(s, PushEndGame(g, time)), id)
  {
    hide Count;
    var first, second := Query(EndGame, g, [time]), Query(UpdateScore, g, []);
    assert EndGamePair(g, time) == [first] + [second];
    CountAppend(IsLoginOf(id), s.queue, EndGamePair(g, time));
    CountAppend(IsLoginOf(id), [first], [second]);
    CountOne(IsLoginOf(id), first);
    CountOne(IsLoginOf(id), second);
  }

  lemma UnconnectedBalanced(s: Db, i: nat, id: nat)
    requires Balanced(s, id)
    ensures Balanced(Step(s, LoginUnconnected(i)), id)
  {
    hide Count;
    CountAppend(IsRequest(id), s.requested, [i]);
    CountOne(IsRequest(id), i);
    CountAppend(IsReplyTo(id), s.replies, [LoginFailed(i)]);
    CountOne(IsReplyTo(id), LoginFailed(i));
  }

  lemma TakeBalanced(s: Db, id: nat)
    requires Balanced(s, id) && Enabled(s, Take)
    ensures Balanced(Step(s, Take), id)
  {
    if s.queue != [] {
      CountOne(IsLoginOf(id), s.queue[0]);
    }
  }

  lemma FinishBalanced(s: Db, o: Outcome, id: nat)
    requires Balanced(s, id) && Enabled(s, Finish(o))
    ensures Balanced(Step(s, Finish(o)), id)
  {
    hide Process;
    var q := s.phase.q;
    NothingCounted(IsLoginOf(id));
    hide Count;
    LoginAnsweredOnce(IdsAfter(s.trace), q, o, id);
    CountAppend(IsReplyTo(id), s.replies, Process(IdsAfter(s.trace), q, o).replies);
    CountOne(IsLoginOf(id), q);
  }

  lemma NothingCounted<T>(p: T -> bool)
    ensures Count(p, []) == 0
  {
  }

  lemma StepBalanced(s: Db, e: Event, id: nat)
    requires Balanced(s, id) && Enabled(s, e)
    ensures Balanced(Step(s, e), id)
  {
    hide Count, Process;
    match e
    case Push(q) => PushBalanced(s, q, id);
    case PushEndGame(g, time) => PushEndGameBalanced(s, g, time, id);
    case LoginUnconnected(i) => UnconnectedBalanced(s, i, id);
    case Take => TakeBalanced(s, id);
    case Finish(o) => FinishBalanced(s, o, id);
    case _ =>
  }

  lemma {:induction false} RunInv(s: Db, es: seq<Event>)
    requires Inv(s) && Legal(s, es)
    ensures Inv(Run(s, es))
    decreases |es|
  {
    hide Inv;
    if es != [] {
      StepInv(s, es[0]);
      RunInv(Step(s, es[0]), es[1..]);
    }
  }

  lemma {:induction false} RunBalanced(s: Db, es: seq<Event>, id: nat)
    requires Balanced(s, id) && Legal(s, es)
    ensures Balanced(Run(s, es), id)
    decreases |es|
  {
    hide Balanced;
    if es != [] {
      StepBalanced(s, es[0], id);
      RunBalanced(Step(s, es[0]), es[1..], id);
    }
  }

  lemma ReachableInv(s: Db)
    requires Reachable(s)
    ensures Inv(s)
  {
    var es :| Legal(INITIAL_DB, es) && Run(INITIAL_DB, es) == s;
    RunInv(INITIAL_DB, es);
  }

  /** No wake-up is lost: in every interleaving, a worker that blocks on the semaphore while no
      caller owes a post has nothing left to do. */
  lemma NoLostWakeup(s: Db)
    requires Reachable(s)
    ensures Covered(s)
    ensures s.phase.Waiting? && s.sem == 0 && s.owed == 0 ==> s.queue == [] && s.pushed == Processed(s.trace)
  {
    ReachableInv(s);
  }

  /** Queries are processed in push order, and the two queries of one EndGame call stay together. */
  lemma ProcessedInPushOrder(s: Db)
    requires Reachable(s)
    ensures s.pushed == Processed(s.trace) + InHand(s) + s.queue
    ensures forall i :: 0 <= i < |s.trace| && s.trace[i].q.kind.UpdateScore? ==>
              i > 0 && s.trace[i - 1].q.kind.EndGame? && s.trace[i - 1].q.id == s.trace[i].q.id
    ensures forall i :: 0 <= i < |s.trace| - 1 && s.trace[i].q.kind.EndGame? ==>
              s.trace[i + 1].q.kind.UpdateScore? && s.trace[i + 1].q.id == s.trace[i].q.id
  {
    ReachableInv(s);
    forall i | 0 <= i < |s.trace| ensures s.trace[i].q == s.pushed[i] {
    }
  }

  /** Every login request gets exactly one reply, sooner or later: replies posted, the query being
      worked on and the queued ones always add up to the requests made. */
  lemma EveryLoginAnsweredOnce(s: Db, id: nat)
    requires Reachable(s)
    ensures Balanced(s, id)
    ensures s.queue == [] && !s.phase.Working? ==> Count(IsReplyTo(id), s.replies) == Count(IsRequest(id), s.requested)
  {
    var es :| Legal(INITIAL_DB, es) && Run(INITIAL_DB, es) == s;
    RunBalanced(INITIAL_DB, es, id);
  }

  /** The life cycle of a game id holds along every interleaving, since the worker's history is a
      genuine one; for games created once, `CreatedOnce` of the pushed queries carries over. */
  lemma HistoryIsGenuine(s: Db)
    requires Reachable(s)
    ensures Genuine(s.trace)
    ensures (forall i, j :: 0 <= i < j < |s.pushed| && s.pushed[i].kind.CreateGame? && s.pushed[j].kind.CreateGame?
               ==> s.pushed[i].id != s.pushed[j].id) ==> CreatedOnce(s.trace)
  {
    ReachableInv(s);
    assert forall i :: 0 <= i < |s.trace| ==> s.trace[i].q == Processed(s.trace)[i] == s.pushed[i];
  }

  // ---------------------------------------------------------------------------------------------
  // From the call to the statement.

  lemma {:induction false} RunSplit(s: Db, es: seq<Event>, k: nat)
    requires Legal(s, es) && k <= |es|
    ensures Legal(s, es[..k]) && Legal(Run(s, es[..k]), es[k..]) && Run(Run(s, es[..k]), es[k..]) == Run(s, es)
    decreases |es|
  {
    hide Step, Enabled;
    if k == 0 {
      assert es[..0] == [] && es[0..] == es;
    } else {
      RunSplit(Step(s, es[0]), es[1..], k - 1);
      assert es[..k][1..] == es[1..][..k - 1] && es[k..] == es[1..][k - 1..];
    }
  }

  lemma {:induction false} PushedGrows(s: Db, es: seq<Event>)
    requires Legal(s, es)
    ensures s.pushed <= Run(s, es).pushed
    decreases |es|
  {
    if es != [] {
      PushedGrows(Step(s, es[0]), es[1..]);
      hide Process;
    }
  }

  /** The queries that were pushed before an event. */
  function PushedBefore(es: seq<Event>, k: nat): nat
    requires Legal(INITIAL_DB, es) && k <= |es|
  {
    RunSplit(INITIAL_DB, es, k);
    |Run(INITIAL_DB, es[..k]).pushed|
  }

  /** What an event pushes is processed at that very place of the worker's history. */
  lemma PushedInPlace(es: seq<Event>, k: nat, qs: seq<Query>)
    requires Legal(INITIAL_DB, es) && k < |es|
    requires if es[k].PushEndGame? then qs == [Query(EndGame, es[k].id, [es[k].endTime]), Query(UpdateScore, es[k].id, [])]
             else es[k].Push? && qs == [es[k].q]
    ensures var t, p := Run(INITIAL_DB, es).trace, PushedBefore(es, k);
            Genuine(t) && forall i :: 0 <= i < |qs| && p + i < |t| ==> t[p + i].q == qs[i]
  {
    hide Inv, Genuine, Step, Enabled;
    RunSplit(INITIAL_DB, es, k);
    var s, last := Run(INITIAL_DB, es[..k]), Run(INITIAL_DB, es);
    assert es[k..][0] == es[k];
    PushesFirst(s, es[k..], qs);
    assert Reachable(last);
    ReachableInv(last);
    hide Run, Legal;
    InPlace(last, s.pushed, qs);
  }

  lemma PushesFirst(s: Db, es: seq<Event>, qs: seq<Query>)
    requires Legal(s, es) && es != []
    requires if es[0].PushEndGame? then qs == [Query(EndGame, es[0].id, [es[0].endTime]), Query(UpdateScore, es[0].id, [])]
             else es[0].Push? && qs == [es[0].q]
    ensures s.pushed + qs <= Run(s, es).pushed
  {
    StepPushes(s, es[0], qs);
    hide Step;
    PushedGrows(Step(s, es[0]), es[1..]);
  }

  lemma StepPushes(s: Db, e: Event, qs: seq<Query>)
    requires Enabled(s, e)
    requires if e.PushEndGame? then qs == [Query(EndGame, e.id, [e.endTime]), Query(UpdateScore, e.id, [])]
             else e.Push? && qs == [e.q]
    ensures Step(s, e).pushed == s.pushed + qs
  {
    hide Process;
  }

  lemma InPlace(s: Db, before: seq<Query>, qs: seq<Query>)
    requires Inv(s) && before + qs <= s.pushed
    ensures Genuine(s.trace) && forall i :: 0 <= i < |qs| && |before| + i < |s.trace| ==> s.trace[|before| + i].q == qs[i]
  {
    hide Genuine, Paired, Covered;
    forall i | 0 <= i < |qs| && |before| + i < |s.trace|
      ensures s.trace[|before| + i].q == qs[i]
    {
      assert s.pushed[|before| + i] == (before + qs)[|before| + i];
      assert s.pushed[|before| + i] == Processed(s.trace)[|before| + i];
    }
  }

  /** The two queries of an EndGame call, along every interleaving: the first is executed, if at all, with the
      time and then the database id that the game's create query got, the second with the same id only. */
  lemma EndGameCarriesId(es: seq<Event>, k: nat, g: nat, time: string)
    requires Legal(INITIAL_DB, es) && k < |es| && es[k] == PushEndGame(g, time)
    ensures var t, p := Run(INITIAL_DB, es).trace, PushedBefore(es, k);
            && (p < |t| ==> t[p].q.kind.EndGame? && t[p].q.id == g)
            && (p + 1 < |t| ==> t[p + 1].q.kind.UpdateScore? && t[p + 1].q.id == g)
            && (Executed(t, p) ==> exists c :: (LiveSince(t[..p], g, c)
                 && t[p].done.sent == Some([time, Dec(t[c].done.registered)])
                 && (Executed(t, p + 1) ==> t[p + 1].done.sent == Some([Dec(t[c].done.registered)]))))
            && (Executed(t, p + 1) ==> exists c :: LiveSince(t[..p], g, c) && t[p + 1].done.sent == Some([Dec(t[c].done.registered)]))
  {
    var t, p := Run(INITIAL_DB, es).trace, PushedBefore(es, k);
    var qs := [Query(EndGame, g, [time]), Query(UpdateScore, g, [])];
    PushedInPlace(es, k, qs);
    hide Run, Legal, PushedBefore;
    if p < |t| {
      assert t[p + 0].q == qs[0];
    }
    if p + 1 < |t| {
      assert t[p + 1].q == qs[1];
    }
    EndCarriesId(t, p, g, time);
  }

  lemma EndCarriesId(t: seq<Entry>, p: nat, g: nat, time: string)
    requires Genuine(t) && (p < |t| ==> t[p].q == Query(EndGame, g, [time])) && (p + 1 < |t| ==> t[p + 1].q == Query(UpdateScore, g, []))
    ensures Executed(t, p) ==> exists c :: (LiveSince(t[..p], g, c)
              && t[p].done.sent == Some([time, Dec(t[c].done.registered)])
              && (Executed(t, p + 1) ==> t[p + 1].done.sent == Some([Dec(t[c].done.registered)])))
    ensures Executed(t, p + 1) ==> exists c :: LiveSince(t[..p], g, c) && t[p + 1].done.sent == Some([Dec(t[c].done.registered)])
  {
    hide Process, Genuine, Registers, Ends, Reached;
    if p < |t| {
      ExecutedWithCreatedId(t, p);
      forall c | Executed(t, p) && LiveSince(t[..p], g, c)
        ensures t[p].done.sent == Some([time, Dec(t[c].done.registered)])
      {
        EndSent(t[p].q, t[c].done.registered, t[p].done.sent.value, time);
      }
    }
    if Executed(t, p + 1) {
      ExecutedWithCreatedId(t, p + 1);
      forall c | LiveSince(t[..p + 1], g, c)
        ensures LiveSince(t[..p], g, c) && t[p + 1].done.sent == Some([Dec(t[c].done.registered)])
      {
        StillLive(t, p, g, c);
        ScoreSent(t[p + 1].q, t[c].done.registered, t[p + 1].done.sent.value);
      }
      forall c, d | LiveSince(t[..p], g, c) && LiveSince(t[..p], g, d)
        ensures c == d
      {
        LiveSinceOne(t[..p], g, c, d);
      }
    }
  }

  lemma EndSent(q: Query, d: nat, sent: seq<string>, time: string)
    requires q.kind.EndGame? && q.params == [time] && SentWith(q, d, sent)
    ensures sent == [time, Dec(d)]
  {
    assert sent == sent[..1] + [sent[1]];
  }

  lemma ScoreSent(q: Query, d: nat, sent: seq<string>)
    requires q.kind.UpdateScore? && q.params == [] && SentWith(q, d, sent)
    ensures sent == [Dec(d)]
  {
  }

  /** What is live behind the end query was live before it. */
  lemma StillLive(t: seq<Entry>, p: nat, g: nat, c: int)
    requires Genuine(t) && p < |t| && t[p].q.kind.EndGame? && LiveSince(t[..p + 1], g, c)
    ensures LiveSince(t[..p], g, c)
  {
    GenuinePrefix(t, p + 1);
    var u := t[..p + 1];
    if Registers(u[p], g) {
      RegisteringIsNoEnd(u, p, g);
    }
    LiveSinceLast(u, g, c);
    assert u[..|u| - 1] == t[..p] && u[|u| - 1] == t[p];
  }

  lemma LiveSinceOne(t: seq<Entry>, g: nat, c: int, d: int)
    requires LiveSince(t, g, c) && LiveSince(t, g, d)
    ensures c == d
  {
  }

  /** The same for a call that queues one query: what it was given is what is executed, with the database id in
      front if the query is the place of a player. */
  lemma CallCarriesParameters(es: seq<Event>, k: nat, q: Query)
    requires Legal(INITIAL_DB, es) && k < |es| && es[k] == Push(q)
    ensures var t, p := Run(INITIAL_DB, es).trace, PushedBefore(es, k);
            p < |t| && t[p].done.sent.Some? ==> t[p].q == q && if q.kind.GamePlace? then
              exists c :: LiveSince(t[..p], q.id, c) && t[p].done.sent == Some([Dec(t[c].done.registered)] + q.params)
            else t[p].done.sent == Some(q.params)
  {
    var t, p := Run(INITIAL_DB, es).trace, PushedBefore(es, k);
    assert SinglePush(q.kind) by { Allowed(es, k); }
    PushedInPlace(es, k, [q]);
    hide Run, Legal, PushedBefore;
    if p < |t| && t[p].done.sent.Some? {
      assert t[p + 0].q == [q][0];
      if q.kind.GamePlace? {
        hide Process, Genuine, LiveSince, Reached;
        ExecutedWithCreatedId(t, p);
        var c :| LiveSince(t[..p], q.id, c);
        var sent := t[p].done.sent.value;
        assert sent == [sent[0]] + sent[1..];
      } else {
        ExecutedAsAsked(t, p);
      }
    }
  }

  lemma Allowed(es: seq<Event>, k: nat)
    requires Legal(INITIAL_DB, es) && k < |es|
    ensures Legal(INITIAL_DB, es[..k]) && Enabled(Run(INITIAL_DB, es[..k]), es[k])
  {
    RunSplit(INITIAL_DB, es, k);
    assert es[k..][0] == es[k];
  }

  // ---------------------------------------------------------------------------------------------
  // Answers.

  function IsAnswered(r: Reply): Entry -> bool {
    (e: Entry) => Answers(e.q, true, e.o, r) == 1
  }

  /** The answers that tell of a success, a block, or a game that was not created. */
  predicate Verdictive(r: Reply) {
    !r.QueryError? && !r.LoginFailed?
  }

  predicate Accounted(s: Db, r: Reply) {
    multiset(s.replies)[r] == Count(IsAnswered(r), s.trace)
  }

  lemma StepAccounted(s: Db, e: Event, r: Reply)
    requires Inv(s) && Accounted(s, r) && Enabled(s, e) && Verdictive(r)
    ensures Accounted(Step(s, e), r)
  {
    hide Process, Count, Answers, Inv;
    if e.Finish? {
      var done := Process(IdsAfter(s.trace), s.phase.q, e.o);
      var entry := Entry(s.phase.q, e.o, done);
      assert Genuine(s.trace) by { InvGenuine(s); }
      IdsValid(s.trace, s.phase.q.id);
      hide IdsAfter;
      AnsweredAsAsked(IdsAfter(s.trace), s.phase.q, e.o, r);
      EitherWay(s.phase.q, e.o, r);
      CountAppend(IsAnswered(r), s.trace, [entry]);
      CountOne(IsAnswered(r), entry);
    }
  }

  lemma EitherWay(q: Query, o: Outcome, r: Reply)
    requires Verdictive(r)
    ensures Answers(q, false, o, r) == Answers(q, true, o, r) <= 1
  {
  }

  lemma InvGenuine(s: Db)
    requires Inv(s)
    ensures Genuine(s.trace)
  {
  }

  lemma {:induction false} RunAccounted(s: Db, es: seq<Event>, r: Reply)
    requires Inv(s) && Accounted(s, r) && Legal(s, es) && Verdictive(r)
    ensures Accounted(Run(s, es), r)
    decreases |es|
  {
    hide Accounted, Inv;
    if es != [] {
      StepAccounted(s, es[0], r);
      StepInv(s, es[0]);
      RunAccounted(Step(s, es[0]), es[1..], r);
    }
  }

  /** Along every interleaving each of these answers has been given exactly as often as the database has given
      cause for it: a player is let in as often as a login of his was accepted, and so on. */
  lemma AnswersHaveCause(s: Db, r: Reply)
    requires Reachable(s) && Verdictive(r)
    ensures multiset(s.replies)[r] == Count(IsAnswered(r), s.trace)
  {
    var es :| Legal(INITIAL_DB, es) && Run(INITIAL_DB, es) == s;
    RunAccounted(INITIAL_DB, es, r);
  }
}
