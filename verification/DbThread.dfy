/** The database thread as it is: a queue, a semaphore, a connected flag and an id manager that the
    callers and the worker change in place. Each method is a step, or a few steps, of DbProtocol. */
module DbThread {
  import opened DbQueries
  import opened DbProtocol
  import opened Decimal

  class DBIdManager {
    var gameIdMap: map<nat, nat>

    constructor ()
      ensures gameIdMap == map[]
    {
      gameIdMap := map[];
    }

    method AddGameId(gameId: nat, databaseId: nat)
      modifies this
      ensures gameIdMap == old(gameIdMap)[gameId := databaseId]
    {
      gameIdMap := gameIdMap[gameId := databaseId];
    }

    method RemoveGameId(gameId: nat)
      modifies this
      ensures gameIdMap == old(gameIdMap) - {gameId}
    {
      gameIdMap := gameIdMap - {gameId};
    }

    method GetGameDBId(gameId: nat) returns (retVal: nat)
      ensures retVal == Lookup(gameIdMap, gameId)
    {
      retVal := DB_ID_INVALID;
      if gameId in gameIdMap {
        retVal := gameIdMap[gameId];
      }
    }
  }

  class ServerDBThread {
    const dbIds: DBIdManager
    const encryptionKey: string
    var asyncQueue: seq<Query>
    var semaphore: nat
    var isConnected: bool
    var shouldTerminate: bool
    var permanentError: bool
    var posted: seq<Reply>          // callbacks handed to the io service
    var executed: seq<seq<string>>  // parameters of the statements the database has executed
    ghost var phase: Phase
    ghost var trace: seq<Entry>
    ghost var pushed: seq<Query>
    ghost var requested: seq<nat>

    ghost function View(): Db
      reads this
    {
      Db(asyncQueue, semaphore, 0, phase, shouldTerminate, permanentError, trace, posted, pushed, requested)
    }

    /** The id manager always holds what the worker's history left in it, and the database has executed what that
        history says. */
    ghost predicate Valid()
      reads this, dbIds
    {
      dbIds.gameIdMap == IdsAfter(trace) && executed == SentBy(trace)
    }

    constructor (encryptionKey: string)
      ensures Valid() && fresh(dbIds) && View() == INITIAL_DB && !isConnected
      ensures this.encryptionKey == encryptionKey
    {
      this.encryptionKey := encryptionKey;
      dbIds := new DBIdManager();
      asyncQueue, semaphore, isConnected, shouldTerminate, permanentError, posted, executed := [], 0, false, false, false, [], [];
      phase, trace, pushed, requested := Top, [], [], [];
    }

    /** The tail of every call that queues one query. */
    method PushAndPost(q: Query)
      requires Valid() && SinglePush(q.kind)
      modifies this
      ensures Valid() && View() == Step(Step(old(View()), Push(q)), Post)
      ensures isConnected == old(isConnected)
    {
      asyncQueue := asyncQueue + [q];
      pushed := pushed + [q];
      requested := if q.kind.Login? then requested + [q.id] else requested;
      semaphore := semaphore + 1;
    }

    method AsyncPlayerLogin(requestId: nat, playerName: string)
      requires Valid()
      modifies this
      ensures Valid() && isConnected == old(isConnected)
      ensures View() == if old(isConnected) then Step(Step(old(View()), Push(Query(Login, requestId, [encryptionKey, playerName]))), Post)
                        else Step(old(View()), LoginUnconnected(requestId))
    {
      if isConnected {
        PushAndPost(Query(Login, requestId, [encryptionKey, playerName]));
      } else {
        requested := requested + [requestId];
        posted := posted + [LoginFailed(requestId)];
      }
    }

    method AsyncCreateGame(requestId: nat, gameName: string, now: string)
      requires Valid()
      modifies this
      ensures Valid() && isConnected == old(isConnected)
      ensures View() == if old(isConnected) then Step(Step(old(View()), Push(Query(CreateGame, requestId, [gameName, now]))), Post)
                        else old(View())
    {
      if !isConnected {
        return;
      }
      PushAndPost(Query(CreateGame, requestId, [gameName, now]));
    }

    method SetGamePlayerPlace(requestId: nat, playerId: nat, place: nat)
      requires Valid()
      modifies this
      ensures Valid() && isConnected == old(isConnected)
      ensures View() == if old(isConnected) then Step(Step(old(View()), Push(Query(GamePlace, requestId, [Dec(playerId), Dec(place)]))), Post)
                        else old(View())
    {
      if !isConnected {
        return;
      }
      PushAndPost(Query(GamePlace, requestId, [Dec(playerId), Dec(place)]));
    }

    /** Both queries go in under one lock, the two posts follow. */
    method EndGame(requestId: nat, now: string)
      requires Valid()
      modifies this
      ensures Valid() && isConnected == old(isConnected)
      ensures View() == if old(isConnected) then Step(Step(Step(old(View()), PushEndGame(requestId, now)), Post), Post) else old(View())
    {
      if !isConnected {
        return;
      }
      asyncQueue := asyncQueue + [Query(Kind.EndGame, requestId, [now])];
      asyncQueue := asyncQueue + [Query(UpdateScore, requestId, [])];
      pushed := pushed + EndGamePair(requestId, now);
      assert asyncQueue == old(asyncQueue) + EndGamePair(requestId, now);
      semaphore := semaphore + 1;
      semaphore := semaphore + 1;
    }

    method SignalTermination()
      requires Valid()
      modifies this
      ensures Valid() && View() == Step(Step(old(View()), Event.SignalTermination), Post)
    {
      shouldTerminate := true;
      semaphore := semaphore + 1;
    }

    /** Init of a query: throws if the game has no database id, else completes the parameters. */
    method InitQuery(q: Query) returns (ok: bool, params: seq<string>)
      ensures ok <==> !(NeedsGameId(q.kind) && Lookup(dbIds.gameIdMap, q.id) == DB_ID_INVALID)
      ensures ok ==> SentWith(q, Lookup(dbIds.gameIdMap, q.id), params)
    {
      ok, params := true, q.params;
      if q.kind.GamePlace? || q.kind.EndGame? || q.kind.UpdateScore? {
        var gameDBId := dbIds.GetGameDBId(q.id);
        if gameDBId == DB_ID_INVALID {
          return false, params;
        }
        if q.kind.EndGame? {
          params := params + [Dec(gameDBId)];
        } else {
          params := [Dec(gameDBId)] + params;
        }
      }
    }

    /** HandleError of the query, followed by the removal of a game's id. */
    method FailQuery(q: Query)
      modifies this`posted, dbIds
      ensures posted == old(posted) + ErrorReplies(q)
      ensures dbIds.gameIdMap == if IsGameQuery(q.kind) then old(dbIds.gameIdMap) - {q.id} else old(dbIds.gameIdMap)
    {
      match q.kind {
        case Login => posted := posted + [LoginFailed(q.id)];
        case CreateGame => posted := posted + [CreateGameFailed(q.id)];
        case GamePlace => posted := posted + [QueryError];
        case _ =>
      }
      if IsGameQuery(q.kind) {
        dbIds.RemoveGameId(q.id);
      }
    }

    /** HandleResult or HandleNoResult of the query. */
    method SucceedQuery(q: Query, insertId: nat, verdict: Verdict)
      requires NeedsGameId(q.kind) ==> Lookup(dbIds.gameIdMap, q.id) != DB_ID_INVALID
      modifies this`posted, dbIds
      ensures var d := Process(old(dbIds.gameIdMap), q, Success(insertId, verdict));
              posted == old(posted) + d.replies && dbIds.gameIdMap == d.ids
    {
      match q.kind {
        case Login =>
          match verdict {
            case NoSuchPlayer => posted := posted + [LoginFailed(q.id)];
            case Blocked => posted := posted + [LoginBlocked(q.id)];
            case Accepted => posted := posted + [LoginSuccess(q.id)];
          }
        case CreateGame =>
          if insertId == DB_ID_INVALID {
            posted := posted + [CreateGameFailed(q.id)];
          } else {
            dbIds.AddGameId(q.id, insertId);
            posted := posted + [CreateGameSuccess(q.id)];
          }
        case UpdateScore =>
          dbIds.RemoveGameId(q.id);
        case _ =>
      }
    }

    /** The exits of the worker for one query: what each posts, what it leaves in the id manager, and whether
        it gives up the connection. */
    method ExecuteQuery(q: Query, o: Outcome)
      modifies this`posted, this`executed, this`isConnected, dbIds
      ensures var done := Process(old(dbIds.gameIdMap), q, o);
              && posted == old(posted) + done.replies && dbIds.gameIdMap == done.ids && executed == old(executed) + Sent(done)
              && isConnected == (old(isConnected) && !done.disconnects)
    {
      hide Process, IsGameQuery, ErrorReplies, Bind, SentWith;
      ProcessFails(dbIds.gameIdMap, q, o);
      ProcessSends(dbIds.gameIdMap, q, o);
      var initialized, params := InitQuery(q);
      if !initialized {
        FailQuery(q);
      } else {
        SentWithIsBind(q, Lookup(dbIds.gameIdMap, q.id), params);
        if params != [] && o.SetFails? {
          isConnected := false;
          posted := posted + [QueryError];
          FailQuery(q);
        } else {
          if !o.Throws? || o.afterExecute {
            executed := executed + [params];
          }
          if o.Throws? {
            isConnected := false;
            FailQuery(q);
          } else if o.Success? {
            SucceedQuery(q, o.insertId, o.verdict);
          } else {
            FailQuery(q);
          }
        }
      }
    }

    /** What HandleNextQuery does with the query it took, for any outcome of the database. */
    method HandleQuery(q: Query, o: Outcome)
      requires Valid() && phase == Working(q)
      modifies this`posted, this`executed, this`isConnected, this`trace, this`phase, dbIds
      ensures Valid() && View() == Step(old(View()), Finish(o))
      ensures isConnected == (old(isConnected) && !Process(IdsAfter(old(trace)), q, o).disconnects)
    {
      hide Process, SentBy, Sent;
      ghost var done := Process(dbIds.gameIdMap, q, o);
      ExecuteQuery(q, o);
      SentByNext(trace, Entry(q, o, done));
      trace := trace + [Entry(q, o, done)];
      phase := Handled;
    }

    /** Takes the next query if there is one; a token too many is harmless. */
    method HandleNextQuery(o: Outcome)
      requires Valid() && phase.Token?
      modifies this`asyncQueue, this`posted, this`executed, this`isConnected, this`trace, this`phase, dbIds
      ensures Valid()
      ensures var taken := Step(old(View()), Take);
              View() == if taken.phase.Working? then Step(taken, Finish(o)) else taken
    {
      if asyncQueue != [] {
        var nextQuery := asyncQueue[0];
        asyncQueue := asyncQueue[1..];
        phase := Working(nextQuery);
        HandleQuery(nextQuery, o);
      } else {
        phase := Handled;
      }
    }

    /** The end of a round: another token, or back to the loop condition. */
    method TryWait() returns (more: bool)
      requires Valid() && phase.Handled?
      modifies this`semaphore, this`phase
      ensures Valid() && View() == Step(old(View()), Event.TryWait) && (more <==> phase.Token?)
    {
      more := semaphore > 0;
      if more {
        semaphore := semaphore - 1;
        phase := Token;
      } else {
        phase := Top;
      }
    }

    /** One round of the worker: the next query, if there is one, and then another token, if there is one. */
    method Round(o: Outcome) returns (more: bool)
      requires Valid() && phase.Token?
      modifies this`asyncQueue, this`semaphore, this`posted, this`executed, this`isConnected, this`trace, this`phase, dbIds
      ensures Valid() && (more <==> phase.Token?) && (!more ==> phase.Top? && semaphore == 0 == old(semaphore))
      ensures more ==> semaphore == old(semaphore) - 1
      ensures var taken := Step(old(View()), Take);
              View() == Step(if taken.phase.Working? then Step(taken, Finish(o)) else taken, Event.TryWait)
      ensures asyncQueue == if old(asyncQueue) == [] then [] else old(asyncQueue)[1..]
      ensures Processed(trace) == Processed(old(trace)) + if old(asyncQueue) == [] then [] else [old(asyncQueue)[0]]
    {
      hide Process, SentBy, IdsAfter, Sent;
      HandleNextQuery(o);
      if old(asyncQueue) != [] {
        assert trace == old(trace) + [Entry(old(asyncQueue)[0], o, trace[|trace| - 1].done)];
      }
      more := TryWait();
    }

    /** The worker's turn after a wait that succeeded, with no caller in between: it uses up the
        semaphore and processes as many queries, in order. `outcome` is what the database makes of
        the n-th round. What it does is a run of the protocol, whose events are returned. */
    method DrainPending(outcome: nat -> Outcome) returns (ghost es: seq<Event>)
      requires Valid() && phase.Token?
      modifies this`asyncQueue, this`semaphore, this`posted, this`executed, this`isConnected, this`trace, this`phase, dbIds
      ensures Valid() && phase.Top? && semaphore == 0
      ensures Legal(old(View()), es) && View() == Run(old(View()), es)
      ensures var n := AtMost(old(semaphore) + 1, |old(asyncQueue)|);
              asyncQueue == old(asyncQueue)[n..] && Processed(trace) == Processed(old(trace)) + old(asyncQueue)[..n]
      ensures old(Covered(View())) ==> asyncQueue == []
    {
      hide Process, Legal, Run, Step, Enabled, IdsAfter, Processed, TookFirst;
      ghost var was := View();
      es := [];
      EmptyRun(was);
      NothingTaken(was);
      var rounds := 0;
      var more := true;
      while more
        invariant Valid() && (more ==> phase.Token?) && (!more ==> phase.Top? && semaphore == 0)
        invariant Legal(was, es) && View() == Run(was, es)
        invariant rounds + semaphore == was.sem + if more then 0 else 1
        invariant TookFirst(was, View(), rounds)
        decreases more, semaphore
      {
        ghost var before := View();
        more := Round(outcome(rounds));
        TakesNext(was, before, View(), rounds);
        es := RoundRuns(was, es, outcome(rounds));
        rounds := rounds + 1;
      }
      TookAll(was, View(), rounds);
    }
  }

  function AtMost(n: nat, m: nat): nat {
    if n < m then n else m
  }

  /** After so many rounds as many queries, or all of them, have gone from the queue to the history. */
  ghost predicate TookFirst(was: Db, now: Db, rounds: nat) {
    var n := AtMost(rounds, |was.queue|);
    now.queue == was.queue[n..] && Processed(now.trace) == Processed(was.trace) + was.queue[..n]
  }

  lemma NothingTaken(was: Db)
    ensures TookFirst(was, was, 0)
  {
    hide Processed;
    var done, queue := Processed(was.trace), was.queue;
    assert AtMost(0, |queue|) == 0;
    assert queue[0..] == queue && queue[..0] == [];
    assert done + [] == done;
  }

  lemma TakesNext(was: Db, before: Db, now: Db, rounds: nat)
    requires TookFirst(was, before, rounds)
    requires now.queue == if before.queue == [] then [] else before.queue[1..]
    requires Processed(now.trace) == Processed(before.trace) + if before.queue == [] then [] else [before.queue[0]]
    ensures TookFirst(was, now, rounds + 1)
  {
    hide Processed;
    if before.queue != [] {
      assert was.queue[..rounds + 1] == was.queue[..rounds] + [before.queue[0]];
    }
  }

  lemma TookAll(was: Db, now: Db, rounds: nat)
    requires TookFirst(was, now, rounds)
    ensures var n := AtMost(rounds, |was.queue|);
            now.queue == was.queue[n..] && Processed(now.trace) == Processed(was.trace) + was.queue[..n]
  {
    hide Processed;
  }

  /** The exits on which a query fails. */
  lemma ProcessFails(ids: map<nat, nat>, q: Query, o: Outcome)
    ensures var d, missing := Process(ids, q, o), NeedsGameId(q.kind) && Lookup(ids, q.id) == DB_ID_INVALID;
            var set' := !missing && o.SetFails? && Bind(q, Lookup(ids, q.id)) != [];
            missing || !o.Success? ==>
              && d.replies == (if set' then [QueryError] else []) + ErrorReplies(q)
              && d.ids == (if IsGameQuery(q.kind) then ids - {q.id} else ids)
              && d.disconnects == (set' || (!missing && o.Throws?))
    ensures var d, missing := Process(ids, q, o), NeedsGameId(q.kind) && Lookup(ids, q.id) == DB_ID_INVALID;
            !missing && o.Success? ==> !d.disconnects
  {
  }

  /** What is executed, and when. */
  lemma ProcessSends(ids: map<nat, nat>, q: Query, o: Outcome)
    ensures var d, missing := Process(ids, q, o), NeedsGameId(q.kind) && Lookup(ids, q.id) == DB_ID_INVALID;
            var ps := Bind(q, Lookup(ids, q.id));
            Sent(d) == if missing || (o.SetFails? && ps != []) || (o.Throws? && !o.afterExecute) then [] else [ps]
  {
    hide Bind;
  }

  lemma EmptyRun(s: Db)
    ensures Legal(s, []) && Run(s, []) == s
  {
  }

  /** One round of the worker, from a token to behind `try_wait`, at the end of a run. */
  lemma RoundRuns(s: Db, es: seq<Event>, o: Outcome) returns (fs: seq<Event>)
    requires Legal(s, es) && Run(s, es).phase.Token?
    ensures Legal(s, fs)
    ensures var taken := Step(Run(s, es), Take);
            Run(s, fs) == Step(if taken.phase.Working? then Step(taken, Finish(o)) else taken, Event.TryWait)
  {
    hide Legal, Run, Process;
    RunSnoc(s, es, Take);
    fs := es + [Take];
    if Run(s, fs).phase.Working? {
      RunSnoc(s, fs, Finish(o));
      fs := fs + [Finish(o)];
    }
    RunSnoc(s, fs, Event.TryWait);
    fs := fs + [Event.TryWait];
  }
}
