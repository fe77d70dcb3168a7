/** The queries of the game database and what the worker does with one of them: bind the game's
    database id, execute, post replies, keep the id map. */
module DbQueries {
  import opened Decimal
  import opened Wrappers

  const DB_ID_INVALID := 0

  datatype Kind = Login | CreateGame | GamePlace | EndGame | UpdateScore | OtherQuery

  datatype Query = Query(kind: Kind, id: nat, params: seq<string>)

  /** The queries that concern a game. */
  predicate IsGameQuery(k: Kind) {
    k.CreateGame? || k.GamePlace? || k.EndGame? || k.UpdateScore?
  }

  /** The queries whose Init looks the game's database id up. */
  predicate NeedsGameId(k: Kind) {
    k.GamePlace? || k.EndGame? || k.UpdateScore?
  }

  datatype Verdict = NoSuchPlayer | Blocked | Accepted

  /** What the database and the library do to one query. `Throws` is an exception before the handler
      of the query had any effect; `insertId` is what LAST_INSERT_ID() gives (invalid also when that
      second query fails or throws); `verdict` is what the row of a login says. A query without
      parameters has no SET statement, so that `SetFails` cannot be told from `ExecFails` there. */
  datatype Outcome =
    | SetFails
    | ExecFails
    | Throws(afterExecute: bool)
    | Success(insertId: nat, verdict: Verdict)

  datatype Reply =
    | LoginSuccess(id: nat) | LoginBlocked(id: nat) | LoginFailed(id: nat)
    | CreateGameSuccess(id: nat) | CreateGameFailed(id: nat)
    | QueryError

  /** What came of a query: the id map afterwards, the replies posted, the parameters it was executed
      with if it was, whether it failed, the database id it registered (0 for none), and whether
      the connection was dropped. */
  datatype Done = Done(ids: map<nat, nat>, replies: seq<Reply>, sent: Option<seq<string>>, failed: bool, registered: nat, disconnects: bool)

  function Lookup(ids: map<nat, nat>, g: nat): nat {
    if g in ids then ids[g] else DB_ID_INVALID
  }

  function Bind(q: Query, d: nat): seq<string> {
    match q.kind
    case GamePlace => [Dec(d)] + q.params
    case EndGame => q.params + [Dec(d)]
    case UpdateScore => [Dec(d)] + q.params
    case _ => q.params
  }

  function ErrorReplies(q: Query): seq<Reply> {
    match q.kind
    case Login => [LoginFailed(q.id)]
    case CreateGame => [CreateGameFailed(q.id)]
    case GamePlace => [QueryError]
    case _ => []
  }

  function Failure(ids: map<nat, nat>, q: Query, extra: seq<Reply>, sent: Option<seq<string>>, disconnects: bool): Done {
    Done(if IsGameQuery(q.kind) then ids - {q.id} else ids, extra + ErrorReplies(q), sent, true, DB_ID_INVALID, disconnects)
  }

  function Process(ids: map<nat, nat>, q: Query, o: Outcome): Done {
    var d := Lookup(ids, q.id);
    if NeedsGameId(q.kind) && d == DB_ID_INVALID then Failure(ids, q, [], None, false)
    else
      var ps := Bind(q, d);
      match o
      case SetFails => if ps == [] then Failure(ids, q, [], Some(ps), false) else Failure(ids, q, [QueryError], None, true)
      case ExecFails => Failure(ids, q, [], Some(ps), false)
      case Throws(after) => Failure(ids, q, [], if after then Some(ps) else None, true)
      case Success(insertId, verdict) =>
        match q.kind
        case Login =>
          Done(ids, [match verdict case NoSuchPlayer => LoginFailed(q.id) case Blocked => LoginBlocked(q.id) case Accepted => LoginSuccess(q.id)],
               Some(ps), false, DB_ID_INVALID, false)
        case CreateGame =>
          if insertId == DB_ID_INVALID then Done(ids, [CreateGameFailed(q.id)], Some(ps), false, DB_ID_INVALID, false)
          else Done(ids[q.id := insertId], [CreateGameSuccess(q.id)], Some(ps), false, insertId, false)
        case UpdateScore => Done(ids - {q.id}, [], Some(ps), false, DB_ID_INVALID, false)
        case _ => Done(ids, [], Some(ps), false, DB_ID_INVALID, false)
  }

  /** Queries of one game never touch another game's entry, and the others touch none at all. */
  lemma ProcessFrame(ids: map<nat, nat>, q: Query, o: Outcome, g: nat)
    requires g != q.id || !IsGameQuery(q.kind)
    ensures var after := Process(ids, q, o).ids;
            (g in after <==> g in ids) && (g in ids ==> after[g] == ids[g])
  {
  }

  /** A create query posts exactly one reply, and a success only with the id already registered. */
  lemma CreatePostsOneReply(ids: map<nat, nat>, q: Query, o: Outcome)
    requires q.kind.CreateGame?
    ensures var d := Process(ids, q, o);
            var verdicts := if o.SetFails? && q.params != [] then d.replies[1..] else d.replies;
            || (verdicts == [CreateGameSuccess(q.id)] && q.id in d.ids && d.ids[q.id] != DB_ID_INVALID)
            || verdicts == [CreateGameFailed(q.id)]
  {
  }

  // ---------------------------------------------------------------------------------------------
  // Whole histories of the worker.

  /** One processed query and what came of it. */
  datatype Entry = Entry(q: Query, o: Outcome, done: Done)

  function IdsAfter(t: seq<Entry>): map<nat, nat> {
    if t == [] then map[] else t[|t| - 1].done.ids
  }

  /** The histories the worker can produce. */
  ghost predicate Genuine(t: seq<Entry>) {
    forall i :: 0 <= i < |t| ==> t[i].done == Process(IdsAfter(t[..i]), t[i].q, t[i].o)
  }

  predicate OfGame(e: Entry, g: nat) {
    IsGameQuery(e.q.kind) && e.q.id == g
  }

  predicate Registers(e: Entry, g: nat) {
    OfGame(e, g) && e.done.registered != DB_ID_INVALID
  }

  /** The entries after which the game has no id: a failed query, or its score query. */
  predicate Ends(e: Entry, g: nat) {
    OfGame(e, g) && (e.done.failed || e.q.kind.UpdateScore?)
  }

  /** The create query at `c` is the last word on the game's id in `t`. */
  ghost predicate LiveSince(t: seq<Entry>, g: nat, c: int) {
    && 0 <= c < |t| && Registers(t[c], g)
    && forall j :: c < j < |t| ==> !Ends(t[j], g) && !Registers(t[j], g)
  }

  lemma GenuinePrefix(t: seq<Entry>, n: nat)
    requires Genuine(t) && n <= |t|
    ensures Genuine(t[..n])
  {
    forall i | 0 <= i < n
      ensures t[..n][i].done == Process(IdsAfter(t[..n][..i]), t[..n][i].q, t[..n][i].o)
    {
      assert t[..n][..i] == t[..i];
    }
  }

  /** One entry: it registers its game's id, or removes the entry, or leaves it as it is. */
  lemma ProcessEntry(ids: map<nat, nat>, e: Entry, g: nat)
    requires e.done == Process(ids, e.q, e.o)
    ensures Registers(e, g) ==> !Ends(e, g) && e.q.kind.CreateGame? && g in e.done.ids && e.done.ids[g] == e.done.registered
    ensures Ends(e, g) ==> g !in e.done.ids
    ensures !Registers(e, g) && !Ends(e, g) ==> (g in e.done.ids <==> g in ids) && (g in ids ==> e.done.ids[g] == ids[g])
  {
  }

  lemma LiveSinceLast(t: seq<Entry>, g: nat, c: int)
    requires t != []
    ensures var e, before := t[|t| - 1], t[..|t| - 1];
            && (Registers(e, g) ==> (LiveSince(t, g, c) <==> c == |t| - 1))
            && (!Registers(e, g) && Ends(e, g) ==> !LiveSince(t, g, c))
            && (!Registers(e, g) && !Ends(e, g) ==> (LiveSince(t, g, c) <==> LiveSince(before, g, c)))
  {
    var n := |t| - 1;
    if LiveSince(t, g, c) && c < n {
      assert !Ends(t[n], g) && !Registers(t[n], g);
    }
    assert forall j :: 0 <= j < n ==> t[..n][j] == t[j];
  }

  /** What the map says, for every history: game `g` has an entry exactly if some create query of it
      registered one and since then no query of it failed, its score was not processed and it
      was not created anew; and then the entry is the id that create query got. */
  lemma {:induction false} IdMapMeaning(t: seq<Entry>, g: nat)
    requires Genuine(t)
    ensures g in IdsAfter(t) <==> exists c :: LiveSince(t, g, c)
    ensures forall c :: LiveSince(t, g, c) ==> IdsAfter(t)[g] == t[c].done.registered
    decreases |t|
  {
    if t != [] {
      hide Process, LiveSince, Registers, Ends;
      var n := |t| - 1;
      var e, before := t[n], t[..n];
      GenuinePrefix(t, n);
      IdMapMeaning(before, g);
      ProcessEntry(IdsAfter(before), e, g);
      forall c ensures Registers(e, g) ==> (LiveSince(t, g, c) <==> c == n)
               ensures !Registers(e, g) && Ends(e, g) ==> !LiveSince(t, g, c)
               ensures !Registers(e, g) && !Ends(e, g) ==> (LiveSince(t, g, c) <==> LiveSince(before, g, c))
      {
        LiveSinceLast(t, g, c);
      }
      forall c | LiveSince(t, g, c) ensures 0 <= c <= n && (c < n ==> t[c] == before[c]) {
        LiveSinceBounds(t, g, c);
      }
      assert Registers(e, g) ==> LiveSince(t, g, n);
    }
  }

  lemma LiveSinceBounds(t: seq<Entry>, g: nat, c: int)
    requires LiveSince(t, g, c)
    ensures 0 <= c < |t|
  {
  }

  /** The query at `i` needed an id and was executed. */
  ghost predicate Executed(t: seq<Entry>, i: int) {
    0 <= i < |t| && NeedsGameId(t[i].q.kind) && t[i].done.sent.Some?
  }

  /** The database got as far as executing the query, if it was asked to. */
  predicate Reached(q: Query, o: Outcome) {
    match o
    case SetFails => q.params == [] && !NeedsGameId(q.kind)
    case Throws(after) => after
    case _ => true
  }

  /** The parameters of the executed statement, when the database id of the game is d: it comes last for the
      end of a game, and first for a place and for the score. */
  ghost predicate SentWith(q: Query, d: nat, sent: seq<string>) {
    match q.kind
    case GamePlace => |sent| == |q.params| + 1 && sent[0] == Dec(d) && sent[1..] == q.params
    case EndGame => |sent| == |q.params| + 1 && sent[|q.params|] == Dec(d) && sent[..|q.params|] == q.params
    case UpdateScore => |sent| == |q.params| + 1 && sent[0] == Dec(d) && sent[1..] == q.params
    case _ => sent == q.params
  }

  /** A place, end or score query is executed if and only if the database gets that far, a create query of its
      game succeeded and no failed or score query came in between; and then with exactly the database id that
      one got, in its place, and its own parameters. */
  lemma ExecutedWithCreatedId(t: seq<Entry>, i: nat)
    requires Genuine(t) && i < |t| && NeedsGameId(t[i].q.kind)
    ensures Executed(t, i) <==> Reached(t[i].q, t[i].o) && exists c :: LiveSince(t[..i], t[i].q.id, c)
    ensures forall c :: Executed(t, i) && LiveSince(t[..i], t[i].q.id, c) ==> SentWith(t[i].q, t[c].done.registered, t[i].done.sent.value)
  {
    GenuinePrefix(t, i);
    IdMapMeaning(t[..i], t[i].q.id);
    IdsValid(t[..i], t[i].q.id);
    ExecutedIff(IdsAfter(t[..i]), t[i]);
    hide Process, Genuine, Bind, SentWith, Reached;
    forall c | LiveSince(t[..i], t[i].q.id, c)
      ensures 0 <= c < i && t[..i][c] == t[c]
    {
    }
  }

  lemma SentWithIsBind(q: Query, d: nat, sent: seq<string>)
    requires SentWith(q, d, sent)
    ensures sent == Bind(q, d)
  {
    if q.kind.EndGame? {
      assert sent == sent[..|q.params|] + [sent[|q.params|]];
    } else if NeedsGameId(q.kind) {
      assert sent == [sent[0]] + sent[1..];
    }
  }

  function Sent(d: Done): seq<seq<string>> {
    if d.sent.Some? then [d.sent.value] else []
  }

  /** The parameters of all statements that were executed, in order. */
  function SentBy(t: seq<Entry>): seq<seq<string>> {
    if t == [] then [] else SentBy(t[..|t| - 1]) + Sent(t[|t| - 1].done)
  }

  lemma SentByNext(t: seq<Entry>, e: Entry)
    ensures SentBy(t + [e]) == SentBy(t) + Sent(e.done)
  {
    assert (t + [e])[..|t|] == t;
  }

  /** Every other query is executed with its own parameters, unless the database does not get that far. */
  lemma ExecutedAsAsked(t: seq<Entry>, i: nat)
    requires Genuine(t) && i < |t| && !NeedsGameId(t[i].q.kind)
    ensures t[i].done.sent == if Reached(t[i].q, t[i].o) then Some(t[i].q.params) else None
  {
  }

  lemma IdsValid(t: seq<Entry>, g: nat)
    requires Genuine(t)
    ensures g in IdsAfter(t) ==> IdsAfter(t)[g] != DB_ID_INVALID
  {
    IdMapMeaning(t, g);
    hide Process, Genuine, IdsAfter;
    if g in IdsAfter(t) {
      var c :| LiveSince(t, g, c);
    }
  }

  lemma ExecutedIff(ids: map<nat, nat>, e: Entry)
    requires e.done == Process(ids, e.q, e.o) && NeedsGameId(e.q.kind)
    ensures e.done.sent.Some? <==> Reached(e.q, e.o) && e.q.id in ids && ids[e.q.id] != DB_ID_INVALID
    ensures e.done.sent.Some? ==> SentWith(e.q, ids[e.q.id], e.done.sent.value)
  {
  }

  /** What makes an entry of the history register an id or end the life of one: what was asked and what the
      database answered. */
  lemma EntryMeaning(t: seq<Entry>, i: nat, g: nat)
    requires Genuine(t) && i < |t|
    ensures var e := t[i];
            && (Registers(e, g) <==> e.q.kind.CreateGame? && e.q.id == g && e.o.Success? && e.o.insertId != DB_ID_INVALID)
            && (Registers(e, g) ==> e.done.registered == e.o.insertId)
            && (Ends(e, g) <==> (e.q.id == g && IsGameQuery(e.q.kind)
                  && (e.q.kind.UpdateScore? || !e.o.Success? || (NeedsGameId(e.q.kind) && !exists c :: LiveSince(t[..i], g, c)))))
  {
    GenuinePrefix(t, i);
    IdMapMeaning(t[..i], g);
    IdsValid(t[..i], g);
    hide LiveSince;
    assert t[i].done == Process(IdsAfter(t[..i]), t[i].q, t[i].o);
    hide Genuine, IdsAfter, Bind;
  }

  /** How often each answer is given to one query, by what was asked and what the database did. The id map
      matters only where a query needs an id and finds none, which fails it. */
  function Answers(q: Query, known: bool, o: Outcome, r: Reply): nat {
    match r
    case LoginSuccess(id) => if q.kind.Login? && q.id == id && o.Success? && o.verdict.Accepted? then 1 else 0
    case LoginBlocked(id) => if q.kind.Login? && q.id == id && o.Success? && o.verdict.Blocked? then 1 else 0
    case LoginFailed(id) => if q.kind.Login? && q.id == id && (!o.Success? || o.verdict.NoSuchPlayer?) then 1 else 0
    case CreateGameSuccess(id) => if q.kind.CreateGame? && q.id == id && o.Success? && o.insertId != DB_ID_INVALID then 1 else 0
    case CreateGameFailed(id) => if q.kind.CreateGame? && q.id == id && (!o.Success? || o.insertId == DB_ID_INVALID) then 1 else 0
    case QueryError =>
      (if known && o.SetFails? && (q.params != [] || NeedsGameId(q.kind)) then 1 else 0)
      + if q.kind.GamePlace? && (!known || !o.Success?) then 1 else 0
  }

  /** Each query is answered as its own handler promises. */
  lemma AnsweredAsAsked(ids: map<nat, nat>, q: Query, o: Outcome, r: Reply)
    requires q.id in ids ==> ids[q.id] != DB_ID_INVALID
    ensures multiset(Process(ids, q, o).replies)[r] == Answers(q, NeedsGameId(q.kind) ==> q.id in ids, o, r)
  {
    hide Process, Answers;
    match q.kind {
      case Login => LoginAnswered(ids, q, o, r);
      case CreateGame => CreateAnswered(ids, q, o, r);
      case GamePlace => PlaceAnswered(ids, q, o, r);
      case _ => OtherAnswered(ids, q, o, r);
    }
  }

  lemma LoginAnswered(ids: map<nat, nat>, q: Query, o: Outcome, r: Reply)
    requires q.kind.Login? && (q.id in ids ==> ids[q.id] != DB_ID_INVALID)
    ensures multiset(Process(ids, q, o).replies)[r] == Answers(q, NeedsGameId(q.kind) ==> q.id in ids, o, r)
  {
  }

  lemma CreateAnswered(ids: map<nat, nat>, q: Query, o: Outcome, r: Reply)
    requires q.kind.CreateGame? && (q.id in ids ==> ids[q.id] != DB_ID_INVALID)
    ensures multiset(Process(ids, q, o).replies)[r] == Answers(q, NeedsGameId(q.kind) ==> q.id in ids, o, r)
  {
  }

  lemma PlaceAnswered(ids: map<nat, nat>, q: Query, o: Outcome, r: Reply)
    requires q.kind.GamePlace? && (q.id in ids ==> ids[q.id] != DB_ID_INVALID)
    ensures multiset(Process(ids, q, o).replies)[r] == Answers(q, NeedsGameId(q.kind) ==> q.id in ids, o, r)
  {
  }

  lemma OtherAnswered(ids: map<nat, nat>, q: Query, o: Outcome, r: Reply)
    requires !q.kind.Login? && !q.kind.CreateGame? && !q.kind.GamePlace? && (q.id in ids ==> ids[q.id] != DB_ID_INVALID)
    ensures multiset(Process(ids, q, o).replies)[r] == Answers(q, NeedsGameId(q.kind) ==> q.id in ids, o, r)
  {
  }

  /** The connection is given up exactly when the database fails outside of the statement itself. */
  lemma DroppedIff(ids: map<nat, nat>, q: Query, o: Outcome)
    requires q.id in ids ==> ids[q.id] != DB_ID_INVALID
    ensures Process(ids, q, o).disconnects
       <==> (NeedsGameId(q.kind) ==> q.id in ids) && (o.Throws? || (o.SetFails? && (q.params != [] || NeedsGameId(q.kind))))
  {
  }

  /** Once a query of a game has failed, or its score has been processed, no further query of the
      game is executed unless it is created anew. */
  lemma NothingExecutedAfterEnd(t: seq<Entry>, j: nat, i: nat)
    requires Genuine(t) && j < i && Executed(t, i) && Ends(t[j], t[i].q.id)
    ensures exists c :: j < c < i && Registers(t[c], t[i].q.id)
  {
    hide Process, Bind;
    ExecutedWithCreatedId(t, i);
    hide Reached;
    var g := t[i].q.id;
    var c :| LiveSince(t[..i], g, c);
    assert t[..i][c] == t[c] && t[..i][j] == t[j];
    RegisteringIsNoEnd(t, c, g);
  }

  lemma RegisteringIsNoEnd(t: seq<Entry>, c: nat, g: nat)
    requires Genuine(t) && c < |t| && Registers(t[c], g)
    ensures !Ends(t[c], g) && t[c].q.kind.CreateGame?
  {
  }

  /** Right after a failed query of a game or its score query, with any outcome, the map holds no
      entry for it, and none turns up before it is created anew. */
  lemma NoEntryAfterEnd(t: seq<Entry>, j: nat, g: nat)
    requires Genuine(t) && j < |t| && Ends(t[j], g)
    requires forall c :: j < c < |t| ==> !Registers(t[c], g)
    ensures g !in IdsAfter(t)
  {
    IdMapMeaning(t, g);
    forall c ensures !LiveSince(t, g, c) {
      if LiveSince(t, g, c) {
        RegisteringIsNoEnd(t, c, g);
        assert false;
      }
    }
  }

  ghost predicate CreatedOnce(t: seq<Entry>) {
    forall i, j :: 0 <= i < j < |t| && t[i].q.kind.CreateGame? && t[j].q.kind.CreateGame? ==> t[i].q.id != t[j].q.id
  }

  /** The life of a game that is created once: from the first failure of a query of it after its
      creation on, and from its score query on, nothing of it is executed and it has no entry. */
  lemma LifeOfGameCreatedOnce(t: seq<Entry>, c: nat, j: nat)
    requires Genuine(t) && CreatedOnce(t) && c < j < |t| && t[c].q.kind.CreateGame? && Ends(t[j], t[c].q.id)
    ensures t[c].q.id !in IdsAfter(t)
    ensures forall i :: j < i < |t| && t[i].q.id == t[c].q.id ==> !Executed(t, i)
  {
    var g := t[c].q.id;
    forall k | j < k < |t| ensures !Registers(t[k], g) {
      if Registers(t[k], g) {
        RegisteringIsNoEnd(t, k, g);
        assert false;
      }
    }
    NoEntryAfterEnd(t, j, g);
    forall i | j < i < |t| && t[i].q.id == g ensures !Executed(t, i) {
      if Executed(t, i) {
        NothingExecutedAfterEnd(t, j, i);
      }
    }
  }
}
