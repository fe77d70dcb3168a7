/** The text of a prepared query's SET and EXECUTE statements, and what MySQL makes of it (string
    literals as in section 9.1.1 of the MySQL 5.7 Reference Manual, backslash escapes enabled). */
module SqlText {
  import opened Decimal
  import opened Wrappers


  const NULL_SENTINEL := "__DB_NULL_PTR__"
  const NUL := '\0'
  const CTRL_Z := '\U{1A}'

  function EscapeChar(c: char): string {
    if c == NUL then "\\0"
    else if c == '\n' then "\\n"
    else if c == '\r' then "\\r"
    else if c == CTRL_Z then "\\Z"
    else if c == '\'' then "\\'"
    else if c == '"' then "\\\""
    else if c == '\\' then "\\\\"
    else [c]
  }

  function Escape(s: string): string {
    if s == "" then "" else EscapeChar(s[0]) + Escape(s[1..])
  }

  lemma {:induction false} EscapeSnoc(s: string, c: char)
    ensures Escape(s + [c]) == Escape(s) + EscapeChar(c)
  {
    if s == "" {
      assert s + [c] == [c] && [c][1..] == "";
    } else {
      assert (s + [c])[1..] == s[1..] + [c];
      EscapeSnoc(s[1..], c);
    }
  }

  // ---------------------------------------------------------------------------------------------
  // The reader's side: the lexical rules of MySQL, independent of how the text was printed.

  /** What a backslash followed by `c` stands for. */
  function Unescape(c: char): string {
    if c == '0' then [NUL]
    else if c == 'b' then "\U{8}"
    else if c == 'n' then "\n"
    else if c == 'r' then "\r"
    else if c == 't' then "\t"
    else if c == 'Z' then [CTRL_Z]
    else if c == '%' then "\\%"
    else if c == '_' then "\\_"
    else [c]
  }

  /** Reads a single-quoted literal after its opening quote, up to and including the closing one. */
  function LexLiteral(s: string): Option<(string, string)>
    decreases |s|
  {
    if s == "" then None
    else if s[0] == '\'' then
      if |s| > 1 && s[1] == '\'' then Prepend("'", LexLiteral(s[2..])) else Some(("", s[1..]))
    else if s[0] == '\\' then
      if |s| == 1 then None else Prepend(Unescape(s[1]), LexLiteral(s[2..]))
    else Prepend([s[0]], LexLiteral(s[1..]))
  }

  function Prepend(p: string, r: Option<(string, string)>): Option<(string, string)> {
    match r
    case None => None
    case Some((v, rest)) => Some((p + v, rest))
  }

  datatype SqlValue = Null | Text(s: string)

  predicate IsNameChar(c: char) {
    'a' <= c <= 'z' || 'A' <= c <= 'Z' || IsDigit(c) || c == '_' || c == '$' || c == '.'
  }

  /** The longest name at the start of the text, and what follows it. */
  function LexName(s: string): (r: (string, string))
    ensures |r.1| <= |s|
  {
    if s == "" || !IsNameChar(s[0]) then ("", s)
    else var (n, rest) := LexName(s[1..]); ([s[0]] + n, rest)
  }

  function SkipBlanks(s: string): (r: string)
    ensures |r| <= |s|
  {
    if s != "" && s[0] == ' ' then SkipBlanks(s[1..]) else s
  }

  lemma {:induction false} LexLiteralShrinks(s: string)
    ensures LexLiteral(s).Some? ==> |LexLiteral(s).value.1| < |s|
    decreases |s|
  {
    if |s| >= 1 {
      LexLiteralShrinks(s[1..]);
      if |s| >= 2 {
        LexLiteralShrinks(s[2..]);
      }
    }
  }

  /** Literal or NULL. */
  function LexValue(s: string): (r: Option<(SqlValue, string)>)
    ensures r.Some? ==> |r.value.1| <= |s|
  {
    if s == "" then None
    else if s[0] == '\'' then
      LexLiteralShrinks(s[1..]);
      match LexLiteral(s[1..])
      case None => None
      case Some((v, rest)) => Some((Text(v), rest))
    else
      var (n, rest) := LexName(s);
      if n == "NULL" then Some((Null, rest)) else None
  }

  /** `@name` */
  function LexVariable(s: string): (r: Option<(string, string)>)
    ensures r.Some? ==> |r.value.1| < |s|
  {
    if s == "" || s[0] != '@' then None
    else var (n, rest) := LexName(s[1..]); if n == "" then None else Some((n, rest))
  }

  /** `@name = value`, and then the end or a comma and more of the same. */
  function LexAssignments(s: string): Option<seq<(string, SqlValue)>>
    decreases |s|
  {
    match LexVariable(s)
    case None => None
    case Some((name, s1)) =>
      var s2 := SkipBlanks(s1);
      if s2 == "" || s2[0] != '=' then None
      else
        match LexValue(SkipBlanks(s2[1..]))
        case None => None
        case Some((v, s3)) =>
          var s4 := SkipBlanks(s3);
          if s4 == "" then Some([(name, v)])
          else if s4[0] != ',' then None
          else
            match LexAssignments(SkipBlanks(s4[1..]))
            case None => None
            case Some(more) => Some([(name, v)] + more)
  }

  function LexVariables(s: string): Option<seq<string>>
    decreases |s|
  {
    match LexVariable(s)
    case None => None
    case Some((name, s1)) =>
      var s2 := SkipBlanks(s1);
      if s2 == "" then Some([name])
      else if s2[0] != ',' then None
      else
        match LexVariables(SkipBlanks(s2[1..]))
        case None => None
        case Some(more) => Some([name] + more)
  }

  /** The assignments of a SET statement. */
  function ReadSet(sql: string): Option<seq<(string, SqlValue)>> {
    if |sql| >= 4 && sql[..4] == "SET " then LexAssignments(SkipBlanks(sql[4..])) else None
  }

  /** The name and the arguments of an EXECUTE statement. */
  function ReadExecute(sql: string): Option<(string, seq<string>)> {
    if !(|sql| >= 8 && sql[..8] == "EXECUTE ") then None
    else
      var (name, s1) := LexName(SkipBlanks(sql[8..]));
      var s2 := SkipBlanks(s1);
      if s2 == "" then Some((name, []))
      else if !(|s2| >= 6 && s2[..6] == "using ") then None
      else
        match LexVariables(SkipBlanks(s2[6..]))
        case None => None
        case Some(vs) => Some((name, vs))
  }

  /** A session's user variables after a list of assignments. */
  function Assign(env: map<string, SqlValue>, xs: seq<(string, SqlValue)>): map<string, SqlValue>
    decreases |xs|
  {
    if xs == [] then env else Assign(env[xs[0].0 := xs[0].1], xs[1..])
  }

  /** The values of the variables an EXECUTE statement names. */
  function Arguments(env: map<string, SqlValue>, names: seq<string>): seq<Option<SqlValue>> {
    seq(|names|, i requires 0 <= i < |names| => if names[i] in env then Some(env[names[i]]) else None)
  }

  // ---------------------------------------------------------------------------------------------
  // The printer's side.

  function ParamName(k: nat): string {
    "param" + Dec(k)
  }

  function Quoted(s: string): string {
    "'" + Escape(s) + "'"
  }

  function ValueText(p: string): string {
    if p == NULL_SENTINEL then "NULL" else Quoted(p)
  }

  /** What a parameter stands for: the sentinel means NULL, anything else itself. */
  function Meaning(p: string): SqlValue {
    if p == NULL_SENTINEL then Null else Text(p)
  }

  function Separator(k: nat): string {
    if k > 1 then ", " else ""
  }

  function VariableText(k: nat): string {
    "@" + ParamName(k)
  }

  function ItemText(k: nat, p: string): string {
    VariableText(k) + " = " + ValueText(p)
  }

  /** The assignments to the parameters from the k-th on, and the same with the comma in front that
      separates them from earlier ones. */
  function AssignmentsText(ps: seq<string>, k: nat): string
    requires ps != []
    decreases |ps|, 0
  {
    ItemText(k, ps[0]) + MoreAssignments(ps[1..], k + 1)
  }

  function MoreAssignments(ps: seq<string>, k: nat): string
    decreases |ps|, 1
  {
    if ps == [] then "" else Separator(k) + AssignmentsText(ps, k)
  }

  function VariablesText(n: nat, k: nat): string
    requires n > 0
    decreases n, 0
  {
    VariableText(k) + MoreVariables(n - 1, k + 1)
  }

  function MoreVariables(n: nat, k: nat): string
    decreases n, 1
  {
    if n == 0 then "" else Separator(k) + VariablesText(n, k)
  }

  function SetText(ps: seq<string>): string {
    "SET " + MoreAssignments(ps, 1)
  }

  function ExecuteText(name: string, n: nat): string {
    "EXECUTE " + name + if n == 0 then "" else " using " + MoreVariables(n, 1)
  }

  // ---------------------------------------------------------------------------------------------
  // Reading what was printed.

  lemma LexPlain(c: char, rest: string)
    requires c != '\'' && c != '\\'
    ensures LexLiteral([c] + rest) == Prepend([c], LexLiteral(rest))
  {
    assert ([c] + rest)[1..] == rest;
  }

  lemma LexEscaped(c: char, rest: string)
    ensures LexLiteral("\\" + [c] + rest) == Prepend(Unescape(c), LexLiteral(rest))
  {
    assert ("\\" + [c] + rest)[2..] == rest;
  }

  lemma EscapeCharRead(c: char, rest: string)
    ensures LexLiteral(EscapeChar(c) + rest) == Prepend([c], LexLiteral(rest))
  {
    hide LexLiteral, Prepend;
    var e := EscapeChar(c);
    if |e| == 2 {
      assert e == "\\" + [e[1]];
      LexEscaped(e[1], rest);
    } else {
      LexPlain(c, rest);
    }
  }

  /** Every literal reads back as the string it was made from, and ends at its own closing quote,
      whatever follows, as long as that is not one more quote. */
  lemma {:induction false} LiteralRoundTrip(v: string, rest: string)
    requires rest == "" || rest[0] != '\''
    ensures LexLiteral(Escape(v) + "'" + rest) == Some((v, rest))
    decreases |v|
  {
    if v == "" {
      assert Escape(v) + "'" + rest == "'" + rest;
      assert ("'" + rest)[1..] == rest;
    } else {
      LiteralRoundTrip(v[1..], rest);
      var tail := Escape(v[1..]) + "'" + rest;
      assert Escape(v) + "'" + rest == EscapeChar(v[0]) + tail;
      EscapeCharRead(v[0], tail);
      assert v == [v[0]] + v[1..];
    }
  }

  lemma {:induction false} NameRoundTrip(n: string, rest: string)
    requires forall c <- n :: IsNameChar(c)
    requires rest == "" || !IsNameChar(rest[0])
    ensures LexName(n + rest) == (n, rest)
  {
    if n == "" {
      assert n + rest == rest;
    } else {
      assert n[0] in n;
      assert (n + rest)[1..] == n[1..] + rest;
      NameRoundTrip(n[1..], rest);
      assert n == [n[0]] + n[1..];
    }
  }

  lemma ParamNameChars(k: nat)
    ensures ParamName(k) != "" && forall c <- ParamName(k) :: IsNameChar(c)
  {
    forall c | c in ParamName(k) ensures IsNameChar(c) {
      if c !in "param" {
        assert c in Dec(k);
      }
    }
  }

  lemma VariableRoundTrip(k: nat, rest: string)
    requires rest == "" || !IsNameChar(rest[0])
    ensures LexVariable(VariableText(k) + rest) == Some((ParamName(k), rest))
  {
    ParamNameChars(k);
    NameRoundTrip(ParamName(k), rest);
    assert (VariableText(k) + rest)[1..] == ParamName(k) + rest;
  }

  lemma ValueRoundTrip(p: string, rest: string)
    requires rest == "" || rest[0] == ','
    ensures LexValue(ValueText(p) + rest) == Some((Meaning(p), rest))
  {
    hide LexLiteral, Escape;
    if p == NULL_SENTINEL {
      NameRoundTrip("NULL", rest);
    } else {
      LiteralRoundTrip(p, rest);
      assert (ValueText(p) + rest)[1..] == Escape(p) + "'" + rest;
    }
  }

  function Meanings(ps: seq<string>, k: nat): (r: seq<(string, SqlValue)>)
    ensures |r| == |ps|
    ensures forall i :: 0 <= i < |ps| ==> r[i] == (ParamName(k + i), Meaning(ps[i]))
  {
    if ps == [] then [] else [(ParamName(k), Meaning(ps[0]))] + Meanings(ps[1..], k + 1)
  }

  function Names(n: nat, k: nat): (r: seq<string>)
    ensures |r| == n
    ensures forall i :: 0 <= i < n ==> r[i] == ParamName(k + i)
  {
    if n == 0 then [] else [ParamName(k)] + Names(n - 1, k + 1)
  }

  /** A comma, one blank, and something else. */
  predicate Continues(rest: string) {
    |rest| > 2 && rest[0] == ',' && rest[1] == ' ' && rest[2] == '@'
  }

  lemma SkipToNext(rest: string)
    requires Continues(rest)
    ensures SkipBlanks(rest) == rest && SkipBlanks(rest[1..]) == rest[2..]
  {
    assert rest[1..][1..] == rest[2..];
  }

  lemma ReadOneAssignment(k: nat, p: string, rest: string)
    requires rest == "" || Continues(rest)
    ensures LexAssignments(ItemText(k, p) + rest) ==
              if rest == "" then Some([(ParamName(k), Meaning(p))])
              else match LexAssignments(rest[2..]) case None => None case Some(more) => Some([(ParamName(k), Meaning(p))] + more)
  {
    hide Escape, LexLiteral, LexName, Dec, ValueText;
    var v := ValueText(p) + rest;
    assert ItemText(k, p) + rest == VariableText(k) + (" = " + v);
    VariableRoundTrip(k, " = " + v);
    assert SkipBlanks(" = " + v) == "= " + v by {
      assert (" = " + v)[1..] == "= " + v;
    }
    assert ("= " + v)[1..] == " " + v;
    ValueStart(p, rest);
    assert (" " + v)[1..] == v && SkipBlanks(" " + v) == v;
    ValueRoundTrip(p, rest);
    if rest != "" {
      SkipToNext(rest);
    }
  }

  lemma ValueStart(p: string, rest: string)
    ensures ValueText(p) + rest != "" && (ValueText(p) + rest)[0] != ' '
  {
  }

  lemma ReadOneVariable(k: nat, rest: string)
    requires rest == "" || Continues(rest)
    ensures LexVariables(VariableText(k) + rest) ==
              if rest == "" then Some([ParamName(k)])
              else match LexVariables(rest[2..]) case None => None case Some(more) => Some([ParamName(k)] + more)
  {
    hide LexName, Dec;
    VariableRoundTrip(k, rest);
    if rest != "" {
      SkipToNext(rest);
    }
  }

  lemma {:induction false} AssignmentsRoundTrip(ps: seq<string>, k: nat)
    requires ps != [] && k > 0
    ensures LexAssignments(AssignmentsText(ps, k)) == Some(Meanings(ps, k))
    ensures AssignmentsText(ps, k)[0] == '@'
    decreases |ps|
  {
    hide LexAssignments, ValueText, ParamName;
    var rest := MoreAssignments(ps[1..], k + 1);
    if ps[1..] == [] {
      assert Meanings(ps[1..], k + 1) == [];
    } else {
      AssignmentsRoundTrip(ps[1..], k + 1);
      assert Continues(rest) && rest[2..] == AssignmentsText(ps[1..], k + 1);
    }
    ReadOneAssignment(k, ps[0], rest);
    assert AssignmentsText(ps, k) == ItemText(k, ps[0]) + rest;
    var first := [(ParamName(k), Meaning(ps[0]))];
    assert Meanings(ps, k) == first + Meanings(ps[1..], k + 1) && first + [] == first;
    assert ps[1..] == [] ==> Meanings(ps[1..], k + 1) == [] && rest == "";
  }

  lemma {:induction false} VariablesRoundTrip(n: nat, k: nat)
    requires n > 0 && k > 0
    ensures LexVariables(VariablesText(n, k)) == Some(Names(n, k))
    ensures VariablesText(n, k)[0] == '@'
    decreases n
  {
    hide LexVariables, ParamName;
    var rest := MoreVariables(n - 1, k + 1);
    if n > 1 {
      VariablesRoundTrip(n - 1, k + 1);
      assert Continues(rest) && rest[2..] == VariablesText(n - 1, k + 1);
    }
    ReadOneVariable(k, rest);
    assert VariablesText(n, k) == VariableText(k) + rest;
    assert Names(n, k) == [ParamName(k)] + Names(n - 1, k + 1) && [ParamName(k)] + [] == [ParamName(k)];
  }

  /** The SET statement reads back as the parameter list, for every list: the sentinel as NULL,
      everything else as itself. */
  lemma SetRoundTrip(ps: seq<string>)
    requires ps != []
    ensures ReadSet(SetText(ps)) == Some(Meanings(ps, 1))
  {
    AssignmentsRoundTrip(ps, 1);
    hide LexAssignments, AssignmentsText, Meanings;
    var body := AssignmentsText(ps, 1);
    assert MoreAssignments(ps, 1) == body;
    assert SetText(ps)[4..] == body && SkipBlanks(body) == body;
  }

  /** The EXECUTE statement names the same variables in the same order. */
  lemma ExecuteRoundTrip(name: string, n: nat)
    requires name != "" && forall c <- name :: IsNameChar(c)
    ensures ReadExecute(ExecuteText(name, n)) == Some((name, Names(n, 1)))
  {
    var tail := if n == 0 then "" else " using " + MoreVariables(n, 1);
    NameRoundTrip(name, tail);
    NameStart(name, tail);
    if n > 0 {
      VariablesRoundTrip(n, 1);
      UsingClause(VariablesText(n, 1));
    }
    hide LexVariables, VariablesText, ParamName, LexName;
    assert ExecuteText(name, n) == "EXECUTE " + (name + tail) && ExecuteText(name, n)[8..] == name + tail;
    assert n > 0 ==> MoreVariables(n, 1) == VariablesText(n, 1);
  }

  lemma NameStart(name: string, tail: string)
    requires forall c <- name :: IsNameChar(c)
    ensures name != "" ==> SkipBlanks(name + tail) == name + tail
  {
    if name != "" {
      assert name[0] in name;
    }
  }

  lemma UsingClause(vs: string)
    requires vs != "" && vs[0] == '@'
    ensures var tail := " using " + vs; SkipBlanks(tail) == "using " + vs && ("using " + vs)[..6] == "using " && SkipBlanks(("using " + vs)[6..]) == vs
  {
    assert (" using " + vs)[1..] == "using " + vs && ("using " + vs)[6..] == vs;
  }

  lemma {:induction false} AssignFrame(env: map<string, SqlValue>, ps: seq<string>, k: nat, x: string)
    requires forall j :: k <= j < k + |ps| ==> x != ParamName(j)
    requires x in env
    ensures x in Assign(env, Meanings(ps, k)) && Assign(env, Meanings(ps, k))[x] == env[x]
    decreases |ps|
  {
    hide ParamName;
    if ps != [] {
      var xs := Meanings(ps, k);
      assert xs[0].0 == ParamName(k) && xs[1..] == Meanings(ps[1..], k + 1);
      AssignFrame(env[xs[0].0 := xs[0].1], ps[1..], k + 1, x);
    }
  }

  lemma ParamNamesDistinct(j: nat, k: nat)
    ensures ParamName(j) == ParamName(k) <==> j == k
  {
    if ParamName(j) == ParamName(k) {
      assert Dec(j) == ParamName(j)[5..] == ParamName(k)[5..] == Dec(k);
      DecInjective(j, k);
    }
  }

  lemma {:induction false} AssignedValue(env: map<string, SqlValue>, ps: seq<string>, k: nat, i: nat)
    requires i < |ps|
    ensures var after := Assign(env, Meanings(ps, k)); ParamName(k + i) in after && after[ParamName(k + i)] == Meaning(ps[i])
    decreases |ps|
  {
    hide ParamName, Meaning;
    var xs := Meanings(ps, k);
    var env' := env[xs[0].0 := xs[0].1];
    assert xs[1..] == Meanings(ps[1..], k + 1);
    if i == 0 {
      forall j | k + 1 <= j < k + 1 + |ps[1..]| ensures ParamName(k) != ParamName(j) {
        ParamNamesDistinct(k, j);
      }
      AssignFrame(env', ps[1..], k + 1, ParamName(k));
    } else {
      AssignedValue(env', ps[1..], k + 1, i - 1);
      assert k + 1 + (i - 1) == k + i;
    }
  }

  /** The two statements together, as the server sees them: in any session, after the SET the i-th
      argument of the EXECUTE is the i-th parameter. */
  lemma ParametersArrive(name: string, ps: seq<string>, env: map<string, SqlValue>)
    requires ps != [] && name != "" && forall c <- name :: IsNameChar(c)
    ensures var set', exec := ReadSet(SetText(ps)), ReadExecute(ExecuteText(name, |ps|));
            set'.Some? && exec.Some? && exec.value.0 == name && Arguments(Assign(env, set'.value), exec.value.1) == seq(|ps|, i requires 0 <= i < |ps| => Some(Meaning(ps[i])))
  {
    SetRoundTrip(ps);
    ExecuteRoundTrip(name, |ps|);
    hide ReadSet, ReadExecute, SetText, ExecuteText, Meanings, Names;
    forall i | 0 <= i < |ps|
      ensures var after := Assign(env, Meanings(ps, 1)); ParamName(1 + i) in after && after[ParamName(1 + i)] == Meaning(ps[i])
    {
      AssignedValue(env, ps, 1, i);
    }
  }

  /** In any session, the i-th argument of the EXECUTE is the text of the i-th parameter if and only if that
      text is not the sentinel; a parameter that happens to be the sentinel arrives as NULL. */
  lemma SentinelIsTheOnlyCollision(name: string, ps: seq<string>, env: map<string, SqlValue>, i: nat)
    requires i < |ps| && name != "" && forall c <- name :: IsNameChar(c)
    ensures var set', exec := ReadSet(SetText(ps)), ReadExecute(ExecuteText(name, |ps|));
            && set'.Some? && exec.Some?
            && var arguments := Arguments(Assign(env, set'.value), exec.value.1);
               && |arguments| == |ps|
               && (arguments[i] == Some(Text(ps[i])) <==> ps[i] != NULL_SENTINEL)
               && (arguments[i] == Some(Null) <==> ps[i] == NULL_SENTINEL)
  {
    ParametersArrive(name, ps, env);
    hide ReadSet, ReadExecute, SetText, ExecuteText, Arguments, Assign;
  }

  // ---------------------------------------------------------------------------------------------

  /** The statement under construction. Asking for a quote affects the next piece only. */
  class Query {
    var text: string
    var quoteNext: bool

    constructor ()
      ensures text == "" && !quoteNext
    {
      text, quoteNext := "", false;
    }

    method Quote()
      modifies this`quoteNext
      ensures quoteNext
    {
      quoteNext := true;
    }

    method EscapeText(input: string) returns (out: string)
      ensures out == Escape(input)
    {
      out := "";
      for i := 0 to |input|
        invariant out == Escape(input[..i])
      {
        var c := input[i];
        if c == NUL {
          out := out + "\\0";
        } else if c == '\n' {
          out := out + "\\n";
        } else if c == '\r' {
          out := out + "\\r";
        } else if c == CTRL_Z {
          out := out + "\\Z";
        } else if c == '\'' {
          out := out + "\\'";
        } else if c == '"' {
          out := out + "\\\"";
        } else if c == '\\' {
          out := out + "\\\\";
        } else {
          out := out + [c];
        }
        assert input[..i + 1] == input[..i] + [c];
        EscapeSnoc(input[..i], c);
      }
      assert input[..|input|] == input;
    }

    method Append(s: string)
      modifies this
      ensures text == old(text) + (if old(quoteNext) then Quoted(s) else s) && !quoteNext
    {
      if quoteNext {
        var escaped := EscapeText(s);
        text := text + ("'" + escaped + "'");
        quoteNext := false;
      } else {
        text := text + s;
      }
    }
  }

  lemma AppendItem(t: string, k: nat, p: string)
    ensures t + Separator(k) + "@param" + Dec(k) + " = " + ValueText(p) == t + (Separator(k) + ItemText(k, p))
    ensures t + Separator(k) + "@param" + Dec(k) == t + (Separator(k) + VariableText(k))
  {
    hide Dec, ValueText;
    assert VariableText(k) == "@param" + Dec(k);
  }

  lemma MoreUnfolds(t: string, ps: seq<string>, k: nat)
    requires ps != []
    ensures t + MoreAssignments(ps, k) == t + (Separator(k) + ItemText(k, ps[0])) + MoreAssignments(ps[1..], k + 1)
  {
    hide ItemText, Separator;
  }

  lemma MoreVariablesUnfolds(t: string, n: nat, k: nat)
    requires n > 0
    ensures t + MoreVariables(n, k) == t + (Separator(k) + VariableText(k)) + MoreVariables(n - 1, k + 1)
  {
    hide VariableText, Separator;
  }

  /** One round of the loop of HandleNextQuery that prints both statements side by side. */
  method PrintParameter(paramQuery: Query, executeQuery: Query, counter: nat, param: string)
    requires paramQuery != executeQuery && !paramQuery.quoteNext && !executeQuery.quoteNext
    modifies paramQuery, executeQuery
    ensures !paramQuery.quoteNext && !executeQuery.quoteNext
    ensures paramQuery.text == old(paramQuery.text) + (Separator(counter) + ItemText(counter, param))
    ensures executeQuery.text == old(executeQuery.text) + (Separator(counter) + VariableText(counter))
  {
    AppendItem(paramQuery.text, counter, param);
    AppendItem(executeQuery.text, counter, param);
    hide ItemText, VariableText, Escape, Dec;
    if counter > 1 {
      paramQuery.Append(", ");
      executeQuery.Append(", ");
    }
    assert paramQuery.text == old(paramQuery.text) + Separator(counter);
    assert executeQuery.text == old(executeQuery.text) + Separator(counter);
    paramQuery.Append("@param");
    paramQuery.Append(Dec(counter));
    paramQuery.Append(" = ");
    if param == NULL_SENTINEL {
      paramQuery.Append("NULL");
    } else {
      paramQuery.Quote();
      paramQuery.Append(param);
    }
    executeQuery.Append("@param");
    executeQuery.Append(Dec(counter));
  }

  method BuildStatements(name: string, paramList: seq<string>) returns (setText: string, executeText: string)
    ensures executeText == ExecuteText(name, |paramList|)
    ensures setText == if paramList == [] then "" else SetText(paramList)
  {
    hide ItemText, VariableText, Separator, MoreAssignments, MoreVariables;
    var executeQuery := new Query();
    executeQuery.Append("EXECUTE ");
    executeQuery.Append(name);
    var paramQuery := new Query();
    if paramList != [] {
      executeQuery.Append(" using ");
      paramQuery.Append("SET ");
      assert paramList[0..] == paramList;
      var counter := 1;
      var i := 0;
      while i < |paramList|
        invariant 0 <= i <= |paramList| && counter == i + 1
        invariant !executeQuery.quoteNext && !paramQuery.quoteNext
        invariant paramQuery.text + MoreAssignments(paramList[i..], counter) == SetText(paramList)
        invariant executeQuery.text + MoreVariables(|paramList| - i, counter) == ExecuteText(name, |paramList|)
      {
        MoreUnfolds(paramQuery.text, paramList[i..], counter);
        MoreVariablesUnfolds(executeQuery.text, |paramList| - i, counter);
        PrintParameter(paramQuery, executeQuery, counter, paramList[i]);
        assert paramList[i..][1..] == paramList[i + 1..];
        counter := counter + 1;
        i := i + 1;
      }
      NothingMore(counter);
      assert paramList[i..] == [];
    }
    setText, executeText := paramQuery.text, executeQuery.text;
  }

  lemma NothingMore(k: nat)
    ensures MoreAssignments([], k) == "" && MoreVariables(0, k) == ""
  {
  }
}
