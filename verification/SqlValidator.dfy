/**
The SQL validator (`crates/skardi/src/sources/sql_validator.rs`): its own rewriting
of placeholders, in place and without looking at names, and its check of the
parsed statements against the access modes.
*/
module SqlValidator {
  import opened Options
  import opened Text
  import opened TemplateScanner

  const REPLACEMENT := "(NULL)"

  // ---------------------------------------------------------------- placeholders

  /** Where the character first stands; the length if it does not. */
  function IndexOf(s: string, c: char): (i: nat)
    ensures i <= |s| && (i < |s| ==> s[i] == c)
  {
    if s == "" || s[0] == c then 0 else 1 + IndexOf(s[1..], c)
  }

  lemma {:induction false} IndexIsFirst(s: string, c: char)
    ensures c !in s[..IndexOf(s, c)]
  {
    if s != "" && s[0] != c {
      IndexIsFirst(s[1..], c);
      assert s[..IndexOf(s, c)] == [s[0]] + s[1..][..IndexOf(s[1..], c)];
    }
  }

  /** From the first `{` to the next `}`, again and again. */
  function Preprocessed(s: string): string {
    if s == "" then ""
    else if s[0] != '{' then [s[0]] + Preprocessed(s[1..])
    else
      var close := IndexOf(s, '}');
      if close == |s| then s else REPLACEMENT + Preprocessed(s[close + 1..])
  }

  method Find(s: string, start: nat, c: char) returns (at: nat)
    requires start <= |s|
    ensures at == start + IndexOf(s[start..], c)
  {
    at := start;
    while at < |s| && s[at] != c
      invariant start <= at <= |s|
      invariant at - start + IndexOf(s[at..], c) == IndexOf(s[start..], c)
    {
      assert s[at..][1..] == s[at + 1..];
      at := at + 1;
    }
  }

  /** What is done, and the rest rewritten, make up the result. */
  ghost predicate Progress(s: string, start: nat, whole: string) {
    start <= |s| && s[..start] + Preprocessed(s[start..]) == whole
  }

  /** The loop; the text may grow, but what is left to scan gets shorter. */
  method PreprocessParameters(sql: string) returns (result: string)
    ensures result == Preprocessed(sql)
  {
    hide Preprocessed, IndexOf;
    result := sql;
    var start: nat := 0;
    ghost var whole := Preprocessed(sql);
    NothingDone(sql);
    while true
      invariant Progress(result, start, whole)
      decreases |result| - start
    {
      var open := Find(result, start, '{');
      if open == |result| {
        NoBraceLeft(result, start, whole);
        break;
      }
      var close := Find(result, open, '}');
      if close == |result| {
        NoneCloses(result, start, open, whole);
        break;
      }
      OnePair(result, start, open, close, whole);
      result := result[..open] + REPLACEMENT + result[close + 1..];
      start := open + |REPLACEMENT|;
    }
  }

  lemma NothingDone(sql: string)
    ensures Progress(sql, 0, Preprocessed(sql))
  {
    assert sql[0..] == sql && sql[..0] == "";
    assert "" + Preprocessed(sql) == Preprocessed(sql);
  }

  lemma {:induction false} SkipPlain(s: string, n: nat)
    requires n <= |s| && forall k :: 0 <= k < n ==> s[k] != '{'
    ensures Preprocessed(s) == s[..n] + Preprocessed(s[n..])
  {
    if n == 0 {
      assert s[..0] + Preprocessed(s[0..]) == Preprocessed(s) by { assert s[0..] == s; }
    } else {
      SkipPlain(s[1..], n - 1);
      assert s[1..][n - 1..] == s[n..];
      assert s[..n] == [s[0]] + s[1..][..n - 1];
      Assoc([s[0]], s[1..][..n - 1], Preprocessed(s[n..]));
    }
  }

  lemma UpToBrace(s: string, start: nat, open: nat)
    requires start <= |s| && open == start + IndexOf(s[start..], '{')
    ensures open <= |s| && (open < |s| ==> s[open] == '{')
    ensures Preprocessed(s[start..]) == s[start..open] + Preprocessed(s[open..])
  {
    var n := open - start;
    IndexIsFirst(s[start..], '{');
    assert forall k :: 0 <= k < n ==> s[start..][k] == s[start..][..n][k];
    SkipPlain(s[start..], n);
    assert s[start..][..n] == s[start..open] && s[start..][n..] == s[open..];
  }

  /** The loop can stop where no brace is left. */
  lemma NoBraceLeft(s: string, start: nat, whole: string)
    requires Progress(s, start, whole) && start + IndexOf(s[start..], '{') == |s|
    ensures s == whole
  {
    UpToBrace(s, start, |s|);
    assert s[|s|..] == "" && Preprocessed("") == "";
    assert s[..start] + (s[start..|s|] + "") == s;
  }

  lemma {:induction false} UnclosedStays(s: string)
    requires s != "" && s[0] == '{' && IndexOf(s, '}') == |s|
    ensures Preprocessed(s) == s
  {
    hide IndexOf;
  }

  /** The loop can stop where no brace closes. */
  lemma NoneCloses(s: string, start: nat, open: nat, whole: string)
    requires Progress(s, start, whole) && open == start + IndexOf(s[start..], '{')
    requires open < |s| && open + IndexOf(s[open..], '}') == |s|
    ensures s == whole
  {
    hide Preprocessed, IndexOf;
    UpToBrace(s, start, open);
    UnclosedStays(s[open..]);
    assert s[..start] + (s[start..open] + s[open..]) == s;
  }

  lemma OnePair(s: string, start: nat, open: nat, close: nat, whole: string)
    requires Progress(s, start, whole) && open == start + IndexOf(s[start..], '{')
    requires open < |s| && close == open + IndexOf(s[open..], '}') && close < |s|
    ensures
      var next := s[..open] + REPLACEMENT + s[close + 1..];
      var n := open + |REPLACEMENT|;
      |next| - n < |s| - start && Progress(next, n, whole)
  {
    hide Preprocessed, IndexOf;
    UpToBrace(s, start, open);
    var next := s[..open] + REPLACEMENT + s[close + 1..];
    var n := open + |REPLACEMENT|;
    assert next[n..] == s[close + 1..] && next[..n] == s[..open] + REPLACEMENT;
    PairIsReplaced(s[open..], close - open);
    assert s[open..][close - open + 1..] == s[close + 1..];
    var rest := Preprocessed(s[close + 1..]);
    assert s[..open] == s[..start] + s[start..open];
    Assoc(s[..start], s[start..open], REPLACEMENT + rest);
    Assoc(s[..open], REPLACEMENT, rest);
  }

  lemma {:induction false} PairIsReplaced(s: string, close: nat)
    requires s != "" && s[0] == '{' && close == IndexOf(s, '}') && close < |s|
    ensures Preprocessed(s) == REPLACEMENT + Preprocessed(s[close + 1..])
  {
    hide IndexOf;
  }

  /** No opening brace stands anywhere before a closing one. */
  ghost predicate NoPair(s: string) {
    forall i, j :: 0 <= i < j < |s| && s[i] == '{' ==> s[j] != '}'
  }

  lemma NoPairCons(front: string, s: string)
    requires '{' !in front && NoPair(s)
    ensures NoPair(front + s)
  {
    var all := front + s;
    assert forall k :: 0 <= k < |front| ==> all[k] == front[k] != '{';
    forall i, j | 0 <= i < j < |all| && all[i] == '{'
      ensures all[j] != '}'
    {
      assert s[i - |front|] == '{' && all[j] == s[j - |front|];
    }
  }

  lemma UnbracedStays(s: string)
    requires s == ""
    ensures Preprocessed(s) == s
  {
  }

  lemma PlainIsKept(s: string)
    requires s != "" && s[0] != '{'
    ensures Preprocessed(s) == [s[0]] + Preprocessed(s[1..])
  {
  }

  lemma {:induction false} NoPairIsLeft(s: string)
    ensures NoPair(Preprocessed(s))
    decreases |s|
  {
    hide Preprocessed;
    if s == "" {
      UnbracedStays(s);
    } else if s[0] != '{' {
      NoPairIsLeft(s[1..]);
      NoPairCons([s[0]], Preprocessed(s[1..]));
      PlainIsKept(s);
    } else {
      var close := IndexOf(s, '}');
      if close < |s| {
        NoPairIsLeft(s[close + 1..]);
        NoPairCons(REPLACEMENT, Preprocessed(s[close + 1..]));
        PairIsReplaced(s, close);
      } else {
        UnclosedStays(s);
        IndexIsFirst(s, '}');
        assert s[..|s|] == s;
      }
    }
  }

  lemma {:induction false} NoPairStays(s: string)
    requires NoPair(s)
    ensures Preprocessed(s) == s
  {
    if s != "" && s[0] != '{' {
      NoPairStays(s[1..]);
    }
  }

  /** Rewriting again changes nothing. */
  lemma PreprocessingIsIdempotent(s: string)
    ensures Preprocessed(Preprocessed(s)) == Preprocessed(s)
  {
    NoPairIsLeft(s);
    NoPairStays(Preprocessed(s));
  }

  lemma {:induction false} FirstClose(body: string, rest: string)
    requires '}' !in body
    ensures IndexOf(body + "}" + rest, '}') == |body| && IndexOf(body, '}') == |body|
  {
    var t := body + "}" + rest;
    if body != "" {
      assert t[1..] == body[1..] + "}" + rest;
      FirstClose(body[1..], rest);
    }
  }

  /** From each first `{` to the next `}` the text is replaced by the stand-in; an open end stays as it is. */
  lemma RewritingSpelledOut(front: string, body: string, rest: string)
    requires '{' !in front && '}' !in body
    ensures Preprocessed(front + ("{" + body + "}" + rest)) == front + ("(NULL)" + Preprocessed(rest))
    ensures Preprocessed(front + ("{" + body)) == front + ("{" + body)
    ensures Preprocessed(front) == front
  {
    var pair, open := "{" + body + "}" + rest, "{" + body;
    var t := "{" + body;
    assert pair == t + "}" + rest && '}' !in t;
    FirstClose(t, rest);
    assert pair[|t| + 1..] == rest;
    PlainFront(front, pair);
    PlainFront(front, open);
    PlainFront(front, "");
    assert front + "" == front && Preprocessed("") == "";
  }

  lemma PlainFront(front: string, rest: string)
    requires '{' !in front
    ensures Preprocessed(front + rest) == front + Preprocessed(rest)
  {
    SkipPlain(front + rest, |front|);
    assert (front + rest)[..|front|] == front && (front + rest)[|front|..] == rest;
  }

  // ---------------------------------------------------------------- against the scanner

  /** The template with the stand-in for each placeholder that the scanner finds. */
  function StandIns(segs: seq<Segment>): string {
    if segs == [] then ""
    else (if segs[0].Placeholder? then REPLACEMENT else segs[0].text) + StandIns(segs[1..])
  }

  /** Every brace that could be closed opens a placeholder. */
  ghost predicate ClosedBracesOpen(f: WordChars, s: string) {
    forall i, j :: 0 <= i < j < |s| && s[i] == '{' && s[j] == '}' ==> PlaceholderAt(f, s, i)
  }

  /** The same, character by character. */
  function WithStandIns(f: WordChars, t: string): string
    decreases |t|
  {
    if t == "" then ""
    else if StartsPlaceholder(f, t) then REPLACEMENT + WithStandIns(f, AfterName(f, t))
    else [t[0]] + WithStandIns(f, t[1..])
  }

  lemma StandInsPlain(f: WordChars, t: string)
    requires t != "" && !StartsPlaceholder(f, t)
    ensures WithStandIns(f, t) == [t[0]] + WithStandIns(f, t[1..])
  {
  }

  lemma {:induction false} StandInsLiteral(f: WordChars, t: string)
    ensures WithStandIns(f, t) == t[..LiteralLength(f, t)] + WithStandIns(f, t[LiteralLength(f, t)..])
  {
    hide WithStandIns, RunLength;
    var n := LiteralLength(f, t);
    if n == 0 {
      assert t[0..] == t && t[..0] == "";
      assert "" + WithStandIns(f, t) == WithStandIns(f, t);
    } else {
      StandInsPlain(f, t);
      StandInsLiteral(f, t[1..]);
      assert t[1..][n - 1..] == t[n..];
      assert t[..n] == [t[0]] + t[1..][..n - 1];
      Assoc([t[0]], t[1..][..n - 1], WithStandIns(f, t[n..]));
    }
  }

  lemma {:induction false} WithStandInsIsScan(f: WordChars, t: string)
    ensures WithStandIns(f, t) == StandIns(Scan(f, t))
    decreases |t|
  {
    if t == "" {
    } else if StartsPlaceholder(f, t) {
      WithStandInsIsScan(f, AfterName(f, t));
      StandInsCons(Placeholder(NameOf(f, t)), Scan(f, AfterName(f, t)));
    } else {
      var n := LiteralLength(f, t);
      StandInsLiteral(f, t);
      WithStandInsIsScan(f, t[n..]);
      StandInsCons(Literal(t[..n]), Scan(f, t[n..]));
    }
  }

  lemma StandInsCons(seg: Segment, segs: seq<Segment>)
    ensures StandIns([seg] + segs) == (if seg.Placeholder? then REPLACEMENT else seg.text) + StandIns(segs)
  {
    assert ([seg] + segs)[1..] == segs;
  }

  lemma {:induction false} IndexIs(s: string, c: char, n: nat)
    requires n < |s| && s[n] == c && forall k :: 0 <= k < n ==> s[k] != c
    ensures IndexOf(s, c) == n
  {
    if n > 0 {
      IndexIs(s[1..], c, n - 1);
    }
  }

  lemma CloseOfPlaceholder(f: WordChars, t: string)
    requires StartsPlaceholder(f, t)
    ensures IndexOf(t, '}') < |t| && t[IndexOf(t, '}') + 1..] == AfterName(f, t)
  {
    hide IndexOf, RunLength;
    var n := RunLength(f, t[1..]);
    RunIsMaximal(f, t[1..]);
    assert !f('}') && t[n + 1] == t[1..][n] == '}';
    assert forall k :: 0 < k <= n ==> t[k] == t[1..][k - 1];
    IndexIs(t, '}', n + 1);
  }

  lemma ClosedInTail(f: WordChars, t: string, n: nat)
    requires n <= |t|
    requires forall i, j :: 0 <= i < n && i < j < |t| && t[i] == '{' && t[j] == '}' ==> PlaceholderAt(f, t, i)
    ensures ClosedBracesOpen(f, t) <==> ClosedBracesOpen(f, t[n..])
  {
    var tail := t[n..];
    assert forall i :: 0 <= i < |tail| ==> tail[i] == t[n + i] && tail[i..] == t[n + i..];
    if ClosedBracesOpen(f, t) {
      forall i, j | 0 <= i < j < |tail| && tail[i] == '{' && tail[j] == '}'
        ensures PlaceholderAt(f, tail, i)
      {
        assert t[n + i] == '{' && t[n + j] == '}';
        assert PlaceholderAt(f, t, n + i);
      }
    }
    if ClosedBracesOpen(f, tail) {
      forall i, j | 0 <= i < j < |t| && t[i] == '{' && t[j] == '}'
        ensures PlaceholderAt(f, t, i)
      {
        if i >= n {
          assert tail[i - n] == '{' && tail[j - n] == '}';
          assert PlaceholderAt(f, tail, i - n);
        }
      }
    }
  }

  lemma PlainFirst(f: WordChars, t: string)
    requires t != "" && t[0] != '{'
    requires Preprocessed(t[1..]) == WithStandIns(f, t[1..]) <==> ClosedBracesOpen(f, t[1..])
    ensures Preprocessed(t) == WithStandIns(f, t) <==> ClosedBracesOpen(f, t)
  {
    hide ClosedBracesOpen;
    ClosedInTail(f, t, 1);
    SameFront([t[0]], Preprocessed(t[1..]), WithStandIns(f, t[1..]));
  }

  lemma StandInsPlaceholder(f: WordChars, t: string)
    requires StartsPlaceholder(f, t)
    ensures WithStandIns(f, t) == REPLACEMENT + WithStandIns(f, AfterName(f, t))
  {
  }

  lemma PlaceholderFirst(f: WordChars, t: string)
    requires StartsPlaceholder(f, t)
    requires var rest := AfterName(f, t); Preprocessed(rest) == WithStandIns(f, rest) <==> ClosedBracesOpen(f, rest)
    ensures Preprocessed(t) == WithStandIns(f, t) <==> ClosedBracesOpen(f, t)
  {
    hide ClosedBracesOpen, Preprocessed, WithStandIns, IndexOf, RunLength;
    var rest := AfterName(f, t);
    var n := |t| - |rest|;
    StandInsPlaceholder(f, t);
    CloseOfPlaceholder(f, t);
    PairIsReplaced(t, IndexOf(t, '}'));
    BracesInside(f, t, n);
    ClosedInTail(f, t, n);
    SameFront(REPLACEMENT, Preprocessed(rest), WithStandIns(f, rest));
  }

  /** A brace that opens no placeholder: rewritten away if it can be closed, else nothing is changed. */
  lemma StrayFirst(f: WordChars, t: string)
    requires t != "" && t[0] == '{' && !StartsPlaceholder(f, t)
    ensures Preprocessed(t) == WithStandIns(f, t) <==> ClosedBracesOpen(f, t)
  {
    var close := IndexOf(t, '}');
    if close < |t| {
      assert t[0..] == t;
      assert !PlaceholderAt(f, t, 0) && t[close] == '}';
      PairIsReplaced(t, close);
      assert (REPLACEMENT + Preprocessed(t[close + 1..]))[0] == '(';
      assert WithStandIns(f, t)[0] == '{';
    } else {
      IndexIsFirst(t, '}');
      assert t[..|t|] == t;
      NothingStoodIn(f, t);
    }
  }

  lemma {:induction false} RewritesStandInsExactly(f: WordChars, t: string)
    ensures Preprocessed(t) == WithStandIns(f, t) <==> ClosedBracesOpen(f, t)
    decreases |t|
  {
    if t == "" {
    } else if t[0] != '{' {
      RewritesStandInsExactly(f, t[1..]);
      PlainFirst(f, t);
    } else if StartsPlaceholder(f, t) {
      RewritesStandInsExactly(f, AfterName(f, t));
      PlaceholderFirst(f, t);
    } else {
      StrayFirst(f, t);
    }
  }

  /**
  The validator rewrites exactly the placeholders that the scanner finds if and
  only if every brace that could be closed opens one.
  */
  lemma ValidatorSeesPlaceholdersExactly(f: WordChars, t: string)
    ensures Preprocessed(t) == StandIns(Scan(f, t)) <==> ClosedBracesOpen(f, t)
  {
    RewritesStandInsExactly(f, t);
    WithStandInsIsScan(f, t);
  }

  lemma BracesInside(f: WordChars, t: string, n: nat)
    requires StartsPlaceholder(f, t) && n == |t| - |AfterName(f, t)|
    ensures t[n..] == AfterName(f, t)
    ensures forall i :: 0 <= i < n && t[i] == '{' ==> PlaceholderAt(f, t, i)
  {
    var m := RunLength(f, t[1..]);
    RunIsMaximal(f, t[1..]);
    assert !f('{') && t[m + 1] == t[1..][m];
    assert t[0..] == t;
    assert forall k :: 0 < k <= m ==> t[k] == t[1..][k - 1];
  }

  lemma NoCloseNoPlaceholder(f: WordChars, t: string)
    requires '}' !in t
    ensures !StartsPlaceholder(f, t)
  {
    if t != "" {
      var n := RunLength(f, t[1..]);
      if n < |t| - 1 {
        assert t[1..][n] == t[n + 1] && t[n + 1] in t;
      }
    }
  }

  /** Without a closing brace there is no placeholder. */
  lemma {:induction false} NothingStoodIn(f: WordChars, t: string)
    requires '}' !in t
    ensures WithStandIns(f, t) == t
  {
    NoCloseNoPlaceholder(f, t);
    if t != "" {
      NothingStoodIn(f, t[1..]);
    }
  }

  // ---------------------------------------------------------------- access

  datatype AccessMode = ReadOnly | ReadWrite

  datatype Relation = Named(parts: seq<string>) | Derived

  /**
  A parsed statement, as far as the validator looks at it.  The parser has a kind for
  each of these; the validator has no case for those of the last group.
  */
  datatype Statement =
    | CreateTable | CreateIndex | CreateView | CreateSchema | CreateDatabase | CreateFunction | CreateProcedure
    | CreateSequence | CreateType | Drop | AlterTable | AlterIndex | AlterView | Truncate
    | Insert(table: seq<string>)
    | Update(target: Relation)
    | Delete(from: seq<Relation>)
    | CreateTrigger | CreateRole | AlterRole | DropFunction | DropTrigger | Merge(into: Relation) | Query
    | Unlisted(leading: string)

  datatype ValidationError = DdlNotAllowed(operation: string) | WriteNotAllowed(operation: string, table: string)

  function TableName(lower: string -> string, parts: seq<string>): string {
    if parts == [] then "" else lower(parts[|parts| - 1])
  }

  function RelationName(lower: string -> string, r: Relation): string {
    match r
    case Named(parts) => TableName(lower, parts)
    case Derived => ""
  }

  /** `with_table`, called for one table after the other. */
  function Config(lower: string -> string, tables: seq<(string, AccessMode)>): map<string, AccessMode> {
    if tables == [] then map[]
    else
      var last := tables[|tables| - 1];
      Config(lower, tables[..|tables| - 1])[lower(last.0) := last.1]
  }

  /** What a statement writes to, if it is a write. */
  function Written(lower: string -> string, s: Statement): Option<(string, string)> {
    match s
    case Insert(table) => Some(("INSERT", TableName(lower, table)))
    case Update(target) => Some(("UPDATE", RelationName(lower, target)))
    case Delete(from) => Some(("DELETE", if from == [] then "" else RelationName(lower, from[0])))
    case _ => None
  }

  method ValidateStatement(lower: string -> string, s: Statement, modes: map<string, AccessMode>)
    returns (error: Option<ValidationError>)
    ensures error == Verdict(lower, s, modes)
  {
    match s
    case CreateTable => return Some(DdlNotAllowed("CREATE TABLE"));
    case CreateIndex => return Some(DdlNotAllowed("CREATE INDEX"));
    case CreateView => return Some(DdlNotAllowed("CREATE VIEW"));
    case CreateSchema => return Some(DdlNotAllowed("CREATE SCHEMA"));
    case CreateDatabase => return Some(DdlNotAllowed("CREATE DATABASE"));
    case CreateFunction => return Some(DdlNotAllowed("CREATE FUNCTION"));
    case CreateProcedure => return Some(DdlNotAllowed("CREATE PROCEDURE"));
    case CreateSequence => return Some(DdlNotAllowed("CREATE SEQUENCE"));
    case CreateType => return Some(DdlNotAllowed("CREATE TYPE"));
    case Drop => return Some(DdlNotAllowed("DROP"));
    case AlterTable => return Some(DdlNotAllowed("ALTER TABLE"));
    case AlterIndex => return Some(DdlNotAllowed("ALTER INDEX"));
    case AlterView => return Some(DdlNotAllowed("ALTER VIEW"));
    case Truncate => return Some(DdlNotAllowed("TRUNCATE"));
    case Insert(table) =>
      error := CheckWriteAccess("INSERT", TableName(lower, table), modes);
    case Update(target) =>
      error := CheckWriteAccess("UPDATE", RelationName(lower, target), modes);
    case Delete(from) =>
      var table := if from == [] then "" else RelationName(lower, from[0]);
      error := CheckWriteAccess("DELETE", table, modes);
    case _ => return None;
  }

  method CheckWriteAccess(operation: string, table: string, modes: map<string, AccessMode>)
    returns (error: Option<ValidationError>)
    ensures error == if table in modes && modes[table] == ReadOnly
                     then Some(WriteNotAllowed(operation, table)) else None
  {
    if table in modes {
      if modes[table] == ReadOnly {
        return Some(WriteNotAllowed(operation, table));
      }
    }
    return None;
  }

  /** The name under which a statement is refused whatever the settings. */
  function DdlOperation(s: Statement): Option<string> {
    match s
    case CreateTable => Some("CREATE TABLE")
    case CreateIndex => Some("CREATE INDEX")
    case CreateView => Some("CREATE VIEW")
    case CreateSchema => Some("CREATE SCHEMA")
    case CreateDatabase => Some("CREATE DATABASE")
    case CreateFunction => Some("CREATE FUNCTION")
    case CreateProcedure => Some("CREATE PROCEDURE")
    case CreateSequence => Some("CREATE SEQUENCE")
    case CreateType => Some("CREATE TYPE")
    case Drop => Some("DROP")
    case AlterTable => Some("ALTER TABLE")
    case AlterIndex => Some("ALTER INDEX")
    case AlterView => Some("ALTER VIEW")
    case Truncate => Some("TRUNCATE")
    case _ => None
  }

  function Verdict(lower: string -> string, s: Statement, modes: map<string, AccessMode>): Option<ValidationError> {
    if DdlOperation(s).Some? then Some(DdlNotAllowed(DdlOperation(s).value))
    else
      match Written(lower, s)
      case None => None
      case Some((operation, table)) =>
        if table in modes && modes[table] == ReadOnly then Some(WriteNotAllowed(operation, table)) else None
  }

  /** The first statement that is not allowed decides. */
  method ValidateStatements(lower: string -> string, statements: seq<Statement>, modes: map<string, AccessMode>)
    returns (error: Option<ValidationError>)
    ensures error.None? <==> forall i :: 0 <= i < |statements| ==> Verdict(lower, statements[i], modes).None?
    ensures error.Some? ==>
              exists i :: 0 <= i < |statements| && Verdict(lower, statements[i], modes) == error
                && forall j :: 0 <= j < i ==> Verdict(lower, statements[j], modes).None?
  {
    for i := 0 to |statements|
      invariant forall j :: 0 <= j < i ==> Verdict(lower, statements[j], modes).None?
    {
      error := ValidateStatement(lower, statements[i], modes);
      if error.Some? {
        return;
      }
    }
    return None;
  }

  /** The setting that counts for a table: the last one whose name agrees with it but for case. */
  ghost predicate LastSetting(lower: string -> string, tables: seq<(string, AccessMode)>,
                              table: string, mode: AccessMode) {
    exists i :: 0 <= i < |tables| && lower(tables[i].0) == table && tables[i].1 == mode
      && forall j :: i < j < |tables| ==> lower(tables[j].0) != table
  }

  lemma LastSettingSnoc(lower: string -> string, front: seq<(string, AccessMode)>, last: (string, AccessMode),
                        table: string, mode: AccessMode)
    ensures LastSetting(lower, front + [last], table, mode)
       <==> if lower(last.0) == table then last.1 == mode else LastSetting(lower, front, table, mode)
  {
    var tables := front + [last];
    var n := |front|;
    assert tables[n] == last && forall i :: 0 <= i < n ==> tables[i] == front[i];
    if lower(last.0) != table && LastSetting(lower, front, table, mode) {
      var i :| 0 <= i < n && lower(front[i].0) == table && front[i].1 == mode
               && forall j :: i < j < n ==> lower(front[j].0) != table;
      assert lower(tables[i].0) == table && forall j :: i < j < n + 1 ==> lower(tables[j].0) != table;
    }
  }

  lemma {:induction false} ConfigIsLastSetting(lower: string -> string, tables: seq<(string, AccessMode)>,
                                               table: string, mode: AccessMode)
    ensures table in Config(lower, tables) && Config(lower, tables)[table] == mode
       <==> LastSetting(lower, tables, table, mode)
  {
    if tables != [] {
      var front, last := tables[..|tables| - 1], tables[|tables| - 1];
      ConfigIsLastSetting(lower, front, table, mode);
      LastSettingSnoc(lower, front, last, table, mode);
      assert tables == front + [last];
    }
  }

  /** The word a statement begins with. */
  function LeadingWord(s: Statement): string {
    match s
    case Insert(_) => "INSERT"
    case Update(_) => "UPDATE"
    case Delete(_) => "DELETE"
    case Merge(_) => "MERGE"
    case Query => "SELECT"
    case Drop => "DROP"
    case DropFunction => "DROP"
    case DropTrigger => "DROP"
    case AlterTable => "ALTER"
    case AlterIndex => "ALTER"
    case AlterView => "ALTER"
    case AlterRole => "ALTER"
    case Truncate => "TRUNCATE"
    case Unlisted(leading) => leading
    case _ => "CREATE"
  }

  /** What the error message calls DDL. */
  predicate IsDdl(s: Statement) {
    LeadingWord(s) in {"CREATE", "DROP", "ALTER", "TRUNCATE"}
  }

  /** DDL that the validator has no case for. */
  predicate Overlooked(s: Statement) {
    && IsDdl(s)
    && (s.CreateTrigger? || s.CreateRole? || s.AlterRole? || s.DropFunction? || s.DropTrigger? || s.Unlisted?)
  }

  /**
  What becomes of a statement: of DDL, all but the overlooked kinds is refused whatever
  the settings; INSERT, UPDATE and DELETE are refused exactly when the last setting for
  the table they are judged by, in any spelling, is read-only; anything else passes.
  */
  lemma StatementIsRefusedExactly(lower: string -> string, s: Statement, tables: seq<(string, AccessMode)>)
    ensures
      var verdict := Verdict(lower, s, Config(lower, tables));
      var written := Written(lower, s);
      && (verdict.Some? && verdict.value.DdlNotAllowed? <==> IsDdl(s) && !Overlooked(s))
      && (forall operation, table :: verdict == Some(WriteNotAllowed(operation, table)) <==>
            written == Some((operation, table)) && LastSetting(lower, tables, table, ReadOnly))
      && (verdict.None? <==>
            && (IsDdl(s) ==> Overlooked(s))
            && (written.Some? ==> !LastSetting(lower, tables, written.value.1, ReadOnly)))
  {
    if Written(lower, s).Some? {
      ConfigIsLastSetting(lower, tables, Written(lower, s).value.1, ReadOnly);
    }
  }

  /** The refusal names the operation by the statement's leading word. */
  lemma RefusalNamesTheOperation(lower: string -> string, s: Statement, modes: map<string, AccessMode>)
    requires Verdict(lower, s, modes).Some?
    ensures LeadingWord(s) <= Verdict(lower, s, modes).value.operation
  {
  }

  /** DDL is refused under its own name. */
  lemma DdlIsRefusedByName(lower: string -> string, s: Statement, name: string, modes: map<string, AccessMode>)
    ensures Verdict(lower, s, modes) == Some(DdlNotAllowed(name)) <==> (s, name) in {
              (CreateTable, "CREATE TABLE"),
              (CreateIndex, "CREATE INDEX"),
              (CreateView, "CREATE VIEW"),
              (CreateSchema, "CREATE SCHEMA"),
              (CreateDatabase, "CREATE DATABASE"),
              (CreateFunction, "CREATE FUNCTION"),
              (CreateProcedure, "CREATE PROCEDURE"),
              (CreateSequence, "CREATE SEQUENCE"),
              (CreateType, "CREATE TYPE"),
              (Drop, "DROP"),
              (AlterTable, "ALTER TABLE"),
              (AlterIndex, "ALTER INDEX"),
              (AlterView, "ALTER VIEW"),
              (Truncate, "TRUNCATE")
            }
  {
  }

  // ---------------------------------------------------------------- tables that are read-only

  predicate Names(lower: string -> string, r: Relation, table: string) {
    r.Named? && TableName(lower, r.parts) == table
  }

  /** The statement writes to this table. */
  ghost predicate WritesTo(lower: string -> string, s: Statement, table: string) {
    match s
    case Insert(parts) => TableName(lower, parts) == table
    case Update(target) => Names(lower, target, table)
    case Delete(from) => exists i :: 0 <= i < |from| && Names(lower, from[i], table)
    case Merge(into) => Names(lower, into, table)
    case _ => false
  }

  /**
  A write to a read-only table is refused exactly when it is an INSERT or an UPDATE, or
  a DELETE whose first table is read-only.
  */
  lemma ReadOnlyIsKeptExactly(lower: string -> string, s: Statement, tables: seq<(string, AccessMode)>, table: string)
    requires WritesTo(lower, s, table) && LastSetting(lower, tables, table, ReadOnly)
    ensures Verdict(lower, s, Config(lower, tables)).Some?
       <==> || s.Insert?
            || s.Update?
            || (s.Delete? && LastSetting(lower, tables, RelationName(lower, s.from[0]), ReadOnly))
  {
    StatementIsRefusedExactly(lower, s, tables);
  }

  /**
  A table is judged by the last part of its name: a write to it, however it is
  qualified, is refused exactly when the last setting for that part is read-only.
  */
  lemma QualifiedTablesAreJudged(lower: string -> string, qualifiers: seq<string>, t: string, more: seq<Relation>,
                                 tables: seq<(string, AccessMode)>)
    ensures
      var parts, modes := qualifiers + [t], Config(lower, tables);
      var refused := LastSetting(lower, tables, lower(t), ReadOnly);
      && (Verdict(lower, Insert(parts), modes).Some? <==> refused)
      && (Verdict(lower, Update(Named(parts)), modes).Some? <==> refused)
      && (Verdict(lower, Delete([Named(parts)] + more), modes).Some? <==> refused)
      && (refused ==>
            && Verdict(lower, Insert(parts), modes) == Some(WriteNotAllowed("INSERT", lower(t)))
            && Verdict(lower, Update(Named(parts)), modes) == Some(WriteNotAllowed("UPDATE", lower(t)))
            && Verdict(lower, Delete([Named(parts)] + more), modes) == Some(WriteNotAllowed("DELETE", lower(t))))
  {
    var parts := qualifiers + [t];
    assert parts[|parts| - 1] == t && ([Named(parts)] + more)[0] == Named(parts);
    ConfigIsLastSetting(lower, tables, lower(t), ReadOnly);
  }

  /** A write to no named table is judged by the setting for the empty name. */
  lemma NamelessTablesAreJudged(lower: string -> string, more: seq<Relation>, tables: seq<(string, AccessMode)>)
    ensures
      var modes := Config(lower, tables);
      var refused := LastSetting(lower, tables, "", ReadOnly);
      && (Verdict(lower, Insert([]), modes).Some? <==> refused)
      && (Verdict(lower, Update(Derived), modes).Some? <==> refused)
      && (Verdict(lower, Delete([]), modes).Some? <==> refused)
      && (Verdict(lower, Delete([Derived] + more), modes).Some? <==> refused)
  {
    assert ([Derived] + more)[0] == Derived;
    ConfigIsLastSetting(lower, tables, "", ReadOnly);
  }

  /** `INSERT INTO wikidb.public.wiki_pages` with wiki_pages read-only. */
  lemma CatalogIsNotTheTable(lower: string -> string, tables: seq<(string, AccessMode)>)
    requires LastSetting(lower, tables, lower("wiki_pages"), ReadOnly)
    ensures Verdict(lower, Insert(["wikidb", "public", "wiki_pages"]), Config(lower, tables))
         == Some(WriteNotAllowed("INSERT", lower("wiki_pages")))
  {
    QualifiedTablesAreJudged(lower, ["wikidb", "public"], "wiki_pages", [], tables);
    assert ["wikidb", "public"] + ["wiki_pages"] == ["wikidb", "public", "wiki_pages"];
  }

  /** DDL that passes, and a write to a read-only table that passes. */
  lemma SomePass(lower: string -> string)
    ensures
      var tables := [("users", ReadOnly)];
      var merge := Merge(Named(["users"]));
      && IsDdl(DropFunction) && Verdict(lower, DropFunction, Config(lower, tables)).None?
      && WritesTo(lower, merge, lower("users")) && LastSetting(lower, tables, lower("users"), ReadOnly)
      && Verdict(lower, merge, Config(lower, tables)).None?
  {
    var tables := [("users", ReadOnly)];
    assert tables[0] == ("users", ReadOnly);
    StatementIsRefusedExactly(lower, DropFunction, tables);
    StatementIsRefusedExactly(lower, Merge(Named(["users"])), tables);
  }
}
