/**
The second half of the inferrer's `convert_named_to_placeholders`
(`crates/skardi/src/pipeline/inferencer.rs`): `VALUES {name}` is rewritten to
`VALUES (?)`, and then every name's placeholders to `?`, one name after the other.

Which characters beyond ASCII are word characters or white space for the regular
expression is Unicode's business: everything here holds for every classification
that is the usual one on ASCII.
*/
module QuestionMarks {
  import opened Options
  import opened Text
  import opened TemplateScanner
  import opened Substitution
  import opened TemplateReaders

  ghost predicate UsualSpace(g: char -> bool) {
    forall c: char :: c < 128 as char ==> (g(c) <==> c in {' ', '\t', '\n', '\r', '\U{0B}', '\U{0C}'})
  }

  function AsciiSpace(c: char): bool {
    c in {' ', '\t', '\n', '\r', '\U{0B}', '\U{0C}'}
  }

  /** `\s` */
  type SpaceChars = g: char -> bool | UsualSpace(g) witness AsciiSpace

  /** What the two regular expressions go by: `\w` for the word boundary, `\s` for the white space. */
  datatype Classes = Classes(word: WordChars, space: SpaceChars)

  const TUPLE := "VALUES (?)"

  // ---------------------------------------------------------------- VALUES {name}

  /** The letter in upper or lower case; the long s counts as an s. */
  predicate LetterIs(c: char, upper: char, lower: char) {
    c == upper || c == lower || (upper == 'S' && c == '\U{017F}')
  }

  predicate ValuesAt(t: string) {
    && |t| >= 6
    && LetterIs(t[0], 'V', 'v') && LetterIs(t[1], 'A', 'a') && LetterIs(t[2], 'L', 'l')
    && LetterIs(t[3], 'U', 'u') && LetterIs(t[4], 'E', 'e') && LetterIs(t[5], 'S', 's')
  }

  function SpaceRun(x: Classes, t: string): (n: nat)
    ensures n <= |t|
  {
    if t == "" || !x.space(t[0]) then 0 else 1 + SpaceRun(x, t[1..])
  }

  /** How far the placeholder behind VALUES is. */
  function Ahead(x: Classes, t: string): (n: nat)
    requires ValuesAt(t)
    ensures n <= |t|
  {
    6 + SpaceRun(x, t[6..])
  }

  /** `(?i)\bVALUES\s*\{([a-zA-Z_][a-zA-Z0-9_]*)\}` matches here; `before` is the character in front. */
  predicate TupleMatches(x: Classes, before: Option<char>, t: string) {
    && (before.None? || !x.word(before.value))
    && ValuesAt(t)
    && Matches(t[Ahead(x, t)..])
  }

  /** The text behind a match of the placeholder expression. */
  function Behind(t: string): (rest: string)
    requires Matches(t)
    ensures |rest| < |t|
  {
    t[AsciiRun(t[1..]) + 2..]
  }

  /** `replace_all` of that expression by `VALUES (?)`. */
  function TuplesRewritten(x: Classes, before: Option<char>, t: string): string
    decreases |t|
  {
    if t == "" then ""
    else if TupleMatches(x, before, t) then
      TUPLE + TuplesRewritten(x, Some('}'), Behind(t[Ahead(x, t)..]))
    else [t[0]] + TuplesRewritten(x, Some(t[0]), t[1..])
  }

  // ---------------------------------------------------------------- the function

  function Marks(names: seq<string>): map<string, string> {
    map n | n in names :: "?"
  }

  lemma NextMark(s: string, order: seq<string>, i: nat)
    requires i < |order|
    ensures Sequential(s, order[..i + 1], Marks(order))
         == ReplaceAll(Sequential(s, order[..i], Marks(order)), Braced(order[i]), "?")
  {
    assert order[..i + 1] == order[..i] + [order[i]];
    SequentialSnoc(s, order[..i], order[i], Marks(order));
  }

  /** The whole function: the order first, then the tuples, then one name after the other. */
  method ConvertNamed(x: Classes, sql: string) returns (out: string, order: seq<string>)
    ensures order == FirstSeen(Captures(sql))
    ensures out == Sequential(TuplesRewritten(x, None, sql), order, Marks(order))
  {
    hide Captures, TuplesRewritten, ReplaceAll, FirstSeen;
    order := ParameterOrder(sql);
    var rewritten := TuplesRewritten(x, None, sql);
    out := rewritten;
    for i := 0 to |order|
      invariant out == Sequential(rewritten, order[..i], Marks(order))
    {
      NextMark(rewritten, order, i);
      out := ReplaceAll(out, Braced(order[i]), "?");
    }
    assert order[..|order|] == order;
  }

  /** What it is for, in one pass: a tuple for VALUES and its placeholder, a mark for any other. */
  function Marked(x: Classes, before: Option<char>, t: string): string
    decreases |t|
  {
    if t == "" then ""
    else if TupleMatches(x, before, t) then TUPLE + Marked(x, Some('}'), Behind(t[Ahead(x, t)..]))
    else if Matches(t) then "?" + Marked(x, Some('}'), Behind(t))
    else [t[0]] + Marked(x, Some(t[0]), t[1..])
  }

  // ---------------------------------------------------------------- name by name is one pass

  lemma {:induction false} MarksCannotClose(f: WordChars, segs: seq<Segment>, names: seq<string>)
    requires Canonical(f, segs)
    ensures Shut(f, PiecesOf(segs), names, Marks(names))
    ensures segs != [] && segs[0].Placeholder? ==> WillClose(f, PiecesOf(segs), Marks(names)).None?
  {
    if segs != [] {
      var tail := segs[1..];
      assert forall k :: 0 <= k < |tail| ==> tail[k] == segs[k + 1];
      assert Canonical(f, tail);
      MarksCannotClose(f, tail, names);
      assert !f('?');
      if segs[0].Literal? && tail != [] {
        assert segs[0].Placeholder? || segs[1].Placeholder?;
      }
    }
  }

  /** A question mark never completes a name: on any template the loop is a single pass. */
  lemma MarkingIsOnePass(f: WordChars, s: string, names: seq<string>)
    requires AllNames(f, names)
    ensures Sequential(s, names, Marks(names)) == FillDirect(Scan(f, s), names, Marks(names))
  {
    ScanIsCanonical(f, s);
    MarksCannotClose(f, Scan(f, s), names);
    forall q: string
      ensures !Contains("?", Braced(q))
    {
      NoBraceNoOccurrence("?", q);
    }
    SequentialIsOnePassExactly(f, s, names, Marks(names));
  }

  /** The single pass, character by character. */
  function Directly(f: WordChars, t: string, names: seq<string>): string
    decreases |t|
  {
    if t == "" then ""
    else if StartsPlaceholder(f, t) then
      Direct(NameOf(f, t), names, Marks(names)) + Directly(f, AfterName(f, t), names)
    else [t[0]] + Directly(f, t[1..], names)
  }

  lemma {:induction false} DirectlyLiteral(f: WordChars, t: string, n: nat, names: seq<string>)
    requires n <= |t| && forall k :: 0 <= k < n ==> !StartsPlaceholder(f, t[k..])
    ensures Directly(f, t, names) == t[..n] + Directly(f, t[n..], names)
  {
    assert t[0..] == t;
    if n > 0 {
      assert forall k :: 0 <= k < n - 1 ==> t[1..][k..] == t[k + 1..];
      DirectlyLiteral(f, t[1..], n - 1, names);
      assert t[1..][n - 1..] == t[n..] && t[..n] == [t[0]] + t[1..][..n - 1];
      Assoc([t[0]], t[1..][..n - 1], Directly(f, t[n..], names));
    } else {
      assert t[..0] == "" && "" + Directly(f, t, names) == Directly(f, t, names);
    }
  }

  lemma {:induction false} DirectlyIsFill(f: WordChars, t: string, names: seq<string>)
    ensures Directly(f, t, names) == FillDirect(Scan(f, t), names, Marks(names))
    decreases |t|
  {
    if t == "" {
    } else if StartsPlaceholder(f, t) {
      DirectlyIsFill(f, AfterName(f, t), names);
      FillCons(Placeholder(NameOf(f, t)), Scan(f, AfterName(f, t)), names);
    } else {
      var n := LiteralLength(f, t);
      forall k | 0 <= k < n
        ensures !StartsPlaceholder(f, t[k..])
      {
        LiteralHasNoPlaceholder(f, t, k);
      }
      DirectlyLiteral(f, t, n, names);
      DirectlyIsFill(f, t[n..], names);
      FillCons(Literal(t[..n]), Scan(f, t[n..]), names);
    }
  }

  lemma FillCons(seg: Segment, segs: seq<Segment>, names: seq<string>)
    ensures FillDirect([seg] + segs, names, Marks(names))
         == (if seg.Literal? then seg.text else Direct(seg.name, names, Marks(names)))
          + FillDirect(segs, names, Marks(names))
  {
    assert ([seg] + segs)[1..] == segs;
  }

  // ---------------------------------------------------------------- after the tuples have been rewritten

  /** Behind a brace, the rewriting makes no name that closes. */
  lemma {:induction false} RewritingClosesNothing(f: WordChars, x: Classes, before: Option<char>, t: string)
    ensures ClosingName(f, TuplesRewritten(x, before, t)).Some? ==>
              ClosingName(f, t) == ClosingName(f, TuplesRewritten(x, before, t))
    decreases |t|
  {
    if t == "" {
    } else if TupleMatches(x, before, t) {
      TupleCloses(f, TuplesRewritten(x, Some('}'), Behind(t[Ahead(x, t)..])));
    } else {
      RewritingClosesNothing(f, x, Some(t[0]), t[1..]);
      assert t == [t[0]] + t[1..];
      ClosingAppend(f, [t[0]], t[1..]);
      ClosingAppend(f, [t[0]], TuplesRewritten(x, Some(t[0]), t[1..]));
      assert [t[0]][1..] == "";
    }
  }

  lemma TupleCloses(f: WordChars, rest: string)
    ensures ClosingName(f, TUPLE + rest).None?
  {
    var head := "VALUES";
    forall k | 0 <= k < |head|
      ensures f(head[k])
    {
      assert AsciiWordChar(head[k]);
    }
    NameRuns(f, head);
    var more := " (?)" + rest;
    assert TUPLE + rest == head + more && more[0] == ' ' && !f(' ');
    ClosingAppend(f, head, more);
  }

  lemma {:induction false} SpacesAre(x: Classes, t: string)
    ensures forall k :: 0 <= k < SpaceRun(x, t) ==> x.space(t[k])
  {
    if t != "" && x.space(t[0]) {
      SpacesAre(x, t[1..]);
    }
  }

  /** VALUES and the white space behind it hold no brace. */
  lemma NoBraceOnTheWay(x: Classes, t: string)
    requires ValuesAt(t)
    ensures forall k :: 0 <= k < Ahead(x, t) ==> t[k] != '{' && t[k] != '}'
  {
    SpacesAre(x, t[6..]);
    assert forall k :: 6 <= k < Ahead(x, t) ==> t[k] == t[6..][k - 6];
    assert !x.space('{') && !x.space('}');
  }

  /** No tuple begins between a brace and the brace that closes it. */
  lemma NoTupleInside(x: Classes, before: Option<char>, t: string, n: nat, k: nat)
    requires 0 < n <= |t| && t[0] == '{' && t[n - 1] == '}' && k < n
    requires forall i :: 0 < i < n ==> t[i] != '{'
    ensures !TupleMatches(x, before, t[k..])
  {
    var u := t[k..];
    if ValuesAt(u) {
      NoBraceOnTheWay(x, u);
      var a := Ahead(x, u);
      assert u[n - 1 - k] == '}';
      assert a <= n - 1 - k && u[a] == t[k + a] != '{';
      assert u[a..][0] == u[a];
    }
  }

  lemma {:induction false} CopiedThrough(x: Classes, before: Option<char>, t: string, n: nat)
    requires 0 < n <= |t| && forall b: Option<char>, k :: 0 <= k < n ==> !TupleMatches(x, b, t[k..])
    ensures TuplesRewritten(x, before, t) == t[..n] + TuplesRewritten(x, Some(t[n - 1]), t[n..])
    decreases n
  {
    hide TupleMatches;
    assert t[0..] == t && t[..1] == [t[0]];
    if n > 1 {
      var tail := t[1..];
      assert forall k :: 0 <= k < n - 1 ==> tail[k..] == t[k + 1..];
      CopiedThrough(x, Some(t[0]), tail, n - 1);
      assert tail[n - 1..] == t[n..] && t[..n] == [t[0]] + tail[..n - 1];
      Assoc([t[0]], tail[..n - 1], TuplesRewritten(x, Some(t[n - 1]), t[n..]));
    }
  }

  lemma {:induction false} LeftThrough(x: Classes, before: Option<char>, t: string, n: nat)
    requires 0 < n <= |t| && forall b: Option<char>, k :: 0 <= k < n ==> !TupleMatches(x, b, t[k..])
    requires forall k :: 0 <= k < n ==> !Matches(t[k..])
    ensures Marked(x, before, t) == t[..n] + Marked(x, Some(t[n - 1]), t[n..])
    decreases n
  {
    hide TupleMatches, Matches;
    assert t[0..] == t && t[..1] == [t[0]];
    if n > 1 {
      var tail := t[1..];
      assert forall k :: 0 <= k < n - 1 ==> tail[k..] == t[k + 1..];
      LeftThrough(x, Some(t[0]), tail, n - 1);
      assert tail[n - 1..] == t[n..] && t[..n] == [t[0]] + tail[..n - 1];
      Assoc([t[0]], tail[..n - 1], Marked(x, Some(t[n - 1]), t[n..]));
    }
  }

  /** A placeholder is a stretch of text that begins and ends with a brace and holds no other opening one. */
  lemma PlaceholderStretch(f: WordChars, t: string) returns (n: nat)
    requires StartsPlaceholder(f, t)
    ensures 2 < n <= |t| && t[0] == '{' && t[n - 1] == '}' && t[n..] == AfterName(f, t)
    ensures t[..n] == Braced(NameOf(f, t)) && forall i :: 0 < i < n ==> t[i] != '{'
  {
    SplitPlaceholder(f, t);
    n := |t| - |AfterName(f, t)|;
    var p := Braced(NameOf(f, t));
    assert t[..n] == p && forall i :: 0 <= i < n ==> t[i] == p[i];
    assert !f('{');
  }

  lemma TuplesBesidePlaceholder(f: WordChars, x: Classes, before: Option<char>, t: string)
    requires StartsPlaceholder(f, t)
    ensures !TupleMatches(x, before, t)
    ensures TuplesRewritten(x, before, t)
         == Braced(NameOf(f, t)) + TuplesRewritten(x, Some('}'), AfterName(f, t))
    ensures !Matches(t) ==> Marked(x, before, t) == Braced(NameOf(f, t)) + Marked(x, Some('}'), AfterName(f, t))
  {
    var n := PlaceholderStretch(f, t);
    forall b: Option<char>, k | 0 <= k < n
      ensures !TupleMatches(x, b, t[k..])
    {
      NoTupleInside(x, b, t, n, k);
    }
    assert t[0..] == t;
    CopiedThrough(x, before, t, n);
    if !Matches(t) {
      forall k | 0 <= k < n
        ensures !Matches(t[k..])
      {
        assert t[k..][0] == t[k];
      }
      LeftThrough(x, before, t, n);
    }
  }

  /** A stretch without an opening brace is taken over as it is. */
  lemma TupleIsKept(f: WordChars, rest: string, names: seq<string>)
    ensures Directly(f, TUPLE + rest, names) == TUPLE + Directly(f, rest, names)
  {
    var t, n := TUPLE + rest, |TUPLE|;
    assert t[..n] == TUPLE && t[n..] == rest;
    forall k | 0 <= k < n
      ensures !StartsPlaceholder(f, t[k..])
    {
      assert t[k..][0] == TUPLE[k];
    }
    DirectlyLiteral(f, t, n, names);
  }

  lemma BracedIsFilled(f: WordChars, name: string, rest: string, names: seq<string>)
    requires IsName(f, name)
    ensures Directly(f, Braced(name) + rest, names) == Direct(name, names, Marks(names)) + Directly(f, rest, names)
  {
    NameStartsPlaceholder(f, name, rest);
  }

  lemma CharIsKept(f: WordChars, c: char, rest: string, names: seq<string>)
    requires c == '{' ==> !StartsBody(f, rest)
    ensures Directly(f, [c] + rest, names) == [c] + Directly(f, rest, names)
  {
    assert ([c] + rest)[1..] == rest;
  }

  /** Every name that the text captures is in the list, and only identifiers are. */
  ghost predicate Lists(t: string, names: seq<string>) {
    && (forall n :: n in Captures(t) ==> n in names)
    && (forall n :: n in names ==> AsciiIdent(n))
  }

  lemma ListsTail(t: string, n: nat, names: seq<string>)
    requires Lists(t, names) && n <= |t| && forall k :: 0 <= k < n ==> !Matches(t[k..])
    ensures Lists(t[n..], names)
  {
    CapturesSkip(t, n);
  }

  lemma BodyOnlyIfThere(f: WordChars, x: Classes, before: Option<char>, t: string)
    ensures StartsBody(f, TuplesRewritten(x, before, t)) ==> StartsBody(f, t)
  {
    var u := TuplesRewritten(x, before, t);
    RewritingClosesNothing(f, x, before, t);
    if StartsBody(f, u) {
      assert ClosingName(f, u).Some? && ClosingName(f, u).value != "";
    }
  }

  /** Rewriting the tuples and then every name is the single pass of `Marked`. */
  lemma {:induction false} RewritingIsMarking(f: WordChars, x: Classes, before: Option<char>, t: string,
                                              names: seq<string>)
    requires Lists(t, names)
    ensures Directly(f, TuplesRewritten(x, before, t), names) == Marked(x, before, t)
    decreases |t|
  {
    if t == "" {
    } else if TupleMatches(x, before, t) {
      TupleCaptures(x, t);
      RewritingIsMarking(f, x, Some('}'), Behind(t[Ahead(x, t)..]), names);
      TupleIsKept(f, TuplesRewritten(x, Some('}'), Behind(t[Ahead(x, t)..])), names);
    } else if StartsPlaceholder(f, t) {
      PlaceholderStep(f, x, before, t, names);
      RewritingIsMarking(f, x, Some('}'), AfterName(f, t), names);
    } else {
      MatchIsIdentPlaceholder(f, t);
      assert t[0..] == t;
      ListsTail(t, 1, names);
      BodyOnlyIfThere(f, x, Some(t[0]), t[1..]);
      CharIsKept(f, t[0], TuplesRewritten(x, Some(t[0]), t[1..]), names);
      RewritingIsMarking(f, x, Some(t[0]), t[1..], names);
    }
  }

  lemma TupleCaptures(x: Classes, t: string)
    requires ValuesAt(t) && Matches(t[Ahead(x, t)..])
    ensures |Behind(t[Ahead(x, t)..])| < |t|
    ensures Captures(t) == [Captured(t[Ahead(x, t)..])] + Captures(Behind(t[Ahead(x, t)..]))
  {
    var a := Ahead(x, t);
    NoBraceOnTheWay(x, t);
    forall k | 0 <= k < a
      ensures !Matches(t[k..])
    {
      assert t[k..][0] == t[k];
    }
    CapturesSkip(t, a);
  }

  lemma PlaceholderStep(f: WordChars, x: Classes, before: Option<char>, t: string, names: seq<string>)
    requires Lists(t, names) && StartsPlaceholder(f, t)
    ensures Lists(AfterName(f, t), names)
    ensures Directly(f, TuplesRewritten(x, before, t), names)
         == Direct(NameOf(f, t), names, Marks(names))
          + Directly(f, TuplesRewritten(x, Some('}'), AfterName(f, t)), names)
    ensures Marked(x, before, t) == Direct(NameOf(f, t), names, Marks(names)) + Marked(x, Some('}'), AfterName(f, t))
  {
    var name, rest := NameOf(f, t), AfterName(f, t);
    SplitPlaceholder(f, t);
    MatchIsIdentPlaceholder(f, t);
    TuplesBesidePlaceholder(f, x, before, t);
    BracedIsFilled(f, name, TuplesRewritten(x, Some('}'), rest), names);
    if Matches(t) {
      assert Captures(t) == [name] + Captures(rest);
      assert name in names;
    } else {
      NothingInside(f, t);
    }
  }

  /**
  The whole function, on any template: VALUES with its placeholder becomes a tuple
  with a question mark, every other captured placeholder a question mark, and
  nothing else changes.
  */
  lemma ConversionIsMarking(f: WordChars, x: Classes, sql: string)
    ensures
      var order := FirstSeen(Captures(sql));
      Sequential(TuplesRewritten(x, None, sql), order, Marks(order)) == Marked(x, None, sql)
  {
    var order := FirstSeen(Captures(sql));
    FirstSeenHasAll(Captures(sql));
    CapturesAreScannedIdents(f, sql);
    IdentsStay(NamesOf(Scan(f, sql)));
    forall i | 0 <= i < |order|
      ensures IsName(f, order[i])
    {
      assert order[i] in order;
      assert AsciiIdent(order[i]);
    }
    var rewritten := TuplesRewritten(x, None, sql);
    MarkingIsOnePass(f, rewritten, order);
    DirectlyIsFill(f, rewritten, order);
    RewritingIsMarking(f, x, None, sql, order);
  }

  // ---------------------------------------------------------------- one mark each, and none left

  function Count(t: string): nat {
    if t == "" then 0 else (if t[0] == '?' then 1 else 0) + Count(t[1..])
  }

  lemma {:induction false} CountAppend(a: string, b: string)
    ensures Count(a + b) == Count(a) + Count(b)
  {
    if a == "" {
      assert a + b == b;
    } else {
      assert (a + b)[1..] == a[1..] + b;
      CountAppend(a[1..], b);
    }
  }

  lemma {:induction false} CountNone(t: string)
    requires '?' !in t
    ensures Count(t) == 0
  {
    if t != "" {
      CountNone(t[1..]);
    }
  }

  lemma CountTuple()
    ensures Count(TUPLE) == 1
  {
    CountNone("VALUES (");
    CountNone(")");
    assert TUPLE == "VALUES (" + ("?" + ")");
    CountAppend("VALUES (", "?" + ")");
    CountAppend("?", ")");
    assert "?"[1..] == "";
  }

  /** Every captured placeholder adds exactly one question mark. */
  lemma {:induction false} OneMarkEach(x: Classes, before: Option<char>, t: string)
    ensures Count(Marked(x, before, t)) == Count(t) + |Captures(t)|
    decreases |t|
  {
    if t == "" {
    } else if TupleMatches(x, before, t) {
      TupleCaptures(x, t);
      OneMarkEach(x, Some('}'), Behind(t[Ahead(x, t)..]));
      OneMarkInTuple(x, t, Marked(x, Some('}'), Behind(t[Ahead(x, t)..])));
    } else if Matches(t) {
      OneMarkEach(x, Some('}'), Behind(t));
      OneMarkInPlace(t, Marked(x, Some('}'), Behind(t)));
    } else {
      OneMarkEach(x, Some(t[0]), t[1..]);
      CountAppend([t[0]], Marked(x, Some(t[0]), t[1..]));
      CountAppend([t[0]], t[1..]);
      assert t == [t[0]] + t[1..];
    }
  }

  lemma OneMarkInTuple(x: Classes, t: string, more: string)
    requires ValuesAt(t) && Matches(t[Ahead(x, t)..])
    ensures Count(TUPLE + more) == 1 + Count(more)
    ensures Count(t) == Count(Behind(t[Ahead(x, t)..]))
  {
    var a := Ahead(x, t);
    CountTuple();
    CountAppend(TUPLE, more);
    TupleHoldsNoMark(x, t);
    MatchHoldsNoMark(t[a..]);
    CountAppend(t[..a], t[a..]);
    assert t == t[..a] + t[a..];
  }

  lemma OneMarkInPlace(t: string, more: string)
    requires Matches(t)
    ensures Count("?" + more) == 1 + Count(more) && Count(t) == Count(Behind(t))
    ensures |Captures(t)| == 1 + |Captures(Behind(t))|
  {
    CountAppend("?", more);
    assert "?"[1..] == "";
    MatchHoldsNoMark(t);
  }

  lemma TupleHoldsNoMark(x: Classes, t: string)
    requires ValuesAt(t)
    ensures Count(t[..Ahead(x, t)]) == 0
  {
    var a := Ahead(x, t);
    SpacesAre(x, t[6..]);
    assert forall k :: 6 <= k < a ==> t[k] == t[6..][k - 6];
    assert !x.space('?');
    assert forall k :: 0 <= k < a ==> t[..a][k] != '?';
    CountNone(t[..a]);
  }

  lemma MatchHoldsNoMark(t: string)
    requires Matches(t)
    ensures Count(t) == Count(Behind(t))
  {
    var n := AsciiRun(t[1..]) + 2;
    AsciiRunWithin(AsciiWordChar, t[1..]);
    assert forall k :: 1 <= k < n - 1 ==> t[k] == t[1..][k - 1];
    assert t[n - 1] == t[1..][n - 2] == '}';
    assert forall k :: 0 <= k < n ==> t[..n][k] != '?';
    CountNone(t[..n]);
    CountAppend(t[..n], t[n..]);
    assert t == t[..n] + t[n..];
  }

  lemma {:induction false} MarkingClosesNothing(f: WordChars, x: Classes, before: Option<char>, t: string)
    ensures ClosingName(f, Marked(x, before, t)).Some? ==> ClosingName(f, t) == ClosingName(f, Marked(x, before, t))
    decreases |t|
  {
    if t == "" {
    } else if TupleMatches(x, before, t) {
      TupleCloses(f, Marked(x, Some('}'), Behind(t[Ahead(x, t)..])));
    } else if Matches(t) {
      assert !f('?');
    } else {
      MarkingClosesNothing(f, x, Some(t[0]), t[1..]);
      assert t == [t[0]] + t[1..] && [t[0]][1..] == "";
      ClosingAppend(f, [t[0]], t[1..]);
      ClosingAppend(f, [t[0]], Marked(x, Some(t[0]), t[1..]));
    }
  }

  lemma MatchIsClosing(t: string)
    ensures Matches(t) <==>
            && t != "" && t[0] == '{'
            && ClosingName(AsciiWordChar, t[1..]).Some? && AsciiIdent(ClosingName(AsciiWordChar, t[1..]).value)
  {
    MatchIsIdentPlaceholder(AsciiWordChar, t);
  }

  lemma CapturesBehind(head: string, rest: string)
    requires '{' !in head
    ensures Captures(head + rest) == Captures(rest)
  {
    var t := head + rest;
    forall k | 0 <= k < |head|
      ensures !Matches(t[k..])
    {
      assert t[k..][0] == head[k];
    }
    CapturesSkip(t, |head|);
    assert t[|head|..] == rest;
  }

  /** Afterwards no placeholder is left. */
  lemma {:induction false} NoneIsLeft(x: Classes, before: Option<char>, t: string)
    ensures Captures(Marked(x, before, t)) == []
    decreases |t|
  {
    if t == "" {
    } else if TupleMatches(x, before, t) {
      NoneIsLeft(x, Some('}'), Behind(t[Ahead(x, t)..]));
      CapturesBehind(TUPLE, Marked(x, Some('}'), Behind(t[Ahead(x, t)..])));
    } else if Matches(t) {
      NoneIsLeft(x, Some('}'), Behind(t));
      CapturesBehind("?", Marked(x, Some('}'), Behind(t)));
    } else {
      var more := Marked(x, Some(t[0]), t[1..]);
      NoneIsLeft(x, Some(t[0]), t[1..]);
      MarkingClosesNothing(AsciiWordChar, x, Some(t[0]), t[1..]);
      MatchIsClosing(t);
      MatchIsClosing([t[0]] + more);
      assert ([t[0]] + more)[1..] == more;
    }
  }
}
