/**
The CLI's one-pass placeholder scanner (`crates/cli/src/pipeline.rs`).

A template is cut into literal text and `{ident}` placeholders.  Which characters
beyond ASCII are alphanumeric is Unicode's business: everything here holds for
every classification that is the usual one on ASCII.
*/
module TemplateScanner {
  import opened Text

  predicate AsciiWordChar(c: char) {
    'a' <= c <= 'z' || 'A' <= c <= 'Z' || '0' <= c <= '9' || c == '_'
  }

  ghost predicate UsualOnAscii(f: char -> bool) {
    forall c: char :: c < 128 as char ==> (f(c) <==> AsciiWordChar(c))
  }

  /** `ch.is_alphanumeric() || ch == '_'` */
  type WordChars = f: char -> bool | UsualOnAscii(f) witness AsciiWordChar

  datatype Segment = Literal(text: string) | Placeholder(name: string)

  // ---------------------------------------------------------------- where placeholders are

  /** How many identifier characters the text starts with. */
  function RunLength(f: WordChars, t: string): (n: nat)
    ensures n <= |t|
  {
    if t == "" || !f(t[0]) then 0 else 1 + RunLength(f, t[1..])
  }

  lemma {:induction false} RunIsMaximal(f: WordChars, t: string)
    ensures forall k :: 0 <= k < RunLength(f, t) ==> f(t[k])
    ensures RunLength(f, t) < |t| ==> !f(t[RunLength(f, t)])
  {
    if t != "" && f(t[0]) {
      RunIsMaximal(f, t[1..]);
      forall k | 0 <= k < RunLength(f, t)
        ensures f(t[k])
      {
        if k > 0 { assert t[k] == t[1..][k - 1]; }
      }
    }
  }

  /** The text starts with a non-empty identifier and a closing brace. */
  predicate StartsBody(f: WordChars, t: string) {
    var n := RunLength(f, t);
    0 < n < |t| && t[n] == '}'
  }

  predicate StartsPlaceholder(f: WordChars, t: string) {
    t != "" && t[0] == '{' && StartsBody(f, t[1..])
  }

  function NameOf(f: WordChars, t: string): string
    requires StartsPlaceholder(f, t)
  {
    t[1..][..RunLength(f, t[1..])]
  }

  function AfterName(f: WordChars, t: string): (rest: string)
    requires StartsPlaceholder(f, t)
    ensures |rest| < |t|
  {
    t[RunLength(f, t[1..]) + 2..]
  }

  predicate PlaceholderAt(f: WordChars, s: string, i: nat) {
    i < |s| && StartsPlaceholder(f, s[i..])
  }

  predicate IsName(f: WordChars, name: string) {
    name != "" && forall k :: 0 <= k < |name| ==> f(name[k])
  }

  function Braced(name: string): string {
    "{" + name + "}"
  }

  // ---------------------------------------------------------------- the segments

  /** How much text comes before the first placeholder. */
  function LiteralLength(f: WordChars, t: string): (n: nat)
    ensures n <= |t|
    ensures n == 0 <==> t == "" || StartsPlaceholder(f, t)
  {
    if t == "" || StartsPlaceholder(f, t) then 0 else 1 + LiteralLength(f, t[1..])
  }

  function Scan(f: WordChars, t: string): seq<Segment>
    decreases |t|
  {
    if t == "" then []
    else if StartsPlaceholder(f, t) then
      [Placeholder(NameOf(f, t))] + Scan(f, AfterName(f, t))
    else
      var n := LiteralLength(f, t);
      [Literal(t[..n])] + Scan(f, t[n..])
  }

  function SegmentText(seg: Segment): string {
    match seg
    case Literal(text) => text
    case Placeholder(name) => Braced(name)
  }

  /** The template that the segments came from. */
  function Restore(segs: seq<Segment>): string {
    if segs == [] then "" else SegmentText(segs[0]) + Restore(segs[1..])
  }

  method FindBrace(s: string, i: nat) returns (at: nat)
    requires i <= |s|
    ensures i <= at <= |s| && (at < |s| ==> s[at] == '{')
    ensures forall k :: i <= k < at ==> s[k] != '{'
  {
    at := i;
    while at < |s| && s[at] != '{'
      invariant i <= at <= |s|
      invariant forall k :: i <= k < at ==> s[k] != '{'
    {
      at := at + 1;
    }
  }

  method FindRunEnd(f: WordChars, s: string, i: nat) returns (cursor: nat)
    requires i <= |s|
    ensures i <= cursor <= |s| && cursor == i + RunLength(f, s[i..])
  {
    cursor := i;
    while cursor < |s| && f(s[cursor])
      invariant i <= cursor <= |s|
      invariant cursor - i + RunLength(f, s[cursor..]) == RunLength(f, s[i..])
    {
      assert s[cursor..][1..] == s[cursor + 1..];
      cursor := cursor + 1;
    }
  }

  /** Pushes the pending literal text and the placeholder behind it. */
  method Emit(f: WordChars, s: string, segs: seq<Segment>, literalStart: nat, braceAt: nat, cursor: nat)
    returns (out: seq<Segment>)
    requires Progress(f, s, segs, literalStart, braceAt)
    requires BodyEnds(f, s, braceAt, cursor)
    requires cursor > braceAt + 1 && cursor < |s| && s[cursor] == '}'
    ensures Progress(f, s, out, cursor + 1, cursor + 1)
  {
    PlaceholderAtBrace(f, s, braceAt, cursor);
    FoundPlaceholder(f, s, segs, literalStart, braceAt, cursor);
    out := segs;
    if braceAt > literalStart {
      out := out + [Literal(s[literalStart..braceAt])];
    } else {
      assert out == segs + [];
    }
    out := out + [Placeholder(s[braceAt + 1..cursor])];
  }

  /** The scanner's own loop. */
  method ScanSegments(f: WordChars, s: string) returns (out: seq<Segment>)
    ensures out == Scan(f, s)
  {
    hide RunLength, Scan;
    out := [];
    var literalStart := 0;
    var i := 0;
    NothingScanned(f, s);
    while true
      invariant Progress(f, s, out, literalStart, i)
      decreases |s| - i
    {
      var braceAt := FindBrace(s, i);
      NoBraceNoPlaceholder(f, s, literalStart, i, braceAt);
      if braceAt == |s| {
        break;
      }
      var bodyStart := braceAt + 1;
      var cursor := FindRunEnd(f, s, bodyStart);
      if cursor > bodyStart && cursor < |s| && s[cursor] == '}' {
        out := Emit(f, s, out, literalStart, braceAt, cursor);
        literalStart := cursor + 1;
        i := literalStart;
      } else {
        // The brace stays part of the literal text around it.
        PassBrace(f, s, out, literalStart, braceAt, cursor);
        i := braceAt + 1;
      }
    }
    NoMorePlaceholders(f, s, out, literalStart);
    if literalStart < |s| {
      out := out + [Literal(s[literalStart..])];
    } else {
      assert out + [] == out;
    }
  }

  /** The segments so far are those before `start`; from there up to `i` there is only literal text. */
  ghost predicate Progress(f: WordChars, s: string, out: seq<Segment>, start: nat, i: nat) {
    start <= i <= |s| && NoneBetween(f, s, start, i) && Scanned(f, s, out, start)
  }

  /** No placeholder starts between the two positions. */
  ghost predicate NoneBetween(f: WordChars, s: string, i: nat, j: nat) {
    forall k :: i <= k < j ==> !PlaceholderAt(f, s, k)
  }

  /** The segments so far are those of the text before `start`. */
  ghost predicate Scanned(f: WordChars, s: string, out: seq<Segment>, start: nat)
    requires start <= |s|
  {
    out + Scan(f, s[start..]) == Scan(f, s)
  }

  lemma NothingScanned(f: WordChars, s: string)
    ensures Scanned(f, s, [], 0)
  {
    assert s[0..] == s;
  }

  lemma NoBraceNoPlaceholder(f: WordChars, s: string, start: nat, i: nat, j: nat)
    requires start <= i <= j <= |s| && NoneBetween(f, s, start, i)
    requires forall k :: i <= k < j ==> s[k] != '{'
    ensures NoneBetween(f, s, start, j)
  {
    forall k | i <= k < j
      ensures !PlaceholderAt(f, s, k)
    {
      assert s[k..][0] == s[k];
    }
  }

  /** The identifier characters behind the brace end at the cursor. */
  ghost predicate BodyEnds(f: WordChars, s: string, open: nat, cursor: nat) {
    open < |s| && s[open] == '{' && cursor == open + 1 + RunLength(f, s[open + 1..])
  }

  lemma PassBrace(f: WordChars, s: string, out: seq<Segment>, start: nat, i: nat, cursor: nat)
    requires Progress(f, s, out, start, i) && BodyEnds(f, s, i, cursor)
    requires !(cursor > i + 1 && cursor < |s| && s[cursor] == '}')
    ensures Progress(f, s, out, start, i + 1)
  {
    PlaceholderAtBrace(f, s, i, cursor);
  }

  lemma PlaceholderAtBrace(f: WordChars, s: string, open: nat, cursor: nat)
    requires BodyEnds(f, s, open, cursor)
    ensures cursor <= |s|
    ensures PlaceholderAt(f, s, open) <==> cursor > open + 1 && cursor < |s| && s[cursor] == '}'
    ensures PlaceholderAt(f, s, open) ==>
              NameOf(f, s[open..]) == s[open + 1..cursor] && AfterName(f, s[open..]) == s[cursor + 1..]
  {
    assert s[open..][1..] == s[open + 1..];
    if cursor < |s| {
      assert s[open + 1..][cursor - open - 1] == s[cursor];
    }
  }

  lemma {:induction false} LiteralLengthIs(f: WordChars, t: string, n: nat)
    requires n <= |t|
    requires forall k :: 0 <= k < n ==> !StartsPlaceholder(f, t[k..])
    requires n == |t| || StartsPlaceholder(f, t[n..])
    ensures LiteralLength(f, t) == n
  {
    assert t[0..] == t;
    if n > 0 {
      assert forall k :: 0 <= k < n ==> t[1..][k..] == t[k + 1..];
      LiteralLengthIs(f, t[1..], n - 1);
    }
  }

  /** The scanner stands on a placeholder with pending literal text before it. */
  lemma FoundPlaceholder(f: WordChars, s: string, out: seq<Segment>, start: nat, open: nat, close: nat)
    requires start <= open < close < |s| && PlaceholderAt(f, s, open)
    requires NameOf(f, s[open..]) == s[open + 1..close] && AfterName(f, s[open..]) == s[close + 1..]
    requires NoneBetween(f, s, start, open) && Scanned(f, s, out, start)
    ensures
      var pending := if open > start then [Literal(s[start..open])] else [];
      Scanned(f, s, out + pending + [Placeholder(s[open + 1..close])], close + 1)
  {
    var t := s[start..];
    var n := open - start;
    forall k | 0 <= k < n
      ensures !StartsPlaceholder(f, t[k..])
    {
      assert t[k..] == s[start + k..];
      assert !PlaceholderAt(f, s, start + k);
    }
    assert t[n..] == s[open..];
    LiteralLengthIs(f, t, n);
    assert t[..n] == s[start..open];
    var pending := if open > start then [Literal(s[start..open])] else [];
    var here, rest := [Placeholder(s[open + 1..close])], Scan(f, s[close + 1..]);
    assert Scan(f, s[open..]) == here + rest;
    assert Scan(f, t) == pending + (here + rest);
    Assoc(pending, here, rest);
    Assoc(out, pending + here, rest);
    Assoc(out, pending, here);
  }

  lemma ScanAllLiteral(f: WordChars, t: string)
    requires LiteralLength(f, t) == |t|
    ensures Scan(f, t) == if t == "" then [] else [Literal(t)]
  {
    if t != "" {
      assert t[..|t|] == t;
      var rest := t[|t|..];
      assert rest == "";
      assert Scan(f, rest) == [];
    }
  }

  lemma NoMorePlaceholders(f: WordChars, s: string, out: seq<Segment>, start: nat)
    requires start <= |s| && NoneBetween(f, s, start, |s|) && Scanned(f, s, out, start)
    ensures Scan(f, s) == out + if start < |s| then [Literal(s[start..])] else []
  {
    var t := s[start..];
    forall k | 0 <= k < |t|
      ensures !StartsPlaceholder(f, t[k..])
    {
      assert t[k..] == s[start + k..];
      assert !PlaceholderAt(f, s, start + k);
    }
    LiteralLengthIs(f, t, |t|);
    ScanAllLiteral(f, t);
  }

  // ---------------------------------------------------------------- nothing is lost

  lemma SplitPlaceholder(f: WordChars, t: string)
    requires StartsPlaceholder(f, t)
    ensures t == Braced(NameOf(f, t)) + AfterName(f, t)
    ensures IsName(f, NameOf(f, t))
  {
    var n := RunLength(f, t[1..]);
    RunIsMaximal(f, t[1..]);
    assert t[1..][n] == t[n + 1];
    assert t == [t[0]] + t[1..][..n] + [t[n + 1]] + t[n + 2..];
  }

  lemma RestoreCons(seg: Segment, segs: seq<Segment>)
    ensures Restore([seg] + segs) == SegmentText(seg) + Restore(segs)
  {
    assert ([seg] + segs)[1..] == segs;
  }

  /** Putting the braces back gives back the template, whatever it is. */
  lemma {:induction false} ScanRestores(f: WordChars, t: string)
    ensures Restore(Scan(f, t)) == t
    decreases |t|
  {
    if t == "" {
    } else if StartsPlaceholder(f, t) {
      ScanRestores(f, AfterName(f, t));
      SplitPlaceholder(f, t);
      RestoreCons(Placeholder(NameOf(f, t)), Scan(f, AfterName(f, t)));
    } else {
      var n := LiteralLength(f, t);
      ScanRestores(f, t[n..]);
      RestoreCons(Literal(t[..n]), Scan(f, t[n..]));
      assert t == t[..n] + t[n..];
    }
  }

  // ---------------------------------------------------------------- the decomposition is the only one

  /** No placeholder hides in the text. */
  ghost predicate HidesNone(f: WordChars, text: string) {
    forall k :: 0 <= k < |text| ==> !PlaceholderAt(f, text, k)
  }

  /** Names are identifiers; literals are non-empty, hide no placeholder and never touch each other. */
  ghost predicate Canonical(f: WordChars, segs: seq<Segment>) {
    && (forall k :: 0 <= k < |segs| ==> SegmentOk(f, segs[k]))
    && (forall k :: 0 <= k < |segs| - 1 ==> segs[k].Placeholder? || segs[k + 1].Placeholder?)
  }

  ghost predicate SegmentOk(f: WordChars, seg: Segment) {
    match seg
    case Literal(text) => text != "" && HidesNone(f, text)
    case Placeholder(name) => IsName(f, name)
  }

  lemma {:induction false} RunLengthAppend(f: WordChars, a: string, b: string)
    ensures RunLength(f, a + b)
         == if RunLength(f, a) < |a| then RunLength(f, a) else |a| + RunLength(f, b)
  {
    if a == "" {
      assert a + b == b;
    } else {
      assert (a + b)[1..] == a[1..] + b;
      RunLengthAppend(f, a[1..], b);
    }
  }

  lemma BodyAppend(f: WordChars, a: string, b: string)
    ensures StartsBody(f, a) ==> StartsBody(f, a + b)
    ensures StartsBody(f, a + b) && (b == "" || b[0] == '{') ==> StartsBody(f, a)
  {
    RunLengthAppend(f, a, b);
    var n := RunLength(f, a);
    if n < |a| {
      assert (a + b)[n] == a[n];
    } else if b != "" && b[0] == '{' {
      assert RunLength(f, b) == 0;
      assert (a + b)[n] == b[0];
    }
  }

  /** Text behind a placeholder does not unmake it, and text from a brace on does not complete one. */
  lemma PlaceholderAppend(f: WordChars, a: string, b: string)
    requires a != ""
    ensures StartsPlaceholder(f, a) ==> StartsPlaceholder(f, a + b)
    ensures StartsPlaceholder(f, a + b) && (b == "" || b[0] == '{') ==> StartsPlaceholder(f, a)
  {
    assert (a + b)[1..] == a[1..] + b;
    BodyAppend(f, a[1..], b);
  }

  /** The literal text before the first placeholder hides none. */
  lemma {:induction false} LiteralIsPlain(f: WordChars, t: string)
    ensures HidesNone(f, t[..LiteralLength(f, t)])
    ensures LiteralLength(f, t) < |t| ==> StartsPlaceholder(f, t[LiteralLength(f, t)..])
  {
    var n := LiteralLength(f, t);
    if n > 0 {
      LiteralIsPlain(f, t[1..]);
      assert t[1..][n - 1..] == t[n..];
      forall k | 0 <= k < n
        ensures !PlaceholderAt(f, t[..n], k)
      {
        assert t == t[..n] + t[n..];
        if k == 0 {
          assert t[..n][0..] == t[..n];
          PlaceholderAppend(f, t[..n], t[n..]);
        } else {
          assert t[1..][..n - 1][k - 1..] == t[..n][k..];
          assert !PlaceholderAt(f, t[1..][..n - 1], k - 1);
        }
      }
    }
  }

  lemma {:induction false} LiteralHasNoPlaceholder(f: WordChars, t: string, k: nat)
    requires k < LiteralLength(f, t)
    ensures !PlaceholderAt(f, t, k)
  {
    if k > 0 {
      LiteralHasNoPlaceholder(f, t[1..], k - 1);
      assert t[1..][k - 1..] == t[k..];
    } else {
      assert t[0..] == t;
    }
  }

  lemma CanonicalCons(f: WordChars, seg: Segment, segs: seq<Segment>)
    requires Canonical(f, segs) && SegmentOk(f, seg)
    requires seg.Placeholder? || segs == [] || segs[0].Placeholder?
    ensures Canonical(f, [seg] + segs)
  {
    var all := [seg] + segs;
    forall k | 0 <= k < |all|
      ensures SegmentOk(f, all[k])
    {
      if k > 0 { assert all[k] == segs[k - 1]; }
    }
    forall k | 0 <= k < |all| - 1
      ensures all[k].Placeholder? || all[k + 1].Placeholder?
    {
      if k > 0 { assert all[k] == segs[k - 1] && all[k + 1] == segs[k]; }
    }
  }

  lemma {:induction false} ScanIsCanonical(f: WordChars, t: string)
    ensures Canonical(f, Scan(f, t))
    decreases |t|
  {
    if t == "" {
    } else if StartsPlaceholder(f, t) {
      SplitPlaceholder(f, t);
      ScanIsCanonical(f, AfterName(f, t));
      CanonicalCons(f, Placeholder(NameOf(f, t)), Scan(f, AfterName(f, t)));
    } else {
      var n := LiteralLength(f, t);
      LiteralIsPlain(f, t);
      ScanIsCanonical(f, t[n..]);
      CanonicalCons(f, Literal(t[..n]), Scan(f, t[n..]));
    }
  }

  lemma {:induction false} NameRuns(f: WordChars, name: string)
    requires forall k :: 0 <= k < |name| ==> f(name[k])
    ensures RunLength(f, name) == |name|
  {
    if name != "" {
      NameRuns(f, name[1..]);
    }
  }

  lemma NameStartsPlaceholder(f: WordChars, name: string, tail: string)
    requires IsName(f, name)
    ensures StartsPlaceholder(f, Braced(name) + tail)
    ensures NameOf(f, Braced(name) + tail) == name && AfterName(f, Braced(name) + tail) == tail
  {
    var t, rest := Braced(name) + tail, "}" + tail;
    assert t[1..] == name + rest;
    NameRuns(f, name);
    RunLengthAppend(f, name, rest);
    assert rest[0] == '}' && !f('}');
    assert (name + rest)[|name|] == rest[0];
    assert t[|name| + 2..] == tail;
  }

  lemma ScanLiteral(f: WordChars, text: string, tail: string)
    requires text != "" && HidesNone(f, text)
    requires tail == "" || StartsPlaceholder(f, tail)
    ensures Scan(f, text + tail) == [Literal(text)] + Scan(f, tail)
  {
    var t := text + tail;
    var n := |text|;
    assert t[..n] == text && t[n..] == tail && t[0..] == t;
    forall k | 0 <= k < n
      ensures !StartsPlaceholder(f, t[k..])
    {
      assert t[k..] == text[k..] + tail;
      assert !PlaceholderAt(f, text, k);
      PlaceholderAppend(f, text[k..], tail);
    }
    LiteralLengthIs(f, t, n);
  }

  lemma ScanPlaceholder(f: WordChars, name: string, tail: string)
    requires IsName(f, name)
    ensures Scan(f, Braced(name) + tail) == [Placeholder(name)] + Scan(f, tail)
  {
    NameStartsPlaceholder(f, name, tail);
  }

  /** Scanning undoes restoring on canonical segments. */
  lemma {:induction false} ScanInvertsRestore(f: WordChars, segs: seq<Segment>)
    requires Canonical(f, segs)
    ensures Scan(f, Restore(segs)) == segs
  {
    if segs != [] {
      var tail := segs[1..];
      assert Canonical(f, tail) by {
        assert forall k :: 0 <= k < |tail| ==> tail[k] == segs[k + 1];
      }
      ScanInvertsRestore(f, tail);
      assert segs == [segs[0]] + tail;
      assert SegmentOk(f, segs[0]);
      match segs[0]
      case Placeholder(name) => ScanPlaceholder(f, name, Restore(tail));
      case Literal(text) =>
        if tail != [] {
          assert segs[1].Placeholder? && tail[0] == segs[1] && SegmentOk(f, segs[1]);
          NameStartsPlaceholder(f, tail[0].name, Restore(tail[1..]));
        }
        ScanLiteral(f, text, Restore(tail));
    }
  }

  /** The scanner's segments are the one canonical decomposition of the template. */
  lemma ScanIsTheOnlyDecomposition(f: WordChars, s: string, segs: seq<Segment>)
    ensures Canonical(f, segs) && Restore(segs) == s <==> segs == Scan(f, s)
  {
    ScanRestores(f, s);
    ScanIsCanonical(f, s);
    if Canonical(f, segs) {
      ScanInvertsRestore(f, segs);
    }
  }

  lemma CanonicalAppend(f: WordChars, a: seq<Segment>, b: seq<Segment>)
    requires Canonical(f, a) && Canonical(f, b)
    requires a == [] || b == [] || a[|a| - 1].Placeholder? || b[0].Placeholder?
    ensures Canonical(f, a + b)
  {
    forall k | 0 <= k < |a + b|
      ensures SegmentOk(f, (a + b)[k])
    {
      if k >= |a| { assert (a + b)[k] == b[k - |a|]; }
    }
    forall k | 0 <= k < |a + b| - 1
      ensures (a + b)[k].Placeholder? || (a + b)[k + 1].Placeholder?
    {
      if k >= |a| {
        assert (a + b)[k] == b[k - |a|] && (a + b)[k + 1] == b[k - |a| + 1];
      } else if k == |a| - 1 {
        assert (a + b)[k + 1] == b[0];
      }
    }
  }

  lemma {:induction false} RestoreAppend(a: seq<Segment>, b: seq<Segment>)
    ensures Restore(a + b) == Restore(a) + Restore(b)
  {
    if a == [] {
      assert a + b == b;
    } else {
      assert (a + b)[1..] == a[1..] + b;
      RestoreAppend(a[1..], b);
    }
  }

  /**
  Every `{ident}` of a template, wherever it stands, is one placeholder segment,
  and the text before it and behind it is scanned as if it stood alone.
  */
  lemma EveryPlaceholderIsFound(f: WordChars, before: string, name: string, after: string)
    requires IsName(f, name)
    ensures Scan(f, before + Braced(name) + after) == Scan(f, before) + [Placeholder(name)] + Scan(f, after)
  {
    var a, b := Scan(f, before), Scan(f, after);
    ScanIsCanonical(f, before);
    ScanIsCanonical(f, after);
    CanonicalCons(f, Placeholder(name), b);
    CanonicalAppend(f, a, [Placeholder(name)] + b);
    ScanInvertsRestore(f, a + ([Placeholder(name)] + b));
    RestoreAppend(a, [Placeholder(name)] + b);
    RestoreCons(Placeholder(name), b);
    ScanRestores(f, before);
    ScanRestores(f, after);
    assert a + ([Placeholder(name)] + b) == a + [Placeholder(name)] + b;
    assert before + Braced(name) + after == before + (Braced(name) + after);
  }

  // ---------------------------------------------------------------- stray braces

  /** Every brace of the template opens a placeholder. */
  ghost predicate EveryBraceOpens(f: WordChars, s: string) {
    forall k :: 0 <= k < |s| && s[k] == '{' ==> PlaceholderAt(f, s, k)
  }

  ghost predicate LiteralsAreBraceFree(segs: seq<Segment>) {
    forall k :: 0 <= k < |segs| && segs[k].Literal? ==> '{' !in segs[k].text
  }

  lemma BracesOpenInParts(f: WordChars, t: string, n: nat)
    requires n <= |t|
    ensures EveryBraceOpens(f, t)
       <==> (forall k :: 0 <= k < n && t[k] == '{' ==> PlaceholderAt(f, t, k)) && EveryBraceOpens(f, t[n..])
  {
    var tail := t[n..];
    assert forall k :: 0 <= k < |tail| ==> tail[k] == t[n + k] && tail[k..] == t[n + k..];
    if EveryBraceOpens(f, t) {
      forall k | 0 <= k < |tail| && tail[k] == '{'
        ensures PlaceholderAt(f, tail, k)
      {
        assert PlaceholderAt(f, t, n + k);
      }
    }
    if EveryBraceOpens(f, tail) {
      forall k | n <= k < |t| && t[k] == '{'
        ensures PlaceholderAt(f, t, k)
      {
        assert tail[k - n] == '{' && PlaceholderAt(f, tail, k - n);
      }
    }
  }

  lemma BraceFreeCons(seg: Segment, segs: seq<Segment>)
    ensures LiteralsAreBraceFree([seg] + segs)
       <==> (seg.Literal? ==> '{' !in seg.text) && LiteralsAreBraceFree(segs)
  {
    var all := [seg] + segs;
    assert all[0] == seg && forall k :: 0 <= k < |segs| ==> all[k + 1] == segs[k];
  }

  /** That is so exactly when the scanner leaves no brace in the literal text. */
  lemma {:induction false} BracesOpenExactly(f: WordChars, t: string)
    ensures EveryBraceOpens(f, t) <==> LiteralsAreBraceFree(Scan(f, t))
    decreases |t|
  {
    if t == "" {
    } else if StartsPlaceholder(f, t) {
      var n := |t| - |AfterName(f, t)|;
      SplitPlaceholder(f, t);
      assert t[n..] == AfterName(f, t) && t[0..] == t;
      forall k | 0 < k < n
        ensures t[k] != '{'
      {
        assert t[k] == Braced(NameOf(f, t))[k];
        assert !f('{');
      }
      BracesOpenInParts(f, t, n);
      BracesOpenExactly(f, AfterName(f, t));
      BraceFreeCons(Placeholder(NameOf(f, t)), Scan(f, AfterName(f, t)));
    } else {
      var n := LiteralLength(f, t);
      forall k | 0 <= k < n
        ensures !PlaceholderAt(f, t, k)
      {
        LiteralHasNoPlaceholder(f, t, k);
      }
      assert '{' !in t[..n] <==> forall k :: 0 <= k < n ==> t[k] != '{';
      BracesOpenInParts(f, t, n);
      BracesOpenExactly(f, t[n..]);
      BraceFreeCons(Literal(t[..n]), Scan(f, t[n..]));
    }
  }
}
