/**
The readers that list a template's parameters: the CLI's `extract_param_names`
(`crates/cli/src/pipeline.rs`) over scanned segments, and the first half of the
inferrer's `convert_named_to_placeholders`
(`crates/skardi/src/pipeline/inferencer.rs`), which matches
`\{([a-zA-Z_][a-zA-Z0-9_]*)\}`.
*/
module TemplateReaders {
  import opened Text
  import opened TemplateScanner
  import opened Substitution

  // ---------------------------------------------------------------- lists without repetition

  /** Each element once, where it first stands. */
  function FirstSeen(xs: seq<string>): seq<string> {
    if xs == [] then []
    else
      var before := FirstSeen(xs[..|xs| - 1]);
      if xs[|xs| - 1] in before then before else before + [xs[|xs| - 1]]
  }

  lemma {:induction false} FirstSeenHasAll(xs: seq<string>)
    ensures forall x :: x in FirstSeen(xs) <==> x in xs
  {
    if xs != [] {
      FirstSeenHasAll(xs[..|xs| - 1]);
      assert xs == xs[..|xs| - 1] + [xs[|xs| - 1]];
    }
  }

  lemma {:induction false} FirstSeenIsDistinct(xs: seq<string>)
    ensures forall i, j :: 0 <= i < j < |FirstSeen(xs)| ==> FirstSeen(xs)[i] != FirstSeen(xs)[j]
  {
    if xs != [] {
      FirstSeenIsDistinct(xs[..|xs| - 1]);
    }
  }

  lemma FirstSeenSnoc(xs: seq<string>, x: string)
    ensures FirstSeen(xs + [x]) == if x in FirstSeen(xs) then FirstSeen(xs) else FirstSeen(xs) + [x]
    ensures FirstSeen(xs + []) == FirstSeen(xs)
  {
    assert (xs + [x])[..|xs|] == xs && xs + [] == xs;
  }

  // ---------------------------------------------------------------- the CLI's reader

  /** The names of the placeholder segments, in the order of the text. */
  function NamesOf(segs: seq<Segment>): seq<string> {
    if segs == [] then []
    else NameIn(segs[0]) + NamesOf(segs[1..])
  }

  function NameIn(seg: Segment): seq<string> {
    if seg.Placeholder? then [seg.name] else []
  }

  lemma {:induction false} NamesArePlaced(segs: seq<Segment>)
    ensures forall n :: n in NamesOf(segs) <==> Placed(segs, n)
  {
    if segs != [] {
      NamesArePlaced(segs[1..]);
      assert segs == [segs[0]] + segs[1..];
    }
  }

  lemma {:induction false} NamesOfSnoc(segs: seq<Segment>, seg: Segment)
    ensures NamesOf(segs + [seg]) == NamesOf(segs) + NameIn(seg)
  {
    if segs == [] {
      assert segs + [seg] == [seg] && [seg][1..] == [];
    } else {
      assert (segs + [seg])[0] == segs[0] && (segs + [seg])[1..] == segs[1..] + [seg];
      NamesOfSnoc(segs[1..], seg);
      Assoc(NameIn(segs[0]), NamesOf(segs[1..]), NameIn(seg));
    }
  }

  lemma NextName(segs: seq<Segment>, i: nat)
    requires i < |segs|
    ensures
      var before := FirstSeen(NamesOf(segs[..i]));
      FirstSeen(NamesOf(segs[..i + 1]))
      == if segs[i].Literal? || segs[i].name in before then before else before + [segs[i].name]
  {
    assert segs[..i + 1] == segs[..i] + [segs[i]];
    NamesOfSnoc(segs[..i], segs[i]);
    if segs[i].Placeholder? {
      FirstSeenSnoc(NamesOf(segs[..i]), segs[i].name);
    } else {
      FirstSeenSnoc(NamesOf(segs[..i]), "");
    }
  }

  method ExtractParamNames(f: WordChars, sql: string) returns (params: seq<string>)
    ensures params == FirstSeen(NamesOf(Scan(f, sql)))
  {
    var segs := ScanSegments(f, sql);
    params := [];
    for i := 0 to |segs|
      invariant params == FirstSeen(NamesOf(segs[..i]))
    {
      NextName(segs, i);
      match segs[i] {
        case Literal(_) =>
        case Placeholder(name) =>
          if name !in params {
            params := params + [name];
          }
      }
    }
    assert segs[..|segs|] == segs;
  }

  // ---------------------------------------------------------------- the inferrer's reader

  predicate AsciiIdent(name: string) {
    && name != ""
    && !('0' <= name[0] <= '9')
    && forall k :: 0 <= k < |name| ==> AsciiWordChar(name[k])
  }

  /** How many characters of `[a-zA-Z0-9_]` the text starts with. */
  function AsciiRun(t: string): (n: nat)
    ensures n <= |t|
  {
    if t == "" || !AsciiWordChar(t[0]) then 0 else 1 + AsciiRun(t[1..])
  }

  /** The expression matches at the start of the text. */
  predicate Matches(t: string) {
    && t != "" && t[0] == '{'
    && var n := AsciiRun(t[1..]);
       0 < n < |t| - 1 && t[1..][n] == '}' && !('0' <= t[1] <= '9')
  }

  function Captured(t: string): string
    requires Matches(t)
  {
    t[1..][..AsciiRun(t[1..])]
  }

  /** `captures_iter`: leftmost matches that do not overlap. */
  function Captures(t: string): seq<string>
    decreases |t|
  {
    if t == "" then []
    else if Matches(t) then [Captured(t)] + Captures(t[AsciiRun(t[1..]) + 2..])
    else Captures(t[1..])
  }

  /** The loop over the captures, with its set of names seen so far. */
  method ParameterOrder(sql: string) returns (order: seq<string>)
    ensures order == FirstSeen(Captures(sql))
  {
    var captures := Captures(sql);
    order := [];
    var seen: set<string> := {};
    for i := 0 to |captures|
      invariant order == FirstSeen(captures[..i])
      invariant forall x :: x in seen <==> x in order
    {
      assert captures[..i + 1] == captures[..i] + [captures[i]];
      FirstSeenSnoc(captures[..i], captures[i]);
      if captures[i] !in seen {
        seen := seen + {captures[i]};
        order := order + [captures[i]];
      }
    }
    assert captures[..|captures|] == captures;
  }

  // ---------------------------------------------------------------- they agree

  function OnlyIdents(names: seq<string>): seq<string> {
    if names == [] then []
    else (if AsciiIdent(names[0]) then [names[0]] else []) + OnlyIdents(names[1..])
  }

  lemma {:induction false} AsciiRunWithin(f: WordChars, t: string)
    ensures AsciiRun(t) <= RunLength(f, t)
    ensures AsciiRun(t) < |t| && !f(t[AsciiRun(t)]) ==> AsciiRun(t) == RunLength(f, t)
    ensures (forall k :: 0 <= k < RunLength(f, t) ==> AsciiWordChar(t[k])) ==> AsciiRun(t) == RunLength(f, t)
    ensures forall k :: 0 <= k < AsciiRun(t) ==> AsciiWordChar(t[k])
  {
    if t != "" && AsciiWordChar(t[0]) {
      assert f(t[0]);
      AsciiRunWithin(f, t[1..]);
      forall k | 0 <= k < AsciiRun(t)
        ensures AsciiWordChar(t[k])
      {
        if k > 0 { assert t[k] == t[1..][k - 1]; }
      }
      if forall k :: 0 <= k < RunLength(f, t) ==> AsciiWordChar(t[k]) {
        forall k | 0 <= k < RunLength(f, t[1..])
          ensures AsciiWordChar(t[1..][k])
        {
          assert t[1..][k] == t[k + 1];
        }
      }
    }
  }

  /** The expression matches where the scanner finds a placeholder whose name is an ASCII identifier. */
  lemma MatchIsIdentPlaceholder(f: WordChars, t: string)
    ensures Matches(t) <==> StartsPlaceholder(f, t) && AsciiIdent(NameOf(f, t))
    ensures Matches(t) ==> Captured(t) == NameOf(f, t) && t[AsciiRun(t[1..]) + 2..] == AfterName(f, t)
  {
    if t != "" && t[0] == '{' {
      var body := t[1..];
      AsciiRunWithin(f, body);
      assert !f('}');
      if StartsPlaceholder(f, t) && AsciiIdent(NameOf(f, t)) {
        forall k | 0 <= k < RunLength(f, body)
          ensures AsciiWordChar(body[k])
        {
          assert NameOf(f, t)[k] == body[k];
        }
        assert NameOf(f, t)[0] == t[1];
      }
      if Matches(t) {
        var name := NameOf(f, t);
        assert name[0] == t[1];
        assert forall k :: 0 <= k < |name| ==> name[k] == body[k];
      }
    }
  }

  lemma {:induction false} CapturesSkip(t: string, n: nat)
    requires n <= |t| && forall k :: 0 <= k < n ==> !Matches(t[k..])
    ensures Captures(t) == Captures(t[n..])
    decreases n
  {
    if n == 0 {
      assert t[0..] == t;
    } else {
      assert t[0..] == t;
      assert forall k :: 0 <= k < n - 1 ==> t[1..][k..] == t[k + 1..];
      CapturesSkip(t[1..], n - 1);
      assert t[1..][n - 1..] == t[n..];
    }
  }

  /** Inside the braces of a placeholder there is no further brace to match at. */
  lemma NothingInside(f: WordChars, t: string)
    requires StartsPlaceholder(f, t) && !Matches(t)
    ensures Captures(t) == Captures(AfterName(f, t))
  {
    var n := |t| - |AfterName(f, t)|;
    SplitPlaceholder(f, t);
    forall k | 0 <= k < n
      ensures !Matches(t[k..])
    {
      if k == 0 {
        assert t[0..] == t;
      } else {
        assert t[k..][0] == t[k] == Braced(NameOf(f, t))[k];
        assert !f('{');
      }
    }
    CapturesSkip(t, n);
    assert t[n..] == AfterName(f, t);
  }

  lemma LiteralHasNoMatch(f: WordChars, t: string, n: nat)
    requires n == LiteralLength(f, t)
    ensures Captures(t) == Captures(t[n..])
  {
    forall k | 0 <= k < n
      ensures !Matches(t[k..])
    {
      LiteralHasNoPlaceholder(f, t, k);
      MatchIsIdentPlaceholder(f, t[k..]);
    }
    CapturesSkip(t, n);
  }

  /** On any template the inferrer captures the scanner's names that are ASCII identifiers, in order. */
  lemma {:induction false} CapturesAreScannedIdents(f: WordChars, t: string)
    ensures Captures(t) == OnlyIdents(NamesOf(Scan(f, t)))
    decreases |t|
  {
    if t == "" {
    } else if StartsPlaceholder(f, t) {
      var name, rest := NameOf(f, t), AfterName(f, t);
      CapturesAreScannedIdents(f, rest);
      MatchIsIdentPlaceholder(f, t);
      NamesCons(Placeholder(name), Scan(f, rest));
      IdentsCons(name, NamesOf(Scan(f, rest)));
      if !Matches(t) {
        NothingInside(f, t);
      }
    } else {
      var n := LiteralLength(f, t);
      LiteralHasNoMatch(f, t, n);
      CapturesAreScannedIdents(f, t[n..]);
      NamesCons(Literal(t[..n]), Scan(f, t[n..]));
    }
  }

  lemma NamesCons(seg: Segment, segs: seq<Segment>)
    ensures NamesOf([seg] + segs) == NameIn(seg) + NamesOf(segs)
    ensures seg.Literal? ==> NamesOf([seg] + segs) == NamesOf(segs)
  {
    assert ([seg] + segs)[1..] == segs;
    assert [] + NamesOf(segs) == NamesOf(segs);
  }

  lemma IdentsCons(name: string, names: seq<string>)
    ensures OnlyIdents([name] + names) == (if AsciiIdent(name) then [name] else []) + OnlyIdents(names)
    ensures !AsciiIdent(name) ==> OnlyIdents([name] + names) == OnlyIdents(names)
  {
    assert ([name] + names)[1..] == names;
    assert [] + OnlyIdents(names) == OnlyIdents(names);
  }

  lemma {:induction false} IdentsStay(names: seq<string>)
    ensures forall x :: x in OnlyIdents(names) <==> x in names && AsciiIdent(x)
    ensures (forall x :: x in names ==> AsciiIdent(x)) ==> OnlyIdents(names) == names
  {
    if names != [] {
      IdentsStay(names[1..]);
      assert names == [names[0]] + names[1..];
      IdentsCons(names[0], names[1..]);
    }
  }

  /** The two readers give the same list exactly when every placeholder is an ASCII identifier. */
  lemma ReadersAgreeExactly(f: WordChars, sql: string)
    ensures FirstSeen(NamesOf(Scan(f, sql))) == FirstSeen(Captures(sql))
       <==> forall n :: n in NamesOf(Scan(f, sql)) ==> AsciiIdent(n)
  {
    var names := NamesOf(Scan(f, sql));
    CapturesAreScannedIdents(f, sql);
    IdentsStay(names);
    FirstSeenHasAll(names);
    FirstSeenHasAll(Captures(sql));
    if FirstSeen(names) == FirstSeen(Captures(sql)) {
      forall n | n in names
        ensures AsciiIdent(n)
      {
        assert n in FirstSeen(Captures(sql));
      }
    }
  }
}
