/**
Which templates the chain of replacements treats as a single pass would, whatever
the parameters are: those in which no brace of the template's own text is closed
around placeholders.
*/
module TemplateSafety {
  import opened Options
  import opened Text
  import opened TemplateScanner
  import opened SqlValues
  import opened Substitution
  import opened SubstitutionLaws
  import opened TemplateReaders

  // ---------------------------------------------------------------- the condition

  /** The template goes on with identifier characters and placeholders, up to a closing brace. */
  predicate Closable(f: WordChars, segs: seq<Segment>) {
    segs != [] &&
    match segs[0]
    case Placeholder(_) => Closable(f, segs[1..])
    case Literal(text) =>
      var n := RunLength(f, text);
      if n < |text| then text[n] == '}' else Closable(f, segs[1..])
  }

  /** No brace of the text is followed by identifier characters and placeholders only, up to a closing brace. */
  ghost predicate NoNestedBraces(f: WordChars, segs: seq<Segment>) {
    segs != [] ==>
      && (segs[0].Literal? && (exists k :: OpenAt(f, segs[0].text, k)) ==> !Closable(f, segs[1..]))
      && NoNestedBraces(f, segs[1..])
  }

  /** For every list of parameters and all values, the exact law of the single pass holds. */
  ghost predicate LawAlwaysHolds(f: WordChars, s: string) {
    forall names, params: map<string, Param> :: AllNames(f, names) ==> LawHolds(f, s, names, Printed(params))
  }

  ghost predicate LawHolds(f: WordChars, s: string, names: seq<string>, vals: map<string, string>) {
    Sequential(s, names, vals) == FillDirect(Scan(f, s), names, vals)
    <==> forall n :: Placed(Scan(f, s), n) ==> !ClashIn(n, names, vals)
  }

  // ---------------------------------------------------------------- it is enough

  /** The first character of the value that is no identifier character closes no brace. */
  ghost predicate ClosesNothing(f: WordChars, v: string) {
    ClosingName(f, v).None?
  }

  lemma PrintedClosesNothing(f: WordChars, p: Param)
    requires ParamToSql(p).Ok?
    ensures ClosesNothing(f, ParamToSql(p).value)
  {
    var v := ParamToSql(p).value;
    PrintedIsTame(f, p);
    assert !f('(') && !f('[') && !f('\'');
    match p
    case Single(Number(n)) => assert '}' !in n by { assert forall k :: 0 <= k < |n| ==> NumeralChar(n[k]); }
    case Single(_) =>
    case List(items) =>
      if AllRows(items) {
        JoinedRowsEnd(CellsOf(items));
      }
  }

  lemma {:induction false} WillCloseIsClosable(f: WordChars, segs: seq<Segment>, vals: map<string, string>)
    requires forall n :: n in vals ==> ClosesNothing(f, vals[n])
    ensures WillClose(f, PiecesOf(segs), vals).Some? ==> Closable(f, segs)
  {
    if segs != [] {
      WillCloseIsClosable(f, segs[1..], vals);
    }
  }

  lemma {:induction false} NestingIsTheOnlyDanger(f: WordChars, segs: seq<Segment>, names: seq<string>,
                                                  vals: map<string, string>)
    requires NoNestedBraces(f, segs) && forall n :: n in vals ==> ClosesNothing(f, vals[n])
    ensures Shut(f, PiecesOf(segs), names, vals)
  {
    if segs != [] {
      NestingIsTheOnlyDanger(f, segs[1..], names, vals);
      WillCloseIsClosable(f, segs[1..], vals);
    }
  }

  /** A template without nested braces is safe for every list of parameters and all values. */
  lemma NoNestingIsSafe(f: WordChars, s: string, names: seq<string>, params: map<string, Param>)
    requires NoNestedBraces(f, Scan(f, s))
    ensures NoAccident(f, s, names, Printed(params))
  {
    forall n | n in Printed(params)
      ensures ClosesNothing(f, Printed(params)[n])
    {
      PrintedClosesNothing(f, params[n]);
    }
    NestingIsTheOnlyDanger(f, Scan(f, s), names, Printed(params));
  }

  /** Where every brace opens a placeholder none is nested. */
  lemma {:induction false} BraceFreeDoNotNest(f: WordChars, segs: seq<Segment>)
    requires LiteralsAreBraceFree(segs)
    ensures NoNestedBraces(f, segs)
  {
    if segs != [] {
      assert forall k :: 0 <= k < |segs| - 1 ==> segs[1..][k] == segs[k + 1];
      BraceFreeDoNotNest(f, segs[1..]);
    }
  }

  lemma OpeningBracesDoNotNest(f: WordChars, s: string)
    requires EveryBraceOpens(f, s)
    ensures NoNestedBraces(f, Scan(f, s))
  {
    BracesOpenExactly(f, s);
    BraceFreeDoNotNest(f, Scan(f, s));
  }

  // ---------------------------------------------------------------- it is needed

  lemma {:induction false} NamesAreShort(f: WordChars, segs: seq<Segment>)
    requires forall k :: 0 <= k < |segs| ==> SegmentOk(f, segs[k])
    ensures forall n :: n in NamesOf(segs) ==> |n| < |Restore(segs)| && IsName(f, n)
  {
    if segs != [] {
      NamesAreShort(f, segs[1..]);
      assert SegmentOk(f, segs[0]);
    }
  }

  /** Ones: a numeral that is longer than anything in the template. */
  function Ones(n: nat): (s: string)
    ensures |s| == n + 1 && forall k :: 0 <= k < |s| ==> s[k] == '1'
  {
    if n == 0 then "1" else "1" + Ones(n - 1)
  }

  /** Every placed name has this value. */
  ghost predicate AllOnes(segs: seq<Segment>, vals: map<string, string>, v: string) {
    forall n :: Placed(segs, n) ==> n in vals && vals[n] == v
  }

  lemma PlacedInTail(segs: seq<Segment>)
    requires segs != []
    ensures forall n :: Placed(segs, n) <==> segs[0] == Placeholder(n) || Placed(segs[1..], n)
  {
    assert segs == [segs[0]] + segs[1..];
  }

  lemma AllIdentRuns(f: WordChars, v: string)
    requires forall k :: 0 <= k < |v| ==> AsciiWordChar(v[k])
    ensures RunLength(f, v) == |v|
  {
    forall k | 0 <= k < |v|
      ensures f(v[k])
    {
      assert AsciiWordChar(v[k]);
    }
    NameRuns(f, v);
  }

  /** What can be closed is closed by such values: the name, and that it stands in the single pass. */
  lemma {:induction false} ClosableCloses(f: WordChars, segs: seq<Segment>, names: seq<string>,
                                          vals: map<string, string>, v: string)
    requires Closable(f, segs) && AllOnes(segs, vals, v) && (forall n :: Placed(segs, n) ==> n in names)
    requires RunLength(f, v) == |v|
    ensures
      var w := WillClose(f, PiecesOf(segs), vals);
      w.Some? && w.value + "}" <= FillDirect(segs, names, vals) && forall k :: 0 <= k < |w.value| ==> f(w.value[k])
  {
    hide RunLength;
    PlacedInTail(segs);
    var tail, more := segs[1..], FillDirect(segs[1..], names, vals);
    match segs[0]
    case Placeholder(name) =>
      ClosableCloses(f, tail, names, vals, v);
      StillCloses(f, v, WillClose(f, PiecesOf(tail), vals).value, more);
    case Literal(text) =>
      if RunLength(f, text) < |text| {
        ClosesHere(f, text, more);
      } else {
        ClosableCloses(f, tail, names, vals, v);
        StillCloses(f, text, WillClose(f, PiecesOf(tail), vals).value, more);
      }
  }

  lemma ClosesHere(f: WordChars, text: string, more: string)
    requires RunLength(f, text) < |text| && text[RunLength(f, text)] == '}'
    ensures
      var w := text[..RunLength(f, text)];
      w + "}" <= text + more && forall k :: 0 <= k < |w| ==> f(w[k])
  {
    var n := RunLength(f, text);
    RunIsMaximal(f, text);
    assert text[..n] + "}" == text[..n + 1] <= text + more;
  }

  lemma StillCloses(f: WordChars, x: string, w: string, more: string)
    requires RunLength(f, x) == |x| && w + "}" <= more && forall k :: 0 <= k < |w| ==> f(w[k])
    ensures (x + w) + "}" <= x + more && forall k :: 0 <= k < |x + w| ==> f((x + w)[k])
  {
    RunIsMaximal(f, x);
    assert more == (w + "}") + more[|w| + 1..];
    assert x + more == ((x + w) + "}") + more[|w| + 1..];
  }

  /** Behind a literal comes a placeholder, so what closes there holds a whole value. */
  lemma ClosingIsLong(f: WordChars, segs: seq<Segment>, vals: map<string, string>, v: string)
    requires segs == [] || segs[0].Placeholder?
    requires AllOnes(segs, vals, v) && RunLength(f, v) == |v|
    ensures
      var w := WillClose(f, PiecesOf(segs), vals);
      w.Some? ==> |w.value| >= |v|
  {
    if segs != [] {
      assert Placed(segs, segs[0].name);
      assert PiecesOf(segs)[0] == Hole(segs[0].name);
    }
  }

  lemma {:induction false} LongValuesHaveNoAccident(f: WordChars, segs: seq<Segment>, names: seq<string>,
                                                    vals: map<string, string>, v: string)
    requires Canonical(f, segs) && AllOnes(segs, vals, v) && RunLength(f, v) == |v|
    requires forall n :: n in names ==> |n| < |v|
    ensures Shut(f, PiecesOf(segs), names, vals)
  {
    if segs != [] {
      var tail := segs[1..];
      CanonicalTail(f, segs);
      PlacedInTail(segs);
      LongValuesHaveNoAccident(f, tail, names, vals, v);
      if segs[0].Literal? {
        ClosingIsLong(f, tail, vals, v);
      }
    }
  }

  lemma CanonicalTail(f: WordChars, segs: seq<Segment>)
    requires segs != [] && Canonical(f, segs)
    ensures Canonical(f, segs[1..])
    ensures segs[0].Literal? && segs[1..] != [] ==> segs[1..][0].Placeholder?
  {
    var tail := segs[1..];
    assert forall k :: 0 <= k < |tail| ==> tail[k] == segs[k + 1];
    if tail != [] {
      assert segs[0].Placeholder? || segs[1].Placeholder?;
    }
  }

  /** The name of the placeholder that the values make out of a stray brace. */
  ghost predicate Accident(f: WordChars, segs: seq<Segment>, names: seq<string>, vals: map<string, string>, m: string) {
    IsName(f, m) && Contains(FillDirect(segs, names, vals), Braced(m))
  }

  lemma ContainsBehind(x: string, y: string, p: string)
    requires Contains(y, p)
    ensures Contains(x + y, p)
  {
    var i: nat :| OccursAt(y, p, i);
    assert (x + y)[|x| + i..|x| + i + |p|] == y[i..i + |p|];
    assert OccursAt(x + y, p, |x| + i);
  }

  lemma {:induction false} NestingMakesAccident(f: WordChars, segs: seq<Segment>, names: seq<string>,
                                                vals: map<string, string>, v: string)
    returns (m: string)
    requires !NoNestedBraces(f, segs) && Canonical(f, segs) && AllOnes(segs, vals, v)
    requires RunLength(f, v) == |v| > 0
    requires forall n :: Placed(segs, n) ==> n in names
    ensures Accident(f, segs, names, vals, m) && |m| >= |v|
  {
    var tail := segs[1..];
    CanonicalTail(f, segs);
    PlacedInTail(segs);
    if !NoNestedBraces(f, tail) {
      m := NestingMakesAccident(f, tail, names, vals, v);
      ContainsBehind(if segs[0].Literal? then segs[0].text else Direct(segs[0].name, names, vals),
                     FillDirect(tail, names, vals), Braced(m));
    } else {
      var k :| OpenAt(f, segs[0].text, k);
      ClosableCloses(f, tail, names, vals, v);
      ClosingIsLong(f, tail, vals, v);
      m := AccidentHere(f, segs[0].text, k, WillClose(f, PiecesOf(tail), vals).value, FillDirect(tail, names, vals));
    }
  }

  lemma AccidentHere(f: WordChars, text: string, k: nat, w: string, more: string) returns (m: string)
    requires OpenAt(f, text, k) && w + "}" <= more && w != "" && forall i :: 0 <= i < |w| ==> f(w[i])
    ensures IsName(f, m) && |m| >= |w| && Contains(text + more, Braced(m))
  {
    var u := text[k + 1..];
    RunIsMaximal(f, u);
    m := u + w;
    var p := Braced(m);
    assert text == text[..k] + (['{'] + u);
    assert more == w + "}" + more[|w| + 1..];
    assert text + more == text[..k] + (p + more[|w| + 1..]);
    assert OccursAt(text + more, p, k);
  }

  lemma {:induction false} UnplacedChangesNothing(segs: seq<Segment>, names: seq<string>, m: string,
                                                  vals: map<string, string>)
    requires !Placed(segs, m)
    ensures FillDirect(segs, names + [m], vals) == FillDirect(segs, names, vals)
  {
    if segs != [] {
      PlacedInTail(segs);
      UnplacedChangesNothing(segs[1..], names, m, vals);
    }
  }

  lemma {:induction false} FillLooksAtPlaced(segs: seq<Segment>, names: seq<string>, a: map<string, string>,
                                             b: map<string, string>)
    requires forall n :: Placed(segs, n) ==> n in a && n in b && a[n] == b[n]
    ensures FillDirect(segs, names, a) == FillDirect(segs, names, b)
  {
    if segs != [] {
      PlacedInTail(segs);
      FillLooksAtPlaced(segs[1..], names, a, b);
    }
  }

  /** The parameters that show it: ones for every placeholder, and an empty string for the accident. */
  function Witness(names: seq<string>, ones: Numeral, m: string): map<string, Param> {
    map n | n in names + [m] :: if n == m then Single(Str("")) else Single(Number(ones))
  }

  lemma WitnessPrints(names: seq<string>, ones: Numeral, m: string)
    requires m !in names
    ensures
      var vals := Printed(Witness(names, ones, m));
      && (forall n :: n in names ==> n in vals && vals[n] == ones)
      && m in vals && vals[m] == "''"
      && (forall n :: n in vals ==> vals[n] == ones || vals[n] == "''")
  {
    assert Escape("") == "";
    assert "'" + ("" + "'") == "''";
    assert m in names + [m];
    assert forall n :: n in names ==> n in names + [m];
  }

  lemma OnesAreNumeral(f: WordChars, n: nat)
    ensures IsNumeral(Ones(n)) && RunLength(f, Ones(n)) == n + 1
  {
    assert forall k :: 0 <= k < |Ones(n)| ==> AsciiWordChar(Ones(n)[k]) && NumeralChar(Ones(n)[k]);
    AllIdentRuns(f, Ones(n));
  }

  /** Values without braces never clash. */
  lemma NoBraceNoClash(names: seq<string>, vals: map<string, string>)
    requires forall n :: n in vals ==> '{' !in vals[n]
    ensures forall n :: !ClashIn(n, names, vals)
  {
    forall n: string, q: string | n in vals
      ensures !Contains(vals[n], Braced(q))
    {
      NoBraceNoOccurrence(vals[n], q);
    }
  }

  /** A template with nested braces breaks the law for some parameters. */
  lemma NestingBreaksTheLaw(f: WordChars, s: string) returns (names: seq<string>, params: map<string, Param>)
    requires !NoNestedBraces(f, Scan(f, s))
    ensures AllNames(f, names) && !LawHolds(f, s, names, Printed(params))
  {
    hide RunLength, FillDirect, NoNestedBraces, Scan;
    var segs := Scan(f, s);
    ScanIsCanonical(f, s);
    ScanRestores(f, s);
    NamesArePlaced(segs);
    NamesAreShort(f, segs);
    OnesAreNumeral(f, |s|);
    var placed, ones := NamesOf(segs), Ones(|s|);
    var guess := map n | n in placed :: ones;
    var m := NestingMakesAccident(f, segs, placed, guess, ones);
    assert m !in placed;
    names, params := placed + [m], Witness(placed, ones, m);
    WitnessPrints(placed, ones, m);
    ChainMissesPass(f, s, placed, m, ones, guess, Printed(params));
  }

  lemma ChainMissesPass(f: WordChars, s: string, placed: seq<string>, m: string, ones: string,
                        guess: map<string, string>, vals: map<string, string>)
    requires Canonical(f, Scan(f, s)) && AllNames(f, placed) && RunLength(f, ones) == |ones|
    requires forall n :: n in placed <==> Placed(Scan(f, s), n)
    requires forall n :: n in placed ==> n in guess && guess[n] == ones && n in vals && vals[n] == ones && |n| < |ones|
    requires m !in placed && Accident(f, Scan(f, s), placed, guess, m) && m in vals && vals[m] == "''"
    requires (forall n :: n in vals ==> vals[n] == ones || vals[n] == "''") && ones != "" && '{' !in ones
    ensures AllNames(f, placed + [m]) && !LawHolds(f, s, placed + [m], vals)
  {
    hide RunLength, FillDirect, Scan;
    var segs := Scan(f, s);
    var pass := FillDirect(segs, placed, vals);
    LongValuesHaveNoAccident(f, segs, placed, vals, ones);
    NoBraceNoClash(placed, vals);
    NoBraceNoClash(placed + [m], vals);
    SequentialIsOnePassExactly(f, s, placed, vals);
    assert Sequential(s, placed, vals) == pass;
    FillLooksAtPlaced(segs, placed, guess, vals);
    UnplacedChangesNothing(segs, placed, m, vals);
    SequentialSnoc(s, placed, m, vals);
    var k := ReplaceChanges(pass, Braced(m), "''");
    assert Sequential(s, placed + [m], vals) != pass;
  }

  /**
  The chain of replacements obeys the exact law of the single pass for every list
  of parameters and all values exactly when the template nests no braces.
  */
  lemma TemplateIsSafeExactly(f: WordChars, s: string)
    ensures LawAlwaysHolds(f, s) <==> NoNestedBraces(f, Scan(f, s))
  {
    if NoNestedBraces(f, Scan(f, s)) {
      forall names, params: map<string, Param> | AllNames(f, names)
        ensures LawHolds(f, s, names, Printed(params))
      {
        NoNestingIsSafe(f, s, names, params);
        RenderingIsOnePassExactly(f, s, names, params);
      }
    } else {
      var names, params := NestingBreaksTheLaw(f, s);
    }
  }
}
