/**
What rendering does to the tokens of a template (`crates/cli/src/pipeline.rs`):
with well placed placeholders, and only with those, the rendered SQL has the
template's own tokens, comments included, and in the place of each placeholder
the tokens of one literal that means the bound value.
*/
module TokenStructure {
  import opened Options
  import opened Text
  import opened Floats
  import opened TemplateScanner
  import opened TemplateReaders
  import opened SqlValues
  import opened SqlLexing
  import opened Substitution
  import opened CliRender

  // ---------------------------------------------------------------- the tokens of a template

  /** A token of the template itself, or the place of a parameter. */
  datatype TemplateToken = Own(token: Token) | Gap(name: string)

  function Owned(ts: seq<Token>): seq<TemplateToken> {
    if ts == [] then [] else [Own(ts[0])] + Owned(ts[1..])
  }

  /** Where a literal may begin: what is pending is finished by it, whatever its value. */
  predicate MayPrecede(q: State) {
    q.Between? || q.Slash? || q.NameQuote?
  }

  /**
  Each placeholder stands between tokens: outside quotes and comments, with
  nothing before it that it could add to, and with a boundary or the end behind it.
  */
  predicate WellPlaced(f: WordChars, q: State, segs: seq<Segment>)
    decreases |segs|
  {
    segs == []
    || match segs[0]
       case Literal(text) => WellPlaced(f, Run(f, q, text).state, segs[1..])
       case Placeholder(_) => MayPrecede(q) && BoundaryFirst(f, segs[1..]) && WellPlaced(f, Between, segs[1..])
  }

  predicate BoundaryFirst(f: WordChars, segs: seq<Segment>) {
    segs == [] || (segs[0].Literal? && segs[0].text != "" && Boundary(f, segs[0].text[0]))
  }

  /** The template's tokens; a placeholder is one, and finishes what stands before it. */
  function TemplateTokens(f: WordChars, q: State, segs: seq<Segment>): Option<seq<TemplateToken>>
    decreases |segs|
  {
    if segs == [] then
      match Finish(q)
      case None => None
      case Some(ts) => Some(Owned(ts))
    else
      match segs[0]
      case Literal(text) =>
        var m := Run(f, q, text);
        Prepend(Owned(m.tokens), TemplateTokens(f, m.state, segs[1..]))
      case Placeholder(name) =>
        match Finish(q)
        case None => None
        case Some(ts) => Prepend(Owned(ts) + [Gap(name)], TemplateTokens(f, Between, segs[1..]))
  }

  /** The template's tokens with each place taken by the tokens of its value. */
  function PutIn(ts: seq<TemplateToken>, params: map<string, ScalarValue>): seq<Token> {
    if ts == [] then []
    else
      (match ts[0]
       case Own(t) => [t]
       case Gap(name) => if Renders(params, name) then LiteralTokens(params[name]) else [])
      + PutIn(ts[1..], params)
  }

  function PutInAll(ts: Option<seq<TemplateToken>>, params: map<string, ScalarValue>): Option<seq<Token>> {
    match ts
    case None => None
    case Some(more) => Some(PutIn(more, params))
  }

  lemma {:induction false} OwnedIsKept(ts: seq<Token>, more: seq<TemplateToken>, params: map<string, ScalarValue>)
    ensures PutIn(Owned(ts) + more, params) == ts + PutIn(more, params)
  {
    if ts == [] {
      assert Owned(ts) + more == more && ts + PutIn(more, params) == PutIn(more, params);
    } else {
      assert Owned(ts) + more == [Own(ts[0])] + (Owned(ts[1..]) + more);
      OwnedIsKept(ts[1..], more, params);
      assert ts == [ts[0]] + ts[1..];
      Assoc([ts[0]], ts[1..], PutIn(more, params));
    }
  }

  lemma OwnedIsKeptAll(ts: seq<Token>, more: Option<seq<TemplateToken>>, params: map<string, ScalarValue>)
    ensures PutInAll(Prepend(Owned(ts), more), params) == Prepend(ts, PutInAll(more, params))
  {
    if more.Some? {
      OwnedIsKept(ts, more.value, params);
    }
  }

  lemma GapIsFilled(ts: seq<Token>, name: string, more: Option<seq<TemplateToken>>, params: map<string, ScalarValue>)
    requires Renders(params, name)
    ensures PutInAll(Prepend(Owned(ts) + [Gap(name)], more), params)
         == Prepend(ts, Prepend(LiteralTokens(params[name]), PutInAll(more, params)))
  {
    if more.Some? {
      Assoc(Owned(ts), [Gap(name)], more.value);
      OwnedIsKept(ts, [Gap(name)] + more.value, params);
      assert ([Gap(name)] + more.value)[1..] == more.value;
    }
  }

  lemma LiteralBegins(v: ScalarValue, rest: string)
    requires LiteralText(v).Ok?
    ensures
      var s := LiteralText(v).value + rest;
      s != "" && s[0] !in {'*', '"'}
  {
    match v
    case Int64(Some(i)) => DigitsReadBack(if i < 0 then -i else i);
    case Int32(Some(i)) => DigitsReadBack(if i < 0 then -i else i);
    case Float64(Some(x)) => MagnitudeLooks(x);
    case Float32(Some(x)) => MagnitudeLooks(x);
    case _ =>
  }

  /** What is pending is finished by the literal. */
  lemma PendingIsFinished(f: WordChars, q: State, s: string)
    requires MayPrecede(q) && s != "" && s[0] !in {'*', '"'}
    ensures Finish(q).Some? && LexFrom(f, q, s) == Prepend(Finish(q).value, LexFrom(f, Between, s))
  {
    match q
    case Between => PrependNothing(LexFrom(f, Between, s));
    case Slash => StartsAfresh(f, q, Symbol('/'), s);
    case NameQuote(t) => StartsAfresh(f, q, Delimited(t), s);
  }

  lemma BoundaryIsKept(f: WordChars, segs: seq<Segment>, params: map<string, ScalarValue>)
    requires BoundaryFirst(f, segs) && Rendered(segs, params).Ok?
    ensures EndsLiteral(f, Rendered(segs, params).value)
  {
  }

  lemma FinishIsKept(q: State, params: map<string, ScalarValue>)
    ensures Finish(q) == PutInAll(match Finish(q) case None => None case Some(ts) => Some(Owned(ts)), params)
  {
    match Finish(q)
    case None =>
    case Some(ts) =>
      OwnedIsKept(ts, [], params);
      assert Owned(ts) + [] == Owned(ts) && ts + [] == ts;
  }

  lemma {:induction false} TokensFrom(f: WordChars, q: State, segs: seq<Segment>, params: map<string, ScalarValue>)
    requires WellPlaced(f, q, segs) && Rendered(segs, params).Ok?
    ensures LexFrom(f, q, Rendered(segs, params).value) == PutInAll(TemplateTokens(f, q, segs), params)
    decreases |segs|
  {
    if segs == [] {
      FinishIsKept(q, params);
    } else {
      var rest := Rendered(segs[1..], params).value;
      match segs[0]
      case Literal(text) =>
        var m := Run(f, q, text);
        LexPieces(f, q, text, rest);
        TokensFrom(f, m.state, segs[1..], params);
        OwnedIsKeptAll(m.tokens, TemplateTokens(f, m.state, segs[1..]), params);
      case Placeholder(name) =>
        BoundaryIsKept(f, segs[1..], params);
        LiteralBegins(params[name], rest);
        PendingIsFinished(f, q, LiteralText(params[name]).value + rest);
        LiteralIsLexed(f, params[name], rest);
        TokensFrom(f, Between, segs[1..], params);
        GapIsFilled(Finish(q).value, name, TemplateTokens(f, Between, segs[1..]), params);
    }
  }

  /**
  Rendering keeps the token structure: whatever the values are, the rendered SQL
  has the template's own tokens, and in the place of each placeholder exactly the
  tokens of one literal, which mean the bound value.
  */
  lemma RenderingKeepsTokens(f: WordChars, sql: string, params: map<string, ScalarValue>)
    requires WellPlaced(f, Between, Scan(f, sql))
    requires Rendered(Scan(f, sql), params).Ok?
    ensures Lex(f, Rendered(Scan(f, sql), params).value)
         == PutInAll(TemplateTokens(f, Between, Scan(f, sql)), params)
    ensures forall n :: Renders(params, n) ==> ReadLiteral(LiteralTokens(params[n])) == Some(MeaningOf(params[n]))
  {
    TokensFrom(f, Between, Scan(f, sql), params);
    forall n | Renders(params, n)
      ensures ReadLiteral(LiteralTokens(params[n])) == Some(MeaningOf(params[n]))
    {
      LiteralMeansItsValue(params[n]);
    }
  }

  // ---------------------------------------------------------------- nothing less will do

  /** A value that breaks the tokens at the first placeholder that is not well placed. */
  function Breaker(f: WordChars, q: State, segs: seq<Segment>): ScalarValue
    decreases |segs|
  {
    if segs == [] then Untyped
    else
      match segs[0]
      case Literal(text) => Breaker(f, Run(f, q, text).state, segs[1..])
      case Placeholder(_) =>
        if q.StringQuote? then Utf8(Some(""))
        else if q.Dash? then Int64(Some(-1))
        else if !MayPrecede(q) then Int64(Some(1))
        else if BoundaryFirst(f, segs[1..]) then Breaker(f, Between, segs[1..])
        else if segs[1].Literal? && segs[1].text != "" && segs[1].text[0] == '\'' then Utf8(Some(""))
        else Int64(Some(1))
  }

  /** Every placeholder has this value. */
  ghost predicate AllAre(segs: seq<Segment>, params: map<string, ScalarValue>, v: ScalarValue) {
    forall n :: Placed(segs, n) ==> n in params && params[n] == v
  }

  ghost predicate NoEmptyLiteral(segs: seq<Segment>) {
    forall k :: 0 <= k < |segs| && segs[k].Literal? ==> segs[k].text != ""
  }

  /** The tokens differ, or there are none. */
  ghost predicate Broken(got: Option<seq<Token>>, first: Token) {
    got.Some? ==> got.value != [] && got.value[0] != first
  }

  lemma SmallNumbers()
    ensures LiteralText(Int64(Some(1))) == Ok("1") && LiteralText(Int64(Some(-1))) == Ok("-1")
    ensures LiteralText(Utf8(Some(""))) == Ok("''")
  {
    assert Digits(1) == ['1'] == "1";
    assert ['-'] + "1" == "-1";
    assert Escape("") == "" && "'" + ("" + "'") == "''";
  }

  /** A digit goes on with a word or a comment, an empty string with a string, a sign after a dash begins a comment. */
  lemma WrongPlace(f: WordChars, q: State, v: ScalarValue, rest: string)
    requires !MayPrecede(q) && Finish(q).Some?
    requires v == if q.StringQuote? then Utf8(Some("")) else if q.Dash? then Int64(Some(-1)) else Int64(Some(1))
    ensures LiteralText(v).Ok? && Finish(q).value != []
    ensures Broken(LexFrom(f, q, LiteralText(v).value + rest), Finish(q).value[0])
  {
    SmallNumbers();
    match q
    case InWord(w) =>
      assert AsciiWordChar('1');
      assert "1" + rest == ['1'] + rest;
      LexOne(f, q, '1', rest);
      WordRunsOn(f, w + ['1'], rest);
    case LineComment(t) =>
      assert "1" + rest == ['1'] + rest;
      LexOne(f, q, '1', rest);
      CommentRunsOn(f, t + ['1'], rest);
    case StringQuote(t) =>
      assert "''" + rest == ['\''] + (['\''] + rest);
      LexOne(f, q, '\'', ['\''] + rest);
      LexOne(f, InString(t + ['\'']), '\'', rest);
      StringRunsOn(f, StringQuote(t + ['\'']), rest);
    case Dash =>
      assert "-1" + rest == ['-'] + (['1'] + rest);
      LexOne(f, q, '-', ['1'] + rest);
      CommentRunsOn(f, "", ['1'] + rest);
  }

  /** What follows goes on with the literal. */
  predicate RunsOn(f: WordChars, v: ScalarValue, rest: string) {
    && rest != ""
    && ((v == Int64(Some(1)) && WordLike(f, rest[0])) || (v == Utf8(Some("")) && rest[0] == '\''))
  }

  /** Without a boundary behind it a digit runs on into a word, and an empty string into a string. */
  lemma WrongNeighbour(f: WordChars, v: ScalarValue, rest: string)
    requires RunsOn(f, v, rest)
    ensures LiteralText(v).Ok? && LiteralTokens(v) != []
    ensures Broken(LexFrom(f, Between, LiteralText(v).value + rest), LiteralTokens(v)[0])
  {
    SmallNumbers();
    var c, more := rest[0], rest[1..];
    assert rest == [c] + more;
    if v == Int64(Some(1)) {
      assert AsciiWordChar('1') && Digits(1) == "1";
      assert "1" + rest == ['1'] + rest;
      LexOne(f, Between, '1', rest);
      LexOne(f, InWord(['1']), c, more);
      WordRunsOn(f, ['1'] + [c], more);
    } else {
      assert !WordLike(f, '\'');
      assert "''" + rest == ['\''] + (['\''] + rest);
      LexOne(f, Between, '\'', ['\''] + rest);
      LexOne(f, InString(""), '\'', rest);
      LexOne(f, StringQuote(""), c, more);
      StringRunsOn(f, InString("" + [c]), more);
    }
  }

  lemma BrokenHere(ts: seq<Token>, name: string, tail: Option<seq<TemplateToken>>, params: map<string, ScalarValue>,
                   got: Option<seq<Token>>)
    requires Renders(params, name) && ts != [] && Broken(got, ts[0])
    ensures tail.Some? ==> got != PutInAll(Prepend(Owned(ts) + [Gap(name)], tail), params)
  {
    GapIsFilled(ts, name, tail, params);
  }

  lemma BrokenBehind(ts: seq<Token>, name: string, tail: Option<seq<TemplateToken>>, params: map<string, ScalarValue>,
                     got: Option<seq<Token>>)
    requires Renders(params, name) && LiteralTokens(params[name]) != []
    requires Broken(got, LiteralTokens(params[name])[0])
    ensures tail.Some? ==> Prepend(ts, got) != PutInAll(Prepend(Owned(ts) + [Gap(name)], tail), params)
  {
    GapIsFilled(ts, name, tail, params);
    PrependCancels(ts, got, Prepend(LiteralTokens(params[name]), PutInAll(tail, params)));
  }

  lemma BadNeighbour(f: WordChars, segs: seq<Segment>, params: map<string, ScalarValue>, v: ScalarValue)
    requires !BoundaryFirst(f, segs) && NoEmptyLiteral(segs) && AllAre(segs, params, v) && Rendered(segs, params).Ok?
    requires v == if segs[0].Literal? && segs[0].text != "" && segs[0].text[0] == '\''
                  then Utf8(Some("")) else Int64(Some(1))
    ensures RunsOn(f, v, Rendered(segs, params).value)
  {
    SmallNumbers();
    assert AsciiWordChar('1');
    if segs[0].Placeholder? {
      assert Placed(segs, segs[0].name);
    }
  }

  lemma AllAreInTail(segs: seq<Segment>, params: map<string, ScalarValue>, v: ScalarValue)
    requires segs != [] && AllAre(segs, params, v)
    ensures AllAre(segs[1..], params, v)
    ensures segs[0].Placeholder? ==> segs[0].name in params && params[segs[0].name] == v
  {
    assert segs == [segs[0]] + segs[1..];
    if segs[0].Placeholder? {
      assert Placed(segs, segs[0].name);
    }
  }

  /** With that value everywhere, the rendered SQL does not have the template's tokens. */
  lemma {:induction false} TokensBreak(f: WordChars, q: State, segs: seq<Segment>, params: map<string, ScalarValue>,
                                       v: ScalarValue)
    requires !WellPlaced(f, q, segs) && v == Breaker(f, q, segs) && AllAre(segs, params, v) && NoEmptyLiteral(segs)
    requires Rendered(segs, params).Ok? && TemplateTokens(f, q, segs).Some?
    ensures LexFrom(f, q, Rendered(segs, params).value) != PutInAll(TemplateTokens(f, q, segs), params)
    decreases |segs|
  {
    var tail, rest := segs[1..], Rendered(segs[1..], params).value;
    AllAreInTail(segs, params, v);
    assert NoEmptyLiteral(tail) by {
      assert forall k :: 0 <= k < |tail| ==> tail[k] == segs[k + 1];
    }
    match segs[0]
    case Literal(text) =>
      var m := Run(f, q, text);
      TokensBreak(f, m.state, tail, params, v);
      LexPieces(f, q, text, rest);
      OwnedIsKeptAll(m.tokens, TemplateTokens(f, m.state, tail), params);
      PrependCancels(m.tokens, LexFrom(f, m.state, rest), PutInAll(TemplateTokens(f, m.state, tail), params));
    case Placeholder(name) =>
      PlaceholderBreaks(f, q, segs, params, v, name);
  }

  lemma PlaceholderBreaks(f: WordChars, q: State, segs: seq<Segment>, params: map<string, ScalarValue>, v: ScalarValue,
                          name: string)
    requires segs != [] && segs[0] == Placeholder(name) && name in params && params[name] == v
    requires !WellPlaced(f, q, segs) && v == Breaker(f, q, segs)
    requires AllAre(segs[1..], params, v) && NoEmptyLiteral(segs[1..])
    requires Rendered(segs, params).Ok? && TemplateTokens(f, q, segs).Some?
    ensures LexFrom(f, q, Rendered(segs, params).value) != PutInAll(TemplateTokens(f, q, segs), params)
    decreases |segs|, 0
  {
    var tail, rest := segs[1..], Rendered(segs[1..], params).value;
    var text, more, pending := LiteralText(v).value, TemplateTokens(f, Between, tail), Finish(q).value;
    if !MayPrecede(q) {
      WrongPlace(f, q, v, rest);
      BrokenHere(pending, name, more, params, LexFrom(f, q, text + rest));
    } else {
      LiteralBegins(v, rest);
      PendingIsFinished(f, q, text + rest);
      if BoundaryFirst(f, tail) {
        TokensBreak(f, Between, tail, params, v);
        BoundaryIsKept(f, tail, params);
        LiteralIsLexed(f, v, rest);
        GapIsFilled(pending, name, more, params);
        PrependCancels(pending, Prepend(LiteralTokens(v), LexFrom(f, Between, rest)),
                       Prepend(LiteralTokens(v), PutInAll(more, params)));
        PrependCancels(LiteralTokens(v), LexFrom(f, Between, rest), PutInAll(more, params));
      } else {
        BadNeighbour(f, tail, params, v);
        WrongNeighbour(f, v, rest);
        BrokenBehind(pending, name, more, params, LexFrom(f, Between, text + rest));
      }
    }
  }

  /** The template has tokens, and keeps them with every choice of values that can be printed. */
  ghost predicate KeptForAll(f: WordChars, segs: seq<Segment>) {
    && TemplateTokens(f, Between, segs).Some?
    && forall params :: Rendered(segs, params).Ok? ==>
         Lex(f, Rendered(segs, params).value) == PutInAll(TemplateTokens(f, Between, segs), params)
  }

  /** All values keep the tokens of a template exactly when each of its placeholders is well placed. */
  lemma TokensAreKeptExactly(f: WordChars, sql: string)
    ensures KeptForAll(f, Scan(f, sql))
       <==> TemplateTokens(f, Between, Scan(f, sql)).Some? && WellPlaced(f, Between, Scan(f, sql))
  {
    var segs := Scan(f, sql);
    if WellPlaced(f, Between, segs) {
      forall params | Rendered(segs, params).Ok?
        ensures Lex(f, Rendered(segs, params).value) == PutInAll(TemplateTokens(f, Between, segs), params)
      {
        TokensFrom(f, Between, segs, params);
      }
    } else if TemplateTokens(f, Between, segs).Some? {
      ScanIsCanonical(f, sql);
      var v, names := Breaker(f, Between, segs), NamesOf(segs);
      var params := map n | n in names :: v;
      NamesArePlaced(segs);
      BreakerRenders(f, Between, segs);
      RenderedExactly(segs, names, params);
      assert forall k :: 0 <= k < |segs| ==> SegmentOk(f, segs[k]);
      TokensBreak(f, Between, segs, params, v);
    }
  }

  lemma {:induction false} BreakerRenders(f: WordChars, q: State, segs: seq<Segment>)
    ensures LiteralText(Breaker(f, q, segs)).Ok?
    decreases |segs|
  {
    if segs != [] {
      match segs[0]
      case Literal(text) => BreakerRenders(f, Run(f, q, text).state, segs[1..]);
      case Placeholder(_) => BreakerRenders(f, Between, segs[1..]);
    }
  }

  // ---------------------------------------------------------------- outside the condition

  lemma ScanOneAfterOne(f: WordChars, c: char, name: string)
    requires c != '{' && IsName(f, name)
    ensures Scan(f, [c] + Braced(name)) == [Literal([c]), Placeholder(name)]
  {
    EveryPlaceholderIsFound(f, [c], name, "");
    assert [c] + Braced(name) + "" == [c] + Braced(name);
    assert LiteralLength(f, [c][1..]) == 0;
    ScanAllLiteral(f, [c]);
    assert [Literal([c])] + [Placeholder(name)] + [] == [Literal([c]), Placeholder(name)];
  }

  lemma TwoSegments(a: Segment, b: Segment, params: map<string, ScalarValue>)
    requires SegmentSql(a, params).Ok? && SegmentSql(b, params).Ok?
    ensures Rendered([a, b], params) == Ok(SegmentSql(a, params).value + SegmentSql(b, params).value)
  {
    assert [a, b][1..] == [b] && [b][1..] == [];
    var x, y := SegmentSql(a, params).value, SegmentSql(b, params).value;
    assert y + "" == y;
    assert Rendered([b], params) == Behind(y, Ok(""));
  }

  lemma MinusIsDash(f: WordChars)
    ensures Run(f, Between, ['-']).state == Dash
    ensures !WellPlaced(f, Between, [Literal(['-']), Placeholder("a")])
  {
    assert !WordLike(f, '-');
    assert ['-'][1..] == "";
    assert [Literal(['-']), Placeholder("a")][1..] == [Placeholder("a")];
  }

  lemma DashesBeginComment(f: WordChars)
    ensures Lex(f, "--1") == Some([Comment("1")])
  {
    assert "--1" == ['-'] + (['-'] + (['1'] + ""));
    assert !WordLike(f, '-');
    LexOne(f, Between, '-', ['-'] + (['1'] + ""));
    LexOne(f, Dash, '-', ['1'] + "");
    LexOne(f, LineComment(""), '1', "");
    assert "" + ['1'] == "1";
    LexEnd(f, LineComment("1"));
  }

  /** Behind a minus sign a negative number becomes a comment: the value is gone. */
  lemma MinusBeforeNegativeIsComment(f: WordChars)
    ensures
      var params := map["a" := Int64(Some(-1))];
      var segs := [Literal("-"), Placeholder("a")];
      && Scan(f, "-{a}") == segs
      && !WellPlaced(f, Between, segs)
      && Rendered(segs, params) == Ok("--1")
      && Lex(f, "--1") == Some([Comment("1")])
  {
    hide Scan, LexFrom, Run;
    var params := map["a" := Int64(Some(-1))];
    assert "-" == ['-'] && ['-'] + Braced("a") == "-{a}" && AsciiWordChar('a');
    ScanOneAfterOne(f, '-', "a");
    MinusIsDash(f);
    assert Decimal(-1) == "-1";
    TwoSegments(Literal("-"), Placeholder("a"), params);
    assert "-" + "-1" == "--1";
    DashesBeginComment(f);
  }

  lemma OneLetterQuoted(c: char)
    requires c != '\''
    ensures Quote([c]) == ['\'', c, '\'']
  {
    EscapeOne([c]);
    assert Escape([c]) == [c];
  }

  lemma QuoteInTheMiddle(c: char, d: char)
    requires c != '\'' && d != '\''
    ensures Quote([c, '\'', d]) == ['\'', c, '\'', '\'', d, '\'']
  {
    EscapeOne([c, '\'', d]);
    assert [c, '\'', d][1..] == ['\'', d];
    EscapeOne(['\'', d]);
    assert ['\'', d][1..] == [d];
    EscapeOne([d]);
    assert [d][1..] == "" && Escape("") == "";
    assert Escape([c, '\'', d]) == [c, '\'', '\'', d];
  }

  /** A string in front of a quote runs on into what follows it. */
  lemma StringBeforeQuoteRunsOn(f: WordChars)
    ensures
      var params := map["a" := Utf8(Some("v"))];
      var segs := [Placeholder("a"), Literal("'x'")];
      && !WellPlaced(f, Between, segs)
      && Rendered(segs, params) == Ok("'v''x'")
      && Lex(f, "'v''x'") == Some([StringLiteral("v'x")])
  {
    var params := map["a" := Utf8(Some("v"))];
    assert [Placeholder("a"), Literal("'x'")][1..] == [Literal("'x'")];
    TwoSegments(Placeholder("a"), Literal("'x'"), params);
    OneLetterQuoted('v');
    QuoteInTheMiddle('v', 'x');
    QuotedIsOneToken(f, "v'x", "");
    assert Quote("v'x") + "" == Quote("v'x") == "'v''x'" == Quote("v") + "'x'";
    assert [StringLiteral("v'x")] + [] == [StringLiteral("v'x")];
  }
}
