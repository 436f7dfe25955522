/**
The CLI's renderer (`crates/cli/src/pipeline.rs`) against the server's chain of
replacements (`crates/server/src/pipeline_handlers.rs`), on the same template and
the same JSON values: on any template, exactly when they give the same SQL.
*/
module RendererAgreement {
  import opened Options
  import opened Text
  import opened Floats
  import opened TemplateScanner
  import opened SqlValues
  import opened Substitution
  import opened SubstitutionLaws
  import opened OnePass
  import opened StrayCounts
  import opened CliRender
  import opened JsonNumbers

  /** A JSON value that is neither an array nor an object. */
  datatype Json = JNull | JBool(b: bool) | JNumber(n: JsonNumber) | JString(s: string)

  predicate IsJson(j: Json) {
    j.JNumber? ==> IsNumber(j.n)
  }

  lemma {:induction false} DecimalIsNumeral(i: int)
    ensures IsNumeral(Decimal(i))
  {
    DigitsReadBack(if i < 0 then -i else i);
  }

  lemma ExponentIsNumeral(e: string)
    requires ReadExponent(e).Some?
    ensures forall k :: 0 <= k < |e| ==> NumeralChar(e[k])
  {
    if e != "" {
      var t := e[1..];
      assert forall k :: 1 <= k < |e| ==> e[k] == t[k - 1];
      if !AllDigits(t) {
        assert forall k :: 1 <= k < |t| ==> t[k] == t[1..][k - 1];
      }
    }
  }

  lemma PlainLooks(x: Double)
    requires IsDouble(x)
    ensures
      var text := WrittenOut(x);
      text != "" && IsDigit(text[0]) && forall k :: 0 <= k < |text| ==> IsDigit(text[k]) || text[k] == '.'
  {
    hide DigitsValue;
    if Integral(x) {
      PaddedDigits(x);
    } else {
      var _, _ := PointIsPlaced(x.digits, x.point);
    }
  }

  lemma TextIsNumeral(n: JsonNumber)
    requires IsNumber(n)
    ensures IsNumeral(ServerText(n))
  {
    hide DigitsValue, ReadExponent, WrittenOut;
    match n
    case Integer(i) => DecimalIsNumeral(i);
    case Floating(x, None) => PlainLooks(x);
    case Floating(x, Some(e)) =>
      ExponentIsNumeral(e);
      var text := Scientific(x.digits, e);
      assert text[0] == x.digits[0] && forall k :: 0 <= k < |text| ==> NumeralChar(text[k]);
  }

  /** What the server is given. */
  function ServerValue(j: Json): Scalar
    requires IsJson(j)
  {
    match j
    case JNull => Null
    case JBool(b) => Bool(b)
    case JNumber(n) => TextIsNumeral(n); Number(ServerText(n))
    case JString(s) => Str(s)
  }

  /** What the CLI makes of the same value. */
  function StringToScalar(j: Json): ScalarValue
    requires IsJson(j)
  {
    match j
    case JNull => Utf8(None)
    case JBool(b) => Boolean(Some(b))
    case JNumber(n) => NumberToScalar(n)
    case JString(s) => Utf8(Some(s))
  }

  /** Narrow and large types print like the usual ones. */
  function Widened(v: ScalarValue): ScalarValue {
    match v
    case LargeUtf8(s) => Utf8(s)
    case Int32(i) => Int64(i)
    case Float32(x) => Float64(x)
    case _ => v
  }

  predicate PrintsAlike(j: Json)
    requires IsJson(j)
  {
    match j
    case JBool(_) => false
    case JNumber(n) => NumberPrintsAlike(n)
    case _ => true
  }

  /** The CLI's text goes on where the server's ends. */
  predicate Longer(x: string, y: string) {
    x == y + ".0" && y != "" && y[0] != '.' && y[0] != '0'
  }

  /** A character that tells a stray replacement. */
  predicate Telling(c: char) {
    c == '\'' || c == '{'
  }

  lemma PlainText(s: string, c: char)
    requires (forall k :: 0 <= k < |s| ==> NumeralChar(s[k])) && Telling(c)
    ensures Count(s, c) == 0
  {
    CountZero(s, c);
  }

  lemma FloatIsNumeral(y: Float)
    requires !y.NonFinite?
    ensures LiteralText(Float64(Some(y))).Ok?
    ensures forall c :: c in LiteralText(Float64(Some(y))).value ==> NumeralChar(c)
  {
    hide Magnitude, Size, ReadDecimal;
    MagnitudeLooks(y);
    assert forall c :: c in Magnitude(y) ==> NumeralChar(c);
  }

  lemma CliTextIsNumeral(n: JsonNumber)
    requires IsNumber(n)
    ensures forall k :: 0 <= k < |CliText(n)| ==> NumeralChar(CliText(n)[k])
  {
    hide Magnitude, NearestDouble, DigitsValue, IsDouble, ReadExponent;
    match n
    case Integer(i) =>
      if i < TWO_TO_63 {
        DecimalIsNumeral(i);
      } else {
        FloatIsNumeral(WholeFloat(false, NearestDouble(i)));
      }
    case Floating(x, _) => FloatIsNumeral(ToFloat(x));
  }

  lemma NumberText(n: JsonNumber)
    requires IsNumber(n)
    ensures forall k :: 0 <= k < |CliText(n)| ==> NumeralChar(CliText(n)[k])
    ensures forall k :: 0 <= k < |ServerText(n)| ==> NumeralChar(ServerText(n)[k])
    ensures ServerText(n) != "" && ServerText(n)[0] != '.'
    ensures n.Integer? && n.i >= TWO_TO_63 ==> ServerText(n)[0] != '0'
  {
    TextIsNumeral(n);
    CliTextIsNumeral(n);
    hide CliText, IsDouble, ReadExponent;
    if n.Integer? && n.i >= TWO_TO_63 {
      NoLeadingZero(n.i);
    }
  }

  lemma {:induction false} NoLeadingZero(n: nat)
    requires n > 0
    ensures Digits(n)[0] != '0'
  {
    DigitsReadBack(n);
    if n >= 10 {
      DigitsReadBack(n / 10);
      NoLeadingZero(n / 10);
    }
  }

  /** The same value is printed alike exactly then; else the texts part, or the CLI's is longer by `.0`. */
  lemma PrintedAlikeExactly(j: Json, v: ScalarValue)
    requires IsJson(j) && Widened(v) == StringToScalar(j)
    ensures LiteralText(v).Ok?
    ensures
      var x, y := LiteralText(v).value, ScalarToSql(ServerValue(j));
      && (x == y <==> PrintsAlike(j))
      && (!PrintsAlike(j) ==> Longer(x, y) || Parted(x, y))
      && (forall c :: Telling(c) ==> Count(x, c) == Count(y, c))
  {
    hide NumberPrintsAlike, ServerText;
    assert LiteralText(v) == LiteralText(Widened(v));
    match j
    case JNumber(n) =>
      NumberPrintsAlikeExactly(n);
      NumberText(n);
      forall c | Telling(c)
        ensures Count(CliText(n), c) == Count(ServerText(n), c)
      {
        PlainText(CliText(n), c);
        PlainText(ServerText(n), c);
      }
      if !NumberPrintsAlike(n) && n.Integer? {
        LargeOnly(n);
      }
    case JBool(b) =>
      var x, y := if b then "TRUE" else "FALSE", if b then "true" else "false";
      assert x[..0] == y[..0] && x[0] != y[0];
      forall c | Telling(c)
        ensures Count(x, c) == Count(y, c)
      {
        CountZero(x, c);
        CountZero(y, c);
      }
    case _ =>
  }

  lemma LargeOnly(n: JsonNumber)
    requires IsNumber(n) && n.Integer? && !NumberPrintsAlike(n)
    ensures n.i >= TWO_TO_63
  {
  }

  // ---------------------------------------------------------------- one pass against one pass

  /** Both sides were given the same values for the placeholders. */
  ghost predicate SameInput(segs: seq<Segment>, names: seq<string>, given: map<string, Json>,
                            cli: map<string, ScalarValue>, server: map<string, Param>) {
    forall n :: Placed(segs, n) ==>
      && n in names && n in given && n in cli && n in server
      && IsJson(given[n])
      && Widened(cli[n]) == StringToScalar(given[n])
      && server[n] == Single(ServerValue(given[n]))
  }

  ghost predicate AllAlike(segs: seq<Segment>, given: map<string, Json>)
    requires forall n :: Placed(segs, n) ==> n in given && IsJson(given[n])
  {
    forall n :: Placed(segs, n) ==> PrintsAlike(given[n])
  }

  /** Two characters of a point and a zero that one side is ahead with. */
  predicate Ahead(p: string) {
    p == ".0" || p == "0."
  }

  /** Common text moves what is ahead behind it. */
  lemma {:induction false} AheadMoves(p: string, t: string, a: string, b: string) returns (q: string)
    requires Ahead(p)
    ensures Ahead(q) && (p + (t + a) == t + b ==> q + a == b)
    decreases |t|
  {
    if t == "" {
      q := p;
      assert t + a == a && t + b == b;
    } else {
      var turned := [p[1], p[0]];
      q := AheadMoves(turned, t[1..], a, b);
      if p + (t + a) == t + b {
        assert t == [t[0]] + t[1..];
        assert (p + (t + a))[0] == (t + b)[0] == t[0];
        assert p + (t + a) == [p[0]] + (turned + (t[1..] + a));
        assert t + b == [t[0]] + (t[1..] + b);
        SameFront([p[0]], turned + (t[1..] + a), t[1..] + b);
      }
    }
  }

  lemma OtherBeginning(p: string, y: string, a: string, b: string)
    requires Ahead(p) && y != "" && y[0] != '.' && y[0] != '0'
    ensures p + a != y + b
  {
    assert (p + a)[0] != (y + b)[0];
  }

  lemma Head(segs: seq<Segment>)
    requires segs != []
    ensures forall n :: Placed(segs, n) <==> segs[0] == Placeholder(n) || Placed(segs[1..], n)
  {
    assert segs == [segs[0]] + segs[1..];
  }

  /** Once the CLI is ahead by two characters the server does not catch up. */
  lemma {:induction false} StaysAhead(p: string, segs: seq<Segment>, names: seq<string>, given: map<string, Json>,
                                      cli: map<string, ScalarValue>, server: map<string, Param>)
    requires Ahead(p) && SameInput(segs, names, given, cli, server)
    ensures Rendered(segs, cli).Ok? && p + Rendered(segs, cli).value != FillDirect(segs, names, Printed(server))
    decreases |segs|
  {
    if segs != [] {
      var tail := segs[1..];
      Head(segs);
      StaysAhead(p, tail, names, given, cli, server);
      var a, b := Rendered(tail, cli).value, FillDirect(tail, names, Printed(server));
      match segs[0]
      case Literal(text) =>
        var q := AheadMoves(p, text, a, b);
        StaysAhead(q, tail, names, given, cli, server);
      case Placeholder(n) =>
        var j := given[n];
        PrintedAlikeExactly(j, cli[n]);
        var x, y := LiteralText(cli[n]).value, ScalarToSql(ServerValue(j));
        if PrintsAlike(j) {
          var q := AheadMoves(p, y, a, b);
          StaysAhead(q, tail, names, given, cli, server);
        } else {
          UnlikeBegins(j);
          OtherBeginning(p, y, x + a, b);
        }
    }
  }

  /** What is not printed alike begins with no point or zero. */
  lemma UnlikeBegins(j: Json)
    requires IsJson(j) && !PrintsAlike(j)
    ensures
      var y := ScalarToSql(ServerValue(j));
      y != "" && y[0] != '.' && y[0] != '0'
  {
    if j.JNumber? {
      NumberText(j.n);
      match j.n
      case Integer(_) =>
      case Floating(x, Some(_)) => ScientificBegins(x);
      case Floating(x, None) => InexactBegins(x);
    }
  }

  lemma ScientificBegins(x: Double)
    requires IsDouble(x) && x.point != 1
    ensures x.digits[0] != '0'
  {
  }

  lemma ZeroIsExact(x: Double)
    requires IsDouble(x) && Integral(x) && x.digits == "0"
    ensures x.whole == DigitsValue(Padded(x))
  {
    assert Padded(x) == "0";
    assert DigitsValue("0") == 0;
  }

  lemma InexactBegins(x: Double)
    requires IsDouble(x) && Integral(x) && x.whole != DigitsValue(Padded(x))
    ensures x.digits[0] != '0'
  {
    if x.digits == "0" {
      ZeroIsExact(x);
      assert false;
    }
  }

  lemma {:induction false} OnePassesAgree(segs: seq<Segment>, names: seq<string>, given: map<string, Json>,
                                          cli: map<string, ScalarValue>, server: map<string, Param>)
    requires SameInput(segs, names, given, cli, server)
    ensures Rendered(segs, cli).Ok?
    ensures Rendered(segs, cli).value == FillDirect(segs, names, Printed(server)) <==> AllAlike(segs, given)
  {
    if segs != [] {
      var tail := segs[1..];
      Head(segs);
      OnePassesAgree(tail, names, given, cli, server);
      var a, b := Rendered(tail, cli).value, FillDirect(tail, names, Printed(server));
      match segs[0]
      case Literal(text) => SameFront(text, a, b);
      case Placeholder(n) =>
        var j := given[n];
        PrintedAlikeExactly(j, cli[n]);
        var x, y := LiteralText(cli[n]).value, ScalarToSql(ServerValue(j));
        if PrintsAlike(j) {
          SameFront(x, a, b);
        } else if Parted(x, y) {
          PartedDiffer(x, y, a, b);
        } else {
          StaysAhead(".0", tail, names, given, cli, server);
          Assoc(y, ".0", a);
          SameFront(y, ".0" + a, b);
        }
    }
  }

  // ---------------------------------------------------------------- on any template

  lemma {:induction false} SameCounts(segs: seq<Segment>, names: seq<string>, given: map<string, Json>,
                                      cli: map<string, ScalarValue>, server: map<string, Param>, c: char)
    requires SameInput(segs, names, given, cli, server) && Telling(c)
    ensures Rendered(segs, cli).Ok?
    ensures Count(Rendered(segs, cli).value, c) == Count(FillDirect(segs, names, Printed(server)), c)
  {
    if segs != [] {
      var tail := segs[1..];
      Head(segs);
      SameCounts(tail, names, given, cli, server, c);
      var a, b := Rendered(tail, cli).value, FillDirect(tail, names, Printed(server));
      match segs[0]
      case Literal(text) =>
        CountAppend(text, a, c);
        CountAppend(text, b, c);
      case Placeholder(n) =>
        PrintedAlikeExactly(given[n], cli[n]);
        CountAppend(LiteralText(cli[n]).value, a, c);
        CountAppend(ScalarToSql(ServerValue(given[n])), b, c);
    }
  }

  /**
  On any template the CLI and the server give the same SQL for the same JSON values
  exactly when no replacement is stray and every placed value is printed alike.
  */
  lemma CliAndServerAgreeExactly(f: WordChars, sql: string, names: seq<string>, given: map<string, Json>,
                                 cli: map<string, ScalarValue>, server: map<string, Param>)
    requires AllNames(f, names) && SameInput(Scan(f, sql), names, given, cli, server)
    ensures Rendered(Scan(f, sql), cli) == Ok(Sequential(sql, names, Printed(server)))
       <==> NeverStray(Scan(f, sql), [], names, Printed(server)) && AllAlike(Scan(f, sql), given)
  {
    hide Sequential, FillDirect, Rendered, SameInput, AllAlike, NeverStray, Printed, Count;
    var segs, vals := Scan(f, sql), Printed(server);
    AllPrintedAreTame(f, server);
    PrintedBracesAreQuoted(server);
    OnePassesAgree(segs, names, given, cli, server);
    SameCounts(segs, names, given, cli, server, '\'');
    SameCounts(segs, names, given, cli, server, '{');
    CountsTellExactly(f, sql, names, vals);
    ChainIsOnePassExactly(f, sql, names, vals);
  }

  /** Where no brace of the template's own text is closed, the values alone decide. */
  lemma AgreementOnSafeTemplates(f: WordChars, sql: string, names: seq<string>, given: map<string, Json>,
                                 cli: map<string, ScalarValue>, server: map<string, Param>)
    requires AllNames(f, names) && SameInput(Scan(f, sql), names, given, cli, server)
    requires NoAccident(f, sql, names, Printed(server))
    ensures Rendered(Scan(f, sql), cli) == Ok(Sequential(sql, names, Printed(server)))
       <==> (forall n :: Placed(Scan(f, sql), n) ==> !ClashIn(n, names, Printed(server)))
            && AllAlike(Scan(f, sql), given)
  {
    CliAndServerAgreeExactly(f, sql, names, given, cli, server);
    ServerChainIsOnePassExactly(f, sql, names, server);
    RenderingIsOnePassExactly(f, sql, names, server);
  }
}
