/**
The CLI's renderer (`crates/cli/src/pipeline.rs`): one pass over the scanned
segments, each placeholder replaced by a SQL literal that, lexed and read back,
means the bound value.
*/
module CliRender {
  import opened Options
  import opened Text
  import opened Floats
  import opened TemplateScanner
  import opened SqlValues
  import opened SqlLexing
  import opened Substitution

  // ---------------------------------------------------------------- values

  /**
  A 64-bit float as `render_float` looks at it: its exact magnitude if it has no
  fraction, else its shortest decimal, 0.ddd times ten to the power of `point`.
  */
  datatype AnyFloat =
    | WholeFloat(negative: bool, whole: nat)
    | FractionFloat(negative: bool, digits: string, point: int)
    | NonFinite

  type Float = x: AnyFloat | x.FractionFloat? ==> IsFractional(x.digits, x.point) witness NonFinite

  datatype ScalarValue =
    | Utf8(text: Option<string>)
    | LargeUtf8(text: Option<string>)
    | Untyped
    | Int64(whole: Option<int>)
    | Int32(whole: Option<int>)
    | Float64(float: Option<Float>)
    | Float32(float: Option<Float>)
    | Boolean(truth: Option<bool>)
    | OtherType

  datatype RenderError = MissingValue(name: string) | NonFiniteFloat | UnsupportedType

  // ---------------------------------------------------------------- printing

  /** The text of a finite float without its sign. */
  function Magnitude(x: Float): string
    requires !x.NonFinite?
  {
    match x
    case WholeFloat(_, whole) => Digits(whole) + ".0"
    case FractionFloat(_, digits, point) => Positional(digits, point)
  }

  /** `render_float` */
  function RenderFloat(x: Float): Result<string, RenderError> {
    if x.NonFinite? then Err(NonFiniteFloat)
    else Ok(if x.negative then ['-'] + Magnitude(x) else Magnitude(x))
  }

  function LiteralText(v: ScalarValue): Result<string, RenderError> {
    match v
    case Utf8(Some(s)) => Ok(Quote(s))
    case LargeUtf8(Some(s)) => Ok(Quote(s))
    case Int64(Some(i)) => Ok(Decimal(i))
    case Int32(Some(i)) => Ok(Decimal(i))
    case Float64(Some(x)) => RenderFloat(x)
    case Float32(Some(x)) => RenderFloat(x)
    case Boolean(Some(b)) => Ok(if b then "TRUE" else "FALSE")
    case OtherType => Err(UnsupportedType)
    case _ => Ok("NULL")
  }

  /** What a segment contributes, or why it stops the rendering. */
  function SegmentSql(seg: Segment, params: map<string, ScalarValue>): Result<string, RenderError> {
    match seg
    case Literal(text) => Ok(text)
    case Placeholder(name) => if name in params then LiteralText(params[name]) else Err(MissingValue(name))
  }

  function Behind(prefix: string, r: Result<string, RenderError>): Result<string, RenderError> {
    match r
    case Ok(s) => Ok(prefix + s)
    case Err(_) => r
  }

  function Rendered(segs: seq<Segment>, params: map<string, ScalarValue>): Result<string, RenderError> {
    if segs == [] then Ok("")
    else
      match SegmentSql(segs[0], params)
      case Err(why) => Err(why)
      case Ok(s) => Behind(s, Rendered(segs[1..], params))
  }

  /** The renderer's loop: it stops at the first placeholder it cannot fill. */
  method RenderSqlWithInlineParams(f: WordChars, sql: string, params: map<string, ScalarValue>)
    returns (r: Result<string, RenderError>)
    ensures r == Rendered(Scan(f, sql), params)
  {
    var segs := ScanSegments(f, sql);
    var out := "";
    BehindNothing(Rendered(segs, params));
    assert segs[0..] == segs;
    for i := 0 to |segs|
      invariant Behind(out, Rendered(segs[i..], params)) == Rendered(segs, params)
    {
      assert segs[i..][1..] == segs[i + 1..];
      match SegmentSql(segs[i], params) {
        case Err(why) => return Err(why);
        case Ok(s) =>
          BehindBoth(out, s, Rendered(segs[i + 1..], params));
          out := out + s;
      }
    }
    assert segs[|segs|..] == [] && out + "" == out;
    return Ok(out);
  }

  lemma BehindNothing(r: Result<string, RenderError>)
    ensures Behind("", r) == r
  {
    if r.Ok? {
      assert "" + r.value == r.value;
    }
  }

  lemma BehindBoth(a: string, b: string, r: Result<string, RenderError>)
    ensures Behind(a, Behind(b, r)) == Behind(a + b, r)
  {
    if r.Ok? {
      Assoc(a, b, r.value);
    }
  }

  // ---------------------------------------------------------------- when it succeeds, and with what

  predicate Renders(params: map<string, ScalarValue>, name: string) {
    name in params && LiteralText(params[name]).Ok?
  }

  function Literals(params: map<string, ScalarValue>): map<string, string> {
    map n | n in params && LiteralText(params[n]).Ok? :: LiteralText(params[n]).value
  }

  /** The rendering succeeds exactly when every placeholder has a value that can be printed; then it is one pass. */
  lemma {:induction false} RenderedExactly(segs: seq<Segment>, names: seq<string>, params: map<string, ScalarValue>)
    requires forall n :: Placed(segs, n) ==> n in names
    ensures Rendered(segs, params).Ok? <==> forall n :: Placed(segs, n) ==> Renders(params, n)
    ensures Rendered(segs, params).Ok? ==> Rendered(segs, params).value == FillDirect(segs, names, Literals(params))
  {
    if segs != [] {
      var tail := segs[1..];
      assert segs == [segs[0]] + tail;
      assert forall n :: Placed(segs, n) <==> segs[0] == Placeholder(n) || Placed(tail, n);
      RenderedExactly(tail, names, params);
    }
  }

  /** What cannot be printed: floats that are not finite, and types that are not supported. */
  lemma UnprintableExactly(v: ScalarValue)
    ensures LiteralText(v) == Err(NonFiniteFloat) <==> v in {Float64(Some(NonFinite)), Float32(Some(NonFinite))}
    ensures LiteralText(v) == Err(UnsupportedType) <==> v == OtherType
    ensures LiteralText(v).Err? ==> !LiteralText(v).error.MissingValue?
    ensures
      var nulls := {Utf8(None), LargeUtf8(None), Untyped, Int64(None), Int32(None), Float64(None), Float32(None),
                    Boolean(None)};
      v in nulls ==> LiteralText(v) == Ok("NULL")
  {
  }

  /** A failure names the first placeholder in the text that cannot be filled. */
  lemma {:induction false} FirstFailureIsReported(segs: seq<Segment>, params: map<string, ScalarValue>) returns (k: nat)
    requires Rendered(segs, params).Err?
    ensures k < |segs| && SegmentSql(segs[k], params) == Err(Rendered(segs, params).error)
    ensures segs[k].Placeholder?
    ensures
      var n, error := segs[k].name, Rendered(segs, params).error;
      if n in params then LiteralText(params[n]) == Err(error) else error == MissingValue(n)
    ensures forall j :: 0 <= j < k ==> SegmentSql(segs[j], params).Ok?
  {
    if SegmentSql(segs[0], params).Err? {
      k := 0;
    } else {
      var j := FirstFailureIsReported(segs[1..], params);
      k := j + 1;
    }
  }

  // ---------------------------------------------------------------- the tokens of a literal

  /** What a literal means to whoever reads the SQL; widths are gone. */
  datatype Meaning =
    | NoValue
    | Truth(b: bool)
    | Whole(i: int)
    | Real(negative: bool, magnitude: real)
    | Chars(s: string)

  /** The number that a float is, without its sign. */
  function Size(x: Float): real
    requires !x.NonFinite?
  {
    match x
    case WholeFloat(_, whole) => whole as real
    case FractionFloat(_, digits, point) => Scaled(DigitsValue(digits), point - |digits|)
  }

  function MeaningOf(v: ScalarValue): Meaning
    requires LiteralText(v).Ok?
  {
    match v
    case Utf8(Some(s)) => Chars(s)
    case LargeUtf8(Some(s)) => Chars(s)
    case Int64(Some(i)) => Whole(i)
    case Int32(Some(i)) => Whole(i)
    case Float64(Some(x)) => Real(x.negative, Size(x))
    case Float32(Some(x)) => Real(x.negative, Size(x))
    case Boolean(Some(b)) => Truth(b)
    case _ => NoValue
  }

  function FloatTokens(x: Float): seq<Token>
    requires !x.NonFinite?
  {
    if x.negative then [Symbol('-'), Word(Magnitude(x))] else [Word(Magnitude(x))]
  }

  function WholeTokens(i: int): seq<Token> {
    if i < 0 then [Symbol('-'), Word(Digits(-i))] else [Word(Digits(i))]
  }

  function LiteralTokens(v: ScalarValue): seq<Token>
    requires LiteralText(v).Ok?
  {
    match v
    case Utf8(Some(s)) => [StringLiteral(s)]
    case LargeUtf8(Some(s)) => [StringLiteral(s)]
    case Int64(Some(i)) => WholeTokens(i)
    case Int32(Some(i)) => WholeTokens(i)
    case Float64(Some(x)) => FloatTokens(x)
    case Float32(Some(x)) => FloatTokens(x)
    case Boolean(Some(b)) => [Word(if b then "TRUE" else "FALSE")]
    case _ => [Word("NULL")]
  }

  /** Reads the tokens of one literal. */
  function ReadLiteral(ts: seq<Token>): Option<Meaning> {
    if |ts| == 1 then
      match ts[0]
      case StringLiteral(s) => Some(Chars(s))
      case Word(w) =>
        if w == "NULL" then Some(NoValue)
        else if w == "TRUE" then Some(Truth(true))
        else if w == "FALSE" then Some(Truth(false))
        else if AllDigits(w) then Some(Whole(DigitsValue(w)))
        else if ReadDecimal(w).Some? then Some(Real(false, ReadDecimal(w).value))
        else None
      case _ => None
    else if |ts| == 2 && ts[0] == Symbol('-') && ts[1].Word? then
      var w := ts[1].text;
      if AllDigits(w) then
        var n: int := DigitsValue(w);
        Some(Whole(-n))
      else if ReadDecimal(w).Some? then Some(Real(true, ReadDecimal(w).value))
      else None
    else None
  }

  lemma DotIsInside(a: string, b: string)
    requires AllDigits(a) && AllDigits(b)
    ensures
      var m := a + "." + b;
      && '.' in m && !AllDigits(m) && IsDigit(m[0])
      && forall k :: 0 <= k < |m| ==> IsDigit(m[k]) || m[k] == '.'
  {
    var m := a + "." + b;
    assert m[|a|] == '.' && m[0] == a[0];
  }

  /** A float is written with digits and one point among them, and means the number it is. */
  lemma MagnitudeLooks(x: Float)
    requires !x.NonFinite?
    ensures
      var m := Magnitude(x);
      && m != "" && '.' in m && !AllDigits(m) && IsDigit(m[0])
      && forall k :: 0 <= k < |m| ==> IsDigit(m[k]) || m[k] == '.'
    ensures ReadDecimal(Magnitude(x)) == Some(Size(x))
  {
    hide ReadDecimal, Scaled, DigitsValue, Positional;
    match x
    case WholeFloat(_, whole) =>
      DigitsReadBack(whole);
      assert AllDigits("0") && Digits(whole) + ".0" == Digits(whole) + "." + "0";
      DotIsInside(Digits(whole), "0");
      WholeIsRead(Digits(whole));
    case FractionFloat(_, digits, point) =>
      var a, b := PointIsPlaced(digits, point);
      DotIsInside(a, b);
      PositionalIsRead(digits, point);
  }

  /** Read back, the tokens of a literal mean the bound value. */
  lemma LiteralMeansItsValue(v: ScalarValue)
    requires LiteralText(v).Ok?
    ensures ReadLiteral(LiteralTokens(v)) == Some(MeaningOf(v))
  {
    match v
    case Int64(Some(i)) => WholeReadsBack(i);
    case Int32(Some(i)) => WholeReadsBack(i);
    case Float64(Some(x)) => FloatReadsBack(x);
    case Float32(Some(x)) => FloatReadsBack(x);
    case _ =>
  }

  lemma WholeReadsBack(i: int)
    ensures ReadLiteral(WholeTokens(i)) == Some(Whole(i))
  {
    var n: nat := if i < 0 then -i else i;
    DigitsReadBack(n);
    assert IsDigit(Digits(n)[0]);
  }

  lemma FloatReadsBack(x: Float)
    requires !x.NonFinite?
    ensures ReadLiteral(FloatTokens(x)) == Some(Real(x.negative, Size(x)))
  {
    hide ReadDecimal, Size, Magnitude, DigitsValue;
    MagnitudeLooks(x);
    assert '.' !in "NULL" && '.' !in "TRUE" && '.' !in "FALSE";
  }

  lemma DigitsAreWordLike(f: WordChars, n: string)
    requires n != "" && forall k :: 0 <= k < |n| ==> IsDigit(n[k]) || n[k] == '.'
    ensures AllWordLike(f, n)
  {
    forall k | 0 <= k < |n|
      ensures WordLike(f, n[k])
    {
      assert AsciiWordChar(n[k]) || n[k] == '.';
    }
  }

  lemma NumberIsLexed(f: WordChars, negative: bool, n: string, rest: string)
    requires n != "" && forall k :: 0 <= k < |n| ==> IsDigit(n[k]) || n[k] == '.'
    requires EndsLiteral(f, rest)
    ensures LexFrom(f, Between, (if negative then ['-'] + n else n) + rest)
         == Prepend(if negative then [Symbol('-'), Word(n)] else [Word(n)], LexFrom(f, Between, rest))
  {
    DigitsAreWordLike(f, n);
    if negative {
      SignedWord(f, n, rest);
    } else {
      WordIsOneToken(f, n, rest);
    }
  }

  lemma KeywordIsLexed(f: WordChars, w: string, rest: string)
    requires w in {"NULL", "TRUE", "FALSE"} && EndsLiteral(f, rest)
    ensures LexFrom(f, Between, w + rest) == Prepend([Word(w)], LexFrom(f, Between, rest))
  {
    assert AllWordLike(f, w) by {
      forall k | 0 <= k < |w|
        ensures WordLike(f, w[k])
      {
        assert AsciiWordChar(w[k]);
      }
    }
    WordIsOneToken(f, w, rest);
  }

  /** Between tokens, and with a boundary behind it, a literal is lexed as its own tokens. */
  lemma LiteralIsLexed(f: WordChars, v: ScalarValue, rest: string)
    requires LiteralText(v).Ok? && EndsLiteral(f, rest)
    ensures LexFrom(f, Between, LiteralText(v).value + rest)
         == Prepend(LiteralTokens(v), LexFrom(f, Between, rest))
  {
    match v
    case Utf8(Some(s)) => QuotedIsOneToken(f, s, rest);
    case LargeUtf8(Some(s)) => QuotedIsOneToken(f, s, rest);
    case Int64(Some(i)) => WholeIsLexed(f, i, rest);
    case Int32(Some(i)) => WholeIsLexed(f, i, rest);
    case Float64(Some(x)) => MagnitudeLooks(x); NumberIsLexed(f, x.negative, Magnitude(x), rest);
    case Float32(Some(x)) => MagnitudeLooks(x); NumberIsLexed(f, x.negative, Magnitude(x), rest);
    case Boolean(Some(b)) => KeywordIsLexed(f, if b then "TRUE" else "FALSE", rest);
    case _ => KeywordIsLexed(f, "NULL", rest);
  }

  lemma WholeIsLexed(f: WordChars, i: int, rest: string)
    requires EndsLiteral(f, rest)
    ensures LexFrom(f, Between, Decimal(i) + rest) == Prepend(WholeTokens(i), LexFrom(f, Between, rest))
  {
    var n: nat := if i < 0 then -i else i;
    DigitsReadBack(n);
    NumberIsLexed(f, i < 0, Digits(n), rest);
  }
}
