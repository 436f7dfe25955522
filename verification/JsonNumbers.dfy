/**
JSON numbers, how the server prints them (`crates/server/src/pipeline_handlers.rs`)
and how the CLI does, which turns them into 64-bit integers or floats first
(`crates/cli/src/pipeline.rs`).
*/
module JsonNumbers {
  import opened Options
  import opened Text
  import opened Floats
  import opened SqlValues
  import opened CliRender

  const MIN_I64: int := -0x8000_0000_0000_0000
  const TWO_TO_53: int := 0x20_0000_0000_0000
  const TWO_TO_63: int := 0x8000_0000_0000_0000
  const TWO_TO_64: int := 0x1_0000_0000_0000_0000

  // ---------------------------------------------------------------- numbers

  /**
  A finite 64-bit float, told by its shortest decimal, 0.ddd times ten to the power of
  `point`.  If it has no fraction, `whole` is its exact magnitude.
  */
  datatype Double = Double(negative: bool, digits: string, point: int, whole: nat)

  predicate Integral(x: Double) {
    |x.digits| <= x.point
  }

  /** The digits of an integral float with zeros up to the point. */
  function Padded(x: Double): string
    requires Integral(x)
  {
    x.digits + Zeros(x.point - |x.digits|)
  }

  lemma PaddedDigits(x: Double)
    requires AllDigits(x.digits) && Integral(x)
    ensures AllDigits(Padded(x))
  {
  }

  function Distance(a: int, b: int): nat {
    if a < b then b - a else a - b
  }

  /** No zeros to spare, and a shortest decimal that is within the precision of the float. */
  predicate IsDouble(x: Double) {
    && AllDigits(x.digits)
    && (if x.digits == "0" then x.point == 1 else x.digits[0] != '0' && x.digits[|x.digits| - 1] != '0')
    && (Integral(x) ==>
          AllDigits(Padded(x)) && Distance(x.whole, DigitsValue(Padded(x))) * TWO_TO_53 <= x.whole)
  }

  /** A parsed number: an integer of 64 bits, or a float and the exponent it is written with, if any. */
  datatype JsonNumber = Integer(i: int) | Floating(x: Double, exponent: Option<string>)

  /** An exponent is written where it is not zero, and is the right one. */
  predicate IsExponent(e: string, k: int) {
    e != "" && k != 0 && ReadExponent(e) == Some(k)
  }

  predicate IsNumber(n: JsonNumber) {
    match n
    case Integer(i) => MIN_I64 <= i < TWO_TO_64
    case Floating(x, None) => IsDouble(x)
    case Floating(x, Some(e)) => IsDouble(x) && IsExponent(e, x.point - 1)
  }

  // ---------------------------------------------------------------- the server

  /** The shortest decimal with a point and at least one digit on either side. */
  function WrittenOut(x: Double): string {
    if Integral(x) then Padded(x) + ".0" else Positional(x.digits, x.point)
  }

  function Scientific(digits: string, e: string): string
    requires digits != ""
  {
    if |digits| == 1 then digits + e else [digits[0]] + "." + digits[1..] + e
  }

  function Signed(negative: bool, magnitude: string): string {
    if negative then ['-'] + magnitude else magnitude
  }

  function ServerText(n: JsonNumber): string
    requires IsNumber(n)
  {
    match n
    case Integer(i) => Decimal(i)
    case Floating(x, None) => Signed(x.negative, WrittenOut(x))
    case Floating(x, Some(e)) => Signed(x.negative, Scientific(x.digits, e))
  }

  // ---------------------------------------------------------------- the CLI

  /** The nearest 64-bit float, and of two the even one, for integers from 2^63 up to 2^64. */
  function NearestDouble(i: nat): nat {
    var low := i - i % 2048;
    if i % 2048 < 1024 || (i % 2048 == 1024 && low / 2048 % 2 == 0) then low else low + 2048
  }

  /** The same float as the CLI has it. */
  function ToFloat(x: Double): (y: Float)
    requires IsDouble(x)
    ensures !y.NonFinite?
  {
    if Integral(x) then WholeFloat(x.negative, x.whole) else FractionFloat(x.negative, x.digits, x.point)
  }

  function NumberToScalar(n: JsonNumber): ScalarValue
    requires IsNumber(n)
  {
    match n
    case Integer(i) =>
      if i < TWO_TO_63 then Int64(Some(i))
      else Float64(Some(WholeFloat(false, NearestDouble(i))))
    case Floating(x, _) => Float64(Some(ToFloat(x)))
  }

  function CliText(n: JsonNumber): string
    requires IsNumber(n)
  {
    LiteralText(NumberToScalar(n)).value
  }

  // ---------------------------------------------------------------- what the texts mean

  /** The number that was parsed: a sign and a size. */
  function ValueOf(n: JsonNumber): (bool, real)
    requires IsNumber(n)
  {
    match n
    case Integer(i) => (i < 0, if i < 0 then (-i) as real else i as real)
    case Floating(x, _) => (x.negative, Scaled(DigitsValue(x.digits), x.point - |x.digits|))
  }

  lemma PlainTextIsRead(x: Double)
    requires IsDouble(x)
    ensures ReadDecimal(WrittenOut(x)) == Some(Scaled(DigitsValue(x.digits), x.point - |x.digits|))
  {
    hide ReadDecimal, DigitsValue;
    if Integral(x) {
      WholeIsRead(Padded(x));
      TrailingZeros(x.digits, x.point - |x.digits|);
    } else {
      PositionalIsRead(x.digits, x.point);
    }
  }

  lemma ScientificIsRead(digits: string, e: string, k: int)
    requires AllDigits(digits) && ReadExponent(e) == Some(k)
    ensures ReadDecimal(Scientific(digits, e)) == Some(Scaled(DigitsValue(digits), k + 1 - |digits|))
  {
    hide ReadDecimal, DigitsValue, ReadExponent;
    if |digits| == 1 {
      PlainIsRead(digits, e);
    } else {
      PointedIsRead([digits[0]], digits[1..], e);
      assert [digits[0]] + digits[1..] == digits;
    }
  }

  /** What the server prints means the number. */
  lemma ServerTextMeansTheNumber(n: JsonNumber)
    requires IsNumber(n)
    ensures ReadNumber(ServerText(n)) == Some(ValueOf(n))
  {
    hide ReadDecimal, DigitsValue, ReadExponent, Scaled, WrittenOut, Scientific;
    match n
    case Integer(i) => IntegerIsRead(i);
    case Floating(x, None) =>
      PlainTextIsRead(x);
      SignIsRead(x.negative, WrittenOut(x));
    case Floating(x, Some(e)) =>
      ScientificIsRead(x.digits, e, x.point - 1);
      SignIsRead(x.negative, Scientific(x.digits, e));
  }

  /**
  What the CLI prints means the number, but for an integer beyond 63 bits, of which
  it is the nearest float, and for a float without a fraction, which it prints exactly.
  */
  lemma CliTextMeansTheNumber(n: JsonNumber)
    requires IsNumber(n)
    ensures ReadNumber(CliText(n))
         == Some(match n
                 case Integer(i) => if i < TWO_TO_63 then ValueOf(n) else (false, NearestDouble(i) as real)
                 case Floating(x, _) => if Integral(x) then (x.negative, x.whole as real) else ValueOf(n))
  {
    hide ReadDecimal, DigitsValue, Scaled, Magnitude, NearestDouble;
    match n
    case Integer(i) =>
      if i < TWO_TO_63 {
        IntegerIsRead(i);
      } else {
        var y: Float := WholeFloat(false, NearestDouble(i));
        MagnitudeLooks(y);
        SignIsRead(false, Magnitude(y));
      }
    case Floating(x, _) =>
      MagnitudeLooks(ToFloat(x));
      SignIsRead(x.negative, Magnitude(ToFloat(x)));
  }

  /** No float is nearer: beyond 2^63 floats are the multiples of 2048, and of two nearest ones the even one counts. */
  lemma NearestDoubleIsNearest(i: nat, k: nat)
    ensures NearestDouble(i) % 2048 == 0
    ensures Distance(NearestDouble(i), i) <= Distance(2048 * k, i)
    ensures Distance(NearestDouble(i), i) == Distance(2048 * k, i) && NearestDouble(i) != 2048 * k ==>
              NearestDouble(i) / 2048 % 2 == 0
  {
    var low := i - i % 2048;
    assert low == 2048 * (i / 2048);
    if k <= i / 2048 {
      assert 2048 * k <= low;
    } else {
      assert 2048 * k >= low + 2048;
    }
  }

  /** 3.14 on either side. */
  lemma PiIsPrinted()
    ensures
      var n := Floating(Double(false, "314", 1, 0), None);
      IsNumber(n) && ServerText(n) == "3.14" && CliText(n) == "3.14"
  {
  }

  // ---------------------------------------------------------------- which numbers are printed alike

  /**
  Integers of 64 bits with a sign; floats that the server writes without an exponent
  and, if they have no fraction, whose shortest decimal is exact.
  */
  predicate NumberPrintsAlike(n: JsonNumber)
    requires IsNumber(n)
  {
    match n
    case Integer(i) => i < TWO_TO_63
    case Floating(x, exponent) => exponent.None? && (Integral(x) ==> x.whole == DigitsValue(Padded(x)))
  }

  /** The strings part before either of them ends. */
  ghost predicate Parted(x: string, y: string) {
    exists k :: 0 <= k < |x| && k < |y| && x[..k] == y[..k] && x[k] != y[k]
  }

  lemma PartedDiffer(x: string, y: string, a: string, b: string)
    requires Parted(x, y)
    ensures x + a != y + b
  {
    var k :| 0 <= k < |x| && k < |y| && x[..k] == y[..k] && x[k] != y[k];
    assert (x + a)[k] != (y + b)[k];
  }

  lemma PartedBehind(front: string, x: string, y: string)
    requires Parted(x, y)
    ensures Parted(front + x, front + y)
  {
    var k :| 0 <= k < |x| && k < |y| && x[..k] == y[..k] && x[k] != y[k];
    var j := |front| + k;
    assert (front + x)[..j] == front + x[..k] && (front + y)[..j] == front + y[..k];
    assert (front + x)[j] != (front + y)[j];
  }

  lemma {:induction false} PrefixOrParted(x: string, y: string)
    ensures x <= y || y <= x || Parted(x, y)
  {
    if x != "" && y != "" {
      if x[0] == y[0] {
        PrefixOrParted(x[1..], y[1..]);
        assert x == [x[0]] + x[1..] && y == [x[0]] + y[1..];
        if Parted(x[1..], y[1..]) {
          PartedBehind([x[0]], x[1..], y[1..]);
        }
      } else {
        assert x[..0] == y[..0];
      }
    }
  }

  /** Different digits before a point part, whichever goes on longer. */
  lemma PointsPart(a: string, b: string)
    requires AllDigits(a) && AllDigits(b) && a != b
    ensures Parted(a + ".0", b + ".0")
  {
    var x, y := a + ".0", b + ".0";
    PrefixOrParted(a, b);
    if Parted(a, b) {
      var k :| 0 <= k < |a| && k < |b| && a[..k] == b[..k] && a[k] != b[k];
      assert x[..k] == a[..k] && y[..k] == b[..k] && x[k] != y[k];
    } else if a <= b {
      PointFirst(a, b, y);
    } else {
      PointFirst(b, a, x);
      var k :| 0 <= k < |y| && k < |x| && y[..k] == x[..k] && y[k] != x[k];
      assert x[..k] == y[..k] && x[k] != y[k];
    }
  }

  lemma PointFirst(a: string, b: string, y: string)
    requires a < b && AllDigits(b) && b <= y
    ensures Parted(a + ".0", y)
  {
    var k := |a|;
    assert (a + ".0")[..k] == a == y[..k] && (a + ".0")[k] == '.';
    assert y[k] == b[k] && IsDigit(b[k]);
  }

  lemma {:induction false} ShorterIsSmaller(i: nat, w: nat)
    requires Digits(i) < Digits(w)
    ensures 10 * i <= w
  {
    DigitsReadBack(i);
    if w >= 10 {
      var front := Digits(w / 10);
      assert Digits(w)[..|front|] == front;
      if |Digits(i)| == |front| {
        assert Digits(i) == front;
        DigitsReadBack(w / 10);
      } else {
        assert Digits(i) == Digits(w)[..|Digits(i)|] == front[..|Digits(i)|];
        ShorterIsSmaller(i, w / 10);
      }
    }
  }

  lemma OtherDigitsPart(i: nat, w: nat)
    requires i != w && w < 10 * i
    ensures Parted(Digits(w) + ".0", Digits(i))
  {
    hide Digits, DigitsValue;
    DigitsReadBack(i);
    DigitsReadBack(w);
    var a, y := Digits(w), Digits(i);
    assert a != y by { assert DigitsValue(a) == w && DigitsValue(y) == i; }
    if y < a {
      ShorterIsSmaller(i, w);
    }
    PrefixOrParted(a, y);
    if Parted(a, y) {
      var k :| 0 <= k < |a| && k < |y| && a[..k] == y[..k] && a[k] != y[k];
      var x := a + ".0";
      assert x[..k] == y[..k] && x[k] != y[k];
    } else {
      assert a < y;
      PointFirst(a, y, y);
    }
  }

  lemma NearestIsNear(i: nat)
    requires i >= TWO_TO_63
    ensures NearestDouble(i) < 10 * i
  {
  }

  lemma LargeTexts(i: int)
    requires TWO_TO_63 <= i < TWO_TO_64
    ensures CliText(Integer(i)) == Digits(NearestDouble(i)) + ".0" && ServerText(Integer(i)) == Digits(i)
  {
    hide NearestDouble, Digits;
  }

  /** An integer beyond 63 bits: the CLI has a float, which is longer or has other digits. */
  lemma LargeIntegerDiffers(i: int)
    requires TWO_TO_63 <= i < TWO_TO_64
    ensures
      var x, y := CliText(Integer(i)), ServerText(Integer(i));
      x == y + ".0" || Parted(x, y)
  {
    NearestIsNear(i);
    LargeTexts(i);
    hide NearestDouble, Digits, CliText, ServerText;
    if NearestDouble(i) != i {
      OtherDigitsPart(i, NearestDouble(i));
    }
  }

  lemma {:induction false} DigitsOfValue(s: string)
    requires AllDigits(s) && (s == "0" || s[0] != '0')
    ensures Digits(DigitsValue(s)) == s
  {
    var front, last := s[..|s| - 1], s[|s| - 1];
    assert IsDigit(last) && s == front + [last];
    if |s| > 1 {
      assert forall k :: 0 <= k < |front| ==> front[k] == s[k];
      assert AllDigits(front) && front[0] == s[0];
      DigitsOfValue(front);
      assert Digits(0) == "0";
    } else {
      assert front == "";
    }
  }

  lemma TwoDigits(n: nat)
    ensures |Digits(n)| >= 2 <==> n >= 10
  {
    if n >= 10 {
      DigitsReadBack(n / 10);
    }
  }

  /** Where it could be written with an exponent, an integral float has two digits or more. */
  lemma IntegralIsLong(x: Double)
    requires IsDouble(x) && Integral(x) && x.point >= 2
    ensures x.whole >= 10
  {
    var s := Padded(x);
    assert s[0] == x.digits[0];
    DigitsOfValue(s);
    TwoDigits(DigitsValue(s));
    assert |s| == x.point;
  }

  lemma SecondIsDigit(x: Double)
    requires IsDouble(x) && x.point >= 2
    ensures
      var a := Magnitude(ToFloat(x));
      |a| >= 2 && IsDigit(a[1])
  {
    if Integral(x) {
      IntegralIsLong(x);
      TwoDigits(x.whole);
      DigitsReadBack(x.whole);
      assert Magnitude(ToFloat(x))[1] == Digits(x.whole)[1];
    } else {
      assert Magnitude(ToFloat(x))[1] == x.digits[1];
    }
  }

  lemma FirstIsZero(x: Double)
    requires IsDouble(x) && x.point <= 0
    ensures
      var a := Magnitude(ToFloat(x));
      |a| >= 2 && a[0] == '0' && x.digits[0] != '0'
  {
  }

  lemma ScientificStarts(digits: string, e: string)
    requires AllDigits(digits) && ReadExponent(e).Some? && e != ""
    ensures
      var b := Scientific(digits, e);
      |b| >= 2 && b[0] == digits[0] && !IsDigit(b[1])
  {
  }

  lemma EarlyParted(a: string, b: string)
    requires |a| >= 2 && |b| >= 2 && (a[0] != b[0] || a[1] != b[1])
    ensures Parted(a, b)
  {
    if a[0] == b[0] {
      assert a[..1] == [a[0]] && b[..1] == [b[0]];
    } else {
      assert a[..0] == b[..0];
    }
  }

  lemma ScientificDiffers(x: Double, e: string)
    requires IsNumber(Floating(x, Some(e)))
    ensures Parted(Magnitude(ToFloat(x)), Scientific(x.digits, e))
  {
    hide Magnitude, Scientific, ReadExponent, DigitsValue, Parted;
    ScientificStarts(x.digits, e);
    if x.point <= 0 {
      FirstIsZero(x);
    } else {
      SecondIsDigit(x);
    }
    EarlyParted(Magnitude(ToFloat(x)), Scientific(x.digits, e));
  }

  lemma SignsKeepParted(negative: bool, x: string, y: string)
    requires Parted(x, y)
    ensures Parted(Signed(negative, x), Signed(negative, y)) && Signed(negative, x) != Signed(negative, y)
  {
    PartedBehind(['-'], x, y);
    PartedDiffer(Signed(negative, x), Signed(negative, y), "", "");
    assert Signed(negative, x) + "" == Signed(negative, x) && Signed(negative, y) + "" == Signed(negative, y);
  }

  lemma DifferIfParted(x: string, y: string)
    requires Parted(x, y)
    ensures x != y
  {
    PartedDiffer(x, y, "", "");
    assert x + "" == x && y + "" == y;
  }

  lemma InexactDiffers(x: Double)
    requires IsDouble(x) && Integral(x)
    ensures
      var a, b := Digits(x.whole) + ".0", Padded(x) + ".0";
      if x.whole == DigitsValue(Padded(x)) then a == b else Parted(a, b)
  {
    PaddedDigits(x);
    DigitsReadBack(x.whole);
    assert Padded(x)[0] == x.digits[0];
    assert x.digits == "0" ==> Padded(x) == "0";
    DigitsOfValue(Padded(x));
    if Digits(x.whole) != Padded(x) {
      PointsPart(Digits(x.whole), Padded(x));
    }
  }

  lemma FloatsPrintAlike(x: Double)
    requires IsDouble(x)
    ensures
      var n := Floating(x, None);
      if NumberPrintsAlike(n) then CliText(n) == ServerText(n)
      else Parted(CliText(n), ServerText(n)) && CliText(n) != ServerText(n)
  {
    hide Parted, DigitsValue, Digits, Positional, Padded;
    if Integral(x) {
      InexactDiffers(x);
      if x.whole != DigitsValue(Padded(x)) {
        SignsKeepParted(x.negative, Digits(x.whole) + ".0", Padded(x) + ".0");
      }
    }
  }

  /** Both print the same text exactly for those; else the texts part, or the CLI's has `.0` more. */
  lemma NumberPrintsAlikeExactly(n: JsonNumber)
    requires IsNumber(n)
    ensures CliText(n) == ServerText(n) <==> NumberPrintsAlike(n)
    ensures !NumberPrintsAlike(n) ==>
              var x, y := CliText(n), ServerText(n);
              (n.Integer? && x == y + ".0") || Parted(x, y)
  {
    hide Parted, DigitsValue, Digits, ReadExponent, Scientific, Magnitude, NearestDouble;
    match n
    case Integer(i) =>
      if i >= TWO_TO_63 {
        LargeIntegerDiffers(i);
        if Parted(CliText(n), ServerText(n)) {
          DifferIfParted(CliText(n), ServerText(n));
        }
      }
    case Floating(x, Some(e)) =>
      ScientificDiffers(x, e);
      SignsKeepParted(x.negative, Magnitude(ToFloat(x)), Scientific(x.digits, e));
    case Floating(x, None) => FloatsPrintAlike(x);
  }

  /** Integral floats below 2^53 are always exact. */
  lemma SmallFloatsAreExact(x: Double)
    requires IsDouble(x) && Integral(x) && x.whole < TWO_TO_53
    ensures x.whole == DigitsValue(Padded(x))
  {
  }

  /** 1e-6, which the CLI writes out. */
  lemma SmallFloatDiffers()
    ensures
      var n := Floating(Double(false, "1", -5, 0), Some("e-6"));
      IsNumber(n) && ServerText(n) == "1e-6" && CliText(n) == "0.000001"
  {
    assert Zeros(5) == "00000";
  }

  /** 2^63, which is a float for the CLI; and the integer after it, which has the same float. */
  lemma LargeIntegersDiffer()
    ensures
      var n := 9_223_372_036_854_775_808;
      && CliText(Integer(n - 1)) == ServerText(Integer(n - 1))
      && CliText(Integer(n)) == ServerText(Integer(n)) + ".0"
      && CliText(Integer(n + 1)) == ServerText(Integer(n)) + ".0"
  {
    hide Digits;
    assert NearestDouble(TWO_TO_63) == TWO_TO_63;
    assert NearestDouble(TWO_TO_63 + 1) == TWO_TO_63;
  }
}
