/**
Decimal text: how floats are written out, and a reader that says which number a text
means.
*/
module Floats {
  import opened Options
  import opened Text

  // ---------------------------------------------------------------- digits

  predicate IsDigit(c: char) {
    '0' <= c <= '9'
  }

  predicate AllDigits(s: string) {
    s != "" && forall k :: 0 <= k < |s| ==> IsDigit(s[k])
  }

  function Decimal(i: int): string {
    if i < 0 then ['-'] + Digits(-i) else Digits(i)
  }

  function DigitsValue(s: string): nat
    requires forall k :: 0 <= k < |s| ==> IsDigit(s[k])
  {
    if s == "" then 0
    else
      var last := s[|s| - 1];
      assert IsDigit(last);
      10 * DigitsValue(s[..|s| - 1]) + (last as int - '0' as int)
  }

  lemma {:induction false} DigitsReadBack(n: nat)
    ensures AllDigits(Digits(n)) && DigitsValue(Digits(n)) == n
  {
    if n < 10 {
      assert [Digit(n)][..0] == "";
    } else {
      DigitsReadBack(n / 10);
      var front := Digits(n / 10);
      assert Digits(n)[..|front|] == front;
    }
  }

  function Pow10(n: nat): nat
    ensures Pow10(n) > 0
  {
    if n == 0 then 1 else 10 * Pow10(n - 1)
  }

  function Zeros(n: nat): (s: string)
    ensures |s| == n && forall k :: 0 <= k < n ==> s[k] == '0'
  {
    seq(n, _ => '0')
  }

  lemma {:induction false} LeadingZeros(n: nat, s: string)
    requires forall k :: 0 <= k < |s| ==> IsDigit(s[k])
    ensures DigitsValue(Zeros(n) + s) == DigitsValue(s)
    decreases |s|, n
  {
    var t := Zeros(n) + s;
    if s == "" {
      if n > 0 {
        assert t[..n - 1] == Zeros(n - 1) + "";
        LeadingZeros(n - 1, "");
      } else {
        assert t == "";
      }
    } else {
      assert t[..|t| - 1] == Zeros(n) + s[..|s| - 1];
      LeadingZeros(n, s[..|s| - 1]);
    }
  }

  lemma TimesTen(v: nat, p: nat)
    ensures 10 * (v * p) == v * (10 * p)
  {
  }

  lemma {:induction false} TrailingZeros(s: string, n: nat)
    requires forall k :: 0 <= k < |s| ==> IsDigit(s[k])
    ensures DigitsValue(s + Zeros(n)) == DigitsValue(s) * Pow10(n)
  {
    var t := s + Zeros(n);
    if n == 0 {
      assert t == s;
    } else {
      assert t[..|t| - 1] == s + Zeros(n - 1);
      TrailingZeros(s, n - 1);
      TimesTen(DigitsValue(s), Pow10(n - 1));
    }
  }

  // ---------------------------------------------------------------- reading

  /** A number times a power of ten. */
  function Scaled(m: nat, e: int): real {
    if e >= 0 then (m * Pow10(e)) as real else m as real / Pow10(-e) as real
  }

  function DigitRun(s: string): (n: nat)
    ensures n <= |s|
    ensures forall k :: 0 <= k < n ==> IsDigit(s[k])
  {
    if s == "" || !IsDigit(s[0]) then 0 else 1 + DigitRun(s[1..])
  }

  lemma {:induction false} DigitRunIs(a: string, rest: string)
    requires (forall k :: 0 <= k < |a| ==> IsDigit(a[k])) && (rest == "" || !IsDigit(rest[0]))
    ensures DigitRun(a + rest) == |a|
  {
    if a == "" {
      assert a + rest == rest;
    } else {
      assert (a + rest)[1..] == a[1..] + rest;
      DigitRunIs(a[1..], rest);
    }
  }

  /** An exponent, or nothing, which is an exponent of zero. */
  function ReadExponent(s: string): Option<int> {
    if s == "" then Some(0)
    else if s[0] != 'e' && s[0] != 'E' then None
    else
      var t := s[1..];
      if AllDigits(t) then Some(DigitsValue(t))
      else if t != "" && t[0] == '+' && AllDigits(t[1..]) then Some(DigitsValue(t[1..]))
      else if t != "" && t[0] == '-' && AllDigits(t[1..]) then Some(0 - DigitsValue(t[1..]))
      else None
  }

  /** The number that digits, perhaps a point and digits, perhaps an exponent stand for. */
  function ReadDecimal(s: string): Option<real> {
    var n := DigitRun(s);
    if n == 0 then None
    else if n == |s| || s[n] != '.' then
      match ReadExponent(s[n..])
      case None => None
      case Some(k) => Some(Scaled(DigitsValue(s[..n]), k))
    else
      var t := s[n + 1..];
      var m := DigitRun(t);
      if m == 0 then None
      else
        match ReadExponent(t[m..])
        case None => None
        case Some(k) => Some(Scaled(DigitsValue(s[..n] + t[..m]), k - m))
  }

  lemma ExponentStartsAfresh(e: string)
    requires ReadExponent(e).Some?
    ensures e == "" || (!IsDigit(e[0]) && e[0] != '.')
  {
  }

  lemma PointedParts(a: string, b: string, e: string)
    ensures
      var s := a + "." + b + e;
      && s == a + ("." + b + e) && |a| < |s|
      && s[..|a|] == a && s[|a|] == '.' && s[|a| + 1..] == b + e
  {
  }

  lemma PointedIsRead(a: string, b: string, e: string)
    requires AllDigits(a) && AllDigits(b) && ReadExponent(e).Some?
    ensures ReadDecimal(a + "." + b + e) == Some(Scaled(DigitsValue(a + b), ReadExponent(e).value - |b|))
  {
    ExponentStartsAfresh(e);
    hide DigitsValue, Scaled, ReadExponent, DigitRun;
    PointedParts(a, b, e);
    DigitRunIs(a, "." + b + e);
    DigitRunIs(b, e);
    assert (b + e)[..|b|] == b && (b + e)[|b|..] == e;
  }

  lemma PlainIsRead(a: string, e: string)
    requires AllDigits(a) && ReadExponent(e).Some?
    ensures ReadDecimal(a + e) == Some(Scaled(DigitsValue(a), ReadExponent(e).value))
  {
    ExponentStartsAfresh(e);
    DigitRunIs(a, e);
    assert (a + e)[..|a|] == a && (a + e)[|a|..] == e;
  }

  // ---------------------------------------------------------------- writing

  /** 0.ddd times ten to the power of `point`, with no zeros to spare and a fraction. */
  predicate IsFractional(digits: string, point: int) {
    && AllDigits(digits)
    && digits[0] != '0' && digits[|digits| - 1] != '0'
    && point < |digits|
  }

  /** Written out, without an exponent. */
  function Positional(digits: string, point: int): string
    requires point < |digits|
  {
    if point <= 0 then "0." + Zeros(-point) + digits else digits[..point] + "." + digits[point..]
  }

  lemma SmallPointIsPlaced(digits: string, point: int)
    requires IsFractional(digits, point) && point <= 0
    ensures
      var b := Zeros(-point) + digits;
      Positional(digits, point) == "0" + "." + b && AllDigits(b) && DigitsValue("0" + b) == DigitsValue(digits)
  {
    hide DigitsValue;
    var b := Zeros(-point) + digits;
    LeadingZeros(1 - point, digits);
    assert "0" + b == Zeros(1 - point) + digits;
    assert "0." + Zeros(-point) + digits == "0" + "." + b;
  }

  /** The point stands where it belongs. */
  lemma PointIsPlaced(digits: string, point: int) returns (a: string, b: string)
    requires IsFractional(digits, point)
    ensures AllDigits(a) && AllDigits(b) && Positional(digits, point) == a + "." + b
    ensures 0 < point ==> a + b == digits && |a| == point
    ensures point <= 0 ==> a == "0" && b == Zeros(-point) + digits
    ensures DigitsValue(a + b) == DigitsValue(digits) && |b| == |digits| - point
  {
    hide DigitsValue;
    if point <= 0 {
      SmallPointIsPlaced(digits, point);
      a, b := "0", Zeros(-point) + digits;
    } else {
      a, b := digits[..point], digits[point..];
      assert a + b == digits;
    }
  }

  /** Written out, it means the number it is. */
  lemma PositionalIsRead(digits: string, point: int)
    requires IsFractional(digits, point)
    ensures ReadDecimal(Positional(digits, point)) == Some(Scaled(DigitsValue(digits), point - |digits|))
  {
    var a, b := PointIsPlaced(digits, point);
    PointedIsRead(a, b, "");
    assert a + "." + b + "" == a + "." + b;
  }

  lemma OneZero(s: string)
    requires AllDigits(s)
    ensures DigitsValue(s + "0") == 10 * DigitsValue(s)
  {
    assert (s + "0")[..|s|] == s;
  }

  lemma TenthOf(v: nat)
    ensures Scaled(10 * v, -1) == v as real
  {
    assert Pow10(1) == 10 * Pow10(0);
  }

  /** An integer written with a point and a zero means the integer. */
  lemma WholeIsRead(s: string)
    requires AllDigits(s)
    ensures ReadDecimal(s + ".0") == Some(DigitsValue(s) as real)
  {
    assert AllDigits("0");
    hide DigitsValue, Scaled, ReadDecimal;
    assert ReadExponent("") == Some(0);
    PointedIsRead(s, "0", "");
    assert s + "." + "0" + "" == s + ".0";
    OneZero(s);
    TenthOf(DigitsValue(s));
  }

  /** A sign and a size; `-` is the sign of minus zero too. */
  function ReadNumber(s: string): Option<(bool, real)> {
    var negative := s != "" && s[0] == '-';
    match ReadDecimal(if negative then s[1..] else s)
    case None => None
    case Some(size) => Some((negative, size))
  }

  lemma SignIsRead(negative: bool, s: string)
    requires ReadDecimal(s).Some?
    ensures ReadNumber(if negative then ['-'] + s else s) == Some((negative, ReadDecimal(s).value))
  {
    if negative {
      assert (['-'] + s)[1..] == s;
    } else {
      assert IsDigit(s[0]);
    }
  }

  lemma IntegerIsRead(i: int)
    ensures ReadNumber(Decimal(i)) == Some((i < 0, if i < 0 then (-i) as real else i as real))
  {
    var n: nat := if i < 0 then -i else i;
    DigitsReadBack(n);
    PlainIsRead(Digits(n), "");
    assert Digits(n) + "" == Digits(n);
    SignIsRead(i < 0, Digits(n));
  }
}
