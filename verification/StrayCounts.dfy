/**
A chain of replacements that has gone wrong can be told by counting: it has more
quotation marks than the single pass, or as many and fewer opening braces.  No
condition on the template; the values are those that hold a brace in quotes only.
*/
module StrayCounts {
  import opened Text
  import opened TemplateScanner
  import opened SqlValues
  import opened Substitution
  import opened SubstitutionLaws
  import opened OnePass

  // ---------------------------------------------------------------- counting

  function Count(s: string, c: char): nat {
    if s == "" then 0 else (if s[0] == c then 1 else 0) + Count(s[1..], c)
  }

  lemma {:induction false} CountAppend(a: string, b: string, c: char)
    ensures Count(a + b, c) == Count(a, c) + Count(b, c)
  {
    if a == "" {
      assert a + b == b;
    } else {
      assert (a + b)[1..] == a[1..] + b;
      CountAppend(a[1..], b, c);
    }
  }

  lemma {:induction false} CountZero(s: string, c: char)
    ensures Count(s, c) == 0 <==> c !in s
  {
    if s != "" {
      assert s == [s[0]] + s[1..];
      CountZero(s[1..], c);
    }
  }

  /** At how many places the pattern occurs. */
  function Occurrences(s: string, pattern: string): nat {
    if s == "" then 0 else (if pattern <= s then 1 else 0) + Occurrences(s[1..], pattern)
  }

  lemma {:induction false} MoreInFront(a: string, b: string, pattern: string)
    ensures Occurrences(a + b, pattern) >= Occurrences(b, pattern)
  {
    if a == "" {
      assert a + b == b;
    } else {
      assert (a + b)[1..] == a[1..] + b;
      MoreInFront(a[1..], b, pattern);
    }
  }

  lemma {:induction false} OneBeginsInFront(a: string, b: string, pattern: string, i: nat)
    requires i < |a| && OccursAt(a + b, pattern, i)
    ensures Occurrences(a + b, pattern) >= 1 + Occurrences(b, pattern)
  {
    assert (a + b)[1..] == a[1..] + b;
    if i == 0 {
      FirstPlace(a + b, pattern);
      MoreInFront(a[1..], b, pattern);
    } else {
      NextPlace(a + b, pattern, i - 1);
      OneBeginsInFront(a[1..], b, pattern, i - 1);
    }
  }

  lemma {:induction false} NoneWithoutBrace(a: string, b: string, q: string)
    requires '{' !in a
    ensures Occurrences(a + b, Braced(q)) == Occurrences(b, Braced(q))
  {
    if a == "" {
      assert a + b == b;
    } else {
      assert (a + b)[1..] == a[1..] + b && (a + b)[0] == a[0] != '{';
      NoneWithoutBrace(a[1..], b, q);
    }
  }

  /** What one replacement adds to the number of a character. */
  function Gain(q: string, v: string, c: char): int {
    Count(v, c) - Count(Braced(q), c)
  }

  lemma OneMoreTimes(k: nat, gain: int)
    ensures (1 + k) * gain == gain + k * gain
  {
  }

  lemma {:induction false} CountReplaced(s: string, q: string, v: string, c: char)
    requires '{' !in q
    ensures Count(ReplaceAll(s, Braced(q), v), c)
         == Count(s, c) + Occurrences(s, Braced(q)) * Gain(q, v, c)
    decreases |s|
  {
    var p := Braced(q);
    if s != "" {
      ReplaceStep(s, p, v);
      if p <= s {
        var rest := s[|p|..];
        assert s == p + rest && s[1..] == (q + "}") + rest;
        NoneWithoutBrace(q + "}", rest, q);
        CountReplaced(rest, q, v, c);
        CountAppend(v, ReplaceAll(rest, p, v), c);
        CountAppend(p, rest, c);
        OneMoreTimes(Occurrences(rest, p), Gain(q, v, c));
      } else {
        CountReplaced(s[1..], q, v, c);
        assert s == [s[0]] + s[1..];
        CountAppend([s[0]], ReplaceAll(s[1..], p, v), c);
        CountAppend([s[0]], s[1..], c);
      }
    }
  }

  lemma BodyIsKept(a: string, rest: string, q: string, v: string)
    requires '{' !in a
    ensures ReplaceAll(a + rest, Braced(q), v) == a + ReplaceAll(rest, Braced(q), v)
  {
    if BeginsIn(a, rest, Braced(q)) {
      var i: nat :| i < |a| && OccursAt(a + rest, Braced(q), i);
      FirstCharacter(a + rest, Braced(q), i);
      assert false;
    }
    NothingBegins(a, rest, Braced(q), v);
  }

  lemma NotBoth(f: WordChars, s: string, n: string, q: string)
    requires IsName(f, n) && IsName(f, q)
    ensures Braced(n) <= s && Braced(q) <= s ==> n == q
  {
    if Braced(n) <= s && Braced(q) <= s {
      if |n| <= |q| {
        assert Braced(n) == s[..|n| + 2] == Braced(q)[..|n| + 2];
        BracedPrefix(f, q, n);
      } else {
        assert Braced(q) == s[..|q| + 2] == Braced(n)[..|q| + 2];
        BracedPrefix(f, n, q);
      }
    }
  }

  lemma FirstStands(f: WordChars, s: string, n: string, q: string, v: string)
    requires IsName(f, n) && s != "" && !(Braced(q) <= s)
    ensures Braced(n) <= s ==> Braced(n) <= [s[0]] + ReplaceAll(s[1..], Braced(q), v)
  {
    hide ReplaceAll;
    if Braced(n) <= s {
      var rest := s[|n| + 2..];
      assert s == Braced(n) + rest && Braced(n) == ['{'] + (n + "}");
      assert s[1..] == (n + "}") + rest;
      assert !f('{');
      BodyIsKept(n + "}", rest, q, v);
      Assoc(['{'], n + "}", ReplaceAll(rest, Braced(q), v));
    }
  }

  /** A pass destroys no placeholder but its own. */
  lemma {:induction false} OthersStand(f: WordChars, s: string, n: string, q: string, v: string)
    requires IsName(f, n) && IsName(f, q) && n != q
    ensures Occurrences(ReplaceAll(s, Braced(q), v), Braced(n)) >= Occurrences(s, Braced(n))
    decreases |s|
  {
    hide ReplaceAll;
    var p, other := Braced(q), Braced(n);
    if s == "" {
      ShortStays(s, p, v);
    } else {
      ReplaceStep(s, p, v);
      if p <= s {
        var rest := s[|p|..];
        assert s == p + rest && p == ['{'] + (q + "}");
        assert s[1..] == (q + "}") + rest;
        assert !f('{');
        NoneWithoutBrace(q + "}", rest, n);
        OthersStand(f, rest, n, q, v);
        MoreInFront(v, ReplaceAll(rest, p, v), other);
        NotBoth(f, s, n, q);
      } else {
        OthersStand(f, s[1..], n, q, v);
        FirstStands(f, s, n, q, v);
        var tail := ReplaceAll(s[1..], p, v);
        assert ([s[0]] + tail)[1..] == tail;
      }
    }
  }

  // ---------------------------------------------------------------- holes

  function Holes(segs: seq<Segment>, n: string): nat {
    if segs == [] then 0 else (if segs[0] == Placeholder(n) then 1 else 0) + Holes(segs[1..], n)
  }

  /** The places of this parameter that are not filled in yet. */
  function HolesLeft(segs: seq<Segment>, n: string, done: seq<string>, vals: map<string, string>): nat {
    if Listed(n, done, vals) then 0 else Holes(segs, n)
  }

  lemma {:induction false} CountDirect(segs: seq<Segment>, done: seq<string>, q: string, vals: map<string, string>,
                                       c: char)
    requires q in vals
    ensures Count(FillDirect(segs, done + [q], vals), c)
         == Count(FillDirect(segs, done, vals), c) + HolesLeft(segs, q, done, vals) * Gain(q, vals[q], c)
  {
    if segs != [] {
      CountDirect(segs[1..], done, q, vals, c);
      var seg := segs[0];
      CountAppend(PartText(seg, done, vals), FillDirect(segs[1..], done, vals), c);
      CountAppend(PartText(seg, done + [q], vals), FillDirect(segs[1..], done + [q], vals), c);
      OneMoreTimes(Holes(segs[1..], q), Gain(q, vals[q], c));
    }
  }

  /** All the parameter's own places are occurrences, and a stray one comes on top. */
  lemma {:induction false} StraysComeOnTop(segs: seq<Segment>, done: seq<string>, q: string, vals: map<string, string>)
    ensures Occurrences(FillDirect(segs, done, vals), Braced(q))
         >= HolesLeft(segs, q, done, vals) + if Stray(segs, done, q, vals) then 1 else 0
  {
    if segs != [] {
      var a, rest := PartText(segs[0], done, vals), FillDirect(segs[1..], done, vals);
      StraysComeOnTop(segs[1..], done, q, vals);
      MoreInFront(a, rest, Braced(q));
      if IsHole(segs[0], done, vals) {
        if segs[0].name == q {
          assert (a + rest)[0..|a|] == a;
          OneBeginsInFront(a, rest, Braced(q), 0);
        }
      } else if BeginsIn(a, rest, Braced(q)) {
        var i: nat :| i < |a| && OccursAt(a + rest, Braced(q), i);
        OneBeginsInFront(a, rest, Braced(q), i);
      }
    }
  }

  // ---------------------------------------------------------------- a chain that has gone wrong

  /** A value that holds an opening brace holds a quotation mark. */
  ghost predicate BracesAreQuoted(vals: map<string, string>) {
    forall n :: n in vals && '{' in vals[n] ==> '\'' in vals[n]
  }

  function Excess(segs: seq<Segment>, done: seq<string>, vals: map<string, string>, t: string, c: char): int {
    Count(t, c) - Count(FillDirect(segs, done, vals), c)
  }

  /** More quotation marks than the single pass has, or as many and fewer braces. */
  predicate Off(segs: seq<Segment>, done: seq<string>, vals: map<string, string>, t: string) {
    var quotes := Excess(segs, done, vals, t, '\'');
    quotes > 0 || (quotes == 0 && Excess(segs, done, vals, t, '{') < 0)
  }

  /** The places that are not filled in yet are all still there. */
  ghost predicate Standing(f: WordChars, segs: seq<Segment>, done: seq<string>, vals: map<string, string>, t: string) {
    forall n :: IsName(f, n) ==> Occurrences(t, Braced(n)) >= HolesLeft(segs, n, done, vals)
  }

  lemma PassKeepsStanding(f: WordChars, segs: seq<Segment>, done: seq<string>, q: string, vals: map<string, string>,
                          t: string)
    requires IsName(f, q) && q in vals && Standing(f, segs, done, vals, t)
    ensures Standing(f, segs, done + [q], vals, ReplaceAll(t, Braced(q), vals[q]))
  {
    forall n | IsName(f, n)
      ensures Occurrences(ReplaceAll(t, Braced(q), vals[q]), Braced(n)) >= HolesLeft(segs, n, done + [q], vals)
    {
      if n != q {
        OthersStand(f, t, n, q, vals[q]);
      }
    }
  }

  lemma NameIsPlain(f: WordChars, q: string)
    requires IsName(f, q)
    ensures Count(Braced(q), '\'') == 0 && Count(Braced(q), '{') == 1
  {
    assert !f('\'') && !f('{');
    CountZero(Braced(q), '\'');
    CountZero(q + "}", '{');
    assert Braced(q)[1..] == q + "}";
  }

  /** What a pass replaces beyond the parameter's own places decides how far the counts move. */
  lemma PassMoves(f: WordChars, segs: seq<Segment>, done: seq<string>, q: string, vals: map<string, string>,
                  t: string, c: char) returns (extra: nat)
    requires IsName(f, q) && q in vals && Standing(f, segs, done, vals, t)
    ensures extra == Occurrences(t, Braced(q)) - HolesLeft(segs, q, done, vals)
    ensures Excess(segs, done + [q], vals, ReplaceAll(t, Braced(q), vals[q]), c)
         == Excess(segs, done, vals, t, c) + extra * Gain(q, vals[q], c)
  {
    hide Occurrences, HolesLeft, Gain;
    var all, own := Occurrences(t, Braced(q)), HolesLeft(segs, q, done, vals);
    assert !f('{');
    CountReplaced(t, q, vals[q], c);
    CountDirect(segs, done, q, vals, c);
    extra := all - own;
    Difference(all, own, Gain(q, vals[q], c));
  }

  lemma Difference(all: int, own: int, gain: int)
    ensures (all - own) * gain == all * gain - own * gain
  {
  }

  lemma GainOfOne(f: WordChars, q: string, vals: map<string, string>)
    requires IsName(f, q) && q in vals && BracesAreQuoted(vals)
    ensures Gain(q, vals[q], '\'') >= 0
    ensures Gain(q, vals[q], '\'') == 0 ==> Gain(q, vals[q], '{') == -1
  {
    NameIsPlain(f, q);
    CountZero(vals[q], '\'');
    CountZero(vals[q], '{');
  }

  lemma SignOfProduct(extra: nat, quotes: int, braces: int)
    requires quotes >= 0 && (quotes == 0 ==> braces == -1)
    ensures extra * quotes >= 0
    ensures extra == 0 ==> extra * quotes == 0 && extra * braces == 0
    ensures extra > 0 && quotes > 0 ==> extra * quotes > 0
    ensures quotes == 0 ==> extra * quotes == 0 && extra * braces == 0 - extra
  {
  }

  /** Off once, off for ever; and an extra replacement is enough. */
  lemma PassAndOff(f: WordChars, segs: seq<Segment>, done: seq<string>, q: string, vals: map<string, string>, t: string)
    requires IsName(f, q) && q in vals && BracesAreQuoted(vals) && Standing(f, segs, done, vals, t)
    requires || Off(segs, done, vals, t)
             || (t == FillDirect(segs, done, vals)
                 && Occurrences(t, Braced(q)) > HolesLeft(segs, q, done, vals))
    ensures Off(segs, done + [q], vals, ReplaceAll(t, Braced(q), vals[q]))
  {
    var extra := PassMoves(f, segs, done, q, vals, t, '\'');
    var _ := PassMoves(f, segs, done, q, vals, t, '{');
    GainOfOne(f, q, vals);
    SignOfProduct(extra, Gain(q, vals[q], '\''), Gain(q, vals[q], '{'));
  }

  lemma SameHolesLeft(segs: seq<Segment>, n: string, done: seq<string>, q: string, vals: map<string, string>)
    requires q !in vals
    ensures HolesLeft(segs, n, done + [q], vals) == HolesLeft(segs, n, done, vals)
  {
  }

  lemma {:induction false} OffForEver(f: WordChars, segs: seq<Segment>, done: seq<string>, names: seq<string>,
                                      vals: map<string, string>, t: string)
    requires AllNames(f, names) && BracesAreQuoted(vals)
    requires Standing(f, segs, done, vals, t) && Off(segs, done, vals, t)
    ensures Off(segs, done + names, vals, Sequential(t, names, vals))
    decreases |names|
  {
    if names == [] {
      assert done + names == done;
    } else {
      var q := names[0];
      assert done + [q] + names[1..] == done + names;
      if q in vals {
        PassKeepsStanding(f, segs, done, q, vals, t);
        PassAndOff(f, segs, done, q, vals, t);
      } else {
        UnboundChangesNothing(segs, done, q, vals);
        forall n | IsName(f, n)
          ensures Occurrences(t, Braced(n)) >= HolesLeft(segs, n, done + [q], vals)
        {
          SameHolesLeft(segs, n, done, q, vals);
        }
      }
      OffForEver(f, segs, done + [q], names[1..], vals, Pass(t, q, vals));
    }
  }

  lemma DirectStands(f: WordChars, segs: seq<Segment>, done: seq<string>, vals: map<string, string>)
    ensures Standing(f, segs, done, vals, FillDirect(segs, done, vals))
  {
    forall n | IsName(f, n)
      ensures Occurrences(FillDirect(segs, done, vals), Braced(n)) >= HolesLeft(segs, n, done, vals)
    {
      StraysComeOnTop(segs, done, n, vals);
    }
  }

  lemma {:induction false} StraysAreCounted(f: WordChars, segs: seq<Segment>, done: seq<string>, names: seq<string>,
                                            vals: map<string, string>)
    requires (forall k :: 0 <= k < |segs| ==> SegmentOk(f, segs[k])) && AllNames(f, names)
    requires Solid(vals) && BracesAreQuoted(vals) && !NeverStray(segs, done, names, vals)
    ensures Off(segs, done + names, vals, Sequential(FillDirect(segs, done, vals), names, vals))
    decreases |names|
  {
    var q, t := names[0], FillDirect(segs, done, vals);
    assert done + [q] + names[1..] == done + names;
    if q in vals && Stray(segs, done, q, vals) {
      DirectStands(f, segs, done, vals);
      StraysComeOnTop(segs, done, q, vals);
      PassKeepsStanding(f, segs, done, q, vals, t);
      PassAndOff(f, segs, done, q, vals, t);
      OffForEver(f, segs, done + [q], names[1..], vals, Pass(t, q, vals));
    } else {
      if q in vals {
        PassIsRightExactly(f, segs, done, q, vals);
      } else {
        UnboundChangesNothing(segs, done, q, vals);
      }
      StraysAreCounted(f, segs, done + [q], names[1..], vals);
    }
  }

  /**
  On any template the chain gives the single pass exactly when it gives as many
  quotation marks and as many opening braces.
  */
  lemma CountsTellExactly(f: WordChars, s: string, names: seq<string>, vals: map<string, string>)
    requires AllNames(f, names) && Solid(vals) && BracesAreQuoted(vals)
    ensures
      var chain, direct := Sequential(s, names, vals), FillDirect(Scan(f, s), names, vals);
      chain == direct <==> Count(chain, '\'') == Count(direct, '\'') && Count(chain, '{') == Count(direct, '{')
  {
    var segs := Scan(f, s);
    ScanIsCanonical(f, s);
    ScanRestores(f, s);
    NothingFilled(segs, vals);
    ChainIsOnePassExactly(f, s, names, vals);
    if !NeverStray(segs, [], names, vals) {
      StraysAreCounted(f, segs, [], names, vals);
      assert [] + names == names;
    }
  }

  // ---------------------------------------------------------------- the values the server prints

  /** A brace in the text comes with a quotation mark. */
  predicate Quoted(s: string) {
    '{' in s ==> '\'' in s
  }

  lemma {:induction false} JoinIsQuoted(parts: seq<string>)
    requires forall k :: 0 <= k < |parts| ==> Quoted(parts[k])
    ensures Quoted(Join(parts, ", "))
  {
    if |parts| > 1 {
      JoinIsQuoted(parts[1..]);
      assert Quoted(parts[0]);
    }
  }

  lemma {:induction false} MapAt<A, B>(f: A -> B, xs: seq<A>, k: nat)
    requires k < |xs|
    ensures |Map(f, xs)| == |xs| && Map(f, xs)[k] == f(xs[k])
  {
    if k > 0 {
      MapAt(f, xs[1..], k - 1);
    } else if |xs| > 1 {
      MapAt(f, xs[1..], 0);
    }
  }

  lemma MappedIsQuoted<A>(f: A -> string, xs: seq<A>)
    requires forall x :: x in xs ==> Quoted(f(x))
    ensures Quoted(Join(Map(f, xs), ", "))
  {
    forall k | 0 <= k < |Map(f, xs)|
      ensures Quoted(Map(f, xs)[k])
    {
      if xs != [] {
        MapAt(f, xs, 0);
        MapAt(f, xs, k);
      }
    }
    JoinIsQuoted(Map(f, xs));
  }

  lemma ScalarIsQuoted(v: Scalar)
    ensures Quoted(ScalarToSql(v))
  {
    if v.Number? {
      assert forall k :: 0 <= k < |v.lexeme| ==> NumeralChar(v.lexeme[k]);
    }
  }

  lemma VectorIsQuoted(elements: seq<Scalar>)
    ensures Quoted(VectorToSql(elements))
  {
    forall v | v in elements
      ensures Quoted(ScalarToSql(v))
    {
      ScalarIsQuoted(v);
    }
    MappedIsQuoted(ScalarToSql, elements);
  }

  lemma RowIsQuoted(cells: seq<Cell>)
    ensures Quoted(RowToSql(cells))
  {
    forall c | c in cells
      ensures Quoted(CellToSql(c))
    {
      match c
      case One(v) => ScalarIsQuoted(v);
      case Vector(elements) => VectorIsQuoted(elements);
    }
    MappedIsQuoted(CellToSql, cells);
  }

  lemma PrintedIsQuoted(p: Param)
    requires ParamToSql(p).Ok?
    ensures Quoted(ParamToSql(p).value)
  {
    match p
    case Single(v) => ScalarIsQuoted(v);
    case List(items) =>
      if AllRows(items) {
        forall row | row in CellsOf(items)
          ensures Quoted(RowToSql(row))
        {
          RowIsQuoted(row);
        }
        MappedIsQuoted(RowToSql, CellsOf(items));
      } else {
        VectorIsQuoted(ValuesOf(items));
      }
  }

  lemma PrintedBracesAreQuoted(params: map<string, Param>)
    ensures BracesAreQuoted(Printed(params))
  {
    forall n | n in Printed(params)
      ensures Quoted(Printed(params)[n])
    {
      PrintedIsQuoted(params[n]);
    }
  }
}
