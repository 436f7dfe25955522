/**
What callers of the substitution loops may rely on: printed values meet what the
exact law asks of them, the order of the parameter list does not matter unless
values contain placeholders, and the reports cover the list.
*/
module SubstitutionLaws {
  import opened Options
  import opened Text
  import opened TemplateScanner
  import opened SqlValues
  import opened Substitution

  // ---------------------------------------------------------------- printed values

  lemma LastOfJoin(head: string, body: string, close: char)
    ensures
      var s := head + (body + [close]);
      s != "" && s[|s| - 1] == close && (head != "" ==> s[0] == head[0])
  {
  }

  lemma ScalarIsTame(f: WordChars, v: Scalar)
    ensures Tame(f, ScalarToSql(v))
  {
    match v
    case Number(n) => assert '{' !in n by { assert forall k :: 0 <= k < |n| ==> NumeralChar(n[k]); }
    case Str(t) =>
      LastOfJoin("'", Escape(t), '\'');
      assert !f('\'');
    case Bool(_) =>
    case Null =>
  }

  lemma {:induction false} JoinedRowsEnd(rows: seq<seq<Cell>>)
    requires rows != []
    ensures
      var s := RowsToSql(rows);
      s != "" && s[0] == '(' && s[|s| - 1] == ')'
  {
    LastOfJoin("(", Join(Map(CellToSql, rows[0]), ", "), ')');
    JoinShape(RowToSql(rows[0]), Map(RowToSql, rows[1..]), "");
    var s := RowsToSql(rows);
    assert s + "" == s;
    if rows[1..] != [] {
      JoinedRowsEnd(rows[1..]);
      var more := RowsToSql(rows[1..]);
      assert more + "" == more;
      assert s == RowToSql(rows[0]) + (", " + more);
    } else {
      assert s == RowToSql(rows[0]) + "";
    }
  }

  /** Every printed value begins with something other than a brace and is closed. */
  lemma PrintedIsTame(f: WordChars, p: Param)
    requires ParamToSql(p).Ok?
    ensures Tame(f, ParamToSql(p).value)
  {
    assert !f('(') && !f(')') && !f('[') && !f(']');
    match p
    case Single(v) => ScalarIsTame(f, v);
    case List(items) =>
      if AllRows(items) {
        JoinedRowsEnd(CellsOf(items));
      } else {
        LastOfJoin("[", Join(Map(ScalarToSql, ValuesOf(items)), ", "), ']');
      }
  }

  lemma AllPrintedAreTame(f: WordChars, params: map<string, Param>)
    ensures AllTame(f, Printed(params))
  {
    forall n | n in Printed(params)
      ensures Tame(f, Printed(params)[n])
    {
      PrintedIsTame(f, params[n]);
    }
  }

  /** The exact law for the values the server prints. */
  lemma RenderingIsOnePassExactly(f: WordChars, s: string, names: seq<string>, params: map<string, Param>)
    requires AllNames(f, names) && NoAccident(f, s, names, Printed(params))
    ensures Sequential(s, names, Printed(params)) == FillDirect(Scan(f, s), names, Printed(params))
       <==> forall n :: Placed(Scan(f, s), n) ==> !ClashIn(n, names, Printed(params))
  {
    AllPrintedAreTame(f, params);
    SequentialIsOnePassExactly(f, s, names, Printed(params));
  }

  // ---------------------------------------------------------------- order

  ghost predicate Distinct(names: seq<string>) {
    forall i, j :: 0 <= i < j < |names| ==> names[i] != names[j]
  }

  ghost predicate Reorders(a: seq<string>, b: seq<string>) {
    Distinct(b) && forall n :: n in a <==> n in b
  }

  /** The parameter's value does not contain the placeholder of another one. */
  ghost predicate Harmless(n: string, names: seq<string>, vals: map<string, string>) {
    forall q :: Listed(n, names, vals) && Listed(q, names, vals) && q != n ==> !Contains(vals[n], Braced(q))
  }

  /** No placed value contains the placeholder of another parameter. */
  ghost predicate ValuesHoldNoPlaceholder(segs: seq<Segment>, names: seq<string>, vals: map<string, string>) {
    forall n :: Placed(segs, n) ==> Harmless(n, names, vals)
  }

  /** Every order of the same parameters gives the same SQL. */
  ghost predicate OrderIsFree(s: string, names: seq<string>, vals: map<string, string>) {
    forall b :: Reorders(names, b) ==> Sequential(s, b, vals) == Sequential(s, names, vals)
  }

  lemma {:induction false} DirectIgnoresOrder(segs: seq<Segment>, a: seq<string>, b: seq<string>,
                                              vals: map<string, string>)
    requires forall n :: n in a <==> n in b
    ensures FillDirect(segs, a, vals) == FillDirect(segs, b, vals)
  {
    if segs != [] {
      DirectIgnoresOrder(segs[1..], a, b, vals);
    }
  }

  lemma {:induction false} ShutIgnoresOrder(f: WordChars, ps: seq<Piece>, a: seq<string>, b: seq<string>,
                                            vals: map<string, string>)
    requires (forall n :: n in a <==> n in b) && Shut(f, ps, a, vals)
    ensures Shut(f, ps, b, vals)
  {
    if ps != [] {
      ShutIgnoresOrder(f, ps[1..], a, b, vals);
    }
  }

  lemma HarmlessNoClash(n: string, names: seq<string>, vals: map<string, string>)
    requires Distinct(names) && Harmless(n, names, vals)
    ensures !ClashIn(n, names, vals)
  {
    forall i, j | 0 <= i < j < |names| && names[i] == n && n in vals && names[j] in vals
      ensures !Contains(vals[n], Braced(names[j]))
    {
      assert Listed(n, names, vals) && Listed(names[j], names, vals) && names[j] != n;
    }
  }

  lemma OrderFits(f: WordChars, s: string, a: seq<string>, b: seq<string>, vals: map<string, string>)
    requires AllNames(f, a) && AllTame(f, vals) && NoAccident(f, s, a, vals) && Reorders(a, b)
    ensures AllNames(f, b) && Sequential(s, b, vals) == FillSequential(Scan(f, s), b, vals)
  {
    forall i | 0 <= i < |b|
      ensures IsName(f, b[i])
    {
      assert b[i] in a;
    }
    ShutIgnoresOrder(f, PiecesOf(Scan(f, s)), a, b, vals);
    SequentialResult(f, s, b, vals);
  }

  /** Values that hold no other parameter's placeholder give the single pass in every order. */
  lemma OrderDoesNotMatter(f: WordChars, s: string, a: seq<string>, b: seq<string>, vals: map<string, string>)
    requires AllNames(f, a) && AllTame(f, vals) && NoAccident(f, s, a, vals) && Reorders(a, b)
    requires ValuesHoldNoPlaceholder(Scan(f, s), a, vals)
    ensures Sequential(s, b, vals) == FillDirect(Scan(f, s), a, vals)
  {
    var segs := Scan(f, s);
    OrderFits(f, s, a, b, vals);
    forall n | Placed(segs, n)
      ensures !ClashIn(n, b, vals)
    {
      assert Harmless(n, a, vals);
      assert forall q :: Listed(q, b, vals) <==> Listed(q, a, vals);
      HarmlessNoClash(n, b, vals);
    }
    FillsAgree(f, segs, b, vals);
    DirectIgnoresOrder(segs, a, b, vals);
  }

  function Without(names: seq<string>, n: string): seq<string> {
    if names == [] then []
    else (if names[0] == n then [] else [names[0]]) + Without(names[1..], n)
  }

  lemma {:induction false} WithoutOne(names: seq<string>, n: string)
    requires Distinct(names)
    ensures Distinct(Without(names, n))
    ensures forall x :: x in Without(names, n) <==> x in names && x != n
  {
    if names != [] {
      var tail := names[1..];
      assert Distinct(tail) by {
        assert forall i :: 0 <= i < |tail| ==> tail[i] == names[i + 1];
      }
      WithoutOne(tail, n);
      assert names == [names[0]] + tail;
      assert names[0] !in tail;
    }
  }

  /** The first placeholder of the text whose value holds the placeholder of another parameter. */
  lemma {:induction false} FirstHarm(segs: seq<Segment>, names: seq<string>, vals: map<string, string>) returns (k: nat)
    requires !ValuesHoldNoPlaceholder(segs, names, vals)
    ensures k < |segs| && segs[k].Placeholder? && !Harmless(segs[k].name, names, vals)
    ensures forall j :: 0 <= j < k && segs[j].Placeholder? ==> Harmless(segs[j].name, names, vals)
  {
    if segs[0].Placeholder? && !Harmless(segs[0].name, names, vals) {
      k := 0;
    } else {
      assert segs == [segs[0]] + segs[1..];
      var j := FirstHarm(segs[1..], names, vals);
      k := j + 1;
    }
  }

  /** With that parameter first in one order and last in the other, the results part at its place. */
  lemma {:induction false} OrdersPart(f: WordChars, segs: seq<Segment>, k: nat, first: seq<string>, last: seq<string>,
                                      vals: map<string, string>)
    requires AllTame(f, vals) && Distinct(first) && Distinct(last) && forall x :: x in first <==> x in last
    requires k < |segs| && segs[k].Placeholder? && !Harmless(segs[k].name, first, vals)
    requires forall j :: 0 <= j < k && segs[j].Placeholder? ==> Harmless(segs[j].name, first, vals)
    requires first != [] && first[0] == segs[k].name && last != [] && last[|last| - 1] == segs[k].name
    ensures FillSequential(segs, first, vals) != FillSequential(segs, last, vals)
  {
    var tail := segs[1..];
    var a, b := FillSequential(tail, first, vals), FillSequential(tail, last, vals);
    if k > 0 {
      OrdersPart(f, tail, k - 1, first, last, vals);
      if segs[0].Placeholder? {
        SameInBothOrders(f, segs[0].name, first, last, vals);
        SameFront(Filled(segs[0].name, first, vals), a, b);
      } else {
        SameFront(segs[0].text, a, b);
      }
    } else {
      var n := segs[0].name;
      ClashOnlyWhenFirst(n, first, last, vals);
      FilledAgainstDirect(f, n, first, vals);
      FilledAgainstDirect(f, n, last, vals);
      PartedHeadsDiffer(Direct(n, first, vals), Filled(n, first, vals), b, a);
    }
  }

  lemma SameInBothOrders(f: WordChars, n: string, a: seq<string>, b: seq<string>, vals: map<string, string>)
    requires AllTame(f, vals) && Distinct(a) && Distinct(b) && (forall x :: x in a <==> x in b) && Harmless(n, a, vals)
    ensures Filled(n, a, vals) == Filled(n, b, vals)
  {
    assert forall q :: Listed(q, b, vals) <==> Listed(q, a, vals);
    HarmlessNoClash(n, a, vals);
    HarmlessNoClash(n, b, vals);
    FilledAgainstDirect(f, n, a, vals);
    FilledAgainstDirect(f, n, b, vals);
  }

  lemma ClashOnlyWhenFirst(n: string, first: seq<string>, last: seq<string>, vals: map<string, string>)
    requires Distinct(first) && Distinct(last) && !Harmless(n, first, vals)
    requires first != [] && first[0] == n && last != [] && last[|last| - 1] == n
    ensures ClashIn(n, first, vals) && !ClashIn(n, last, vals)
  {
    var q :| Listed(n, first, vals) && Listed(q, first, vals) && q != n && Contains(vals[n], Braced(q));
    var j :| 0 <= j < |first| && first[j] == q;
    assert first[0] == n && 0 < j;
  }

  /** The order of the list is free exactly when no placed value contains the placeholder of another parameter. */
  lemma OrderIsFreeExactly(f: WordChars, s: string, names: seq<string>, vals: map<string, string>)
    requires AllNames(f, names) && AllTame(f, vals) && Distinct(names) && NoAccident(f, s, names, vals)
    ensures OrderIsFree(s, names, vals) <==> ValuesHoldNoPlaceholder(Scan(f, s), names, vals)
  {
    var segs := Scan(f, s);
    if ValuesHoldNoPlaceholder(segs, names, vals) {
      forall b | Reorders(names, b)
        ensures Sequential(s, b, vals) == Sequential(s, names, vals)
      {
        OrderDoesNotMatter(f, s, names, b, vals);
        OrderDoesNotMatter(f, s, names, names, vals);
      }
    } else {
      var k := FirstHarm(segs, names, vals);
      var n := segs[k].name;
      var first, last := TwoOrders(names, n);
      OrderFits(f, s, names, first, vals);
      OrderFits(f, s, names, last, vals);
      assert forall q :: Listed(q, first, vals) <==> Listed(q, names, vals);
      OrdersPart(f, segs, k, first, last, vals);
    }
  }

  lemma TwoOrders(names: seq<string>, n: string) returns (first: seq<string>, last: seq<string>)
    requires Distinct(names)
    ensures n in names ==> Reorders(names, first) && Reorders(names, last)
    ensures first != [] && first[0] == n && last != [] && last[|last| - 1] == n
    ensures forall x :: x in first <==> x in last
  {
    WithoutOne(names, n);
    first, last := [n] + Without(names, n), Without(names, n) + [n];
  }

  /** Values without an opening brace never depend on the order. */
  lemma BraceFreeValuesAreSafe(segs: seq<Segment>, names: seq<string>, vals: map<string, string>)
    requires forall n :: n in vals ==> '{' !in vals[n]
    ensures ValuesHoldNoPlaceholder(segs, names, vals)
  {
    forall n: string, q: string | n in vals
      ensures !Contains(vals[n], Braced(q))
    {
      NoBraceNoOccurrence(vals[n], q);
    }
  }

  // ---------------------------------------------------------------- limits

  /** A string that spells another parameter's placeholder makes the order matter. */
  lemma OrderCanMatter()
    ensures
      var vals := map["a" := "'{b}'", "b" := "1"];
      Sequential("{a}", ["a", "b"], vals) == "'1'" && Sequential("{a}", ["b", "a"], vals) == "'{b}'"
  {
    var vals := map["a" := "'{b}'", "b" := "1"];
    TwoNames("a", "b");
    TwoNames("b", "a");
    BracedLetter('a');
    BracedLetter('b');
    assert Braced("a") == "{a}";
    assert Braced("b") == "{b}";
    PassOneHole(AsciiWordChar, "a", "a", "'{b}'");
    PassOneHole(AsciiWordChar, "a", "b", "1");
    assert ReplaceAll("'{b}'", "{b}", "1") == "'1'" by {
      assert "'{b}'"[1..] == "{b}'" && "{b}'"[3..] == "'";
      assert ReplaceAll("'", "{b}", "1") == "'";
      assert ReplaceAll("{b}'", "{b}", "1") == "1'";
    }
  }

  lemma TwoNames(x: string, y: string)
    ensures [x, y][1..] == [y] && [y][1..] == []
  {
  }

  lemma BracedLetter(c: char)
    ensures Braced([c]) == ['{', c, '}']
  {
  }

  /** A stray brace can make a placeholder out of a harmless number: the template is what counts. */
  lemma StrayBraceMakesPlaceholder()
    ensures
      var vals := map["a" := "1", "x1" := "2"];
      Sequential("{x{a}}", ["a", "x1"], vals) == "2"
  {
    var vals := map["a" := "1", "x1" := "2"];
    TwoNames("a", "x1");
    assert Pass("{x{a}}", "a", vals) == "{x1}" by {
      assert "{x{a}}"[1..] == "x{a}}" && "x{a}}"[1..] == "{a}}" && "{a}}"[3..] == "}";
      assert ReplaceAll("}", "{a}", "1") == "}";
      assert ReplaceAll("{a}}", "{a}", "1") == "1}";
      assert ReplaceAll("x{a}}", "{a}", "1") == "x1}";
    }
    assert Braced("x1") == "{x1}";
    PassOneHole(AsciiWordChar, "x1", "x1", "2");
  }

  // ---------------------------------------------------------------- reports

  function Firsts(refused: seq<(string, Unsupported)>): seq<string> {
    if refused == [] then [] else Firsts(refused[..|refused| - 1]) + [refused[|refused| - 1].0]
  }

  function Substituted(names: seq<string>, params: map<string, Param>): seq<string> {
    if names == [] then []
    else Substituted(names[..|names| - 1], params)
         + (if names[|names| - 1] in Printed(params) then [names[|names| - 1]] else [])
  }

  /** Every expected parameter is missing, refused or substituted, as often as it is listed. */
  lemma {:induction false} ReportsCoverTheList(names: seq<string>, params: map<string, Param>)
    ensures multiset(names)
         == multiset(Missing(names, params))
            + multiset(Firsts(Refused(names, params)))
            + multiset(Substituted(names, params))
  {
    if names != [] {
      var before, last := names[..|names| - 1], names[|names| - 1];
      ReportsCoverTheList(before, params);
      assert names == before + [last];
      var missing, refused, given :=
        Missing(before, params), Firsts(Refused(before, params)), Substituted(before, params);
      assert Missing(names, params) == missing + Only(last, last !in params);
      assert Substituted(names, params) == given + Only(last, last in Printed(params));
      OneMoreRefused(before, last, params);
      OneMore(last, before, missing, refused, given,
              last !in params, last in params && ParamToSql(params[last]).Err?, last in Printed(params));
    }
  }

  /** A missing parameter was not given, and a refused one was, with a value that is refused for this reason. */
  lemma {:induction false} ReportsSayWhy(names: seq<string>, params: map<string, Param>)
    ensures forall n :: n in Missing(names, params) ==> n in names && n !in params
    ensures forall n, why :: (n, why) in Refused(names, params) ==>
              n in names && n in params && ParamToSql(params[n]) == Err(why)
  {
    if names != [] {
      var before := names[..|names| - 1];
      ReportsSayWhy(before, params);
      assert names == before + [names[|names| - 1]];
    }
  }

  function Only(x: string, take: bool): seq<string> {
    if take then [x] else []
  }

  /** Adding an element to a list and to exactly one of its three parts. */
  lemma OneMore(x: string, all: seq<string>, a: seq<string>, b: seq<string>, c: seq<string>, p: bool, q: bool, r: bool)
    requires multiset(all) == multiset(a) + multiset(b) + multiset(c)
    requires (p && !q && !r) || (!p && q && !r) || (!p && !q && r)
    ensures multiset(all + [x])
         == multiset(a + Only(x, p)) + multiset(b + Only(x, q)) + multiset(c + Only(x, r))
  {
    assert a + [] == a && b + [] == b && c + [] == c;
  }

  lemma OneMoreRefused(names: seq<string>, last: string, params: map<string, Param>)
    ensures Firsts(Refused(names + [last], params))
         == Firsts(Refused(names, params))
            + Only(last, last in params && ParamToSql(params[last]).Err?)
  {
    assert (names + [last])[..|names|] == names;
    var refused := Refused(names, params);
    if last in params && ParamToSql(params[last]).Err? {
      var more := refused + [(last, ParamToSql(params[last]).error)];
      assert more[..|more| - 1] == refused;
    } else {
      assert Refused(names + [last], params) == refused + [] == refused;
    }
  }

  /** With every parameter present and scalar, the two loops give the same text. */
  method BothLoopsAgree(sql: string, expected: seq<string>, params: map<string, Param>)
    returns (server: string, executor: string)
    requires forall n :: n in expected ==> n in params && params[n].Single?
    ensures server == executor == Sequential(sql, expected, Printed(params))
  {
    var missing, unsupported, bad;
    server, missing, unsupported := ServerSubstitute(sql, expected, params);
    executor, bad := ExecutorSubstitute(sql, expected, params);
  }
}
