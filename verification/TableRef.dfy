/**
Quoting a dotted table reference (`crates/skardi/src/jobs/destination/mod.rs`)
and the INSERT statement it is put into: whatever the table is called, the
statement's tokens are the same but for the names.
*/
module TableRef {
  import opened Options
  import opened Text
  import opened TemplateScanner
  import opened SqlValues
  import opened SqlLexing

  /** `name.split('.')` */
  function Split(name: string): (parts: seq<string>)
    ensures parts != []
  {
    if name == "" then [""]
    else
      var rest := Split(name[1..]);
      if name[0] == '.' then [""] + rest else [[name[0]] + rest[0]] + rest[1..]
  }

  function EscapeName(part: string): string {
    ReplaceAll(part, "\"", "\"\"")
  }

  function QuotePart(part: string): string {
    ['"'] + (EscapeName(part) + ['"'])
  }

  function QuoteTableRef(name: string): string {
    Join(Map(QuotePart, Split(name)), ".")
  }

  function PartTokens(parts: seq<string>): seq<Token>
    requires parts != []
  {
    [Delimited(parts[0])] + if |parts| == 1 then [] else [Word(".")] + PartTokens(parts[1..])
  }

  lemma {:induction false} JoinSplit(name: string)
    ensures Join(Split(name), ".") == name
    ensures forall k :: 0 <= k < |Split(name)| ==> '.' !in Split(name)[k]
  {
    if name != "" {
      JoinSplit(name[1..]);
      var rest := Split(name[1..]);
      if name[0] == '.' {
        assert ([""] + rest)[1..] == rest;
        assert "" + "." + Join(rest, ".") == ['.'] + name[1..];
      } else {
        var all := [[name[0]] + rest[0]] + rest[1..];
        assert all[1..] == rest[1..];
        if |rest| > 1 {
          var tail := "." + Join(rest[1..], ".");
          Assoc([name[0]], rest[0], tail);
          Assoc(rest[0], ".", Join(rest[1..], "."));
          Assoc([name[0]] + rest[0], ".", Join(rest[1..], "."));
        }
        assert Join(all, ".") == [name[0]] + name[1..];
      }
    }
  }

  lemma EscapeNothing()
    ensures EscapeName("") == ""
  {
  }

  lemma EscapeNameOne(s: string)
    requires s != ""
    ensures EscapeName(s) == (if s[0] == '"' then ['"', '"'] else [s[0]]) + EscapeName(s[1..])
  {
    ReplaceStep(s, "\"", "\"\"");
    assert "\"" <= s <==> s[0] == '"';
  }

  /** Inside a delimited identifier an escaped name only adds its own characters. */
  lemma {:induction false} EscapedNameStaysInside(f: WordChars, t: string, s: string, rest: string)
    ensures LexFrom(f, InName(t), EscapeName(s) + rest) == LexFrom(f, InName(t + s), rest)
    decreases |s|
  {
    hide LexFrom, ReplaceAll;
    if s == "" {
      EscapeNothing();
      assert EscapeName(s) + rest == rest && t + s == t;
    } else {
      var c, more := s[0], EscapeName(s[1..]) + rest;
      EscapeNameOne(s);
      assert t + [c] + s[1..] == t + s;
      EscapedNameStaysInside(f, t + [c], s[1..], rest);
      if c == '"' {
        assert EscapeName(s) + rest == ['"'] + (['"'] + more);
        LexOne(f, InName(t), '"', ['"'] + more);
        LexOne(f, NameQuote(t), '"', more);
      } else {
        assert EscapeName(s) + rest == [c] + more;
        LexOne(f, InName(t), c, more);
      }
    }
  }

  /** A name may be followed by anything but a quote. */
  predicate EndsName(rest: string) {
    rest == "" || rest[0] != '"'
  }

  lemma PartIsOneToken(f: WordChars, part: string, rest: string)
    requires EndsName(rest)
    ensures LexFrom(f, Between, QuotePart(part) + rest) == Prepend([Delimited(part)], LexFrom(f, Between, rest))
  {
    hide LexFrom;
    var tail := ['"'] + rest;
    assert QuotePart(part) + rest == ['"'] + (EscapeName(part) + tail);
    assert !WordLike(f, '"');
    LexOne(f, Between, '"', EscapeName(part) + tail);
    EscapedNameStaysInside(f, "", part, tail);
    assert "" + part == part;
    LexOne(f, InName(part), '"', rest);
    if rest != "" {
      StartsAfresh(f, NameQuote(part), Delimited(part), rest);
    } else {
      LexEnd(f, NameQuote(part));
      LexEnd(f, Between);
      assert [Delimited(part)] + [] == [Delimited(part)];
    }
  }

  lemma DotIsOneToken(f: WordChars, rest: string)
    requires rest != "" && rest[0] == '"'
    ensures LexFrom(f, Between, "." + rest) == Prepend([Word(".")], LexFrom(f, Between, rest))
  {
    assert !WordLike(f, '"');
    WordIsOneToken(f, ".", rest);
  }

  lemma {:induction false} PartsAreLexed(f: WordChars, parts: seq<string>, rest: string)
    requires parts != [] && EndsName(rest)
    ensures Join(Map(QuotePart, parts), ".") + rest != "" && (Join(Map(QuotePart, parts), ".") + rest)[0] == '"'
    ensures LexFrom(f, Between, Join(Map(QuotePart, parts), ".") + rest)
         == Prepend(PartTokens(parts), LexFrom(f, Between, rest))
  {
    hide LexFrom, Next;
    var first, tail := parts[0], Map(QuotePart, parts[1..]);
    var all := Map(QuotePart, parts);
    assert all[0] == QuotePart(first) && all[1..] == tail;
    if |parts| == 1 {
      PartIsOneToken(f, first, rest);
      assert [Delimited(first)] + [] == [Delimited(first)];
    } else {
      PartsAreLexed(f, parts[1..], rest);
      var more := Join(tail, ".") + rest;
      assert Join(all, ".") + rest == QuotePart(first) + ("." + more);
      assert ("." + more)[0] == '.';
      PartIsOneToken(f, first, "." + more);
      DotIsOneToken(f, more);
      var ts, after := PartTokens(parts[1..]), LexFrom(f, Between, rest);
      PrependTwice([Word(".")], ts, after);
      PrependTwice([Delimited(first)], [Word(".")] + ts, after);
    }
  }

  /** A dotted name survives: its parts come back as delimited identifiers, in order, and nothing else does. */
  lemma DottedNameSurvives(f: WordChars, name: string)
    ensures Lex(f, QuoteTableRef(name)) == Some(PartTokens(Split(name)))
    ensures Join(Split(name), ".") == name && forall k :: 0 <= k < |Split(name)| ==> '.' !in Split(name)[k]
  {
    PartsAreLexed(f, Split(name), "");
    JoinSplit(name);
    assert QuoteTableRef(name) + "" == QuoteTableRef(name);
    assert PartTokens(Split(name)) + [] == PartTokens(Split(name));
  }

  /** The statement of `SqlDmlDestination::write`. */
  function InsertSql(table: string, staging: string): string {
    Join(["INSERT", "INTO", QuoteTableRef(table), "SELECT", "*", "FROM", QuotePart(staging)], " ")
  }

  /** A stretch of SQL that falls into these tokens wherever a space or the end comes next. */
  ghost predicate FallsInto(f: WordChars, text: string, tokens: seq<Token>) {
    forall rest :: rest == "" || rest[0] == ' ' ==>
      LexFrom(f, Between, text + rest) == Prepend(tokens, LexFrom(f, Between, rest))
  }

  function Flattened(tokens: seq<seq<Token>>): seq<Token> {
    if tokens == [] then [] else tokens[0] + Flattened(tokens[1..])
  }

  lemma {:induction false} SpacedPieces(f: WordChars, texts: seq<string>, tokens: seq<seq<Token>>)
    requires |texts| == |tokens|
    requires forall i :: 0 <= i < |texts| ==> FallsInto(f, texts[i], tokens[i])
    ensures Lex(f, Join(texts, " ")) == Some(Flattened(tokens))
  {
    hide LexFrom;
    LexEnd(f, Between);
    if texts != [] {
      var text, ts, more := texts[0], tokens[0], Join(texts[1..], " ");
      SpacedPieces(f, texts[1..], tokens[1..]);
      if |texts| == 1 {
        assert LexFrom(f, Between, text + "") == Prepend(ts, LexFrom(f, Between, ""));
        assert text + "" == text && ts + [] == ts;
      } else {
        assert !WordLike(f, ' ');
        assert LexFrom(f, Between, text + ([' '] + more)) == Prepend(ts, LexFrom(f, Between, [' '] + more));
        LexOne(f, Between, ' ', more);
        assert text + " " + more == text + ([' '] + more);
      }
    }
  }

  lemma KeywordPiece(f: WordChars, w: string)
    requires w != "" && forall k :: 0 <= k < |w| ==> AsciiWordChar(w[k])
    ensures FallsInto(f, w, [Word(w)])
  {
    forall k | 0 <= k < |w|
      ensures WordLike(f, w[k])
    {
      assert f(w[k]);
    }
    assert !WordLike(f, ' ');
    forall rest | rest == "" || rest[0] == ' ' { WordIsOneToken(f, w, rest); }
  }

  lemma StarPiece(f: WordChars)
    ensures FallsInto(f, "*", [Symbol('*')])
  {
    assert !WordLike(f, '*');
    forall rest | rest == "" || rest[0] == ' '
      ensures LexFrom(f, Between, "*" + rest) == Prepend([Symbol('*')], LexFrom(f, Between, rest))
    {
      LexOne(f, Between, '*', rest);
      assert "*" + rest == ['*'] + rest;
    }
  }

  lemma NamePieces(f: WordChars, table: string, staging: string)
    ensures FallsInto(f, QuoteTableRef(table), PartTokens(Split(table)))
    ensures FallsInto(f, QuotePart(staging), [Delimited(staging)])
  {
    forall rest | rest == "" || rest[0] == ' ' { PartsAreLexed(f, Split(table), rest); }
    forall rest | rest == "" || rest[0] == ' ' { PartIsOneToken(f, staging, rest); }
  }

  /** No table name, however it is spelt, changes the shape of the statement. */
  lemma InsertHasFixedShape(f: WordChars, table: string, staging: string)
    ensures Lex(f, InsertSql(table, staging))
         == Some(Flattened([[Word("INSERT")], [Word("INTO")], PartTokens(Split(table)),
                            [Word("SELECT")], [Symbol('*')], [Word("FROM")], [Delimited(staging)]]))
  {
    hide FallsInto, QuotePart, QuoteTableRef, PartTokens, Join, Flattened;
    KeywordPiece(f, "INSERT");
    KeywordPiece(f, "INTO");
    KeywordPiece(f, "SELECT");
    KeywordPiece(f, "FROM");
    StarPiece(f);
    NamePieces(f, table, staging);
    SpacedPieces(f, ["INSERT", "INTO", QuoteTableRef(table), "SELECT", "*", "FROM", QuotePart(staging)],
                 [[Word("INSERT")], [Word("INTO")], PartTokens(Split(table)),
                  [Word("SELECT")], [Symbol('*')], [Word("FROM")], [Delimited(staging)]]);
  }
}
