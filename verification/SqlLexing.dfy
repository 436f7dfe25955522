/**
How SQL text falls into tokens: words and numbers, character string literals
('' stands for a quote) and delimited identifiers as in sections 5.3 and 5.2 of
ISO/IEC 9075-2, single symbols and comments, which are tokens of their own.  The lexer is an
automaton over characters, so it can be run over a text piece by piece.
*/
module SqlLexing {
  import opened Options
  import opened Text
  import opened TemplateScanner
  import opened SqlValues

  datatype Token =
    | Word(text: string)
    | StringLiteral(value: string)
    | Delimited(name: string)
    | Symbol(c: char)
    | Comment(text: string)

  datatype State =
    | Between
    | InWord(text: string)
    | InString(text: string)
    | StringQuote(text: string)   // a quote: the end of the literal, or half of a doubled one
    | InName(text: string)
    | NameQuote(text: string)
    | Dash
    | LineComment(text: string)
    | Slash
    | BlockComment(depth: nat, text: string)
    | BlockStar(depth: nat, text: string)
    | BlockSlash(depth: nat, text: string)

  /** A state and the tokens finished on the way to it. */
  datatype Move = To(state: State, tokens: seq<Token>)

  predicate WordLike(f: WordChars, c: char) {
    f(c) || c == '.'
  }

  predicate Space(c: char) {
    c in {' ', '\t', '\n', '\r'}
  }

  /** A character outside everything else. */
  function Start(f: WordChars, c: char): Move {
    if WordLike(f, c) then To(InWord([c]), [])
    else if c == '\'' then To(InString(""), [])
    else if c == '"' then To(InName(""), [])
    else if c == '-' then To(Dash, [])
    else if c == '/' then To(Slash, [])
    else if Space(c) then To(Between, [])
    else To(Between, [Symbol(c)])
  }

  function After(token: Token, m: Move): Move {
    To(m.state, [token] + m.tokens)
  }

  function Next(f: WordChars, q: State, c: char): Move {
    match q
    case Between => Start(f, c)
    case InWord(w) => if WordLike(f, c) then To(InWord(w + [c]), []) else After(Word(w), Start(f, c))
    case InString(t) => To(if c == '\'' then StringQuote(t) else InString(t + [c]), [])
    case StringQuote(t) => if c == '\'' then To(InString(t + [c]), []) else After(StringLiteral(t), Start(f, c))
    case InName(t) => To(if c == '"' then NameQuote(t) else InName(t + [c]), [])
    case NameQuote(t) => if c == '"' then To(InName(t + [c]), []) else After(Delimited(t), Start(f, c))
    case Dash => if c == '-' then To(LineComment(""), []) else After(Symbol('-'), Start(f, c))
    case LineComment(t) => if c == '\n' then To(Between, [Comment(t)]) else To(LineComment(t + [c]), [])
    case Slash => if c == '*' then To(BlockComment(1, ""), []) else After(Symbol('/'), Start(f, c))
    case BlockComment(d, t) =>
      To(if c == '*' then BlockStar(d, t + [c])
         else if c == '/' then BlockSlash(d, t + [c])
         else BlockComment(d, t + [c]), [])
    case BlockStar(d, t) =>
      if c == '/' && d <= 1 then To(Between, [Comment(t + [c])])
      else
        To(if c == '/' then BlockComment(d - 1, t + [c])
           else if c == '*' then BlockStar(d, t + [c])
           else BlockComment(d, t + [c]), [])
    case BlockSlash(d, t) =>
      To(if c == '*' then BlockComment(d + 1, t + [c])
         else if c == '/' then BlockSlash(d, t + [c])
         else BlockComment(d, t + [c]), [])
  }

  /** What is left at the end of the text; None if a quote or a block comment is still open. */
  function Finish(q: State): Option<seq<Token>> {
    match q
    case Between => Some([])
    case InWord(w) => Some([Word(w)])
    case StringQuote(t) => Some([StringLiteral(t)])
    case NameQuote(t) => Some([Delimited(t)])
    case Dash => Some([Symbol('-')])
    case Slash => Some([Symbol('/')])
    case LineComment(t) => Some([Comment(t)])
    case _ => None
  }

  function Prepend<T>(xs: seq<T>, ys: Option<seq<T>>): Option<seq<T>> {
    match ys
    case None => None
    case Some(more) => Some(xs + more)
  }

  /** The automaton run over a text: where it ends up, and the tokens it finished. */
  function Run(f: WordChars, q: State, s: string): Move
    decreases |s|
  {
    if s == "" then To(q, [])
    else
      var m := Next(f, q, s[0]);
      var rest := Run(f, m.state, s[1..]);
      To(rest.state, m.tokens + rest.tokens)
  }

  /** The tokens of the text up to its end, from a given state. */
  function LexFrom(f: WordChars, q: State, s: string): Option<seq<Token>>
    decreases |s|
  {
    if s == "" then Finish(q)
    else
      var m := Next(f, q, s[0]);
      Prepend(m.tokens, LexFrom(f, m.state, s[1..]))
  }

  function Lex(f: WordChars, s: string): Option<seq<Token>> {
    LexFrom(f, Between, s)
  }

  lemma PrependTwice<T>(a: seq<T>, b: seq<T>, c: Option<seq<T>>)
    ensures Prepend(a, Prepend(b, c)) == Prepend(a + b, c)
  {
    if c.Some? {
      Assoc(a, b, c.value);
    }
  }

  lemma PrependNothing<T>(c: Option<seq<T>>)
    ensures Prepend([], c) == c
  {
    if c.Some? {
      assert [] + c.value == c.value;
    }
  }

  /** A text can be lexed piece by piece. */
  lemma {:induction false} LexPieces(f: WordChars, q: State, a: string, b: string)
    ensures LexFrom(f, q, a + b) == Prepend(Run(f, q, a).tokens, LexFrom(f, Run(f, q, a).state, b))
    decreases |a|
  {
    if a == "" {
      assert a + b == b;
      PrependNothing(LexFrom(f, q, b));
    } else {
      var m := Next(f, q, a[0]);
      var rest := Run(f, m.state, a[1..]);
      assert (a + b)[0] == a[0] && (a + b)[1..] == a[1..] + b;
      LexPieces(f, m.state, a[1..], b);
      PrependTwice(m.tokens, rest.tokens, LexFrom(f, rest.state, b));
    }
  }

  /** Inside a literal an escaped text only adds its own characters. */
  lemma {:induction false} EscapedStaysInside(f: WordChars, t: string, s: string, rest: string)
    ensures LexFrom(f, InString(t), Escape(s) + rest) == LexFrom(f, InString(t + s), rest)
    decreases |s|
  {
    hide LexFrom;
    if s == "" {
      assert Escape(s) + rest == rest && t + s == t;
    } else {
      var more := Escape(s[1..]) + rest;
      EscapeOne(s);
      assert t + [s[0]] + s[1..] == t + s;
      EscapedStaysInside(f, t + [s[0]], s[1..], rest);
      if s[0] == '\'' {
        assert Escape(s) + rest == ['\'', '\''] + more;
        TwoQuotes(f, t, more);
      } else {
        assert Escape(s) + rest == [s[0]] + more;
        LexOne(f, InString(t), s[0], more);
      }
    }
  }

  lemma EscapeOne(s: string)
    requires s != ""
    ensures Escape(s) == (if s[0] == '\'' then ['\'', '\''] else [s[0]]) + Escape(s[1..])
  {
    ReplaceStep(s, "'", "''");
    assert "'" <= s <==> s[0] == '\'';
  }

  lemma LexEnd(f: WordChars, q: State)
    ensures LexFrom(f, q, "") == Finish(q)
  {
  }

  lemma LexOne(f: WordChars, q: State, c: char, more: string)
    ensures LexFrom(f, q, [c] + more) == Prepend(Next(f, q, c).tokens, LexFrom(f, Next(f, q, c).state, more))
    ensures Next(f, q, c).tokens == [] ==> LexFrom(f, q, [c] + more) == LexFrom(f, Next(f, q, c).state, more)
  {
    assert ([c] + more)[1..] == more;
    PrependNothing(LexFrom(f, Next(f, q, c).state, more));
  }

  lemma TwoQuotes(f: WordChars, t: string, more: string)
    ensures LexFrom(f, InString(t), ['\'', '\''] + more) == LexFrom(f, InString(t + ['\'']), more)
  {
    hide LexFrom;
    assert ['\'', '\''] + more == ['\''] + (['\''] + more);
    LexOne(f, InString(t), '\'', ['\''] + more);
    LexOne(f, StringQuote(t), '\'', more);
  }

  /** What ends a literal that stands before it without becoming part of it. */
  predicate Boundary(f: WordChars, c: char) {
    !WordLike(f, c) && c != '\''
  }

  predicate EndsLiteral(f: WordChars, rest: string) {
    rest == "" || Boundary(f, rest[0])
  }

  /** White space, a comma or a parenthesis, outside quotes and comments, leaves the lexer between tokens. */
  lemma SeparatorLeavesBetween(f: WordChars, q: State, c: char)
    requires Space(c) || c in {',', '(', ')'}
    requires Finish(q).Some? && !q.LineComment?
    ensures Next(f, q, c).state == Between && Boundary(f, c)
  {
    assert !WordLike(f, c);
  }

  /** A quoted string is one token, whatever quotes it holds. */
  lemma QuotedIsOneToken(f: WordChars, s: string, rest: string)
    requires EndsLiteral(f, rest)
    ensures LexFrom(f, Between, Quote(s) + rest) == Prepend([StringLiteral(s)], LexFrom(f, Between, rest))
  {
    hide LexFrom;
    var tail := ['\''] + rest;
    assert Quote(s) + rest == ['\''] + (Escape(s) + tail);
    assert !WordLike(f, '\'');
    LexOne(f, Between, '\'', Escape(s) + tail);
    EscapedStaysInside(f, "", s, tail);
    assert "" + s == s;
    LexOne(f, InString(s), '\'', rest);
    TokenEnds(f, StringQuote(s), StringLiteral(s), rest);
  }

  /** A character that finishes a token is then read as if nothing had been before it. */
  lemma StartsAfresh(f: WordChars, q: State, token: Token, rest: string)
    requires rest != "" && Next(f, q, rest[0]) == After(token, Start(f, rest[0]))
    ensures LexFrom(f, q, rest) == Prepend([token], LexFrom(f, Between, rest))
  {
    var m := Start(f, rest[0]);
    PrependTwice([token], m.tokens, LexFrom(f, m.state, rest[1..]));
  }

  /** The pending token is finished by a boundary or by the end of the text. */
  lemma TokenEnds(f: WordChars, q: State, token: Token, rest: string)
    requires EndsLiteral(f, rest)
    requires (q.InWord? && token == Word(q.text)) || (q.StringQuote? && token == StringLiteral(q.text))
    ensures LexFrom(f, q, rest) == Prepend([token], LexFrom(f, Between, rest))
  {
    if rest != "" {
      StartsAfresh(f, q, token, rest);
    } else {
      assert [token] + [] == [token];
    }
  }

  lemma {:induction false} WordGoesOn(f: WordChars, w: string, n: string, rest: string)
    requires forall k :: 0 <= k < |n| ==> WordLike(f, n[k])
    ensures LexFrom(f, InWord(w), n + rest) == LexFrom(f, InWord(w + n), rest)
    decreases |n|
  {
    hide LexFrom;
    if n == "" {
      assert n + rest == rest && w + n == w;
    } else {
      var c, more := n[0], n[1..];
      assert n + rest == [c] + (more + rest) && w + n == w + [c] + more;
      LexOne(f, InWord(w), c, more + rest);
      WordGoesOn(f, w + [c], more, rest);
    }
  }

  predicate AllWordLike(f: WordChars, n: string) {
    n != "" && forall k :: 0 <= k < |n| ==> WordLike(f, n[k])
  }

  lemma WordIsOneToken(f: WordChars, n: string, rest: string)
    requires AllWordLike(f, n) && EndsLiteral(f, rest)
    ensures LexFrom(f, Between, n + rest) == Prepend([Word(n)], LexFrom(f, Between, rest))
  {
    hide LexFrom;
    var c, more := n[0], n[1..];
    assert n + rest == [c] + (more + rest) && [c] + more == n;
    LexOne(f, Between, c, more + rest);
    WordGoesOn(f, [c], more, rest);
    TokenEnds(f, InWord(n), Word(n), rest);
  }

  /** A sign between tokens stays a symbol of its own. */
  lemma SignedWord(f: WordChars, n: string, rest: string)
    requires AllWordLike(f, n) && EndsLiteral(f, rest)
    ensures LexFrom(f, Between, (['-'] + n) + rest) == Prepend([Symbol('-'), Word(n)], LexFrom(f, Between, rest))
  {
    hide LexFrom;
    assert !WordLike(f, '-');
    assert (n + rest)[0] == n[0] != '-';
    assert (['-'] + n) + rest == ['-'] + (n + rest);
    LexOne(f, Between, '-', n + rest);
    StartsAfresh(f, Dash, Symbol('-'), n + rest);
    WordIsOneToken(f, n, rest);
    PrependTwice([Symbol('-')], [Word(n)], LexFrom(f, Between, rest));
    assert [Symbol('-')] + [Word(n)] == [Symbol('-'), Word(n)];
  }

  // ---------------------------------------------------------------- tokens that run on

  /** A word that is not finished ends up as a word that begins with it. */
  lemma {:induction false} WordRunsOn(f: WordChars, w: string, s: string)
    ensures
      var r := LexFrom(f, InWord(w), s);
      r.Some? ==> r.value != [] && r.value[0].Word? && w <= r.value[0].text
    decreases |s|
  {
    if s != "" && WordLike(f, s[0]) {
      WordRunsOn(f, w + [s[0]], s[1..]);
      PrependNothing(LexFrom(f, InWord(w + [s[0]]), s[1..]));
    }
  }

  lemma {:induction false} StringRunsOn(f: WordChars, q: State, s: string)
    requires q.InString? || q.StringQuote?
    ensures
      var r := LexFrom(f, q, s);
      r.Some? ==> r.value != [] && r.value[0].StringLiteral? && q.text <= r.value[0].value
    decreases |s|
  {
    if s != "" && (q.InString? || s[0] == '\'') {
      var next := Next(f, q, s[0]).state;
      StringRunsOn(f, next, s[1..]);
      PrependNothing(LexFrom(f, next, s[1..]));
    }
  }

  lemma {:induction false} CommentRunsOn(f: WordChars, t: string, s: string)
    ensures
      var r := LexFrom(f, LineComment(t), s);
      r.Some? ==> r.value != [] && r.value[0].Comment? && t <= r.value[0].text
    decreases |s|
  {
    if s != "" && s[0] != '\n' {
      CommentRunsOn(f, t + [s[0]], s[1..]);
      PrependNothing(LexFrom(f, LineComment(t + [s[0]]), s[1..]));
    }
  }

  lemma PrependCancels<T>(xs: seq<T>, a: Option<seq<T>>, b: Option<seq<T>>)
    ensures Prepend(xs, a) == Prepend(xs, b) ==> a == b
  {
    if a.Some? && b.Some? {
      SameFront(xs, a.value, b.value);
    }
  }
}
