/**
Sequential substitution: the server and the job executor replace `{name}` by
`str::replace`, one parameter after the other, in text that already holds earlier
values (`crates/server/src/pipeline_handlers.rs`,
`crates/skardi/src/jobs/executor.rs`).  This module says what that comes to and
exactly when it is the substitution that a single pass over the template makes.
*/
module Substitution {
  import opened Options
  import opened Text
  import opened TemplateScanner
  import opened SqlValues

  /** The text of every parameter that can be printed. */
  function Printed(params: map<string, Param>): map<string, string> {
    map n | n in params && ParamToSql(params[n]).Ok? :: ParamToSql(params[n]).value
  }

  // ---------------------------------------------------------------- the loops

  /** One replacement after the other, in the order of the names. */
  function Sequential(s: string, names: seq<string>, vals: map<string, string>): string
    decreases |names|
  {
    if names == [] then s else Sequential(Pass(s, names[0], vals), names[1..], vals)
  }

  function Pass(s: string, name: string, vals: map<string, string>): string {
    if name in vals then ReplaceAll(s, Braced(name), vals[name]) else s
  }

  function Missing(names: seq<string>, params: map<string, Param>): seq<string> {
    if names == [] then []
    else Missing(names[..|names| - 1], params)
         + (if names[|names| - 1] !in params then [names[|names| - 1]] else [])
  }

  function Refused(names: seq<string>, params: map<string, Param>): seq<(string, Unsupported)> {
    if names == [] then []
    else
      var last := names[|names| - 1];
      Refused(names[..|names| - 1], params)
      + (if last in params && ParamToSql(params[last]).Err? then [(last, ParamToSql(params[last]).error)] else [])
  }

  lemma {:induction false} SequentialAppend(s: string, a: seq<string>, b: seq<string>, vals: map<string, string>)
    ensures Sequential(s, a + b, vals) == Sequential(Sequential(s, a, vals), b, vals)
    decreases |a|
  {
    if a == [] {
      assert a + b == b;
    } else {
      assert (a + b)[1..] == a[1..] + b;
      SequentialAppend(Pass(s, a[0], vals), a[1..], b, vals);
    }
  }

  lemma SequentialSnoc(s: string, names: seq<string>, name: string, vals: map<string, string>)
    ensures Sequential(s, names + [name], vals) == Pass(Sequential(s, names, vals), name, vals)
  {
    SequentialAppend(s, names, [name], vals);
    assert [name][1..] == [];
  }

  /** The server's loop: it goes on after a missing or refused parameter and reports all of them. */
  method ServerSubstitute(sql: string, expected: seq<string>, params: map<string, Param>)
    returns (out: string, missing: seq<string>, unsupported: seq<(string, Unsupported)>)
    ensures out == Sequential(sql, expected, Printed(params))
    ensures missing == Missing(expected, params)
    ensures unsupported == Refused(expected, params)
  {
    out, missing, unsupported := sql, [], [];
    for i := 0 to |expected|
      invariant out == Sequential(sql, expected[..i], Printed(params))
      invariant missing == Missing(expected[..i], params)
      invariant unsupported == Refused(expected[..i], params)
    {
      var name := expected[i];
      assert expected[..i + 1] == expected[..i] + [name];
      assert expected[..i + 1][..i] == expected[..i];
      SequentialSnoc(sql, expected[..i], name, Printed(params));
      if name in params {
        var value := ParamToSql(params[name]);
        match value {
          case Ok(text) => out := ReplaceAll(out, Braced(name), text);
          case Err(why) => unsupported := unsupported + [(name, why)];
        }
      } else {
        missing := missing + [name];
      }
    }
    assert expected[..|expected|] == expected;
  }

  predicate Refuses(params: map<string, Param>, name: string) {
    name in params && !params[name].Single?
  }

  /** The executor's loop: scalars only, and it stops at the first other value. */
  method ExecutorSubstitute(sql: string, expected: seq<string>, params: map<string, Param>)
    returns (out: string, bad: Option<string>)
    ensures bad.None? ==>
              && out == Sequential(sql, expected, Printed(params))
              && forall i :: 0 <= i < |expected| ==> !Refuses(params, expected[i])
    ensures bad.Some? ==>
              exists i :: 0 <= i < |expected| && bad.value == expected[i] && Refuses(params, expected[i])
                && out == Sequential(sql, expected[..i], Printed(params))
                && forall j :: 0 <= j < i ==> !Refuses(params, expected[j])
  {
    out := sql;
    for i := 0 to |expected|
      invariant out == Sequential(sql, expected[..i], Printed(params))
      invariant forall j :: 0 <= j < i ==> !Refuses(params, expected[j])
    {
      var name := expected[i];
      assert expected[..i + 1] == expected[..i] + [name];
      SequentialSnoc(sql, expected[..i], name, Printed(params));
      if name in params {
        match params[name] {
          case Single(value) => out := ReplaceAll(out, Braced(name), ScalarToSql(value));
          case List(_) => return out, Some(name);
          case Object => return out, Some(name);
        }
      }
    }
    assert expected[..|expected|] == expected;
    return out, None;
  }

  // ---------------------------------------------------------------- what the loop comes to

  /** The text ends in such a way that no placeholder can begin in it and go on behind it. */
  ghost predicate Closed(f: WordChars, x: string) {
    || '{' !in x
    || (var last := x[|x| - 1]; !f(last) && last != '{' && last != '}')
  }

  /** How printed values look: closed, not beginning with a brace, and quoted or bracketed if they hold one. */
  ghost predicate Tame(f: WordChars, v: string) {
    v != "" && v[0] != '{' && Closed(f, v) && ('{' in v ==> !f(v[0]))
  }

  ghost predicate AllTame(f: WordChars, vals: map<string, string>) {
    forall n :: n in vals ==> Tame(f, vals[n])
  }

  ghost predicate AllNames(f: WordChars, names: seq<string>) {
    forall i :: 0 <= i < |names| ==> IsName(f, names[i])
  }

  predicate Listed(name: string, names: seq<string>, vals: map<string, string>) {
    name in names && name in vals
  }

  /** What one placeholder turns into: its value, with the parameters that come later put into it. */
  function Filled(name: string, names: seq<string>, vals: map<string, string>): string {
    if names == [] then Braced(name)
    else if names[0] == name && name in vals then Sequential(vals[name], names[1..], vals)
    else Filled(name, names[1..], vals)
  }

  /** The template with every placeholder replaced. */
  function FillSequential(segs: seq<Segment>, names: seq<string>, vals: map<string, string>): string {
    if segs == [] then ""
    else
      (match segs[0]
       case Literal(text) => text
       case Placeholder(name) => Filled(name, names, vals))
      + FillSequential(segs[1..], names, vals)
  }

  /** What a single pass puts in place of a placeholder. */
  function Direct(name: string, names: seq<string>, vals: map<string, string>): string {
    if name in names && name in vals then vals[name] else Braced(name)
  }

  function FillDirect(segs: seq<Segment>, names: seq<string>, vals: map<string, string>): string {
    if segs == [] then ""
    else
      (match segs[0]
       case Literal(text) => text
       case Placeholder(name) => Direct(name, names, vals))
      + FillDirect(segs[1..], names, vals)
  }

  lemma ClosedIsSealed(f: WordChars, x: string, name: string)
    requires Closed(f, x) && IsName(f, name)
    ensures Sealed(x, Braced(name))
  {
    var p := Braced(name);
    forall i: nat | i < |x| && |x| - i < |p|
      ensures !(x[i..] <= p)
    {
      var n := |x| - i;
      assert p[n - 1] == if n == 1 then '{' else name[n - 2];
      if '{' in x {
        assert x[i..][n - 1] != p[n - 1];
      } else {
        assert x[i..][0] != p[0];
      }
    }
  }

  lemma NoBraceNoOccurrence(x: string, name: string)
    requires '{' !in x
    ensures !Contains(x, Braced(name))
  {
    forall i: nat
      ensures !OccursAt(x, Braced(name), i)
    {
      if i + |Braced(name)| <= |x| {
        assert x[i..i + |Braced(name)|][0] == x[i];
      }
    }
  }

  lemma {:induction false} ReplaceKeepsLast(x: string, name: string, v: string)
    requires x != "" && x[|x| - 1] != '}'
    ensures
      var y := ReplaceAll(x, Braced(name), v);
      y != "" && y[|y| - 1] == x[|x| - 1]
    decreases |x|
  {
    var p := Braced(name);
    ReplaceStep(x, p, v);
    if p <= x {
      assert x[|p| - 1] == p[|p| - 1] == '}';
      ReplaceKeepsLast(x[|p|..], name, v);
    } else if |x| > 1 {
      ReplaceKeepsLast(x[1..], name, v);
    }
  }

  lemma PassKeepsClosed(f: WordChars, x: string, name: string, v: string)
    requires Closed(f, x) && v != "" && v[0] != '{'
    ensures Closed(f, ReplaceAll(x, Braced(name), v))
  {
    if '{' in x {
      ReplaceKeepsLast(x, name, v);
    } else {
      NoBraceNoOccurrence(x, name);
      var _ := ReplaceChanges(x, Braced(name), v);
    }
  }

  lemma ReplaceKeepsFirst(x: string, name: string, v: string)
    requires x != "" && x[0] != '{'
    ensures ReplaceAll(x, Braced(name), v) != "" && ReplaceAll(x, Braced(name), v)[0] == x[0]
  {
    ReplaceStep(x, Braced(name), v);
  }

  /** A text on its way through the passes. */
  datatype Piece = Fixed(text: string) | Hole(name: string) | Value(text: string)

  function PieceText(p: Piece): string {
    match p
    case Fixed(text) => text
    case Hole(name) => Braced(name)
    case Value(text) => text
  }

  function PiecesText(ps: seq<Piece>): string {
    if ps == [] then "" else PieceText(ps[0]) + PiecesText(ps[1..])
  }

  ghost predicate PieceOk(f: WordChars, p: Piece) {
    match p
    case Fixed(text) => HidesNone(f, text)
    case Hole(name) => IsName(f, name)
    case Value(text) => Tame(f, text)
  }

  ghost predicate PiecesOk(f: WordChars, ps: seq<Piece>) {
    forall k :: 0 <= k < |ps| ==> PieceOk(f, ps[k])
  }

  function PassPiece(p: Piece, q: string, v: string): Piece {
    match p
    case Fixed(_) => p
    case Hole(name) => if name == q then Value(v) else p
    case Value(text) => Value(ReplaceAll(text, Braced(q), v))
  }

  function PassPieces(ps: seq<Piece>, q: string, v: string): seq<Piece> {
    if ps == [] then [] else [PassPiece(ps[0], q, v)] + PassPieces(ps[1..], q, v)
  }

  lemma HoleIsSealed(f: WordChars, name: string, q: string)
    requires IsName(f, name) && IsName(f, q)
    ensures Sealed(Braced(name), Braced(q))
  {
    var x, p := Braced(name), Braced(q);
    forall i: nat | i < |x| && |x| - i < |p|
      ensures !(x[i..] <= p)
    {
      var n := |x| - i;
      assert p[n - 1] == if n == 1 then '{' else q[n - 2];
      assert x[i..][n - 1] == '}';
    }
  }

  lemma BracedPrefix(f: WordChars, name: string, q: string)
    requires IsName(f, name) && IsName(f, q)
    ensures Braced(q) <= Braced(name) <==> q == name
  {
    var x, p := Braced(name), Braced(q);
    if |q| < |name| {
      assert p[|q| + 1] == '}' && x[|q| + 1] == name[|q|];
    } else if |q| == |name| {
      assert x[1..|q| + 1] == name && p[1..|q| + 1] == q;
      assert p <= x <==> p == x;
    }
  }

  lemma PassOneHole(f: WordChars, name: string, q: string, v: string)
    requires IsName(f, name) && IsName(f, q)
    ensures ReplaceAll(Braced(name), Braced(q), v) == if name == q then v else Braced(name)
  {
    var x, p := Braced(name), Braced(q);
    BracedPrefix(f, name, q);
    if name == q {
      assert x[|p|..] == "";
      assert ReplaceAll("", p, v) == "";
    } else {
      assert x[1..] == name + "}";
      NoBraceNoOccurrence(name + "}", q);
      ReplaceStep(x, p, v);
      NoOccurrenceStays(name + "}", p, v);
    }
  }

  lemma {:induction false} NoOccurrenceStays(s: string, pattern: string, v: string)
    requires pattern != "" && !Contains(s, pattern)
    ensures ReplaceAll(s, pattern, v) == s
    decreases |s|
  {
    if |s| >= |pattern| {
      if pattern <= s {
        assert OccursAt(s, pattern, 0);
      }
      ContainsTail(s, pattern);
      NoOccurrenceStays(s[1..], pattern, v);
    }
  }

  lemma PlainStays(f: WordChars, text: string, q: string, v: string)
    requires HidesNone(f, text) && IsName(f, q)
    ensures ReplaceAll(text, Braced(q), v) == text
  {
    forall i: nat
      ensures !OccursAt(text, Braced(q), i)
    {
      if i + |Braced(q)| <= |text| && text[i..i + |Braced(q)|] == Braced(q) {
        NameStartsPlaceholder(f, q, text[i + |Braced(q)|..]);
        assert text[i..] == Braced(q) + text[i + |Braced(q)|..];
        assert PlaceholderAt(f, text, i);
      }
    }
    NoOccurrenceStays(text, Braced(q), v);
  }

  lemma PassOneValue(f: WordChars, text: string, q: string, v: string)
    requires Tame(f, text) && IsName(f, q) && Tame(f, v)
    ensures
      var next := ReplaceAll(text, Braced(q), v);
      && Tame(f, next)
      && next[0] == text[0]
      && ('{' !in text ==> next == text)
  {
    PassKeepsClosed(f, text, q, v);
    ReplaceKeepsFirst(text, q, v);
    if '{' !in text {
      NoBraceNoOccurrence(text, q);
      NoOccurrenceStays(text, Braced(q), v);
    }
  }

  lemma PassOnePiece(f: WordChars, p: Piece, q: string, v: string)
    requires PieceOk(f, p) && IsName(f, q) && Tame(f, v)
    ensures !p.Fixed? ==> Sealed(PieceText(p), Braced(q))
    ensures ReplaceAll(PieceText(p), Braced(q), v) == PieceText(PassPiece(p, q, v))
    ensures PieceOk(f, PassPiece(p, q, v))
  {
    match p
    case Fixed(text) => PlainStays(f, text, q, v);
    case Hole(name) =>
      HoleIsSealed(f, name, q);
      PassOneHole(f, name, q, v);
    case Value(text) =>
      ClosedIsSealed(f, text, q);
      PassOneValue(f, text, q, v);
  }

  // ---------------------------------------------------------------- braces of the template's own text

  /** From this brace on the text is nothing but identifier characters. */
  predicate OpenAt(f: WordChars, text: string, k: nat) {
    k < |text| && text[k] == '{' && k + 1 + RunLength(f, text[k + 1..]) == |text|
  }

  /** The text begins with identifier characters and a closing brace: those characters. */
  function ClosingName(f: WordChars, t: string): Option<string> {
    var n := RunLength(f, t);
    if n < |t| && t[n] == '}' then Some(t[..n]) else None
  }

  /** The piece once it is filled. */
  function FilledPiece(p: Piece, vals: map<string, string>): Option<string> {
    match p
    case Fixed(text) => Some(text)
    case Hole(name) => if name in vals then Some(vals[name]) else None
    case Value(text) => Some(text)
  }

  /** The name that these pieces would close, once they are filled. */
  function WillClose(f: WordChars, ps: seq<Piece>, vals: map<string, string>): Option<string> {
    if ps == [] then None
    else
      match FilledPiece(ps[0], vals)
      case None => None
      case Some(t) =>
        if RunLength(f, t) < |t| then ClosingName(f, t)
        else
          match WillClose(f, ps[1..], vals)
          case None => None
          case Some(w) => Some(t + w)
  }

  /** No brace of the text would open the placeholder of a listed parameter, once what follows is filled. */
  ghost predicate SafeBefore(f: WordChars, text: string, ps: seq<Piece>, names: seq<string>,
                             vals: map<string, string>) {
    forall k :: OpenAt(f, text, k) ==>
      match WillClose(f, ps, vals)
      case None => true
      case Some(w) => !Listed(text[k + 1..] + w, names, vals)
  }

  ghost predicate Shut(f: WordChars, ps: seq<Piece>, names: seq<string>, vals: map<string, string>) {
    ps != [] ==>
      && (ps[0].Fixed? ==> SafeBefore(f, ps[0].text, ps[1..], names, vals))
      && Shut(f, ps[1..], names, vals)
  }

  /**
  No brace in the template's own text would open the placeholder of a listed
  parameter once the placeholders right behind it are filled.
  */
  ghost predicate NoAccident(f: WordChars, s: string, names: seq<string>, vals: map<string, string>) {
    Shut(f, PiecesOf(Scan(f, s)), names, vals)
  }

  lemma ClosingAppend(f: WordChars, a: string, b: string)
    ensures ClosingName(f, a + b)
         == if RunLength(f, a) < |a| then ClosingName(f, a)
            else match ClosingName(f, b) case None => None case Some(w) => Some(a + w)
  {
    hide RunLength;
    RunLengthAppend(f, a, b);
    var n := RunLength(f, a);
    if n < |a| {
      assert (a + b)[n] == a[n] && (a + b)[..n] == a[..n];
    } else {
      var m := RunLength(f, b);
      assert (a + b)[..n + m] == a + b[..m];
      if m < |b| {
        assert (a + b)[n + m] == b[m];
      }
    }
  }

  /** What closes now will still close when everything is filled. */
  lemma {:induction false} ClosesNowOrLater(f: WordChars, ps: seq<Piece>, vals: map<string, string>)
    requires PiecesOk(f, ps)
    ensures ClosingName(f, PiecesText(ps)).Some? ==> WillClose(f, ps, vals) == ClosingName(f, PiecesText(ps))
  {
    if ps != [] {
      ClosesNowOrLater(f, ps[1..], vals);
      ClosingAppend(f, PieceText(ps[0]), PiecesText(ps[1..]));
      assert PieceOk(f, ps[0]);
      assert !f('{');
    }
  }

  lemma {:induction false} PassKeepsClosing(f: WordChars, ps: seq<Piece>, q: string, vals: map<string, string>)
    requires PiecesOk(f, ps) && IsName(f, q) && q in vals && AllTame(f, vals)
    ensures WillClose(f, PassPieces(ps, q, vals[q]), vals) == WillClose(f, ps, vals)
  {
    if ps != [] {
      PassKeepsClosing(f, ps[1..], q, vals);
      assert PieceOk(f, ps[0]);
      if ps[0].Value? {
        PassOneValue(f, ps[0].text, q, vals[q]);
      }
    }
  }

  lemma {:induction false} PassKeepsShut(f: WordChars, ps: seq<Piece>, q: string, names: seq<string>,
                                         vals: map<string, string>)
    requires PiecesOk(f, ps) && IsName(f, q) && q in vals && AllTame(f, vals) && Shut(f, ps, names, vals)
    ensures Shut(f, PassPieces(ps, q, vals[q]), names, vals)
  {
    if ps != [] {
      PassKeepsShut(f, ps[1..], q, names, vals);
      PassKeepsClosing(f, ps[1..], q, vals);
    }
  }

  lemma FixedKeepsApart(f: WordChars, text: string, ps: seq<Piece>, q: string, names: seq<string>,
                        vals: map<string, string>)
    requires PiecesOk(f, ps) && IsName(f, q) && Listed(q, names, vals) && SafeBefore(f, text, ps, names, vals)
    ensures NoStraddle(text, PiecesText(ps), Braced(q))
  {
    hide RunLength, WillClose, PiecesText, PiecesOk;
    ClosesNowOrLater(f, ps, vals);
    forall i: nat | i < |text| && |text| - i < |Braced(q)|
      ensures !OccursAt(text + PiecesText(ps), Braced(q), i)
    {
      if OccursAt(text + PiecesText(ps), Braced(q), i) {
        StraddlingName(f, text, PiecesText(ps), q, i);
      }
    }
  }

  lemma CutAcross(x: string, rest: string, p: string, post: string)
    requires x + rest == p + post && |x| <= |p|
    ensures x == p[..|x|] && rest == p[|x|..] + post
  {
    assert x == (x + rest)[..|x|] == (p + post)[..|x|];
    assert rest == (x + rest)[|x|..] == (p + post)[|x|..];
  }

  /** The end of the name and a closing brace: that end closes. */
  lemma NameCloses(f: WordChars, w: string, post: string)
    requires forall k :: 0 <= k < |w| ==> f(w[k])
    ensures ClosingName(f, w + ("}" + post)) == Some(w)
  {
    NameRuns(f, w);
    RunLengthAppend(f, w, "}" + post);
    assert !f('}') && ("}" + post)[0] == '}';
    assert (w + ("}" + post))[|w|] == '}' && (w + ("}" + post))[..|w|] == w;
  }

  /** An occurrence across the end of the text is a brace, identifier characters, and a name that closes behind it. */
  lemma StraddlingName(f: WordChars, text: string, rest: string, q: string, i: nat)
    requires IsName(f, q) && i < |text| && |text| - i < |Braced(q)| && OccursAt(text + rest, Braced(q), i)
    ensures OpenAt(f, text, i)
    ensures ClosingName(f, rest).Some? && text[i + 1..] + ClosingName(f, rest).value == q
  {
    hide RunLength, ClosingName;
    var p, x := Braced(q), text[i..];
    var post := (text + rest)[i + |p|..];
    assert x + rest == (text + rest)[i..] == p + post;
    CutAcross(x, rest, p, post);
    var m := |x| - 1;
    assert x == ['{'] + q[..m] && text[i + 1..] == x[1..] == q[..m];
    assert p[|x|..] == q[m..] + "}";
    assert rest == q[m..] + ("}" + post);
    NameRuns(f, q[..m]);
    NameCloses(f, q[m..], post);
    assert q[..m] + q[m..] == q;
  }

  lemma {:induction false} PassAllPieces(f: WordChars, ps: seq<Piece>, q: string, names: seq<string>,
                                         vals: map<string, string>)
    requires PiecesOk(f, ps) && IsName(f, q) && Listed(q, names, vals) && AllTame(f, vals)
    requires Shut(f, ps, names, vals)
    ensures ReplaceAll(PiecesText(ps), Braced(q), vals[q]) == PiecesText(PassPieces(ps, q, vals[q]))
    ensures PiecesOk(f, PassPieces(ps, q, vals[q]))
  {
    if ps != [] {
      PassAllPieces(f, ps[1..], q, names, vals);
      assert PieceOk(f, ps[0]);
      PassOnePiece(f, ps[0], q, vals[q]);
      if ps[0].Fixed? {
        FixedKeepsApart(f, ps[0].text, ps[1..], q, names, vals);
      } else {
        SealedKeepsApart(PieceText(ps[0]), PiecesText(ps[1..]), Braced(q));
      }
      ReplaceSplits(PieceText(ps[0]), PiecesText(ps[1..]), Braced(q), vals[q]);
    }
  }

  function FinalPiece(p: Piece, names: seq<string>, vals: map<string, string>): string {
    match p
    case Fixed(text) => text
    case Hole(name) => Filled(name, names, vals)
    case Value(text) => Sequential(text, names, vals)
  }

  function FinalText(ps: seq<Piece>, names: seq<string>, vals: map<string, string>): string {
    if ps == [] then "" else FinalPiece(ps[0], names, vals) + FinalText(ps[1..], names, vals)
  }

  lemma {:induction false} FinalAfterPass(ps: seq<Piece>, names: seq<string>, vals: map<string, string>)
    requires names != []
    ensures FinalText(ps, names, vals)
         == if names[0] in vals then FinalText(PassPieces(ps, names[0], vals[names[0]]), names[1..], vals)
            else FinalText(ps, names[1..], vals)
  {
    if ps != [] {
      FinalAfterPass(ps[1..], names, vals);
    }
  }

  lemma {:induction false} FinalWithoutNames(ps: seq<Piece>, vals: map<string, string>)
    ensures FinalText(ps, [], vals) == PiecesText(ps)
  {
    if ps != [] {
      FinalWithoutNames(ps[1..], vals);
    }
  }

  lemma {:induction false} SequentialOnPieces(
    f: WordChars, ps: seq<Piece>, names: seq<string>, all: seq<string>, vals: map<string, string>)
    requires PiecesOk(f, ps) && AllNames(f, names) && AllTame(f, vals)
    requires Shut(f, ps, all, vals) && forall n :: n in names ==> n in all
    ensures Sequential(PiecesText(ps), names, vals) == FinalText(ps, names, vals)
    decreases |names|
  {
    if names == [] {
      FinalWithoutNames(ps, vals);
    } else {
      var q := names[0];
      FinalAfterPass(ps, names, vals);
      if q in vals {
        PassAllPieces(f, ps, q, all, vals);
        PassKeepsShut(f, ps, q, all, vals);
        SequentialOnPieces(f, PassPieces(ps, q, vals[q]), names[1..], all, vals);
      } else {
        SequentialOnPieces(f, ps, names[1..], all, vals);
      }
    }
  }

  function PiecesOf(segs: seq<Segment>): seq<Piece> {
    if segs == [] then []
    else
      [match segs[0]
       case Literal(text) => Fixed(text)
       case Placeholder(name) => Hole(name)]
      + PiecesOf(segs[1..])
  }

  lemma {:induction false} PiecesOfSegments(segs: seq<Segment>, names: seq<string>, vals: map<string, string>)
    ensures PiecesText(PiecesOf(segs)) == Restore(segs)
    ensures FinalText(PiecesOf(segs), names, vals) == FillSequential(segs, names, vals)
  {
    if segs != [] {
      PiecesOfSegments(segs[1..], names, vals);
    }
  }

  lemma {:induction false} PiecesOfCanonical(f: WordChars, segs: seq<Segment>)
    requires forall k :: 0 <= k < |segs| ==> SegmentOk(f, segs[k])
    ensures PiecesOk(f, PiecesOf(segs))
  {
    if segs != [] {
      PiecesOfCanonical(f, segs[1..]);
      assert SegmentOk(f, segs[0]);
    }
  }

  /**
  What the loop makes of a template: each placeholder becomes its value, with the
  parameters that come later in the order substituted into that value, and nothing
  else changes.
  */
  lemma SequentialResult(f: WordChars, s: string, names: seq<string>, vals: map<string, string>)
    requires AllNames(f, names) && AllTame(f, vals) && NoAccident(f, s, names, vals)
    ensures Sequential(s, names, vals) == FillSequential(Scan(f, s), names, vals)
  {
    var ps := PiecesOf(Scan(f, s));
    ScanIsCanonical(f, s);
    PiecesOfCanonical(f, Scan(f, s));
    PiecesOfSegments(Scan(f, s), names, vals);
    ScanRestores(f, s);
    SequentialOnPieces(f, ps, names, names, vals);
  }

  // ---------------------------------------------------------------- when it is the one-pass substitution

  /** Some later parameter's placeholder stands in the text. */
  ghost predicate Hit(x: string, names: seq<string>, vals: map<string, string>) {
    exists j :: 0 <= j < |names| && names[j] in vals && Contains(x, Braced(names[j]))
  }

  lemma HitCons(x: string, names: seq<string>, vals: map<string, string>)
    requires names != []
    ensures Hit(x, names, vals)
       <==> (names[0] in vals && Contains(x, Braced(names[0]))) || Hit(x, names[1..], vals)
  {
    if Hit(x, names, vals) {
      var j :| 0 <= j < |names| && names[j] in vals && Contains(x, Braced(names[j]));
      assert j > 0 ==> names[1..][j - 1] == names[j];
    }
    if Hit(x, names[1..], vals) {
      var j :| 0 <= j < |names[1..]| && names[1..][j] in vals && Contains(x, Braced(names[1..][j]));
      assert names[j + 1] == names[1..][j];
    }
  }

  /** The strings part at a place where the first has a brace and the second has none. */
  ghost predicate PartAtBrace(x: string, y: string) {
    exists k :: 0 <= k < |x| && k < |y| && x[..k] == y[..k] && x[k] == '{' && y[k] != '{'
  }

  lemma PartTwice(x: string, y: string, z: string)
    requires PartAtBrace(x, y) && PartAtBrace(y, z)
    ensures PartAtBrace(x, z)
  {
    var i :| 0 <= i < |x| && i < |y| && x[..i] == y[..i] && x[i] == '{' && y[i] != '{';
    var j :| 0 <= j < |y| && j < |z| && y[..j] == z[..j] && y[j] == '{' && z[j] != '{';
    assert i != j;
    if j < i {
      assert x[..i][j] == y[..i][j] && x[..j] == x[..i][..j] && y[..j] == y[..i][..j];
    } else {
      assert y[..j][i] == z[..j][i] && y[..i] == y[..j][..i] && z[..i] == z[..j][..i];
    }
  }

  lemma {:induction false} SequentialChanges(f: WordChars, x: string, names: seq<string>, vals: map<string, string>)
    requires AllTame(f, vals)
    ensures !Hit(x, names, vals) ==> Sequential(x, names, vals) == x
    ensures Hit(x, names, vals) ==> PartAtBrace(x, Sequential(x, names, vals))
    decreases |names|
  {
    if names != [] {
      HitCons(x, names, vals);
      var y := Pass(x, names[0], vals);
      SequentialChanges(f, y, names[1..], vals);
      if names[0] in vals {
        assert Tame(f, vals[names[0]]);
        var k := ReplaceChanges(x, Braced(names[0]), vals[names[0]]);
        if Contains(x, Braced(names[0])) {
          assert PartAtBrace(x, y);
          if Hit(y, names[1..], vals) {
            PartTwice(x, y, Sequential(x, names, vals));
          }
        }
      }
    }
  }

  ghost predicate Placed(segs: seq<Segment>, name: string) {
    Placeholder(name) in segs
  }

  /** A later parameter's placeholder stands in the value of an earlier one. */
  ghost predicate ClashIn(name: string, names: seq<string>, vals: map<string, string>) {
    exists i, j :: 0 <= i < j < |names| && names[i] == name && name in vals && names[j] in vals
                   && Contains(vals[name], Braced(names[j]))
  }

  lemma HitIsClash(name: string, names: seq<string>, vals: map<string, string>)
    requires names != [] && names[0] == name && name in vals
    ensures Hit(vals[name], names[1..], vals) <==> ClashIn(name, names, vals)
  {
    var tail := names[1..];
    if Hit(vals[name], tail, vals) {
      var j :| 0 <= j < |tail| && tail[j] in vals && Contains(vals[name], Braced(tail[j]));
      assert names[j + 1] == tail[j];
      assert names[0] == name;
    }
    if ClashIn(name, names, vals) {
      var i, j :| 0 <= i < j < |names| && names[i] == name && name in vals && names[j] in vals
                  && Contains(vals[name], Braced(names[j]));
      assert tail[j - 1] == names[j];
    }
  }

  lemma {:induction false} FilledAgainstDirect(f: WordChars, name: string, names: seq<string>,
                                               vals: map<string, string>)
    requires AllTame(f, vals)
    ensures !ClashIn(name, names, vals) ==> Filled(name, names, vals) == Direct(name, names, vals)
    ensures ClashIn(name, names, vals) ==>
              PartAtBrace(Direct(name, names, vals), Filled(name, names, vals))
    decreases |names|
  {
    if names != [] {
      if names[0] == name && name in vals {
        SequentialChanges(f, vals[name], names[1..], vals);
        HitIsClash(name, names, vals);
      } else {
        FilledAgainstDirect(f, name, names[1..], vals);
        ClashInTail(name, names, vals);
        assert name in names && name in vals ==> name in names[1..];
      }
    }
  }

  lemma ClashInTail(name: string, names: seq<string>, vals: map<string, string>)
    requires names != [] && (names[0] != name || name !in vals)
    ensures ClashIn(name, names, vals) <==> ClashIn(name, names[1..], vals)
  {
    var tail := names[1..];
    if ClashIn(name, names, vals) {
      var i, j :| 0 <= i < j < |names| && names[i] == name && name in vals && names[j] in vals
                  && Contains(vals[name], Braced(names[j]));
      assert tail[i - 1] == names[i] && tail[j - 1] == names[j];
    }
    if ClashIn(name, tail, vals) {
      var i, j :| 0 <= i < j < |tail| && tail[i] == name && name in vals && tail[j] in vals
                  && Contains(vals[name], Braced(tail[j]));
      assert tail[i] == names[i + 1] && tail[j] == names[j + 1];
    }
  }

  lemma {:induction false} FillsAgree(f: WordChars, segs: seq<Segment>, names: seq<string>, vals: map<string, string>)
    requires AllTame(f, vals)
    ensures FillSequential(segs, names, vals) == FillDirect(segs, names, vals)
       <==> forall n :: Placed(segs, n) ==> !ClashIn(n, names, vals)
  {
    if segs != [] {
      var tail := segs[1..];
      FillsAgree(f, tail, names, vals);
      assert segs == [segs[0]] + tail;
      assert forall n :: Placed(segs, n) <==> segs[0] == Placeholder(n) || Placed(tail, n);
      if segs[0].Placeholder? {
        var n := segs[0].name;
        FilledAgainstDirect(f, n, names, vals);
        if ClashIn(n, names, vals) {
          PartedHeadsDiffer(Direct(n, names, vals), Filled(n, names, vals),
                            FillDirect(tail, names, vals), FillSequential(tail, names, vals));
        } else {
          SameFront(Filled(n, names, vals), FillDirect(tail, names, vals), FillSequential(tail, names, vals));
        }
      } else {
        SameFront(segs[0].text, FillDirect(tail, names, vals), FillSequential(tail, names, vals));
      }
    }
  }

  lemma PartedHeadsDiffer(x: string, y: string, a: string, b: string)
    requires PartAtBrace(x, y)
    ensures x + a != y + b
  {
    var k :| 0 <= k < |x| && k < |y| && x[..k] == y[..k] && x[k] == '{' && y[k] != '{';
    assert (x + a)[k] != (y + b)[k];
  }

  /**
  The loop gives what a single pass over the template gives exactly when no value
  that is placed in the template contains the placeholder of a parameter that comes
  after it in the order.
  */
  lemma SequentialIsOnePassExactly(f: WordChars, s: string, names: seq<string>, vals: map<string, string>)
    requires AllNames(f, names) && AllTame(f, vals) && NoAccident(f, s, names, vals)
    ensures Sequential(s, names, vals) == FillDirect(Scan(f, s), names, vals)
       <==> forall n :: Placed(Scan(f, s), n) ==> !ClashIn(n, names, vals)
  {
    SequentialResult(f, s, names, vals);
    FillsAgree(f, Scan(f, s), names, vals);
  }
}
