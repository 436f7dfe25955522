/**
What the scanner and the readers take for a parameter, spelled out: which characters
make a name, where in a text a name is found, in which order, and what counts as
VALUES and its placeholder.
*/
module SpelledNames {
  import opened Options
  import opened Text
  import opened TemplateScanner
  import opened TemplateReaders
  import opened QuestionMarks

  const SMALL: set<char> := {
    'a', 'b', 'c', 'd', 'e', 'f', 'g', 'h', 'i', 'j', 'k', 'l', 'm',
    'n', 'o', 'p', 'q', 'r', 's', 't', 'u', 'v', 'w', 'x', 'y', 'z'
  }

  const CAPITAL: set<char> := {
    'A', 'B', 'C', 'D', 'E', 'F', 'G', 'H', 'I', 'J', 'K', 'L', 'M',
    'N', 'O', 'P', 'Q', 'R', 'S', 'T', 'U', 'V', 'W', 'X', 'Y', 'Z'
  }

  const DECIMAL: set<char> := {'0', '1', '2', '3', '4', '5', '6', '7', '8', '9'}

  predicate NameCharacter(c: char) {
    c in SMALL || c in CAPITAL || c in DECIMAL || c == '_'
  }

  /** `[a-zA-Z_][a-zA-Z0-9_]*` */
  predicate Identifier(name: string) {
    name != "" && name[0] !in DECIMAL && forall k :: 0 <= k < |name| ==> NameCharacter(name[k])
  }

  // ---------------------------------------------------------------- characters

  lemma LettersAreListed(c: char)
    ensures 'a' <= c <= 'z' <==> c in SMALL
    ensures 'A' <= c <= 'Z' <==> c in CAPITAL
  {
  }

  lemma DecimalsAreListed(c: char)
    ensures '0' <= c <= '9' <==> c in DECIMAL
  {
  }

  lemma AsciiIsListed(c: char)
    ensures AsciiWordChar(c) <==> NameCharacter(c)
    ensures '0' <= c <= '9' <==> c in DECIMAL
  {
    LettersAreListed(c);
    DecimalsAreListed(c);
  }

  /** Of the ASCII characters a name consists of these and no others. */
  lemma WordCharactersAreListed(f: WordChars, c: char)
    requires c < 128 as char
    ensures f(c) <==> NameCharacter(c)
  {
    AsciiIsListed(c);
  }

  lemma IdentifierIsAscii(name: string)
    ensures AsciiIdent(name) <==> Identifier(name)
  {
    if name != "" {
      AsciiIsListed(name[0]);
    }
    forall k | 0 <= k < |name|
      ensures AsciiWordChar(name[k]) <==> NameCharacter(name[k])
    {
      AsciiIsListed(name[k]);
    }
  }

  lemma IdentifierIsName(f: WordChars, name: string)
    requires Identifier(name)
    ensures IsName(f, name)
  {
    IdentifierIsAscii(name);
    forall k | 0 <= k < |name|
      ensures f(name[k])
    {
      assert AsciiWordChar(name[k]);
    }
  }

  // ---------------------------------------------------------------- where names are found

  lemma StandsThere(s: string, p: string, i: nat)
    requires OccursAt(s, p, i)
    ensures s == s[..i] + p + s[i + |p|..]
  {
  }

  lemma StandsBehind(front: string, rest: string, p: string)
    requires Contains(rest, p)
    ensures Contains(front + rest, p)
  {
    var i: nat :| OccursAt(rest, p, i);
    var s, k := front + rest, |front| + i;
    assert s[k..k + |p|] == rest[i..i + |p|];
    assert OccursAt(s, p, k);
  }

  lemma StandsFirst(p: string, rest: string)
    ensures Contains(p + rest, p)
  {
    assert (p + rest)[0..|p|] == p;
    assert OccursAt(p + rest, p, 0);
  }

  lemma {:induction false} PlaceholderStandsThere(segs: seq<Segment>, name: string)
    requires Placeholder(name) in segs
    ensures Contains(Restore(segs), Braced(name))
  {
    hide Contains, Braced;
    var front, rest := SegmentText(segs[0]), Restore(segs[1..]);
    if segs[0] == Placeholder(name) {
      StandsFirst(Braced(name), rest);
    } else {
      assert segs == [segs[0]] + segs[1..];
      PlaceholderStandsThere(segs[1..], name);
      StandsBehind(front, rest, Braced(name));
    }
  }

  /** The scanner finds a placeholder exactly where a name stands between braces. */
  lemma FoundExactly(f: WordChars, s: string, name: string)
    ensures Placeholder(name) in Scan(f, s)
       <==> && name != ""
            && (forall k :: 0 <= k < |name| ==> f(name[k]))
            && Contains(s, "{" + name + "}")
  {
    ScanIsCanonical(f, s);
    ScanRestores(f, s);
    assert "{" + name + "}" == Braced(name);
    if Placeholder(name) in Scan(f, s) {
      PlaceholderStandsThere(Scan(f, s), name);
      assert SegmentOk(f, Placeholder(name));
    }
    if IsName(f, name) && Contains(s, Braced(name)) {
      var i: nat :| OccursAt(s, Braced(name), i);
      StandsThere(s, Braced(name), i);
      EveryPlaceholderIsFound(f, s[..i], name, s[i + |Braced(name)|..]);
    }
  }

  /** The inferrer's expression captures exactly the identifiers that stand between braces. */
  lemma CapturedExactly(s: string, name: string)
    ensures name in Captures(s) <==> Identifier(name) && Contains(s, "{" + name + "}")
  {
    var f := AsciiWordChar;
    CapturesAreScannedIdents(f, s);
    IdentsStay(NamesOf(Scan(f, s)));
    NamesArePlaced(Scan(f, s));
    FoundExactly(f, s, name);
    IdentifierIsAscii(name);
    if Identifier(name) {
      IdentifierIsName(f, name);
    }
  }

  /** A template that is one identifier between braces. */
  lemma OneIdentifier(f: WordChars, name: string)
    requires Identifier(name)
    ensures Scan(f, "{" + name + "}") == [Placeholder(name)]
    ensures Captures("{" + name + "}") == [name]
  {
    hide Identifier;
    var t := "{" + name + "}";
    IdentifierIsName(f, name);
    IdentifierIsAscii(name);
    EveryPlaceholderIsFound(f, "", name, "");
    assert "" + Braced(name) + "" == t;
    CapturesAreScannedIdents(f, t);
    NamesCons(Placeholder(name), []);
    IdentsCons(name, []);
  }

  /** A parameter as templates have them. */
  lemma UserIdIsFound(f: WordChars)
    ensures Scan(f, "{user_id}") == [Placeholder("user_id")]
    ensures Captures("{user_id}") == ["user_id"]
  {
    hide Scan, Captures;
    OneIdentifier(f, "user_id");
    assert "{" + "user_id" + "}" == "{user_id}";
  }

  // ---------------------------------------------------------------- order

  /** Names are listed in the order in which they first stand in the text. */
  lemma {:induction false} FirstSeenKeepsOrder(xs: seq<string>, i: nat, j: nat) returns (p: nat)
    requires i < j < |FirstSeen(xs)|
    ensures p < |xs| && xs[p] == FirstSeen(xs)[i]
    ensures forall q :: 0 <= q <= p ==> xs[q] != FirstSeen(xs)[j]
  {
    var before, last := xs[..|xs| - 1], xs[|xs| - 1];
    if j < |FirstSeen(before)| {
      p := FirstSeenKeepsOrder(before, i, j);
    } else {
      FirstSeenHasAll(before);
      var name := FirstSeen(before)[i];
      assert name in before && last !in before;
      p :| 0 <= p < |before| && before[p] == name;
      assert forall q :: 0 <= q < |before| ==> before[q] == xs[q] && before[q] in before;
    }
  }

  // ---------------------------------------------------------------- VALUES and its placeholder

  /** VALUES in upper and lower case, in any mixture; the expression also takes a long s for the s. */
  predicate SaysValues(t: string) {
    && |t| == 6
    && t[0] in {'V', 'v'} && t[1] in {'A', 'a'} && t[2] in {'L', 'l'}
    && t[3] in {'U', 'u'} && t[4] in {'E', 'e'} && t[5] in {'S', 's', '\U{017F}'}
  }

  predicate AllSpace(x: Classes, t: string) {
    forall k :: 0 <= k < |t| ==> x.space(t[k])
  }

  lemma {:induction false} SpaceRunIs(x: Classes, gap: string, rest: string)
    requires AllSpace(x, gap) && (rest == "" || !x.space(rest[0]))
    ensures SpaceRun(x, gap + rest) == |gap|
  {
    if gap == "" {
      assert gap + rest == rest;
    } else {
      assert (gap + rest)[1..] == gap[1..] + rest;
      SpaceRunIs(x, gap[1..], rest);
    }
  }

  lemma {:induction false} SpaceRunIsSpace(x: Classes, t: string)
    ensures AllSpace(x, t[..SpaceRun(x, t)])
  {
    if t != "" && x.space(t[0]) {
      SpaceRunIsSpace(x, t[1..]);
      assert forall k :: 1 <= k < SpaceRun(x, t) ==> t[k] == t[1..][..SpaceRun(x, t[1..])][k - 1];
    }
  }

  lemma MatchesIdentifier(name: string, rest: string)
    requires Identifier(name)
    ensures Matches(Braced(name) + rest)
    ensures Captured(Braced(name) + rest) == name && Behind(Braced(name) + rest) == rest
  {
    var f := AsciiWordChar;
    IdentifierIsAscii(name);
    IdentifierIsName(f, name);
    NameStartsPlaceholder(f, name, rest);
    MatchIsIdentPlaceholder(f, Braced(name) + rest);
  }

  /** VALUES that begins no longer word, perhaps white space, and a placeholder become a tuple with a question mark. */
  lemma TupleIsRewritten(x: Classes, before: Option<char>, keyword: string, gap: string, name: string, rest: string)
    requires SaysValues(keyword) && AllSpace(x, gap) && Identifier(name)
    ensures
      var t := keyword + (gap + ("{" + name + "}" + rest));
      TuplesRewritten(x, before, t)
      == if before.None? || !x.word(before.value) then "VALUES (?)" + TuplesRewritten(x, Some('}'), rest)
         else [t[0]] + TuplesRewritten(x, Some(t[0]), t[1..])
  {
    var placeholder := Braced(name) + rest;
    var t := keyword + (gap + placeholder);
    assert "{" + name + "}" + rest == placeholder;
    assert ValuesAt(t) && t[6..] == gap + placeholder;
    assert placeholder[0] == '{' && !x.space('{');
    SpaceRunIs(x, gap, placeholder);
    assert t[Ahead(x, t)..] == placeholder;
    MatchesIdentifier(name, rest);
  }

  lemma MatchIsIdentifier(t: string)
    requires Matches(t)
    ensures Identifier(Captured(t)) && t == "{" + Captured(t) + "}" + Behind(t)
  {
    var f := AsciiWordChar;
    MatchIsIdentPlaceholder(f, t);
    SplitPlaceholder(f, t);
    IdentifierIsAscii(NameOf(f, t));
  }

  lemma GapIsSpace(x: Classes, t: string)
    requires ValuesAt(t)
    ensures SaysValues(t[..6]) && AllSpace(x, t[6..Ahead(x, t)])
  {
    SpaceRunIsSpace(x, t[6..]);
    assert t[6..Ahead(x, t)] == t[6..][..SpaceRun(x, t[6..])];
  }

  /** Nothing else does. */
  lemma OnlyTuplesMatch(x: Classes, before: Option<char>, t: string)
    returns (keyword: string, gap: string, name: string, rest: string)
    requires TupleMatches(x, before, t)
    ensures before.None? || !x.word(before.value)
    ensures t == keyword + (gap + ("{" + name + "}" + rest))
    ensures SaysValues(keyword) && AllSpace(x, gap) && Identifier(name)
  {
    var n := Ahead(x, t);
    assert 6 <= n <= |t|;
    hide Ahead, Matches, Identifier, SaysValues, AllSpace, ValuesAt;
    var found := t[n..];
    GapIsSpace(x, t);
    MatchIsIdentifier(found);
    keyword, gap, name, rest := t[..6], t[6..n], Captured(found), Behind(found);
    assert t == keyword + (gap + found);
  }
}
