/**
What the merge of `Semantics` takes from the files and from the context, spelled out:
which description is given for which key, and which two files an error names.
*/
module SemanticsFacts {
  import opened Options
  import opened Text
  import opened Semantics

  lemma {:induction false} FlatMapHas<A(!new)>(f: A -> seq<Fact>, xs: seq<A>, fact: Fact)
    ensures fact in FlatMap(f, xs) <==> exists x :: x in xs && fact in f(x)
  {
    if xs != [] {
      FlatMapHas(f, xs[1..], fact);
      assert xs == [xs[0]] + xs[1..];
    }
  }

  /** The source gives this description, for itself or for one of its columns. */
  predicate Gives(source: SourceSemantics, column: Option<string>, text: string) {
    match column
    case None => source.description == Some(text)
    case Some(c) => ColumnSemantics(c, Some(text)) in source.columns
  }

  lemma ColumnGives(k: Key, origin: string, columns: seq<ColumnSemantics>, column: Option<string>, text: string)
    ensures Says(k, column, text, origin) in ColumnFacts(k, origin, columns)
       <==> text != "" && column.Some? && ColumnSemantics(column.value, Some(text)) in columns
  {
    var f := (c: ColumnSemantics) => OptionalFact(k, Some(c.name), c.description, origin);
    var fact := Says(k, column, text, origin);
    FlatMapHas(f, columns, fact);
    if fact in FlatMap(f, columns) {
      var c :| c in columns && fact in f(c);
      assert c == ColumnSemantics(column.value, Some(text));
    }
    if text != "" && column.Some? && ColumnSemantics(column.value, Some(text)) in columns {
      assert fact in f(ColumnSemantics(column.value, Some(text)));
    }
  }

  lemma ColumnsSayColumns(k: Key, origin: string, columns: seq<ColumnSemantics>, fact: Fact)
    requires fact in ColumnFacts(k, origin, columns)
    ensures fact.Says? && fact.key == k && fact.origin == origin
  {
    var f := (c: ColumnSemantics) => OptionalFact(k, Some(c.name), c.description, origin);
    FlatMapHas(f, columns, fact);
  }

  /** A source says what it describes, under the key that its name displays. */
  lemma SourceSays(source: SourceSemantics, origin: string, k: Key, column: Option<string>, text: string, from: string)
    ensures Says(k, column, text, from) in SourceFacts(source, origin)
       <==> && from == origin && text != ""
            && WellFormed(k) && Display(k) == source.name
            && Gives(source, column, text)
  {
    ParseInvertsDisplayExactly(source.name, k);
    var fact := Says(k, column, text, from);
    if ParseKey(source.name).Some? {
      var key := ParseKey(source.name).value;
      ColumnGives(key, origin, source.columns, column, text);
      if fact in ColumnFacts(key, origin, source.columns) {
        ColumnsSayColumns(key, origin, source.columns, fact);
      }
    }
  }

  lemma SourceIsMalformed(source: SourceSemantics, origin: string, name: string)
    ensures Malformed(name) in SourceFacts(source, origin)
       <==> name == source.name && forall k :: WellFormed(k) ==> Display(k) != name
  {
    if ParseKey(source.name).Some? {
      var key := ParseKey(source.name).value;
      ParseInvertsDisplayExactly(source.name, key);
      if Malformed(name) in ColumnFacts(key, origin, source.columns) {
        ColumnsSayColumns(key, origin, source.columns, Malformed(name));
      }
    } else {
      forall k | WellFormed(k)
        ensures Display(k) != source.name
      {
        ParseInvertsDisplayExactly(source.name, k);
      }
    }
  }

  /** A source of the file gives the description, and it is not empty. */
  ghost predicate GivenIn(file: SemanticsFile, k: Key, column: Option<string>, text: string) {
    exists source :: source in file.sources && text != ""
      && WellFormed(k) && Display(k) == source.name && Gives(source, column, text)
  }

  lemma FileSays(file: SemanticsFile, k: Key, column: Option<string>, text: string, origin: string)
    ensures Says(k, column, text, origin) in FileFacts(file) <==> origin == file.path && GivenIn(file, k, column, text)
  {
    hide SourceFacts, WellFormed, Display, Gives, FlatMap;
    var fact := Says(k, column, text, origin);
    var f := (s: SourceSemantics) => SourceFacts(s, file.path);
    FlatMapHas(f, file.sources, fact);
    forall source | source in file.sources
      ensures fact in f(source) <==>
        && origin == file.path && text != ""
        && WellFormed(k) && Display(k) == source.name && Gives(source, column, text)
    {
      SourceSays(source, file.path, k, column, text, origin);
    }
  }

  /** The merge takes in exactly the descriptions that the files give. */
  lemma FactsAreWhatFilesSay(files: seq<SemanticsFile>, k: Key, column: Option<string>, text: string, origin: string)
    ensures Says(k, column, text, origin) in AllFacts(files)
       <==> exists file :: file in files && file.path == origin && GivenIn(file, k, column, text)
  {
    hide FileFacts, GivenIn, FlatMap;
    var fact := Says(k, column, text, origin);
    FlatMapHas(FileFacts, files, fact);
    forall file | file in files
      ensures fact in FileFacts(file) <==> origin == file.path && GivenIn(file, k, column, text)
    {
      FileSays(file, k, column, text, origin);
    }
  }

  /** The context gives a source the last description that is not empty. */
  lemma {:induction false} ContextGivesTheLast(ctx: seq<ContextSource>, name: string, text: string)
    ensures FromContext(ctx, name) == Some(text)
       <==> exists i :: 0 <= i < |ctx| && ctx[i] == ContextSource(name, Some(text)) && text != ""
              && forall j :: i < j < |ctx| && ctx[j].name == name ==>
                   ctx[j].description.None? || ctx[j].description == Some("")
  {
    if ctx != [] {
      var front, last := ctx[..|ctx| - 1], ctx[|ctx| - 1];
      ContextGivesTheLast(front, name, text);
      assert forall i :: 0 <= i < |front| ==> front[i] == ctx[i];
      if last.name == name && Given(last.description) {
        assert ctx[|front|] == last;
      }
    }
  }

  /**
  An error names the fact that could not be taken in: the name that cannot be used, or
  the file that described something a second time and the one that did so before.
  */
  lemma {:induction false} ErrorNamesBothFiles(seed: Entries, facts: seq<Fact>) returns (j: nat)
    requires forall k, column :: OriginOf(seed, k, column) == None
    requires ApplyAll(seed, facts).Err?
    ensures j < |facts| && ApplyAll(seed, facts[..j]).Ok?
    ensures
      match ApplyAll(seed, facts).error
      case BadName(name) => facts[j] == Malformed(name)
      case Duplicate(k, column, first, second) =>
        && (exists text :: facts[j] == Says(k, column, text, second))
        && (exists text :: Says(k, column, text, first) in facts[..j])
    decreases |facts|
  {
    var front, last := facts[..|facts| - 1], facts[|facts| - 1];
    assert facts == front + [last];
    ApplyAppend(seed, front, [last]);
    if ApplyAll(seed, front).Err? {
      j := ErrorNamesBothFiles(seed, front);
      assert facts[..j] == front[..j];
    } else {
      j := |front|;
      var entries := ApplyAll(seed, front).value;
      assert [last][1..] == [];
      MergeHolds(seed, multiset{}, front, seed);
      assert multiset{} + multiset(front) == multiset(front);
      if last.Says? {
        assert !Unsaid(multiset(front), last.key, last.column);
        var text, origin :| Says(last.key, last.column, text, origin) in multiset(front);
        assert OriginOf(entries, last.key, last.column) == Some(origin);
        assert Says(last.key, last.column, text, origin) in front;
      }
    }
  }
}
