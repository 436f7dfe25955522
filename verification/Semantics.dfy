/**
The semantics overlay (`crates/skardi/src/semantics.rs`): descriptions from the
context and from any number of files are merged into one registry.  Parsing the
files and finding them on disk are left out; a file is what it says, in order.
*/
module Semantics {
  import opened Options
  import opened Text
  import TableRef

  // ---------------------------------------------------------------- keys

  datatype Key = Source(name: string) | Qualified(catalog: string, schema: string, table: string)

  function ParseKey(name: string): Option<Key> {
    var parts := TableRef.Split(name);
    if |parts| == 1 && parts[0] != "" then Some(Source(parts[0]))
    else if |parts| == 3 && parts[0] != "" && parts[1] != "" && parts[2] != "" then
      Some(Qualified(parts[0], parts[1], parts[2]))
    else None
  }

  function Display(k: Key): string {
    match k
    case Source(name) => name
    case Qualified(catalog, schema, table) => catalog + "." + (schema + "." + table)
  }

  predicate Segment(part: string) {
    part != "" && '.' !in part
  }

  predicate WellFormed(k: Key) {
    match k
    case Source(name) => Segment(name)
    case Qualified(catalog, schema, table) => Segment(catalog) && Segment(schema) && Segment(table)
  }

  lemma {:induction false} SplitPlain(part: string, rest: string)
    requires '.' !in part
    ensures TableRef.Split(part + ("." + rest)) == [part] + TableRef.Split(rest)
    ensures TableRef.Split(part) == [part]
  {
    var s := part + ("." + rest);
    if part == "" {
      assert s == "." + rest && s[1..] == rest;
    } else {
      SplitPlain(part[1..], rest);
      assert s[0] == part[0] != '.' && s[1..] == part[1..] + ("." + rest);
      assert [part[0]] + part[1..] == part;
      assert ([part[1..]] + TableRef.Split(rest))[1..] == TableRef.Split(rest);
    }
  }

  lemma ParsedDisplays(name: string)
    requires ParseKey(name).Some?
    ensures WellFormed(ParseKey(name).value) && Display(ParseKey(name).value) == name
  {
    var parts := TableRef.Split(name);
    TableRef.JoinSplit(name);
    if |parts| == 3 {
      var c, s, t := parts[0], parts[1], parts[2];
      assert parts == [c, s, t] && [c, s, t][1..] == [s, t] && [s, t][1..] == [t];
      assert Join([s, t], ".") == s + "." + t;
    }
  }

  lemma DisplayedParses(k: Key)
    requires WellFormed(k)
    ensures ParseKey(Display(k)) == Some(k)
  {
    match k
    case Source(n) => SplitPlain(n, "");
    case Qualified(c, s, t) =>
      SplitPlain(c, s + ("." + t));
      SplitPlain(s, t);
      SplitPlain(t, "");
      assert Display(k) == c + ("." + (s + ("." + t)));
      assert [c] + ([s] + [t]) == [c, s, t];
  }

  /** A name parses to a key exactly when the key is well formed and displays as the name. */
  lemma ParseInvertsDisplayExactly(name: string, k: Key)
    ensures ParseKey(name) == Some(k) <==> WellFormed(k) && Display(k) == name
  {
    if ParseKey(name).Some? {
      ParsedDisplays(name);
    }
    if WellFormed(k) {
      DisplayedParses(k);
    }
  }

  // ---------------------------------------------------------------- files

  datatype ColumnSemantics = ColumnSemantics(name: string, description: Option<string>)

  datatype SourceSemantics = SourceSemantics(name: string, description: Option<string>, columns: seq<ColumnSemantics>)

  datatype SemanticsFile = SemanticsFile(path: string, sources: seq<SourceSemantics>)

  datatype ContextSource = ContextSource(name: string, description: Option<string>)

  datatype SourceEntry = SourceEntry(
    description: Option<string>,
    columns: map<string, string>,
    descriptionOrigin: Option<string>,
    columnOrigins: map<string, string>)

  type Entries = map<Key, SourceEntry>

  const DEFAULT := SourceEntry(None, map[], None, map[])

  datatype SemanticsError =
    | BadName(name: string)
    | Duplicate(key: Key, column: Option<string>, first: string, second: string)

  predicate Given(description: Option<string>) {
    description.Some? && description.value != ""
  }

  // ---------------------------------------------------------------- the merge

  function EntryOf(entries: Entries, k: Key): SourceEntry {
    if k in entries then entries[k] else DEFAULT
  }

  function Lookup(m: map<string, string>, k: string): Option<string> {
    if k in m then Some(m[k]) else None
  }

  /** The description of a source (no column) or of one of its columns. */
  function TextOf(entries: Entries, k: Key, column: Option<string>): Option<string> {
    match column
    case None => EntryOf(entries, k).description
    case Some(c) => Lookup(EntryOf(entries, k).columns, c)
  }

  /** The file that gave it. */
  function OriginOf(entries: Entries, k: Key, column: Option<string>): Option<string> {
    match column
    case None => EntryOf(entries, k).descriptionOrigin
    case Some(c) => Lookup(EntryOf(entries, k).columnOrigins, c)
  }

  function Described(entries: Entries, k: Key, column: Option<string>, text: string, origin: string): Entries {
    var e := EntryOf(entries, k);
    match column
    case None => entries[k := e.(description := Some(text), descriptionOrigin := Some(origin))]
    case Some(c) =>
      entries[k := e.(columns := e.columns[c := text], columnOrigins := e.columnOrigins[c := origin])]
  }

  /** Seeds the map with the descriptions of the context; a later one replaces an earlier one. */
  method SeedEntries(ctx: seq<ContextSource>) returns (entries: Entries)
    ensures entries == Seed(ctx)
  {
    entries := map[];
    for i := 0 to |ctx|
      invariant entries == Seed(ctx[..i])
    {
      assert ctx[..i + 1][..i] == ctx[..i];
      if Given(ctx[i].description) {
        var k := Source(ctx[i].name);
        entries := entries[k := EntryOf(entries, k).(description := ctx[i].description)];
      }
    }
    assert ctx[..|ctx|] == ctx;
  }

  method MergeColumns(entries: Entries, k: Key, columns: seq<ColumnSemantics>, origin: string)
    returns (r: Result<Entries, SemanticsError>)
    ensures r == ApplyAll(entries, ColumnFacts(k, origin, columns))
  {
    var current := entries;
    assert columns[0..] == columns;
    for i := 0 to |columns|
      invariant ApplyAll(current, ColumnFacts(k, origin, columns[i..]))
             == ApplyAll(entries, ColumnFacts(k, origin, columns))
    {
      var col := columns[i];
      assert columns[i..][1..] == columns[i + 1..];
      FirstColumn(current, k, origin, columns[i..]);
      if Given(col.description) {
        var prior := OriginOf(current, k, Some(col.name));
        if prior.Some? {
          return Err(Duplicate(k, Some(col.name), prior.value, origin));
        }
        current := Described(current, k, Some(col.name), col.description.value, origin);
      }
    }
    return Ok(current);
  }

  /** One source of a file: its key, its description, its columns. */
  method MergeSource(entries: Entries, source: SourceSemantics, origin: string)
    returns (r: Result<Entries, SemanticsError>)
    ensures r == ApplyAll(entries, SourceFacts(source, origin))
  {
    var key := ParseKey(source.name);
    if key.None? {
      return Err(BadName(source.name));
    }
    var k := key.value;
    SourceInParts(entries, k, source, origin);
    var current := entries[k := EntryOf(entries, k)];
    if Given(source.description) {
      var prior := OriginOf(current, k, None);
      if prior.Some? {
        return Err(Duplicate(k, None, prior.value, origin));
      }
      current := Described(current, k, None, source.description.value, origin);
    }
    r := MergeColumns(current, k, source.columns, origin);
  }

  method MergeInto(entries: Entries, file: SemanticsFile) returns (r: Result<Entries, SemanticsError>)
    ensures r == ApplyAll(entries, FileFacts(file))
  {
    var current := entries;
    assert file.sources[0..] == file.sources;
    for i := 0 to |file.sources|
      invariant ApplyAll(current, FlatMap(s => SourceFacts(s, file.path), file.sources[i..]))
             == ApplyAll(entries, FileFacts(file))
    {
      var sources := file.sources[i..];
      assert sources[1..] == file.sources[i + 1..];
      ApplyAppend(current, SourceFacts(sources[0], file.path), FlatMap(s => SourceFacts(s, file.path), sources[1..]));
      var merged := MergeSource(current, file.sources[i], file.path);
      match merged {
        case Err(why) => return Err(why);
        case Ok(next) => current := next;
      }
    }
    return Ok(current);
  }

  method Build(files: seq<SemanticsFile>, ctx: seq<ContextSource>) returns (r: Result<Entries, SemanticsError>)
    ensures r == ApplyAll(Seed(ctx), AllFacts(files))
  {
    var seeded := SeedEntries(ctx);
    var current := seeded;
    assert files[0..] == files;
    for i := 0 to |files|
      invariant ApplyAll(current, AllFacts(files[i..])) == ApplyAll(seeded, AllFacts(files))
    {
      assert files[i..][1..] == files[i + 1..];
      ApplyAppend(current, FileFacts(files[i]), AllFacts(files[i + 1..]));
      var merged := MergeInto(current, files[i]);
      match merged {
        case Err(why) => return Err(why);
        case Ok(next) => current := next;
      }
    }
    return Ok(current);
  }

  // ---------------------------------------------------------------- what the files say

  /** One thing a file says: a name it cannot use, a key it has an entry for, a description it gives. */
  datatype Fact =
    | Malformed(name: string)
    | Mentions(key: Key)
    | Says(key: Key, column: Option<string>, text: string, origin: string)

  function Seed(ctx: seq<ContextSource>): Entries {
    if ctx == [] then map[]
    else
      var before, last := Seed(ctx[..|ctx| - 1]), ctx[|ctx| - 1];
      if Given(last.description) then
        before[Source(last.name) := EntryOf(before, Source(last.name)).(description := last.description)]
      else before
  }

  function FlatMap<A>(f: A -> seq<Fact>, xs: seq<A>): seq<Fact> {
    if xs == [] then [] else f(xs[0]) + FlatMap(f, xs[1..])
  }

  function OptionalFact(k: Key, column: Option<string>, description: Option<string>, origin: string): seq<Fact> {
    if Given(description) then [Says(k, column, description.value, origin)] else []
  }

  function ColumnFacts(k: Key, origin: string, columns: seq<ColumnSemantics>): seq<Fact> {
    FlatMap((c: ColumnSemantics) => OptionalFact(k, Some(c.name), c.description, origin), columns)
  }

  function SourceFacts(source: SourceSemantics, origin: string): seq<Fact> {
    match ParseKey(source.name)
    case None => [Malformed(source.name)]
    case Some(k) =>
      [Mentions(k)] + (OptionalFact(k, None, source.description, origin) + ColumnFacts(k, origin, source.columns))
  }

  function FileFacts(file: SemanticsFile): seq<Fact> {
    FlatMap(s => SourceFacts(s, file.path), file.sources)
  }

  function AllFacts(files: seq<SemanticsFile>): seq<Fact> {
    FlatMap(FileFacts, files)
  }

  /** Taking in one fact; a second description of the same thing is an error. */
  function Apply(entries: Entries, fact: Fact): Result<Entries, SemanticsError> {
    match fact
    case Malformed(name) => Err(BadName(name))
    case Mentions(k) => Ok(entries[k := EntryOf(entries, k)])
    case Says(k, column, text, origin) =>
      var prior := OriginOf(entries, k, column);
      if prior.Some? then Err(Duplicate(k, column, prior.value, origin))
      else Ok(Described(entries, k, column, text, origin))
  }

  function ApplyAll(entries: Entries, facts: seq<Fact>): Result<Entries, SemanticsError>
    decreases |facts|
  {
    if facts == [] then Ok(entries)
    else
      match Apply(entries, facts[0])
      case Err(why) => Err(why)
      case Ok(next) => ApplyAll(next, facts[1..])
  }

  lemma {:induction false} ApplyAppend(entries: Entries, a: seq<Fact>, b: seq<Fact>)
    ensures ApplyAll(entries, a + b)
         == match ApplyAll(entries, a)
            case Err(why) => Err(why)
            case Ok(next) => ApplyAll(next, b)
    decreases |a|
  {
    if a == [] {
      assert a + b == b;
    } else {
      assert (a + b)[0] == a[0] && (a + b)[1..] == a[1..] + b;
      var first := Apply(entries, a[0]);
      if first.Ok? {
        ApplyAppend(first.value, a[1..], b);
      }
    }
  }

  lemma ApplyOne(entries: Entries, fact: Fact)
    ensures ApplyAll(entries, [fact]) == Apply(entries, fact)
  {
    assert [fact][1..] == [];
  }

  lemma FirstColumn(entries: Entries, k: Key, origin: string, columns: seq<ColumnSemantics>)
    requires columns != []
    ensures
      var col := columns[0];
      ApplyAll(entries, ColumnFacts(k, origin, columns))
      == if !Given(col.description) then ApplyAll(entries, ColumnFacts(k, origin, columns[1..]))
         else
           match Apply(entries, Says(k, Some(col.name), col.description.value, origin))
           case Err(why) => Err(why)
           case Ok(next) => ApplyAll(next, ColumnFacts(k, origin, columns[1..]))
  {
    var col := columns[0];
    var here, rest := OptionalFact(k, Some(col.name), col.description, origin), ColumnFacts(k, origin, columns[1..]);
    ApplyAppend(entries, here, rest);
    if Given(col.description) {
      ApplyOne(entries, here[0]);
    }
  }

  lemma SourceInParts(entries: Entries, k: Key, source: SourceSemantics, origin: string)
    requires ParseKey(source.name) == Some(k)
    ensures
      var mentioned := entries[k := EntryOf(entries, k)];
      var facts := ColumnFacts(k, origin, source.columns);
      ApplyAll(entries, SourceFacts(source, origin))
      == if !Given(source.description) then ApplyAll(mentioned, facts)
         else
           match Apply(mentioned, Says(k, None, source.description.value, origin))
           case Err(why) => Err(why)
           case Ok(next) => ApplyAll(next, facts)
  {
    var here, rest := OptionalFact(k, None, source.description, origin), ColumnFacts(k, origin, source.columns);
    var mentioned := entries[k := EntryOf(entries, k)];
    ApplyAppend(entries, [Mentions(k)], here + rest);
    ApplyOne(entries, Mentions(k));
    ApplyAppend(mentioned, here, rest);
    if Given(source.description) {
      ApplyOne(mentioned, here[0]);
    }
  }

  // ---------------------------------------------------------------- the union

  predicate SameThing(f: Fact, g: Fact) {
    f.Says? && g.Says? && f.key == g.key && f.column == g.column
  }

  /** Every name can be used, and no two facts describe the same thing. */
  ghost predicate Clean(facts: multiset<Fact>) {
    && (forall f :: f in facts ==> !f.Malformed?)
    && (forall f, g :: f in facts && g in facts && SameThing(f, g) ==> f == g && facts[f] == 1)
  }

  ghost predicate Unsaid(facts: multiset<Fact>, k: Key, column: Option<string>) {
    forall text, origin :: Says(k, column, text, origin) !in facts
  }

  /** The entries hold what the facts say, and the seed where they say nothing. */
  ghost predicate Holds(entries: Entries, facts: multiset<Fact>, seed: Entries) {
    && (forall k, column, text, origin :: Says(k, column, text, origin) in facts ==>
          TextOf(entries, k, column) == Some(text) && OriginOf(entries, k, column) == Some(origin))
    && (forall k, column :: Unsaid(facts, k, column) ==>
          OriginOf(entries, k, column) == None && TextOf(entries, k, column) == TextOf(seed, k, column))
  }

  lemma DescribedChangesOne(entries: Entries, k: Key, column: Option<string>, text: string, origin: string,
                            k': Key, column': Option<string>)
    ensures
      var next := Described(entries, k, column, text, origin);
      && TextOf(next, k', column')
         == (if k' == k && column' == column then Some(text) else TextOf(entries, k', column'))
      && OriginOf(next, k', column')
         == (if k' == k && column' == column then Some(origin) else OriginOf(entries, k', column'))
  {
  }

  lemma HoldsAfterSaying(entries: Entries, facts: multiset<Fact>, seed: Entries, fact: Fact)
    requires Holds(entries, facts, seed) && fact.Says? && Unsaid(facts, fact.key, fact.column)
    ensures Holds(Described(entries, fact.key, fact.column, fact.text, fact.origin), facts + multiset{fact}, seed)
  {
    var next := Described(entries, fact.key, fact.column, fact.text, fact.origin);
    forall k, column, text, origin | Says(k, column, text, origin) in facts + multiset{fact}
      ensures TextOf(next, k, column) == Some(text) && OriginOf(next, k, column) == Some(origin)
    {
      DescribedChangesOne(entries, fact.key, fact.column, fact.text, fact.origin, k, column);
    }
    forall k, column | Unsaid(facts + multiset{fact}, k, column)
      ensures OriginOf(next, k, column) == None && TextOf(next, k, column) == TextOf(seed, k, column)
    {
      DescribedChangesOne(entries, fact.key, fact.column, fact.text, fact.origin, k, column);
      assert fact == Says(fact.key, fact.column, fact.text, fact.origin);
      assert forall text, origin :: Says(k, column, text, origin) in facts ==>
                                      Says(k, column, text, origin) in facts + multiset{fact};
    }
  }

  lemma HoldsAfterMention(entries: Entries, facts: multiset<Fact>, seed: Entries, k: Key)
    requires Holds(entries, facts, seed)
    ensures Holds(entries[k := EntryOf(entries, k)], facts + multiset{Mentions(k)}, seed)
  {
    var next := entries[k := EntryOf(entries, k)];
    var more := facts + multiset{Mentions(k)};
    assert forall x :: EntryOf(next, x) == EntryOf(entries, x);
    forall x, column | Unsaid(more, x, column)
      ensures Unsaid(facts, x, column)
    {
      assert forall text, origin :: Says(x, column, text, origin) in facts ==> Says(x, column, text, origin) in more;
    }
  }

  /** One more fact is clean exactly when its name is good and nothing was said about its thing. */
  lemma CleanWithOneMore(facts: multiset<Fact>, fact: Fact)
    requires Clean(facts)
    ensures Clean(facts + multiset{fact}) <==> !fact.Malformed? && (fact.Says? ==> Unsaid(facts, fact.key, fact.column))
  {
    var more := facts + multiset{fact};
    assert fact in more;
    if fact.Says? && !Unsaid(facts, fact.key, fact.column) {
      var text, origin :| Says(fact.key, fact.column, text, origin) in facts;
      var other := Says(fact.key, fact.column, text, origin);
      assert other in more && SameThing(fact, other);
      assert fact == other ==> more[fact] >= 2;
    }
    if !fact.Malformed? && (fact.Says? ==> Unsaid(facts, fact.key, fact.column)) {
      forall f, g | f in more && g in more && SameThing(f, g)
        ensures f == g && more[f] == 1
      {
        assert f == Says(f.key, f.column, f.text, f.origin) && g == Says(g.key, g.column, g.text, g.origin);
        assert f !in facts ==> f == fact;
        assert g !in facts ==> g == fact;
        assert fact.Says? ==> fact == Says(fact.key, fact.column, fact.text, fact.origin);
      }
    }
  }

  lemma DirtyStaysDirty(facts: multiset<Fact>, more: multiset<Fact>)
    requires !Clean(facts)
    ensures !Clean(facts + more)
  {
    var all := facts + more;
    assert forall f :: f in facts ==> f in all;
    if forall f :: f in facts ==> !f.Malformed? {
      var f, g :| f in facts && g in facts && SameThing(f, g) && !(f == g && facts[f] == 1);
      assert all[f] >= facts[f] >= 1;
    }
  }

  /** The merge goes through exactly when the facts are clean, and then holds what they say. */
  lemma {:induction false} MergeHolds(entries: Entries, facts: multiset<Fact>, rest: seq<Fact>, seed: Entries)
    requires Clean(facts) && Holds(entries, facts, seed)
    ensures ApplyAll(entries, rest).Ok? <==> Clean(facts + multiset(rest))
    ensures ApplyAll(entries, rest).Ok? ==> Holds(ApplyAll(entries, rest).value, facts + multiset(rest), seed)
    decreases |rest|
  {
    if rest == [] {
      assert facts + multiset(rest) == facts;
    } else {
      var fact, tail := rest[0], rest[1..];
      var more := facts + multiset{fact};
      assert rest == [fact] + tail;
      assert facts + multiset(rest) == more + multiset(tail);
      CleanWithOneMore(facts, fact);
      ApplySays(entries, facts, seed, fact);
      if Apply(entries, fact).Ok? {
        MergeHolds(Apply(entries, fact).value, more, tail, seed);
      } else {
        DirtyStaysDirty(more, multiset(tail));
      }
    }
  }

  lemma ApplySays(entries: Entries, facts: multiset<Fact>, seed: Entries, fact: Fact)
    requires Holds(entries, facts, seed)
    ensures Apply(entries, fact).Ok?
       <==> !fact.Malformed? && (fact.Says? ==> Unsaid(facts, fact.key, fact.column))
    ensures Apply(entries, fact).Ok? ==> Holds(Apply(entries, fact).value, facts + multiset{fact}, seed)
  {
    match fact
    case Malformed(_) =>
    case Mentions(k) => HoldsAfterMention(entries, facts, seed, k);
    case Says(k, column, text, origin) =>
      if Unsaid(facts, k, column) {
        HoldsAfterSaying(entries, facts, seed, fact);
      }
  }

  /** The last description that the context gives for a source. */
  function FromContext(ctx: seq<ContextSource>, name: string): Option<string> {
    if ctx == [] then None
    else if ctx[|ctx| - 1].name == name && Given(ctx[|ctx| - 1].description) then ctx[|ctx| - 1].description
    else FromContext(ctx[..|ctx| - 1], name)
  }

  lemma {:induction false} SeedIsContext(ctx: seq<ContextSource>, k: Key, column: Option<string>)
    ensures OriginOf(Seed(ctx), k, column) == None
    ensures TextOf(Seed(ctx), k, column) == if k.Source? && column.None? then FromContext(ctx, k.name) else None
  {
    if ctx != [] {
      SeedIsContext(ctx[..|ctx| - 1], k, column);
    }
  }

  /** Some file gives this description. */
  ghost predicate Stated(facts: multiset<Fact>, k: Key, column: Option<string>, text: string) {
    exists origin :: Says(k, column, text, origin) in facts
  }

  /** A file gives this description, or the context does and no file. */
  ghost predicate InUnion(facts: multiset<Fact>, ctx: seq<ContextSource>, k: Key, column: Option<string>,
                          text: string) {
    || Stated(facts, k, column, text)
    || (Unsaid(facts, k, column) && k.Source? && column.None? && FromContext(ctx, k.name) == Some(text))
  }

  /** Building the registry succeeds exactly when every name is usable and nothing is described twice. */
  lemma BuildSucceedsExactly(files: seq<SemanticsFile>, ctx: seq<ContextSource>)
    ensures ApplyAll(Seed(ctx), AllFacts(files)).Ok? <==> Clean(multiset(AllFacts(files)))
    ensures ApplyAll(Seed(ctx), AllFacts(files)).Ok? ==>
              Holds(ApplyAll(Seed(ctx), AllFacts(files)).value, multiset(AllFacts(files)), Seed(ctx))
  {
    var facts := multiset(AllFacts(files));
    assert multiset{} + facts == facts;
    forall k, column
      ensures OriginOf(Seed(ctx), k, column) == None
    {
      SeedIsContext(ctx, k, column);
    }
    MergeHolds(Seed(ctx), multiset{}, AllFacts(files), Seed(ctx));
  }

  /** The registry is the union of what the files say, over what the context says. */
  lemma RegistryIsTheUnion(files: seq<SemanticsFile>, ctx: seq<ContextSource>, k: Key, column: Option<string>,
                           text: string)
    requires ApplyAll(Seed(ctx), AllFacts(files)).Ok?
    ensures TextOf(ApplyAll(Seed(ctx), AllFacts(files)).value, k, column) == Some(text)
       <==> InUnion(multiset(AllFacts(files)), ctx, k, column, text)
  {
    BuildSucceedsExactly(files, ctx);
    OneLookup(ApplyAll(Seed(ctx), AllFacts(files)).value, multiset(AllFacts(files)), Seed(ctx), k, column, text);
    SeedIsContext(ctx, k, column);
  }

  lemma OneLookup(entries: Entries, facts: multiset<Fact>, seed: Entries, k: Key, column: Option<string>, text: string)
    requires Holds(entries, facts, seed)
    ensures TextOf(entries, k, column) == Some(text) <==>
      Stated(facts, k, column, text) || (Unsaid(facts, k, column) && TextOf(seed, k, column) == Some(text))
  {
    if !Unsaid(facts, k, column) {
      var t, o :| Says(k, column, t, o) in facts;
      assert TextOf(entries, k, column) == Some(t);
    }
  }

  // ---------------------------------------------------------------- order

  lemma {:induction false} FlatMapAppend<A>(f: A -> seq<Fact>, a: seq<A>, b: seq<A>)
    ensures FlatMap(f, a + b) == FlatMap(f, a) + FlatMap(f, b)
  {
    if a == [] {
      assert a + b == b;
    } else {
      assert (a + b)[0] == a[0] && (a + b)[1..] == a[1..] + b;
      FlatMapAppend(f, a[1..], b);
      Assoc(f(a[0]), FlatMap(f, a[1..]), FlatMap(f, b));
    }
  }

  lemma FlatMapPicks<A>(f: A -> seq<Fact>, a: seq<A>, x: A, b: seq<A>)
    ensures multiset(FlatMap(f, a + ([x] + b))) == multiset(f(x)) + multiset(FlatMap(f, a + b))
  {
    FlatMapAppend(f, a, [x] + b);
    FlatMapAppend(f, a, b);
    assert ([x] + b)[1..] == b;
  }

  /** What the elements look like, in no order. */
  ghost function Bag<A, B>(g: A -> B, xs: seq<A>): multiset<B> {
    if xs == [] then multiset{} else multiset{g(xs[0])} + Bag(g, xs[1..])
  }

  lemma {:induction false} BagAppend<A, B>(g: A -> B, a: seq<A>, b: seq<A>)
    ensures Bag(g, a + b) == Bag(g, a) + Bag(g, b)
  {
    if a == [] {
      assert a + b == b;
    } else {
      assert (a + b)[0] == a[0] && (a + b)[1..] == a[1..] + b;
      BagAppend(g, a[1..], b);
    }
  }

  lemma BagPicks<A, B>(g: A -> B, a: seq<A>, x: A, b: seq<A>)
    ensures Bag(g, a + ([x] + b)) == multiset{g(x)} + Bag(g, a + b)
  {
    BagAppend(g, a, [x] + b);
    BagAppend(g, a, b);
    assert ([x] + b)[1..] == b;
  }

  lemma {:induction false} FindAlike<A, B>(g: A -> B, xs: seq<A>, y: B) returns (i: nat)
    requires y in Bag(g, xs)
    ensures i < |xs| && g(xs[i]) == y
  {
    if g(xs[0]) == y {
      i := 0;
    } else {
      var j := FindAlike(g, xs[1..], y);
      i := j + 1;
    }
  }

  function Itself<A>(x: A): A {
    x
  }

  lemma {:induction false} BagIsMultiset<A>(xs: seq<A>)
    ensures Bag(Itself<A>, xs) == multiset(xs)
  {
    if xs != [] {
      BagIsMultiset(xs[1..]);
      assert xs == [xs[0]] + xs[1..];
    }
  }

  lemma CancelOne<A>(x: A, m: multiset<A>, n: multiset<A>)
    requires multiset{x} + m == multiset{x} + n
    ensures m == n
  {
    forall y
      ensures m[y] == n[y]
    {
      assert (multiset{x} + m)[y] == (multiset{x} + n)[y];
    }
  }

  /** Elements that look the same say the same. */
  ghost predicate LooksTell<A(!new), B>(f: A -> seq<Fact>, g: A -> B, xs: seq<A>, ys: seq<A>) {
    forall x, y :: x in xs && y in ys && g(x) == g(y) ==> multiset(f(x)) == multiset(f(y))
  }

  /** The place in the second list of an element that looks like the first one of the first. */
  lemma PickAlike<A, B>(g: A -> B, xs: seq<A>, ys: seq<A>) returns (a: seq<A>, y: A, b: seq<A>)
    requires xs != [] && Bag(g, xs) == Bag(g, ys)
    ensures ys == a + ([y] + b) && g(y) == g(xs[0])
    ensures Bag(g, xs[1..]) == Bag(g, a + b)
  {
    var x, rest := xs[0], xs[1..];
    var i := FindAlike(g, ys, g(x));
    a, y, b := ys[..i], ys[i], ys[i + 1..];
    assert ys == a + ([y] + b);
    BagPicks(g, a, y, b);
    CancelOne(g(x), Bag(g, rest), Bag(g, a + b));
  }

  /** Lists that look the same in no order say the same. */
  lemma {:induction false} FlatMapAlike<A(!new), B>(f: A -> seq<Fact>, g: A -> B, xs: seq<A>, ys: seq<A>)
    requires Bag(g, xs) == Bag(g, ys) && LooksTell(f, g, xs, ys)
    ensures multiset(FlatMap(f, xs)) == multiset(FlatMap(f, ys))
    decreases |xs|
  {
    if xs == [] {
      BagSize(g, ys);
    } else {
      var a, y, b := PickAlike(g, xs, ys);
      FlatMapAlike(f, g, xs[1..], a + b);
      FlatMapPicks(f, a, y, b);
      assert y in ys;
    }
  }

  lemma {:induction false} BagSize<A, B>(g: A -> B, ys: seq<A>)
    ensures |Bag(g, ys)| == |ys|
  {
    if ys != [] {
      BagSize(g, ys[1..]);
    }
  }

  /** A source with its columns in no order, and a file with its sources in no order. */
  datatype LooseSource = LooseSource(name: string, description: Option<string>, columns: multiset<ColumnSemantics>)

  datatype LooseFile = LooseFile(path: string, sources: multiset<LooseSource>)

  ghost function Loosen(s: SourceSemantics): LooseSource {
    LooseSource(s.name, s.description, multiset(s.columns))
  }

  ghost function LoosenFile(file: SemanticsFile): LooseFile {
    LooseFile(file.path, Bag(Loosen, file.sources))
  }

  lemma LooseSourcesSayTheSame(s: SourceSemantics, t: SourceSemantics, origin: string)
    requires Loosen(s) == Loosen(t)
    ensures multiset(SourceFacts(s, origin)) == multiset(SourceFacts(t, origin))
  {
    BagIsMultiset(s.columns);
    BagIsMultiset(t.columns);
    if ParseKey(s.name).Some? {
      var k := ParseKey(s.name).value;
      FlatMapAlike((c: ColumnSemantics) => OptionalFact(k, Some(c.name), c.description, origin),
                   Itself<ColumnSemantics>, s.columns, t.columns);
    }
  }

  lemma LooseFilesSayTheSame(a: SemanticsFile, b: SemanticsFile)
    requires LoosenFile(a) == LoosenFile(b)
    ensures multiset(FileFacts(a)) == multiset(FileFacts(b))
  {
    forall s, t | s in a.sources && t in b.sources && Loosen(s) == Loosen(t)
      ensures multiset(SourceFacts(s, a.path)) == multiset(SourceFacts(t, a.path))
    {
      LooseSourcesSayTheSame(s, t, a.path);
    }
    FlatMapAlike(s => SourceFacts(s, a.path), Loosen, a.sources, b.sources);
  }

  /** Files that say the same in any order build the same registry, or none. */
  lemma OrderIsIrrelevant(a: seq<SemanticsFile>, b: seq<SemanticsFile>, ctx: seq<ContextSource>)
    requires multiset(AllFacts(a)) == multiset(AllFacts(b))
    ensures ApplyAll(Seed(ctx), AllFacts(a)).Ok? <==> ApplyAll(Seed(ctx), AllFacts(b)).Ok?
    ensures ApplyAll(Seed(ctx), AllFacts(a)).Ok? ==>
              forall k, column :: TextOf(ApplyAll(Seed(ctx), AllFacts(a)).value, k, column)
                               == TextOf(ApplyAll(Seed(ctx), AllFacts(b)).value, k, column)
  {
    BuildSucceedsExactly(a, ctx);
    BuildSucceedsExactly(b, ctx);
    if ApplyAll(Seed(ctx), AllFacts(a)).Ok? {
      forall k, column
        ensures TextOf(ApplyAll(Seed(ctx), AllFacts(a)).value, k, column)
             == TextOf(ApplyAll(Seed(ctx), AllFacts(b)).value, k, column)
      {
        SameLookup(a, b, ctx, k, column);
      }
    }
  }

  lemma SameLookup(a: seq<SemanticsFile>, b: seq<SemanticsFile>, ctx: seq<ContextSource>, k: Key,
                   column: Option<string>)
    requires multiset(AllFacts(a)) == multiset(AllFacts(b))
    requires ApplyAll(Seed(ctx), AllFacts(a)).Ok? && ApplyAll(Seed(ctx), AllFacts(b)).Ok?
    ensures TextOf(ApplyAll(Seed(ctx), AllFacts(a)).value, k, column)
         == TextOf(ApplyAll(Seed(ctx), AllFacts(b)).value, k, column)
  {
    hide ApplyAll, AllFacts, TextOf, InUnion;
    var x := TextOf(ApplyAll(Seed(ctx), AllFacts(a)).value, k, column);
    var y := TextOf(ApplyAll(Seed(ctx), AllFacts(b)).value, k, column);
    if x.Some? {
      RegistryIsTheUnion(a, ctx, k, column, x.value);
      RegistryIsTheUnion(b, ctx, k, column, x.value);
    } else if y.Some? {
      RegistryIsTheUnion(a, ctx, k, column, y.value);
      RegistryIsTheUnion(b, ctx, k, column, y.value);
    }
  }

  /**
  Files, the sources in them and the columns of those, each in any order: the same
  success, and the same answer to every lookup.
  */
  lemma ReorderingIsIrrelevant(a: seq<SemanticsFile>, b: seq<SemanticsFile>, ctx: seq<ContextSource>)
    requires Bag(LoosenFile, a) == Bag(LoosenFile, b)
    ensures ApplyAll(Seed(ctx), AllFacts(a)).Ok? <==> ApplyAll(Seed(ctx), AllFacts(b)).Ok?
    ensures ApplyAll(Seed(ctx), AllFacts(a)).Ok? ==>
              forall k, column :: TextOf(ApplyAll(Seed(ctx), AllFacts(a)).value, k, column)
                               == TextOf(ApplyAll(Seed(ctx), AllFacts(b)).value, k, column)
  {
    forall x, y | x in a && y in b && LoosenFile(x) == LoosenFile(y)
      ensures multiset(FileFacts(x)) == multiset(FileFacts(y))
    {
      LooseFilesSayTheSame(x, y);
    }
    FlatMapAlike(FileFacts, LoosenFile, a, b);
    OrderIsIrrelevant(a, b, ctx);
  }

  // ---------------------------------------------------------------- lookups

  /** The qualified entry, else the entry of the bare source if the caller knows it. */
  function Resolve(entries: Entries, catalog: string, schema: string, table: string,
                   source: Option<string>, column: Option<string>): Option<string> {
    match TextOf(entries, Qualified(catalog, schema, table), column)
    case Some(text) => Some(text)
    case None => if source.Some? then TextOf(entries, Source(source.value), column) else None
  }

  /** The most specific description wins, and files win over the context. */
  lemma MostSpecificWins(files: seq<SemanticsFile>, ctx: seq<ContextSource>, catalog: string, schema: string,
                         table: string, source: Option<string>, column: Option<string>, text: string)
    requires ApplyAll(Seed(ctx), AllFacts(files)).Ok?
    ensures
      var facts, q := multiset(AllFacts(files)), Qualified(catalog, schema, table);
      Resolve(ApplyAll(Seed(ctx), AllFacts(files)).value, catalog, schema, table, source, column) == Some(text) <==>
        || Stated(facts, q, column, text)
        || (Unsaid(facts, q, column) && source.Some? && InUnion(facts, ctx, Source(source.value), column, text))
  {
    hide ApplyAll, AllFacts, TextOf;
    var facts, q := multiset(AllFacts(files)), Qualified(catalog, schema, table);
    var found := TextOf(ApplyAll(Seed(ctx), AllFacts(files)).value, q, column);
    RegistryIsTheUnion(files, ctx, q, column, text);
    if found.Some? {
      RegistryIsTheUnion(files, ctx, q, column, found.value);
    } else {
      forall t
        ensures !Stated(facts, q, column, t)
      {
        RegistryIsTheUnion(files, ctx, q, column, t);
      }
      NothingStated(facts, q, column);
    }
    if source.Some? {
      RegistryIsTheUnion(files, ctx, Source(source.value), column, text);
    }
  }

  lemma NothingStated(facts: multiset<Fact>, k: Key, column: Option<string>)
    ensures (forall t :: !Stated(facts, k, column, t)) <==> Unsaid(facts, k, column)
  {
    if forall t :: !Stated(facts, k, column, t) {
      forall text, origin
        ensures Says(k, column, text, origin) !in facts
      {
        assert !Stated(facts, k, column, text);
      }
    }
  }

  /** Column texts and column origins are kept for the same columns. */
  lemma {:induction false} DomainsStayEqual(entries: Entries, facts: seq<Fact>)
    requires forall k :: k in entries ==> entries[k].columns.Keys == entries[k].columnOrigins.Keys
    requires ApplyAll(entries, facts).Ok?
    ensures
      var result := ApplyAll(entries, facts).value;
      forall k :: k in result ==> result[k].columns.Keys == result[k].columnOrigins.Keys
    decreases |facts|
  {
    if facts != [] {
      DomainsStayEqual(Apply(entries, facts[0]).value, facts[1..]);
    }
  }

  lemma {:induction false} KeysOnlyGrow(entries: Entries, facts: seq<Fact>)
    requires ApplyAll(entries, facts).Ok?
    ensures entries.Keys <= ApplyAll(entries, facts).value.Keys
    ensures facts != [] ==> ApplyAll(entries, facts).value != map[]
    decreases |facts|
  {
    if facts != [] {
      var next := Apply(entries, facts[0]).value;
      KeysOnlyGrow(next, facts[1..]);
      assert facts[0].key in next.Keys;
    }
  }

  /** `is_empty` holds exactly when the context describes no source and no file has an entry. */
  lemma EmptyExactly(files: seq<SemanticsFile>, ctx: seq<ContextSource>)
    requires ApplyAll(Seed(ctx), AllFacts(files)).Ok?
    ensures ApplyAll(Seed(ctx), AllFacts(files)).value == map[] <==> Seed(ctx) == map[] && AllFacts(files) == []
  {
    KeysOnlyGrow(Seed(ctx), AllFacts(files));
  }

  lemma FlatMapOne<A>(f: A -> seq<Fact>, x: A)
    ensures FlatMap(f, [x]) == f(x)
  {
    assert [x][1..] == [];
  }

  /** An entry that describes nothing is enough to make the registry count as not empty. */
  lemma BareEntryIsNotEmpty()
    ensures
      var files := [SemanticsFile("f.yaml", [SourceSemantics("a", None, [])])];
      && ApplyAll(Seed([]), AllFacts(files)) == Ok(map[Source("a") := DEFAULT])
      && forall k, column :: TextOf(map[Source("a") := DEFAULT], k, column) == None
  {
    var source := SourceSemantics("a", None, []);
    var file := SemanticsFile("f.yaml", [source]);
    DisplayedParses(Source("a"));
    assert SourceFacts(source, "f.yaml") == [Mentions(Source("a"))];
    FlatMapOne(s => SourceFacts(s, "f.yaml"), source);
    FlatMapOne(FileFacts, file);
    ApplyOne(map[], Mentions(Source("a")));
  }
}
