/**
Parameter values, how the server prints them as SQL text
(`crates/server/src/pipeline_handlers.rs`), and a reader that gets them back.
A number is the text it prints as.
*/
module SqlValues {
  import opened Options
  import opened Text

  predicate NumeralChar(c: char) {
    '0' <= c <= '9' || c in {'-', '+', '.', 'e', 'E'}
  }

  predicate IsNumeral(s: string) {
    && s != ""
    && ('0' <= s[0] <= '9' || s[0] == '-')
    && forall k :: 0 <= k < |s| ==> NumeralChar(s[k])
  }

  type Numeral = s: string | IsNumeral(s) witness "0"

  datatype Scalar = Null | Bool(b: bool) | Number(lexeme: Numeral) | Str(s: string)

  /** A cell of a row: a scalar, or a flat vector for a vector column. */
  datatype Cell = One(value: Scalar) | Vector(elements: seq<Scalar>)

  /** An element of a top-level array. */
  datatype Item = Plain(value: Scalar) | Row(cells: seq<Cell>)

  datatype Param = Single(value: Scalar) | List(items: seq<Item>) | Object

  datatype Unsupported = EmptyArray | RaggedRows | MixedShape | WrongType

  // ---------------------------------------------------------------- printing

  function Map<A, B>(f: A -> B, xs: seq<A>): seq<B> {
    if xs == [] then [] else [f(xs[0])] + Map(f, xs[1..])
  }

  function Escape(s: string): string {
    ReplaceAll(s, "'", "''")
  }

  function Quote(s: string): string {
    "'" + (Escape(s) + "'")
  }

  function ScalarToSql(v: Scalar): string {
    match v
    case Number(lexeme) => lexeme
    case Str(s) => Quote(s)
    case Bool(b) => if b then "true" else "false"
    case Null => "NULL"
  }

  function CellToSql(c: Cell): string {
    match c
    case Vector(elements) => VectorToSql(elements)
    case One(value) => ScalarToSql(value)
  }

  function VectorToSql(elements: seq<Scalar>): string {
    "[" + (Join(Map(ScalarToSql, elements), ", ") + "]")
  }

  function RowToSql(cells: seq<Cell>): string {
    "(" + (Join(Map(CellToSql, cells), ", ") + ")")
  }

  function RowsToSql(rows: seq<seq<Cell>>): string {
    Join(Map(RowToSql, rows), ", ")
  }

  predicate AllRows(items: seq<Item>) {
    forall k :: 0 <= k < |items| ==> items[k].Row?
  }

  predicate AllPlain(items: seq<Item>) {
    forall k :: 0 <= k < |items| ==> items[k].Plain?
  }

  function CellsOf(items: seq<Item>): seq<seq<Cell>>
    requires AllRows(items)
  {
    seq(|items|, k requires 0 <= k < |items| => items[k].cells)
  }

  function ValuesOf(items: seq<Item>): seq<Scalar>
    requires AllPlain(items)
  {
    seq(|items|, k requires 0 <= k < |items| => items[k].value)
  }

  /** The text put in place of a placeholder, or why the value is refused. */
  function ParamToSql(p: Param): Result<string, Unsupported> {
    match p
    case Single(value) => Ok(ScalarToSql(value))
    case Object => Err(WrongType)
    case List(items) =>
      if items == [] then Err(EmptyArray)
      else if AllRows(items) then
        var rows := CellsOf(items);
        var width := |rows[0]|;
        if width == 0 || (exists k :: 0 <= k < |rows| && |rows[k]| != width) then Err(RaggedRows)
        else Ok(RowsToSql(rows))
      else if exists k :: 0 <= k < |items| && items[k].Row? then Err(MixedShape)
      else Ok(VectorToSql(ValuesOf(items)))
  }

  /** All rows have the same number of cells, and at least one. */
  ghost predicate Rectangular(rows: seq<seq<Cell>>) {
    && rows != []
    && forall j, k :: 0 <= j < |rows| && 0 <= k < |rows| ==> 0 < |rows[j]| == |rows[k]|
  }

  // ---------------------------------------------------------------- reading

  datatype Read<+T> = Read(value: T, rest: string)

  /** The rest of a string literal after its opening quote. */
  function ReadQuoted(s: string): (r: Option<Read<string>>)
    ensures r.Some? ==> |r.value.rest| < |s|
  {
    if s == "" then None
    else if s[0] != '\'' then
      match ReadQuoted(s[1..])
      case None => None
      case Some(Read(t, rest)) => Some(Read([s[0]] + t, rest))
    else if |s| >= 2 && s[1] == '\'' then
      match ReadQuoted(s[2..])
      case None => None
      case Some(Read(t, rest)) => Some(Read(['\''] + t, rest))
    else Some(Read("", s[1..]))
  }

  function NumeralLength(s: string): (n: nat)
    ensures n <= |s|
  {
    if s == "" || !NumeralChar(s[0]) then 0 else 1 + NumeralLength(s[1..])
  }

  function ReadScalar(s: string): (r: Option<Read<Scalar>>)
    ensures r.Some? ==> |r.value.rest| < |s|
  {
    if s == "" then None
    else if s[0] == '\'' then
      match ReadQuoted(s[1..])
      case None => None
      case Some(Read(t, rest)) => Some(Read(Str(t), rest))
    else if "NULL" <= s then Some(Read(Null, s[4..]))
    else if "true" <= s then Some(Read(Bool(true), s[4..]))
    else if "false" <= s then Some(Read(Bool(false), s[5..]))
    else
      var n := NumeralLength(s);
      if IsNumeral(s[..n]) then Some(Read(Number(s[..n]), s[n..])) else None
  }

  ghost predicate Consumes<T(!new)>(item: string -> Option<Read<T>>) {
    forall s :: item(s).Some? ==> |item(s).value.rest| < |s|
  }

  /** One or more items, separated by a comma and a space, up to the closing character. */
  ghost function ReadItems<T(!new)>(item: string -> Option<Read<T>>, close: char, s: string): (r: Option<Read<seq<T>>>)
    requires Consumes(item)
    ensures r.Some? ==> |r.value.rest| < |s|
    decreases |s|
  {
    match item(s)
    case None => None
    case Some(Read(x, rest)) =>
      if rest != "" && rest[0] == close then Some(Read([x], rest[1..]))
      else if ", " <= rest then
        match ReadItems(item, close, rest[2..])
        case None => None
        case Some(Read(xs, end)) => Some(Read([x] + xs, end))
      else None
  }

  ghost function ReadList<T(!new)>(item: string -> Option<Read<T>>, close: char, s: string): (r: Option<Read<seq<T>>>)
    requires Consumes(item)
    ensures r.Some? ==> |r.value.rest| < |s|
  {
    if s != "" && s[0] == close then Some(Read([], s[1..])) else ReadItems(item, close, s)
  }

  ghost function ReadCell(s: string): (r: Option<Read<Cell>>)
    ensures r.Some? ==> |r.value.rest| < |s|
  {
    if s != "" && s[0] == '[' then
      match ReadList(ReadScalar, ']', s[1..])
      case None => None
      case Some(Read(xs, rest)) => Some(Read(Vector(xs), rest))
    else
      match ReadScalar(s)
      case None => None
      case Some(Read(x, rest)) => Some(Read(One(x), rest))
  }

  ghost function ReadRow(s: string): (r: Option<Read<seq<Cell>>>)
    ensures r.Some? ==> |r.value.rest| < |s|
  {
    if s != "" && s[0] == '(' then ReadList(ReadCell, ')', s[1..]) else None
  }

  function AsRows(rows: seq<seq<Cell>>): seq<Item> {
    seq(|rows|, k requires 0 <= k < |rows| => Row(rows[k]))
  }

  function AsPlain(values: seq<Scalar>): seq<Item> {
    seq(|values|, k requires 0 <= k < |values| => Plain(values[k]))
  }

  /** Reads what was put in place of a placeholder, up to a final semicolon. */
  ghost function ReadParam(s: string): Option<Param> {
    if s != "" && s[0] == '(' then
      match ReadItems(ReadRow, ';', s + ";")
      case Some(Read(rows, "")) => Some(List(AsRows(rows)))
      case _ => None
    else if s != "" && s[0] == '[' then
      match ReadList(ReadScalar, ']', s[1..])
      case Some(Read(values, "")) => Some(List(AsPlain(values)))
      case _ => None
    else
      match ReadScalar(s)
      case Some(Read(value, "")) => Some(Single(value))
      case _ => None
  }

  // ---------------------------------------------------------------- reading undoes printing

  lemma {:induction false} QuotedReadsBack(t: string, rest: string)
    requires rest == "" || rest[0] != '\''
    ensures ReadQuoted(Escape(t) + ("'" + rest)) == Some(Read(t, rest))
  {
    var tail := "'" + rest;
    if t == "" {
      assert Escape(t) == "";
      assert "" + tail == tail && tail[1..] == rest;
    } else {
      QuotedReadsBack(t[1..], rest);
      ReplaceStep(t, "'", "''");
      assert t == [t[0]] + t[1..];
      var head := if t[0] == '\'' then "''" else [t[0]];
      assert "'" <= t <==> t[0] == '\'';
      Assoc(head, Escape(t[1..]), tail);
      var s := head + (Escape(t[1..]) + tail);
      assert s[|head|..] == Escape(t[1..]) + tail;
    }
  }

  lemma {:induction false} NumeralReadsBack(n: string, rest: string)
    requires forall k :: 0 <= k < |n| ==> NumeralChar(n[k])
    requires rest == "" || !NumeralChar(rest[0])
    ensures NumeralLength(n + rest) == |n|
  {
    if n == "" {
      assert n + rest == rest;
    } else {
      assert (n + rest)[1..] == n[1..] + rest;
      NumeralReadsBack(n[1..], rest);
    }
  }

  /** What may stand behind a value in printed SQL. */
  predicate Follows(rest: string) {
    rest == "" || rest[0] in {',', ']', ')', ';'}
  }

  lemma WordReadsBack(word: string, rest: string)
    requires word in {"NULL", "true", "false"}
    ensures word <= word + rest && (word + rest)[|word|..] == rest
    ensures (word + rest)[0] == word[0] && |word| >= 4
  {
  }

  lemma ScalarReadsBack(v: Scalar, rest: string)
    requires Follows(rest)
    ensures ReadScalar(ScalarToSql(v) + rest) == Some(Read(v, rest))
  {
    var s := ScalarToSql(v) + rest;
    match v
    case Null => WordReadsBack("NULL", rest);
    case Bool(b) => WordReadsBack(if b then "true" else "false", rest);
    case Number(n) =>
      NumeralReadsBack(n, rest);
      assert s[..|n|] == n && s[|n|..] == rest && s[0] == n[0];
    case Str(t) =>
      QuotedReadsBack(t, rest);
      Assoc("'", Escape(t) + "'", rest);
      Assoc(Escape(t), "'", rest);
      assert s[1..] == Escape(t) + ("'" + rest);
  }

  /** The item reader gets back what the printer wrote, whatever comes next. */
  ghost predicate Undoes<T(!new)>(item: string -> Option<Read<T>>, show: T -> string) {
    forall x, rest :: Follows(rest) ==> item(show(x) + rest) == Some(Read(x, rest))
  }

  lemma JoinShape(first: string, tail: seq<string>, end: string)
    ensures Join([first] + tail, ", ") + end == first + if tail == [] then end else ", " + (Join(tail, ", ") + end)
  {
    assert ([first] + tail)[1..] == tail;
    if tail != [] {
      Assoc(first + ", ", Join(tail, ", "), end);
      Assoc(first, ", ", Join(tail, ", ") + end);
    }
  }

  lemma {:induction false} ItemsReadBack<T(!new)>(
    item: string -> Option<Read<T>>, show: T -> string, close: char, xs: seq<T>, rest: string)
    requires Consumes(item) && Undoes(item, show) && close in {']', ')', ';'}
    requires xs != []
    ensures ReadItems(item, close, Join(Map(show, xs), ", ") + ([close] + rest)) == Some(Read(xs, rest))
  {
    var end := [close] + rest;
    var tail := Map(show, xs[1..]);
    JoinShape(show(xs[0]), tail, end);
    if xs[1..] == [] {
      LastItem(item, show, close, xs[0], rest);
      assert xs == [xs[0]];
    } else {
      ItemsReadBack(item, show, close, xs[1..], rest);
      FirstItem(item, show, close, xs[0], Join(tail, ", ") + end);
      assert [xs[0]] + xs[1..] == xs;
    }
  }

  lemma LastItem<T(!new)>(item: string -> Option<Read<T>>, show: T -> string, close: char, x: T, rest: string)
    requires Consumes(item) && Undoes(item, show) && close in {']', ')', ';'}
    ensures ReadItems(item, close, show(x) + ([close] + rest)) == Some(Read([x], rest))
  {
    var end := [close] + rest;
    assert end[1..] == rest;
    assert item(show(x) + end) == Some(Read(x, end));
  }

  lemma FirstItem<T(!new)>(item: string -> Option<Read<T>>, show: T -> string, close: char, x: T, next: string)
    requires Consumes(item) && Undoes(item, show) && close in {']', ')', ';'}
    ensures ReadItems(item, close, show(x) + (", " + next))
         == match ReadItems(item, close, next)
            case None => None
            case Some(Read(xs, end)) => Some(Read([x] + xs, end))
  {
    var more := ", " + next;
    assert more[2..] == next && ", " <= more && more[0] == ',';
    assert item(show(x) + more) == Some(Read(x, more));
  }

  /** No printed item begins with the closing character, so an empty list is told apart. */
  ghost predicate NeverStartsWith<T(!new)>(show: T -> string, close: char) {
    forall x, tail :: show(x) + tail != "" && (show(x) + tail)[0] != close
  }

  lemma ListReadsBack<T(!new)>(
    item: string -> Option<Read<T>>, show: T -> string, close: char, xs: seq<T>, rest: string)
    requires Consumes(item) && Undoes(item, show) && close in {']', ')'} && NeverStartsWith(show, close)
    ensures ReadList(item, close, Join(Map(show, xs), ", ") + ([close] + rest)) == Some(Read(xs, rest))
  {
    var end := [close] + rest;
    if xs == [] {
      assert Join(Map(show, xs), ", ") + end == end && end[1..] == rest;
    } else {
      ItemsReadBack(item, show, close, xs, rest);
      JoinShape(show(xs[0]), Map(show, xs[1..]), end);
    }
  }

  lemma ScalarStart(v: Scalar, tail: string)
    ensures ScalarToSql(v) + tail != ""
    ensures (ScalarToSql(v) + tail)[0] !in {']', ')', '[', '(', '{'}
  {
  }

  lemma ScalarsUndone()
    ensures Consumes(ReadScalar) && Undoes(ReadScalar, ScalarToSql)
  {
    forall v, rest | Follows(rest) { ScalarReadsBack(v, rest); }
  }

  lemma VectorReadsBack(xs: seq<Scalar>, rest: string)
    ensures ReadList(ReadScalar, ']', (VectorToSql(xs) + rest)[1..]) == Some(Read(xs, rest))
    ensures (VectorToSql(xs) + rest)[0] == '['
  {
    ScalarsUndone();
    assert NeverStartsWith(ScalarToSql, ']') by {
      forall v, tail
        ensures ScalarToSql(v) + tail != "" && (ScalarToSql(v) + tail)[0] != ']'
      {
        ScalarStart(v, tail);
      }
    }
    ListReadsBack(ReadScalar, ScalarToSql, ']', xs, rest);
    var body := Join(Map(ScalarToSql, xs), ", ");
    Assoc("[", body + "]", rest);
    Assoc(body, "]", rest);
  }

  lemma CellReadsBack(c: Cell, rest: string)
    requires Follows(rest)
    ensures ReadCell(CellToSql(c) + rest) == Some(Read(c, rest))
    ensures CellToSql(c) + rest != "" && (CellToSql(c) + rest)[0] != ')'
  {
    match c
    case One(v) =>
      ScalarReadsBack(v, rest);
      ScalarStart(v, rest);
    case Vector(xs) => VectorReadsBack(xs, rest);
  }

  lemma RowReadsBack(cells: seq<Cell>, rest: string)
    ensures ReadRow(RowToSql(cells) + rest) == Some(Read(cells, rest))
  {
    forall c, rest | Follows(rest) { CellReadsBack(c, rest); }
    assert NeverStartsWith(CellToSql, ')') by {
      forall c, tail
        ensures CellToSql(c) + tail != "" && (CellToSql(c) + tail)[0] != ')'
      {
        if c.One? { ScalarStart(c.value, tail); }
      }
    }
    ListReadsBack(ReadCell, CellToSql, ')', cells, rest);
    var body := Join(Map(CellToSql, cells), ", ");
    Assoc("(", body + ")", rest);
    Assoc(body, ")", rest);
  }

  lemma RowsReadBack(rows: seq<seq<Cell>>)
    requires rows != []
    ensures RowsToSql(rows) != "" && RowsToSql(rows)[0] == '('
    ensures ReadItems(ReadRow, ';', RowsToSql(rows) + ";") == Some(Read(rows, ""))
  {
    forall cells, rest | Follows(rest) { RowReadsBack(cells, rest); }
    ItemsReadBack(ReadRow, RowToSql, ';', rows, "");
    assert [';'] + "" == ";";
    assert Map(RowToSql, rows)[0] == RowToSql(rows[0]);
  }

  /** Empty, ragged and mixed arrays and objects are refused, and nothing else. */
  lemma RefusedExactly(p: Param)
    ensures ParamToSql(p).Ok? <==>
            match p
            case Single(_) => true
            case Object => false
            case List(items) =>
              items != [] && (AllPlain(items) || (AllRows(items) && Rectangular(CellsOf(items))))
    ensures ParamToSql(p) == Err(WrongType) <==> p.Object?
    ensures ParamToSql(p) == Err(EmptyArray) <==> p == List([])
    ensures ParamToSql(p) == Err(MixedShape) <==> p.List? && !AllPlain(p.items) && !AllRows(p.items)
    ensures ParamToSql(p) == Err(RaggedRows) <==>
            p.List? && p.items != [] && AllRows(p.items) && !Rectangular(CellsOf(p.items))
  {
    if p.List? && p.items != [] && AllRows(p.items) {
      var rows := CellsOf(p.items);
      assert !AllPlain(p.items) by { assert p.items[0].Row?; }
      if Rectangular(rows) {
        assert |rows[0]| > 0;
      }
    }
  }

  /** Whatever strings the value holds, reading the printed text gives the value back. */
  lemma ParamReadsBack(p: Param)
    requires ParamToSql(p).Ok?
    ensures ReadParam(ParamToSql(p).value) == Some(p)
  {
    var s := ParamToSql(p).value;
    match p
    case Single(v) =>
      ScalarReadsBack(v, "");
      ScalarStart(v, "");
      assert s + "" == s;
    case List(items) =>
      if AllRows(items) {
        RowsReadBack(CellsOf(items));
        assert AsRows(CellsOf(items)) == items;
      } else {
        VectorReadsBack(ValuesOf(items), "");
        assert s + "" == s;
        assert AsPlain(ValuesOf(items)) == items;
      }
  }
}
