/**
Which column a parameter is compared with (`extract_placeholder_columns` and
`collect_parameter_columns_ast` in `crates/skardi/src/pipeline/inferencer.rs`).

The code walks the parsed statement with one shared counter and numbers only the
`?` it understands; the result is then read by the position of the parameter in
the text.  Here every `?` also carries the name of the parameter it was written
for, which the code cannot see, so that the two numberings can be compared.
*/
module PlaceholderColumns {
  import opened Options
  import opened Text
  import opened TemplateReaders

  datatype Expr =
    | Column(parts: seq<string>)            // an identifier, plain or compound
    | Mark(name: string)                    // `?`
    | BinaryOp(left: Expr, right: Expr)
    | Nested(inner: Expr)
    | InList(subject: Expr, list: seq<Expr>)
    | Other(children: seq<Expr>)            // anything else, its parts in the order of the text

  datatype Limits =
    | NoLimit
    | LimitOffset(limit: Option<Expr>, offset: Option<Expr>, offsetFirst: bool)
    | OffsetCommaLimit(skip: Expr, take: Expr)

  /** `head` is the text before WHERE and `tail` the text between WHERE and the limits. */
  datatype Query =
    | Select(head: seq<Expr>, selection: Option<Expr>, tail: seq<Expr>, limits: Limits)
    | NotSelect(body: seq<Expr>)            // VALUES, UNION, ...

  datatype Statement =
    | QueryStatement(query: Query)
    | Insert(source: Option<Query>)
    | Update(assignments: seq<Expr>, selection: Option<Expr>)
    | Delete(selection: Option<Expr>)
    | OtherStatement(parts: seq<Expr>)

  function ColumnName(e: Expr): Option<string> {
    if e.Column? && |e.parts| == 1 then Some(e.parts[0])
    else if e.Column? && |e.parts| == 2 then Some(e.parts[1])
    else None
  }

  // ---------------------------------------------------------------- the walk

  /** What the walk has recorded: columns by number, and the next number. */
  datatype Walk = Walk(columns: map<nat, string>, next: nat)

  function Recorded(w: Walk, column: string): Walk {
    Walk(w.columns[w.next := column], w.next + 1)
  }

  method Record(w: Walk, column: Option<string>, e: Expr) returns (w': Walk)
    ensures w' == if column.Some? && e.Mark? then Recorded(w, column.value) else w
  {
    if column.Some? && e.Mark? {
      w' := Recorded(w, column.value);
    } else {
      w' := w;
    }
  }

  method CollectParameterColumns(e: Expr, w: Walk) returns (w': Walk)
    ensures w' == After(w, Slots(e))
    decreases e
  {
    match e
    case BinaryOp(left, right) =>
      w' := Record(w, ColumnName(left), right);
      w' := Record(w', ColumnName(right), left);
      w' := CollectParameterColumns(left, w');
      w' := CollectParameterColumns(right, w');
      ComparisonIsWalked(left, right, w);
    case Nested(inner) =>
      w' := CollectParameterColumns(inner, w);
    case InList(subject, list) =>
      HiddenDoesNothing(subject, w);
      AfterAppend(w, Hidden(subject), ItemSlots(ColumnName(subject), list));
      var column := ColumnName(subject);
      if column.Some? {
        w' := CollectItems(column, list, w);
      } else {
        NoColumnDoesNothing(list, w);
        w' := w;
      }
    case _ =>
      HiddenDoesNothing(e, w);
      w' := w;
  }

  method CollectItems(column: Option<string>, list: seq<Expr>, w: Walk) returns (w': Walk)
    requires column.Some?
    ensures w' == After(w, ItemSlots(column, list))
  {
    w' := w;
    assert list[0..] == list;
    for i := 0 to |list|
      invariant After(w', ItemSlots(column, list[i..])) == After(w, ItemSlots(column, list))
    {
      assert list[i..][1..] == list[i + 1..];
      FirstItemIsWalked(column, list[i..], w');
      w' := Record(w', column, list[i]);
    }
  }

  method CollectLimits(limits: Limits, w: Walk) returns (w': Walk)
    ensures w' == After(w, LimitSlots(limits, false))
  {
    w' := w;
    match limits
    case NoLimit =>
    case LimitOffset(limit, offset, _) =>
      AfterAppend(w, OptionalSpot(limit, "limit"), OptionalSpot(offset, "offset"));
      if limit.Some? {
        SpotIsRecorded(limit.value, Some("limit"), w');
        w' := Record(w', Some("limit"), limit.value);
      }
      if offset.Some? {
        SpotIsRecorded(offset.value, Some("offset"), w');
        w' := Record(w', Some("offset"), offset.value);
      }
    case OffsetCommaLimit(offset, limit) =>
      AfterAppend(w, Spot(offset, Some("offset")), Spot(limit, Some("limit")));
      SpotIsRecorded(offset, Some("offset"), w');
      w' := Record(w', Some("offset"), offset);
      SpotIsRecorded(limit, Some("limit"), w');
      w' := Record(w', Some("limit"), limit);
  }

  /** WHERE, then LIMIT and OFFSET; a body that is not a SELECT is passed over, limits and all. */
  method CollectQuery(query: Query, w: Walk) returns (w': Walk)
    ensures w' == After(w, QuerySlots(query, false))
  {
    w' := w;
    match query
    case NotSelect(body) =>
      HiddenAllDoesNothing(body, w);
    case Select(head, selection, tail, limits) =>
      SelectIsWalked(query, w);
      if selection.Some? {
        w' := CollectParameterColumns(selection.value, w');
      }
      w' := CollectLimits(limits, w');
  }

  method ExtractPlaceholderColumns(statements: seq<Statement>) returns (columns: map<nat, string>)
    ensures columns == After(START, AllSlots(statements, false)).columns
  {
    var w := START;
    assert statements[0..] == statements;
    for i := 0 to |statements|
      invariant After(w, AllSlots(statements[i..], false)) == After(START, AllSlots(statements, false))
    {
      assert statements[i..][1..] == statements[i + 1..];
      AfterAppend(w, StatementSlots(statements[i], false), AllSlots(statements[i + 1..], false));
      w := CollectStatement(statements[i], w);
    }
    columns := w.columns;
  }

  method CollectStatement(statement: Statement, w: Walk) returns (w': Walk)
    ensures w' == After(w, StatementSlots(statement, false))
  {
    w' := w;
    match statement
    case QueryStatement(query) =>
      w' := CollectQuery(query, w);
    case Insert(source) =>
      if source.Some? {
        w' := CollectQuery(source.value, w);
      }
    case Update(assignments, selection) =>
      HiddenAllDoesNothing(assignments, w);
      AfterAppend(w, HiddenAll(assignments), ConditionSlots(selection));
      if selection.Some? {
        w' := CollectParameterColumns(selection.value, w);
      }
    case Delete(selection) =>
      if selection.Some? {
        w' := CollectParameterColumns(selection.value, w);
      }
    case OtherStatement(parts) =>
      HiddenAllDoesNothing(parts, w);
  }

  const START := Walk(map[], 0)

  // ---------------------------------------------------------------- the text

  /** A `?` in the text, and the column it is compared with as far as the code can tell. */
  datatype Slot = Slot(name: string, column: Option<string>)

  /** The `?` of an expression in the order of the text, none of them understood. */
  function Hidden(e: Expr): seq<Slot> {
    match e
    case Column(_) => []
    case Mark(name) => [Slot(name, None)]
    case BinaryOp(left, right) => Hidden(left) + Hidden(right)
    case Nested(inner) => Hidden(inner)
    case InList(subject, list) => Hidden(subject) + HiddenAll(list)
    case Other(children) => HiddenAll(children)
  }

  function HiddenAll(es: seq<Expr>): seq<Slot> {
    if es == [] then [] else Hidden(es[0]) + HiddenAll(es[1..])
  }

  /** One side of a comparison: directly a `?`, or something that may hold some. */
  function Side(e: Expr, column: Option<string>): seq<Slot>
    decreases e, 1
  {
    if e.Mark? then [Slot(e.name, column)] else Slots(e)
  }

  /** A place where the code looks for a `?` and for nothing else. */
  function Spot(e: Expr, column: Option<string>): seq<Slot> {
    if e.Mark? then [Slot(e.name, column)] else Hidden(e)
  }

  function ItemSlots(column: Option<string>, list: seq<Expr>): seq<Slot> {
    if list == [] then [] else Spot(list[0], column) + ItemSlots(column, list[1..])
  }

  /** The `?` of a condition in the order of the text. */
  function Slots(e: Expr): seq<Slot>
    decreases e, 0
  {
    match e
    case BinaryOp(left, right) => Side(left, ColumnName(right)) + Side(right, ColumnName(left))
    case Nested(inner) => Slots(inner)
    case InList(subject, list) => Hidden(subject) + ItemSlots(ColumnName(subject), list)
    case _ => Hidden(e)
  }

  function ConditionSlots(selection: Option<Expr>): seq<Slot> {
    match selection
    case None => []
    case Some(e) => Slots(e)
  }

  function OptionalSpot(e: Option<Expr>, column: string): seq<Slot> {
    match e
    case None => []
    case Some(x) => Spot(x, Some(column))
  }

  /** As written, or in the order in which the code looks: the limit before the offset. */
  function LimitSlots(limits: Limits, asWritten: bool): seq<Slot> {
    match limits
    case NoLimit => []
    case LimitOffset(limit, offset, offsetFirst) =>
      if asWritten && offsetFirst then OptionalSpot(offset, "offset") + OptionalSpot(limit, "limit")
      else OptionalSpot(limit, "limit") + OptionalSpot(offset, "offset")
    case OffsetCommaLimit(offset, limit) => Spot(offset, Some("offset")) + Spot(limit, Some("limit"))
  }

  function QuerySlots(query: Query, asWritten: bool): seq<Slot> {
    match query
    case Select(head, selection, tail, limits) =>
      HiddenAll(head) + (ConditionSlots(selection) + (HiddenAll(tail) + LimitSlots(limits, asWritten)))
    case NotSelect(body) => HiddenAll(body)
  }

  function StatementSlots(statement: Statement, asWritten: bool): seq<Slot> {
    match statement
    case QueryStatement(query) => QuerySlots(query, asWritten)
    case Insert(None) => []
    case Insert(Some(query)) => QuerySlots(query, asWritten)
    case Update(assignments, selection) => HiddenAll(assignments) + ConditionSlots(selection)
    case Delete(selection) => ConditionSlots(selection)
    case OtherStatement(parts) => HiddenAll(parts)
  }

  function AllSlots(statements: seq<Statement>, asWritten: bool): seq<Slot> {
    if statements == [] then []
    else StatementSlots(statements[0], asWritten) + AllSlots(statements[1..], asWritten)
  }

  /** Numbering the understood ones among these slots, one after the other. */
  function After(w: Walk, slots: seq<Slot>): Walk
    decreases |slots|
  {
    if slots == [] then w
    else After(if slots[0].column.Some? then Recorded(w, slots[0].column.value) else w, slots[1..])
  }

  // ---------------------------------------------------------------- the walk numbers the understood slots

  lemma {:induction false} AfterAppend(w: Walk, a: seq<Slot>, b: seq<Slot>)
    ensures After(w, a + b) == After(After(w, a), b)
    decreases |a|
  {
    if a == [] {
      assert a + b == b;
    } else {
      assert (a + b)[0] == a[0] && (a + b)[1..] == a[1..] + b;
      AfterAppend(if a[0].column.Some? then Recorded(w, a[0].column.value) else w, a[1..], b);
    }
  }

  lemma {:induction false} HiddenDoesNothing(e: Expr, w: Walk)
    ensures After(w, Hidden(e)) == w
    decreases e
  {
    match e
    case Column(_) =>
    case Mark(_) =>
    case BinaryOp(left, right) =>
      HiddenDoesNothing(left, w);
      HiddenDoesNothing(right, w);
      AfterAppend(w, Hidden(left), Hidden(right));
    case Nested(inner) => HiddenDoesNothing(inner, w);
    case InList(subject, list) =>
      HiddenDoesNothing(subject, w);
      HiddenAllDoesNothing(list, w);
      AfterAppend(w, Hidden(subject), HiddenAll(list));
    case Other(children) => HiddenAllDoesNothing(children, w);
  }

  lemma {:induction false} HiddenAllDoesNothing(es: seq<Expr>, w: Walk)
    ensures After(w, HiddenAll(es)) == w
    decreases es
  {
    if es != [] {
      HiddenDoesNothing(es[0], w);
      HiddenAllDoesNothing(es[1..], w);
      AfterAppend(w, Hidden(es[0]), HiddenAll(es[1..]));
    }
  }

  lemma SpotIsRecorded(e: Expr, column: Option<string>, w: Walk)
    ensures After(w, Spot(e, column)) == if column.Some? && e.Mark? then Recorded(w, column.value) else w
  {
    if !e.Mark? {
      HiddenDoesNothing(e, w);
    }
  }

  lemma FirstItemIsWalked(column: Option<string>, list: seq<Expr>, w: Walk)
    requires list != []
    ensures After(w, ItemSlots(column, list))
         == After(if column.Some? && list[0].Mark? then Recorded(w, column.value) else w, ItemSlots(column, list[1..]))
  {
    SpotIsRecorded(list[0], column, w);
    AfterAppend(w, Spot(list[0], column), ItemSlots(column, list[1..]));
  }

  lemma {:induction false} NoColumnDoesNothing(list: seq<Expr>, w: Walk)
    ensures After(w, ItemSlots(None, list)) == w
  {
    if list != [] {
      FirstItemIsWalked(None, list, w);
      NoColumnDoesNothing(list[1..], w);
    }
  }

  lemma SelectIsWalked(query: Query, w: Walk)
    requires query.Select?
    ensures After(w, QuerySlots(query, false))
         == After(After(w, ConditionSlots(query.selection)), LimitSlots(query.limits, false))
  {
    var condition, limits := ConditionSlots(query.selection), LimitSlots(query.limits, false);
    HiddenAllDoesNothing(query.head, w);
    AfterAppend(w, HiddenAll(query.head), condition + (HiddenAll(query.tail) + limits));
    AfterAppend(w, condition, HiddenAll(query.tail) + limits);
    HiddenAllDoesNothing(query.tail, After(w, condition));
    AfterAppend(After(w, condition), HiddenAll(query.tail), limits);
  }

  lemma OneSlot(w: Walk, slot: Slot)
    ensures After(w, [slot]) == if slot.column.Some? then Recorded(w, slot.column.value) else w
  {
    assert [slot][1..] == [];
  }

  lemma ComparisonIsWalked(left: Expr, right: Expr, w: Walk)
    ensures
      var w1 := if ColumnName(left).Some? && right.Mark? then Recorded(w, ColumnName(left).value) else w;
      var w2 := if ColumnName(right).Some? && left.Mark? then Recorded(w1, ColumnName(right).value) else w1;
      After(w, Slots(BinaryOp(left, right))) == After(After(w2, Slots(left)), Slots(right))
  {
    AfterAppend(w, Side(left, ColumnName(right)), Side(right, ColumnName(left)));
    var w1 := if ColumnName(left).Some? && right.Mark? then Recorded(w, ColumnName(left).value) else w;
    var w2 := if ColumnName(right).Some? && left.Mark? then Recorded(w1, ColumnName(right).value) else w1;
    if left.Mark? {
      OneSlot(w, Slot(left.name, ColumnName(right)));
      OneSlot(w2, Slot(left.name, None));
    }
    if right.Mark? {
      OneSlot(w, Slot(right.name, ColumnName(left)));
      OneSlot(w2, Slot(right.name, None));
    }
  }

  // ---------------------------------------------------------------- when the numbers are the positions

  function Kept(slot: Slot): seq<Slot> {
    if slot.column.Some? then [slot] else []
  }

  function Covered(slots: seq<Slot>): seq<Slot> {
    if slots == [] then [] else Kept(slots[0]) + Covered(slots[1..])
  }

  /** The understood slot that gets number k is the k-th `?` of the text. */
  ghost predicate Aligned(statements: seq<Statement>) {
    Covered(AllSlots(statements, false)) <= AllSlots(statements, true)
  }

  /** No `?` that the code does not understand comes before one that it does. */
  ghost predicate UnderstoodFirst(slots: seq<Slot>) {
    forall i, j :: 0 <= i < j < |slots| && slots[j].column.Some? ==> slots[i].column.Some?
  }

  /** OFFSET ? LIMIT ? in this order: the code looks at the limit first. */
  predicate Swapped(limits: Limits) {
    && limits.LimitOffset? && limits.offsetFirst
    && limits.limit.Some? && limits.limit.value.Mark?
    && limits.offset.Some? && limits.offset.value.Mark?
  }

  predicate SwapsIn(statement: Statement) {
    match statement
    case QueryStatement(query) => query.Select? && Swapped(query.limits)
    case Insert(Some(query)) => query.Select? && Swapped(query.limits)
    case _ => false
  }

  ghost predicate NoneSwapped(statements: seq<Statement>) {
    forall i :: 0 <= i < |statements| ==> !SwapsIn(statements[i])
  }

  lemma CoveredCons(slot: Slot, slots: seq<Slot>)
    ensures Covered([slot] + slots) == Kept(slot) + Covered(slots)
  {
    assert ([slot] + slots)[1..] == slots;
  }

  lemma CoveredNothing()
    ensures Covered([]) == []
  {
  }

  lemma {:induction false} CoveredAppend(a: seq<Slot>, b: seq<Slot>)
    ensures Covered(a + b) == Covered(a) + Covered(b)
  {
    hide Covered, Kept;
    if a == [] {
      CoveredNothing();
      assert a + b == b;
      assert [] + Covered(b) == Covered(b);
    } else {
      var first, rest := a[0], a[1..];
      assert a == [first] + rest && a + b == [first] + (rest + b);
      CoveredAppend(rest, b);
      CoveredCons(first, rest + b);
      CoveredCons(first, rest);
      Assoc(Kept(first), Covered(rest), Covered(b));
    }
  }

  lemma {:induction false} HiddenIsNotCovered(e: Expr)
    ensures Covered(Hidden(e)) == []
    decreases e
  {
    match e
    case Column(_) =>
    case Mark(_) =>
    case BinaryOp(left, right) =>
      HiddenIsNotCovered(left);
      HiddenIsNotCovered(right);
      CoveredAppend(Hidden(left), Hidden(right));
    case Nested(inner) => HiddenIsNotCovered(inner);
    case InList(subject, list) =>
      HiddenIsNotCovered(subject);
      HiddenAllIsNotCovered(list);
      CoveredAppend(Hidden(subject), HiddenAll(list));
    case Other(children) => HiddenAllIsNotCovered(children);
  }

  lemma {:induction false} HiddenAllIsNotCovered(es: seq<Expr>)
    ensures Covered(HiddenAll(es)) == []
    decreases es
  {
    if es != [] {
      HiddenIsNotCovered(es[0]);
      HiddenAllIsNotCovered(es[1..]);
      CoveredAppend(Hidden(es[0]), HiddenAll(es[1..]));
    }
  }

  /** The understood slots of one optional spot. */
  lemma SpotIsCovered(e: Option<Expr>, column: string)
    ensures Covered(OptionalSpot(e, column))
         == if e.Some? && e.value.Mark? then [Slot(e.value.name, Some(column))] else []
  {
    if e.Some? {
      if e.value.Mark? {
        assert [Slot(e.value.name, Some(column))][1..] == [];
      } else {
        HiddenIsNotCovered(e.value);
      }
    }
  }

  lemma LimitsDiffer(limits: Limits)
    ensures |Covered(LimitSlots(limits, false))| == |Covered(LimitSlots(limits, true))|
    ensures Covered(LimitSlots(limits, false)) == Covered(LimitSlots(limits, true)) <==> !Swapped(limits)
  {
    if limits.LimitOffset? {
      var a, b := OptionalSpot(limits.limit, "limit"), OptionalSpot(limits.offset, "offset");
      SpotIsCovered(limits.limit, "limit");
      SpotIsCovered(limits.offset, "offset");
      CoveredAppend(a, b);
      CoveredAppend(b, a);
      if Swapped(limits) {
        assert (Covered(a) + Covered(b))[0].column == Some("limit");
        assert (Covered(b) + Covered(a))[0].column == Some("offset");
      }
    }
  }

  lemma QueriesDiffer(query: Query)
    ensures |Covered(QuerySlots(query, false))| == |Covered(QuerySlots(query, true))|
    ensures Covered(QuerySlots(query, false)) == Covered(QuerySlots(query, true))
       <==> !(query.Select? && Swapped(query.limits))
  {
    if query.Select? {
      var head, condition, tail := HiddenAll(query.head), ConditionSlots(query.selection), HiddenAll(query.tail);
      var a, b := LimitSlots(query.limits, false), LimitSlots(query.limits, true);
      QueryIsCovered(head, condition, tail, a);
      QueryIsCovered(head, condition, tail, b);
      LimitsDiffer(query.limits);
      SameFront(Covered(head) + Covered(condition) + Covered(tail), Covered(a), Covered(b));
    }
  }

  lemma QueryIsCovered(head: seq<Slot>, condition: seq<Slot>, tail: seq<Slot>, limits: seq<Slot>)
    ensures Covered(head + (condition + (tail + limits)))
         == Covered(head) + Covered(condition) + Covered(tail) + Covered(limits)
  {
    CoveredAppend(head, condition + (tail + limits));
    CoveredAppend(condition, tail + limits);
    CoveredAppend(tail, limits);
    var h, c, t, l := Covered(head), Covered(condition), Covered(tail), Covered(limits);
    Assoc(h + c, t, l);
    Assoc(h, c, t + l);
  }

  lemma StatementsDiffer(statement: Statement)
    ensures |Covered(StatementSlots(statement, false))| == |Covered(StatementSlots(statement, true))|
    ensures Covered(StatementSlots(statement, false)) == Covered(StatementSlots(statement, true))
       <==> !SwapsIn(statement)
  {
    match statement
    case QueryStatement(query) => QueriesDiffer(query);
    case Insert(Some(query)) => QueriesDiffer(query);
    case _ =>
  }

  lemma SameLengthParts(a: seq<Slot>, b: seq<Slot>, c: seq<Slot>, d: seq<Slot>)
    requires |a| == |b|
    ensures a + c == b + d <==> a == b && c == d
  {
    assert (a + c)[..|a|] == a && (b + d)[..|b|] == b;
    assert (a + c)[|a|..] == c && (b + d)[|b|..] == d;
  }

  lemma NoStatements(statements: seq<Statement>)
    requires statements == []
    ensures AllSlots(statements, false) == AllSlots(statements, true)
  {
  }

  lemma CoveredStatements(statements: seq<Statement>, asWritten: bool)
    requires statements != []
    ensures Covered(AllSlots(statements, asWritten))
         == Covered(StatementSlots(statements[0], asWritten)) + Covered(AllSlots(statements[1..], asWritten))
  {
    CoveredAppend(StatementSlots(statements[0], asWritten), AllSlots(statements[1..], asWritten));
  }

  /** The walk meets the understood slots in the order of the text, but for swapped limits. */
  lemma {:induction false} WalkFollowsTextExactly(statements: seq<Statement>)
    ensures |Covered(AllSlots(statements, false))| == |Covered(AllSlots(statements, true))|
    ensures Covered(AllSlots(statements, false)) == Covered(AllSlots(statements, true)) <==> NoneSwapped(statements)
  {
    hide Covered, AllSlots, StatementSlots, SwapsIn;
    if statements == [] {
      NoStatements(statements);
    } else {
      var s, rest := statements[0], statements[1..];
      StatementsDiffer(s);
      WalkFollowsTextExactly(rest);
      CoveredStatements(statements, false);
      CoveredStatements(statements, true);
      SameLengthParts(Covered(StatementSlots(s, false)), Covered(StatementSlots(s, true)),
                      Covered(AllSlots(rest, false)), Covered(AllSlots(rest, true)));
      assert statements == [s] + rest;
      assert NoneSwapped(statements) <==> !SwapsIn(s) && NoneSwapped(rest);
    }
  }

  lemma {:induction false} CoveredIsUnderstood(slots: seq<Slot>)
    ensures forall k :: 0 <= k < |Covered(slots)| ==> Covered(slots)[k].column.Some?
    ensures Covered(slots) == [] <==> forall k :: 0 <= k < |slots| ==> slots[k].column.None?
    ensures (forall k :: 0 <= k < |slots| ==> slots[k].column.Some?) ==> Covered(slots) == slots
  {
    if slots != [] {
      CoveredIsUnderstood(slots[1..]);
      assert slots == [slots[0]] + slots[1..];
    }
  }

  /** A beginning of the slots with as many understood slots as there are is all of them. */
  lemma PrefixIsCovered(slots: seq<Slot>, v: seq<Slot>)
    requires |v| == |Covered(slots)| && forall k :: 0 <= k < |v| ==> v[k].column.Some?
    ensures v <= slots <==> v == Covered(slots) && UnderstoodFirst(slots)
  {
    if v <= slots {
      assert slots == v + slots[|v|..];
      PrefixUsesUpCovered(v, slots[|v|..]);
    }
    if v == Covered(slots) && UnderstoodFirst(slots) {
      UnderstoodBeginning(slots);
    }
  }

  lemma PrefixUsesUpCovered(v: seq<Slot>, rest: seq<Slot>)
    requires |v| == |Covered(v + rest)| && forall k :: 0 <= k < |v| ==> v[k].column.Some?
    ensures v == Covered(v + rest) && UnderstoodFirst(v + rest)
    ensures forall k :: 0 <= k < |rest| ==> rest[k].column.None?
  {
    CoveredAppend(v, rest);
    CoveredIsUnderstood(v);
    CoveredIsUnderstood(rest);
    assert v + [] == v;
  }

  lemma {:induction false} UnderstoodBeginning(slots: seq<Slot>)
    requires UnderstoodFirst(slots)
    ensures Covered(slots) <= slots
  {
    CoveredIsUnderstood(slots);
    if slots != [] && slots[0].column.Some? {
      assert UnderstoodFirst(slots[1..]) by {
        assert forall k :: 0 <= k < |slots| - 1 ==> slots[1..][k] == slots[k + 1];
      }
      UnderstoodBeginning(slots[1..]);
    }
  }

  /**
  The numbering of the walk is the numbering of the text exactly when no `?` that
  the code passes over comes before one that it records, and no OFFSET is written
  before its LIMIT with a `?` in both.
  */
  lemma AlignedExactly(statements: seq<Statement>)
    ensures Aligned(statements) <==> UnderstoodFirst(AllSlots(statements, true)) && NoneSwapped(statements)
  {
    var written := AllSlots(statements, true);
    WalkFollowsTextExactly(statements);
    CoveredIsUnderstood(AllSlots(statements, false));
    PrefixIsCovered(written, Covered(AllSlots(statements, false)));
  }

  // ---------------------------------------------------------------- what each parameter is given

  function Names(slots: seq<Slot>): seq<string> {
    seq(|slots|, k requires 0 <= k < |slots| => slots[k].name)
  }

  /** The recorded columns are those of the understood slots, numbered from where the walk stood. */
  lemma {:induction false} AfterNumbers(w: Walk, slots: seq<Slot>, k: nat)
    ensures
      var v, w' := Covered(slots), After(w, slots);
      && w'.next == w.next + |v|
      && (w.next <= k < w'.next ==> k in w'.columns && Some(w'.columns[k]) == v[k - w.next].column)
      && (k < w.next || k >= w'.next ==> (k in w'.columns <==> k in w.columns))
      && (k < w.next && k in w.columns ==> w'.columns[k] == w.columns[k])
    decreases |slots|
  {
    if slots != [] {
      if slots[0].column.Some? {
        AfterNumbers(Recorded(w, slots[0].column.value), slots[1..], k);
      } else {
        AfterNumbers(w, slots[1..], k);
      }
    }
  }

  lemma {:induction false} DistinctNamesStay(xs: seq<string>)
    requires forall i, j :: 0 <= i < j < |xs| ==> xs[i] != xs[j]
    ensures FirstSeen(xs) == xs
  {
    if xs != [] {
      DistinctNamesStay(xs[..|xs| - 1]);
      assert xs == xs[..|xs| - 1] + [xs[|xs| - 1]];
    }
  }

  /** A parameter that comes again. */
  predicate Fresh(names: seq<string>, k: nat)
    requires k < |names|
  {
    names[k] !in names[..k]
  }

  lemma {:induction false} AllFreshStay(names: seq<string>)
    ensures |FirstSeen(names)| <= |names|
    ensures FirstSeen(names) == names <==> |FirstSeen(names)| == |names|
    ensures FirstSeen(names) == names <==> forall k: nat :: k < |names| ==> Fresh(names, k)
  {
    if names != [] {
      var front, last := names[..|names| - 1], names[|names| - 1];
      AllFreshStay(front);
      FirstSeenHasAll(front);
      assert names == front + [last];
      assert forall k: nat :: k < |front| ==> (Fresh(names, k) <==> Fresh(front, k)) by {
        assert forall k: nat :: k < |front| ==> names[..k] == front[..k];
      }
      assert Fresh(names, |front|) <==> last !in FirstSeen(front);
    }
  }

  /**
  A parameter used twice: positions in the list of distinct names are positions in
  the text exactly when no parameter makes its first appearance after a repetition.
  */
  lemma {:induction false} RepeatsKeepPositionsExactly(names: seq<string>)
    ensures FirstSeen(names) <= names <==> FirstsFirst(names)
  {
    if names != [] {
      var front, last := names[..|names| - 1], names[|names| - 1];
      RepeatsKeepPositionsExactly(front);
      AllFreshStay(front);
      FirstSeenHasAll(front);
      assert names == front + [last];
      assert forall k: nat :: k < |front| ==> (Fresh(names, k) <==> Fresh(front, k)) by {
        assert forall k: nat :: k < |front| ==> names[..k] == front[..k];
      }
      var seen := FirstSeen(front);
      if last in seen {
        assert !Fresh(names, |front|);
        assert seen <= names <==> seen <= front;
      } else {
        assert Fresh(names, |front|);
        if |seen| < |front| {
          assert front[|seen|] in front;
          assert names[|seen|] != (seen + [last])[|seen|];
        }
      }
    }
  }

  /** No parameter makes its first appearance after a repetition. */
  ghost predicate FirstsFirst(names: seq<string>) {
    forall i: nat, j: nat :: i < j < |names| && Fresh(names, j) ==> Fresh(names, i)
  }

  /**
  Where the numberings are the same and first appearances come before repetitions,
  parameter k of the list of distinct names is given exactly the column that its
  first question mark is compared with, or none if the code does not understand
  that place.
  */
  lemma ParametersGetTheirColumns(statements: seq<Statement>)
    requires UnderstoodFirst(AllSlots(statements, true)) && NoneSwapped(statements)
    requires FirstsFirst(Names(AllSlots(statements, true)))
    ensures
      var slots := AllSlots(statements, true);
      var order := FirstSeen(Names(slots));
      var columns := After(START, AllSlots(statements, false)).columns;
      && |order| <= |slots|
      && forall k: nat :: k < |order| ==>
           && order[k] == slots[k].name
           && Fresh(Names(slots), k)
           && (k in columns <==> slots[k].column.Some?)
           && (k in columns ==> Some(columns[k]) == slots[k].column)
  {
    var slots, visited := AllSlots(statements, true), AllSlots(statements, false);
    WalkFollowsTextExactly(statements);
    RepeatsKeepPositionsExactly(Names(slots));
    PrefixIsFresh(Names(slots));
    UnderstoodBeginning(slots);
    forall k: nat | k < |slots|
      ensures
        var columns := After(START, visited).columns;
        && (k in columns <==> slots[k].column.Some?)
        && (k in columns ==> Some(columns[k]) == slots[k].column)
    {
      ColumnOfSlot(slots, visited, k);
    }
  }

  /** The distinct names, where they are a beginning of the text, are all first appearances. */
  lemma PrefixIsFresh(names: seq<string>)
    requires FirstSeen(names) <= names
    ensures forall k: nat :: k < |FirstSeen(names)| ==> Fresh(names, k)
  {
    FirstSeenIsDistinct(names);
    var order := FirstSeen(names);
    forall k: nat | k < |order|
      ensures Fresh(names, k)
    {
      assert names[k] == order[k];
      forall i | 0 <= i < k
        ensures names[..k][i] != names[k]
      {
        assert names[i] == order[i];
      }
    }
  }

  lemma ColumnOfSlot(slots: seq<Slot>, visited: seq<Slot>, k: nat)
    requires Covered(slots) == Covered(visited) && Covered(slots) <= slots && k < |slots|
    ensures
      var columns := After(START, visited).columns;
      && (k in columns <==> slots[k].column.Some?)
      && (k in columns ==> Some(columns[k]) == slots[k].column)
  {
    hide Covered, After, UnderstoodFirst;
    var v := Covered(slots);
    var rest := slots[|v|..];
    assert slots == v + rest;
    CoveredIsUnderstood(slots);
    PrefixUsesUpCovered(v, rest);
    AfterNumbers(START, visited, k);
    if k >= |v| {
      assert slots[k] == rest[k - |v|];
    } else {
      assert slots[k] == v[k];
    }
  }

  // ---------------------------------------------------------------- a statement that goes wrong

  /** UPDATE t SET price = {price} WHERE id = {id}: the column id is recorded for the parameter price. */
  lemma UpdateIsMisaligned()
    ensures
      var update := Update([Mark("price")], Some(BinaryOp(Column(["id"]), Mark("id"))));
      && FirstSeen(Names(AllSlots([update], true))) == ["price", "id"]
      && After(START, AllSlots([update], false)).columns == map[0 := "id"]
      && !Aligned([update])
  {
    var update := Update([Mark("price")], Some(BinaryOp(Column(["id"]), Mark("id"))));
    var slots := [Slot("price", None), Slot("id", Some("id"))];
    assert [Mark("price")][1..] == [] && [update][1..] == [];
    assert AllSlots([update], true) == slots == AllSlots([update], false);
    assert Names(slots) == ["price", "id"];
    DistinctNamesStay(["price", "id"]);
    assert slots[1..] == [slots[1]];
    OneSlot(START, slots[1]);
    assert !UnderstoodFirst(slots);
    AlignedExactly([update]);
  }
}
