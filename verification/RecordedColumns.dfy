/**
What the walk of `PlaceholderColumns` records, place by place: which column a
comparison, an IN list or a limit gives a question mark, that conditions are walked
through from left to right, and where nothing is recorded.
*/
module RecordedColumns {
  import opened Options
  import opened PlaceholderColumns

  /** The next number is given to this column. */
  function OneMore(w: Walk, column: string): Walk {
    Walk(w.columns[w.next := column], w.next + 1)
  }

  // ---------------------------------------------------------------- comparisons

  /**
  A comparison of a column with a question mark records the column, whichever comes
  first; of `table.column` it is the column, and longer names record nothing.
  */
  lemma ComparisonRecords(w: Walk, column: Expr, mark: string)
    requires column.Column?
    ensures
      var n := |column.parts|;
      var after := if n == 1 || n == 2 then OneMore(w, column.parts[n - 1]) else w;
      && After(w, Slots(BinaryOp(column, Mark(mark)))) == after
      && After(w, Slots(BinaryOp(Mark(mark), column))) == after
  {
    ComparisonIsWalked(column, Mark(mark), w);
    ComparisonIsWalked(Mark(mark), column, w);
    OneSlot(w, Slot(mark, None));
    var after := After(w, Slots(BinaryOp(column, Mark(mark))));
    OneSlot(after, Slot(mark, None));
  }

  /** The same column for the next n numbers. */
  function Repeated(w: Walk, n: nat, column: string): Walk
    decreases n
  {
    if n == 0 then w else Repeated(OneMore(w, column), n - 1, column)
  }

  lemma {:induction false} RepeatedNumbers(w: Walk, n: nat, column: string, k: nat)
    ensures Repeated(w, n, column).next == w.next + n
    ensures
      var columns := Repeated(w, n, column).columns;
      if w.next <= k < w.next + n then k in columns && columns[k] == column
      else (k in columns <==> k in w.columns) && (k in columns ==> columns[k] == w.columns[k])
    decreases n
  {
    if n > 0 {
      RepeatedNumbers(OneMore(w, column), n - 1, column, k);
    }
  }

  function MarksIn(list: seq<Expr>): nat {
    if list == [] then 0 else (if list[0].Mark? then 1 else 0) + MarksIn(list[1..])
  }

  lemma {:induction false} ItemsRecord(w: Walk, column: string, list: seq<Expr>)
    ensures After(w, ItemSlots(Some(column), list)) == Repeated(w, MarksIn(list), column)
    decreases |list|
  {
    if list != [] {
      FirstItemIsWalked(Some(column), list, w);
      ItemsRecord(if list[0].Mark? then OneMore(w, column) else w, column, list[1..]);
    }
  }

  /** An IN list records its column once for each question mark in it. */
  lemma InListRecords(w: Walk, column: Expr, list: seq<Expr>, k: nat)
    requires column.Column?
    ensures
      var n, marks, after := |column.parts|, MarksIn(list), After(w, Slots(InList(column, list)));
      if n != 1 && n != 2 then after == w
      else
        && after.next == w.next + marks
        && if w.next <= k < w.next + marks then k in after.columns && after.columns[k] == column.parts[n - 1]
           else (k in after.columns <==> k in w.columns) && (k in w.columns ==> after.columns[k] == w.columns[k])
  {
    var n := |column.parts|;
    HiddenDoesNothing(column, w);
    if n == 1 || n == 2 {
      AfterAppend(w, Hidden(column), ItemSlots(Some(column.parts[n - 1]), list));
      ItemsRecord(w, column.parts[n - 1], list);
      RepeatedNumbers(w, MarksIn(list), column.parts[n - 1], k);
    } else {
      AfterAppend(w, Hidden(column), ItemSlots(None, list));
      NoColumnDoesNothing(list, w);
    }
  }

  // ---------------------------------------------------------------- conditions

  /** AND, OR and the like are walked through from left to right, and parentheses change nothing. */
  lemma ConditionsAreWalkedThrough(w: Walk, left: Expr, right: Expr)
    requires !left.Mark? && !right.Mark?
    ensures After(w, Slots(BinaryOp(left, right))) == After(After(w, Slots(left)), Slots(right))
    ensures After(w, Slots(Nested(left))) == After(w, Slots(left))
  {
    ComparisonIsWalked(left, right, w);
  }

  /** A question mark compared with anything but a column records nothing; what it is compared with is walked. */
  lemma OtherComparisonsRecordNothing(w: Walk, e: Expr, mark: string)
    requires !e.Column?
    ensures After(w, Slots(BinaryOp(e, Mark(mark)))) == if e.Mark? then w else After(w, Slots(e))
    ensures After(w, Slots(BinaryOp(Mark(mark), e))) == if e.Mark? then w else After(w, Slots(e))
  {
    ComparisonIsWalked(e, Mark(mark), w);
    ComparisonIsWalked(Mark(mark), e, w);
    OneSlot(w, Slot(mark, None));
    OneSlot(After(w, Slots(e)), Slot(mark, None));
    if e.Mark? {
      OneSlot(w, Slot(e.name, None));
    }
  }

  /** Nothing is recorded inside any other kind of expression, nor in the subject of an IN list that is no column. */
  lemma OthersRecordNothing(w: Walk, children: seq<Expr>, subject: Expr, list: seq<Expr>)
    ensures After(w, Slots(Other(children))) == w
    ensures !subject.Column? ==> After(w, Slots(InList(subject, list))) == w
  {
    HiddenDoesNothing(Other(children), w);
    if !subject.Column? {
      HiddenDoesNothing(subject, w);
      AfterAppend(w, Hidden(subject), ItemSlots(None, list));
      NoColumnDoesNothing(list, w);
    }
  }

  // ---------------------------------------------------------------- statements

  /** WHERE is walked in SELECT, in INSERT with a SELECT, in UPDATE and in DELETE, and nothing else of them is. */
  lemma ConditionsOfStatements(w: Walk, head: seq<Expr>, condition: Expr, tail: seq<Expr>, assignments: seq<Expr>)
    ensures
      var query := Select(head, Some(condition), tail, NoLimit);
      var after := After(w, Slots(condition));
      && After(w, StatementSlots(QueryStatement(query), false)) == after
      && After(w, StatementSlots(Insert(Some(query)), false)) == after
      && After(w, StatementSlots(Update(assignments, Some(condition)), false)) == after
      && After(w, StatementSlots(Delete(Some(condition)), false)) == after
  {
    SelectIsWalked(Select(head, Some(condition), tail, NoLimit), w);
    HiddenAllDoesNothing(assignments, w);
    AfterAppend(w, HiddenAll(assignments), Slots(condition));
  }

  /** A place that is a question mark is given this column. */
  function Placed(w: Walk, e: Option<Expr>, column: string): Walk {
    if e.Some? && e.value.Mark? then OneMore(w, column) else w
  }

  lemma SpotRecords(w: Walk, e: Option<Expr>, column: string)
    ensures After(w, OptionalSpot(e, column)) == Placed(w, e, column)
  {
    if e.Some? {
      SpotIsRecorded(e.value, Some(column), w);
    }
  }

  /** A question mark for a limit is given the column `limit`, and one for an offset the column `offset`. */
  lemma LimitsRecord(w: Walk, head: seq<Expr>, tail: seq<Expr>, limit: Option<Expr>, offset: Option<Expr>,
                     offsetFirst: bool, skip: Expr, take: Expr)
    ensures After(w, QuerySlots(Select(head, None, tail, LimitOffset(limit, offset, offsetFirst)), false))
         == Placed(Placed(w, limit, "limit"), offset, "offset")
    ensures After(w, QuerySlots(Select(head, None, tail, OffsetCommaLimit(skip, take)), false))
         == Placed(Placed(w, Some(skip), "offset"), Some(take), "limit")
  {
    SelectIsWalked(Select(head, None, tail, LimitOffset(limit, offset, offsetFirst)), w);
    AfterAppend(w, OptionalSpot(limit, "limit"), OptionalSpot(offset, "offset"));
    SpotRecords(w, limit, "limit");
    SpotRecords(Placed(w, limit, "limit"), offset, "offset");
    SelectIsWalked(Select(head, None, tail, OffsetCommaLimit(skip, take)), w);
    AfterAppend(w, OptionalSpot(Some(skip), "offset"), OptionalSpot(Some(take), "limit"));
    SpotRecords(w, Some(skip), "offset");
    SpotRecords(Placed(w, Some(skip), "offset"), Some(take), "limit");
  }

  /** Bodies that are no SELECT, statements of other kinds and those without a condition record nothing. */
  lemma OthersAreSkipped(w: Walk, body: seq<Expr>, statement: Statement)
    requires statement.OtherStatement? || (statement.Delete? && statement.selection.None?)
             || (statement.Update? && statement.selection.None?) || (statement.Insert? && statement.source.None?)
    ensures After(w, QuerySlots(NotSelect(body), false)) == w
    ensures After(w, StatementSlots(statement, false)) == w
  {
    HiddenAllDoesNothing(body, w);
    match statement
    case OtherStatement(parts) => HiddenAllDoesNothing(parts, w);
    case Update(assignments, _) =>
      HiddenAllDoesNothing(assignments, w);
      AfterAppend(w, HiddenAll(assignments), []);
    case _ =>
  }

  /** One statement after the other, with numbers from zero. */
  lemma StatementsAreWalked(statement: Statement, more: seq<Statement>, w: Walk)
    ensures After(w, AllSlots([statement] + more, false))
         == After(After(w, StatementSlots(statement, false)), AllSlots(more, false))
    ensures START == Walk(map[], 0)
  {
    assert ([statement] + more)[1..] == more;
    AfterAppend(w, StatementSlots(statement, false), AllSlots(more, false));
  }

  /** `WHERE u.id = {user_id}` records the column id. */
  lemma QualifiedColumnIsRecorded()
    ensures
      var query := Select([], Some(BinaryOp(Column(["u", "id"]), Mark("user_id"))), [], NoLimit);
      After(START, AllSlots([QueryStatement(query)], false)).columns == map[0 := "id"]
  {
    var condition := BinaryOp(Column(["u", "id"]), Mark("user_id"));
    var statement := QueryStatement(Select([], Some(condition), [], NoLimit));
    StatementsAreWalked(statement, [], START);
    ConditionsOfStatements(START, [], condition, [], []);
    ComparisonRecords(START, Column(["u", "id"]), "user_id");
    assert [statement] + [] == [statement];
  }
}
