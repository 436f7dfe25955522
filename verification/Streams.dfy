/**
The write into a SQL destination (`crates/skardi/src/jobs/destination`): a query
stream behind a cancel check, behind a row counter, handed out once through a
staging table to an INSERT that commits all or nothing.

Other threads take part through functions of the poll number: `cancelAt(k)` says
that somebody calls cancel just before poll k, `refuses(g)` that the sink turns
down the batch with that number.
*/
module Streams {
  import opened Options
  import opened JobProtocol
  import opened JobExecutor
  import Text

  /** What a poll of a stream gives. */
  datatype Answer = Waiting | Yielded(batch: Batch) | Broken(reason: string) | Done

  /** What a stream is going to answer before it is done for ever. */
  type Script = s: seq<Answer> | Done !in s

  const CANCELLED := "job cancelled before commit"
  const REFUSED := "the sink refused a batch"
  const SQL_DML_SOFT_ROW_LIMIT: nat := 10_000_000

  class RawStream {
    var left: Script

    constructor (script: Script)
      ensures left == script
    {
      left := script;
    }

    method PollNext() returns (a: Answer)
      modifies this
      ensures old(left) == [] ==> a == Done && left == []
      ensures old(left) != [] ==> a == old(left)[0] && left == old(left)[1..]
    {
      if left == [] {
        a := Done;
      } else {
        a := left[0];
        left := left[1..];
      }
    }
  }

  class CancellableStream {
    const inner: RawStream
    const cancelled: CancelFlag

    constructor (inner: RawStream, cancelled: CancelFlag)
      ensures this.inner == inner && this.cancelled == cancelled
    {
      this.inner, this.cancelled := inner, cancelled;
    }

    /** Once the flag is set every poll fails and nothing more is taken from the query. */
    method PollNext() returns (a: Answer)
      modifies inner
      ensures cancelled.cancelled ==> a == Broken("job cancelled before commit") && inner.left == old(inner.left)
      ensures !cancelled.cancelled && old(inner.left) == [] ==> a == Done && inner.left == []
      ensures !cancelled.cancelled && old(inner.left) != [] ==>
                a == old(inner.left)[0] && inner.left == old(inner.left)[1..]
    {
      if cancelled.cancelled {
        return Broken(CANCELLED);
      }
      a := inner.PollNext();
    }
  }

  class Counter {
    var value: nat

    constructor ()
      ensures value == 0
    {
      value := 0;
    }

    method FetchAdd(n: nat) returns (prior: nat)
      modifies this
      ensures prior == old(value) && value == prior + n
    {
      prior := value;
      value := value + n;
    }
  }

  class CountingStream {
    const inner: CancellableStream
    const rowsWritten: Counter
    var warned: bool
    /** Every batch this stream has let through. */
    ghost var seen: seq<Batch>
    /** How often the size warning was logged. */
    var warnings: nat

    ghost predicate Valid()
      reads this, rowsWritten
    {
      && rowsWritten.value == |Flatten(seen)|
      && (warned <==> rowsWritten.value >= SQL_DML_SOFT_ROW_LIMIT)
      && warnings == (if warned then 1 else 0)
    }

    constructor (inner: CancellableStream, rowsWritten: Counter)
      requires rowsWritten.value == 0
      ensures Valid() && this.inner == inner && this.rowsWritten == rowsWritten && seen == []
    {
      this.inner, this.rowsWritten := inner, rowsWritten;
      warned, warnings, seen := false, 0, [];
    }

    /** Passes on what the inner stream answers, and counts the rows of the batches. */
    method PollNext() returns (a: Answer)
      requires Valid()
      modifies this, rowsWritten, inner.inner
      ensures Valid()
      ensures seen == old(seen) + (if a.Yielded? then [a.batch] else [])
      ensures rowsWritten.value == |Flatten(seen)|
      ensures warnings == if |Flatten(seen)| >= 10_000_000 then 1 else 0
      ensures inner.cancelled.cancelled ==> a == Broken(CANCELLED) && inner.inner.left == old(inner.inner.left)
      ensures !inner.cancelled.cancelled && old(inner.inner.left) == [] ==> a == Done && inner.inner.left == []
      ensures !inner.cancelled.cancelled && old(inner.inner.left) != [] ==>
                a == old(inner.inner.left)[0] && inner.inner.left == old(inner.inner.left)[1..]
    {
      a := inner.PollNext();
      if a.Yielded? {
        var prior := rowsWritten.FetchAdd(|a.batch|);
        var total := prior + |a.batch|;
        if !warned && total >= SQL_DML_SOFT_ROW_LIMIT {
          warnings := warnings + 1;
          warned := true;
        }
        FlattenSnoc(seen, a.batch);
        seen := seen + [a.batch];
      } else {
        assert seen + [] == seen;
      }
    }
  }

  lemma {:induction false} FlattenSnoc(batches: seq<Batch>, b: Batch)
    ensures Flatten(batches + [b]) == Flatten(batches) + b
  {
    if batches == [] {
      assert [b][1..] == [] && batches + [b] == [b];
    } else {
      assert (batches + [b])[1..] == batches[1..] + [b];
      FlattenSnoc(batches[1..], b);
    }
  }

  /** Hands out its stream once; the second call panics, which is None here. */
  class SingleUsePartitionStream {
    var stream: Option<CountingStream>

    constructor (stream: CountingStream)
      ensures this.stream == Some(stream)
    {
      this.stream := Some(stream);
    }

    method Execute() returns (taken: Option<CountingStream>)
      modifies this
      ensures taken == old(stream) && stream == None
    {
      taken := stream;
      stream := None;
    }
  }

  /** Tables by name: destinations with their rows, and the names of staging tables. */
  class SessionContext {
    var tables: map<string, seq<Row>>
    var staging: set<string>

    constructor ()
      ensures tables == map[] && staging == {}
    {
      tables, staging := map[], {};
    }
  }

  // ---------------------------------------------------------------- a whole write

  function BatchesOf(script: seq<Answer>): seq<Batch> {
    if script == [] then []
    else (if script[0].Yielded? then [script[0].batch] else []) + BatchesOf(script[1..])
  }

  /** What the sink got, and the error that stopped it, if any. */
  datatype Pulled = Pulled(got: seq<Batch>, error: Option<string>)

  /** Polls from number k on; g batches have been taken already. */
  function Pull(left: Script, cancelAt: nat -> bool, refuses: nat -> bool, k: nat, g: nat, cancelled: bool): Pulled
    decreases |left|
  {
    if cancelled || cancelAt(k) then Pulled([], Some(CANCELLED))
    else if left == [] then Pulled([], None)
    else
      match left[0]
      case Waiting => Pull(left[1..], cancelAt, refuses, k + 1, g, false)
      case Broken(reason) => Pulled([], Some(reason))
      case Yielded(b) =>
        if refuses(g) then Pulled([b], Some(REFUSED))
        else
          var p := Pull(left[1..], cancelAt, refuses, k + 1, g + 1, false);
          Pulled([b] + p.got, p.error)
      case Done => Pulled([], None)
  }

  /** Nobody cancels before the last poll, the query does not break, the sink takes every batch. */
  ghost predicate Undisturbed(left: Script, cancelAt: nat -> bool, refuses: nat -> bool,
                              k: nat, g: nat, cancelled: bool) {
    && !cancelled
    && (forall i: nat :: k <= i <= k + |left| ==> !cancelAt(i))
    && (forall i :: 0 <= i < |left| ==> !left[i].Broken?)
    && (forall i: nat :: g <= i < g + |BatchesOf(left)| ==> !refuses(i))
  }

  /** The sink sees the end of the stream exactly when nothing disturbs it, and then it has all batches. */
  lemma {:induction false} EndIsSeenExactly(
    left: Script, cancelAt: nat -> bool, refuses: nat -> bool, k: nat, g: nat, cancelled: bool)
    ensures
      var p := Pull(left, cancelAt, refuses, k, g, cancelled);
      && (p.error.None? <==> Undisturbed(left, cancelAt, refuses, k, g, cancelled))
      && (p.error.None? ==> p.got == BatchesOf(left))
    decreases |left|
  {
    if !cancelled && !cancelAt(k) && left != [] && !left[0].Broken? {
      var tail := left[1..];
      assert left[0] in left;
      var more := if left[0].Yielded? then g + 1 else g;
      EndIsSeenExactly(tail, cancelAt, refuses, k + 1, more, false);
      assert left == [left[0]] + tail;
      assert forall i :: 0 <= i < |tail| ==> tail[i] == left[i + 1];
    }
  }

  /** Whatever happens and whenever, what the sink gets is a beginning of the query's batches. */
  lemma {:induction false} SinkSeesPrefix(
    left: Script, cancelAt: nat -> bool, refuses: nat -> bool, k: nat, g: nat, cancelled: bool)
    ensures Pull(left, cancelAt, refuses, k, g, cancelled).got <= BatchesOf(left)
    decreases |left|
  {
    if !cancelled && !cancelAt(k) && left != [] && !left[0].Broken? {
      assert left[0] in left;
      var more := if left[0].Yielded? then g + 1 else g;
      SinkSeesPrefix(left[1..], cancelAt, refuses, k + 1, more, false);
    }
  }

  function Ahead(got: seq<Batch>, p: Pulled): Pulled {
    Pulled(got + p.got, p.error)
  }

  lemma AheadNothing(p: Pulled)
    ensures Ahead([], p) == p
  {
    assert [] + p.got == p.got;
  }

  lemma AheadStep(got: seq<Batch>, left: Script, cancelAt: nat -> bool, refuses: nat -> bool,
                  k: nat, g: nat, cancelled: bool)
    ensures
      Ahead(got, Pull(left, cancelAt, refuses, k, g, cancelled))
      == if cancelled || cancelAt(k) then Pulled(got, Some(CANCELLED))
         else if left == [] then Pulled(got, None)
         else
           match left[0]
           case Waiting => Ahead(got, Pull(left[1..], cancelAt, refuses, k + 1, g, false))
           case Broken(reason) => Pulled(got, Some(reason))
           case Yielded(b) =>
             if refuses(g) then Pulled(got + [b], Some(REFUSED))
             else Ahead(got + [b], Pull(left[1..], cancelAt, refuses, k + 1, g + 1, false))
           case Done => Pulled(got, None)
  {
    assert got + [] == got;
    if !cancelled && !cancelAt(k) && left != [] && left[0].Yielded? && !refuses(g) {
      Text.Assoc(got, [left[0].batch], Pull(left[1..], cancelAt, refuses, k + 1, g + 1, false).got);
    }
  }

  /** The sink's loop, with a canceller in the gaps between its polls. */
  method Consume(s: CountingStream, cancelAt: nat -> bool, refuses: nat -> bool) returns (p: Pulled)
    requires s.Valid() && s.seen == []
    modifies s, s.rowsWritten, s.inner.inner, s.inner.cancelled
    ensures s.Valid() && s.seen == p.got
    ensures p == Pull(old(s.inner.inner.left), cancelAt, refuses, 0, 0, old(s.inner.cancelled.cancelled))
  {
    hide Pull, Ahead, Flatten;
    var k, g, got := 0, 0, [];
    AheadNothing(Pull(s.inner.inner.left, cancelAt, refuses, 0, 0, s.inner.cancelled.cancelled));
    ghost var whole := Pull(s.inner.inner.left, cancelAt, refuses, 0, 0, s.inner.cancelled.cancelled);
    while true
      invariant s.Valid() && s.seen == got
      invariant Ahead(got, Pull(s.inner.inner.left, cancelAt, refuses, k, g, s.inner.cancelled.cancelled)) == whole
      decreases |s.inner.inner.left|
    {
      ghost var left := s.inner.inner.left;
      assert left != [] ==> left[0] in left;
      AheadStep(got, left, cancelAt, refuses, k, g, s.inner.cancelled.cancelled);
      if cancelAt(k) {
        s.inner.cancelled.Cancel();
      }
      var a := s.PollNext();
      match a {
        case Waiting =>
        case Broken(reason) => return Pulled(got, Some(reason));
        case Done => return Pulled(got, None);
        case Yielded(b) =>
          got := got + [b];
          if refuses(g) {
            return Pulled(got, Some(REFUSED));
          }
          g := g + 1;
      }
      k := k + 1;
    }
  }

  /** INSERT INTO the destination SELECT * FROM the staging table, as one transaction. */
  method Insert(ctx: SessionContext, table: string, partition: SingleUsePartitionStream,
                cancelAt: nat -> bool, refuses: nat -> bool, commitFails: bool)
    returns (r: Result<(), string>)
    requires partition.stream.Some? && partition.stream.value.Valid() && partition.stream.value.seen == []
    modifies ctx`tables, partition
    modifies partition.stream.value, partition.stream.value.rowsWritten
    modifies partition.stream.value.inner.inner, partition.stream.value.inner.cancelled
    ensures
      var s := old(partition.stream.value);
      var script := old(s.inner.inner.left);
      && s.Valid()
      && (r.Ok? <==> table in old(ctx.tables) && !commitFails
                     && Undisturbed(script, cancelAt, refuses, 0, 0, old(s.inner.cancelled.cancelled)))
      && (r.Ok? ==> s.seen == BatchesOf(script))
      && s.seen <= BatchesOf(script)
      && ctx.tables == if r.Ok? then old(ctx.tables)[table := old(ctx.tables)[table] + Flatten(BatchesOf(script))]
                       else old(ctx.tables)
  {
    if table !in ctx.tables {
      return Err("planning failed");
    }
    var taken := partition.Execute();
    var s := taken.value;
    EndIsSeenExactly(s.inner.inner.left, cancelAt, refuses, 0, 0, s.inner.cancelled.cancelled);
    SinkSeesPrefix(s.inner.inner.left, cancelAt, refuses, 0, 0, s.inner.cancelled.cancelled);
    var p := Consume(s, cancelAt, refuses);
    if p.error.Some? {
      return Err(p.error.value);
    }
    if commitFails {
      return Err("commit failed");
    }
    ctx.tables := ctx.tables[table := ctx.tables[table] + Flatten(p.got)];
    return Ok(());
  }

  /**
  The destination's write, run to its end: all rows of the query land and are
  counted, or none land; the staging table is gone either way.
  */
  method Write(ctx: SessionContext, table: string, stream: CancellableStream, stagingName: string,
               cancelAt: nat -> bool, refuses: nat -> bool, commitFails: bool)
    returns (r: Result<nat, string>)
    modifies ctx, stream.inner, stream.cancelled
    ensures ctx.staging == old(ctx.staging)
    ensures r.Ok? <==> stagingName !in old(ctx.staging) && table in old(ctx.tables) && !commitFails
                       && Undisturbed(old(stream.inner.left), cancelAt, refuses, 0, 0, old(stream.cancelled.cancelled))
    ensures r.Ok? ==> r.value == |Flatten(BatchesOf(old(stream.inner.left)))|
    ensures ctx.tables == if r.Ok? then
                            old(ctx.tables)[table := old(ctx.tables)[table]
                                                     + Flatten(BatchesOf(old(stream.inner.left)))]
                          else old(ctx.tables)
  {
    var rowsWritten := new Counter();
    var counted := new CountingStream(stream, rowsWritten);
    var partition := new SingleUsePartitionStream(counted);
    if stagingName in ctx.staging {
      return Err("registration failed");
    }
    ctx.staging := ctx.staging + {stagingName};
    var result := Insert(ctx, table, partition, cancelAt, refuses, commitFails);
    ctx.staging := ctx.staging - {stagingName};
    match result
    case Err(why) => return Err(why);
    case Ok(_) => return Ok(rowsWritten.value);
  }

  /**
  A query without rows: the INSERT is not skipped.  It is planned and committed like
  any other, so a missing table or a failed commit is an error here too; if all goes
  well the count is zero and no table changes.
  */
  method WriteOfNothing(ctx: SessionContext, table: string, stagingName: string, flag: CancelFlag, commitFails: bool)
    returns (r: Result<nat, string>)
    requires !flag.cancelled && stagingName !in ctx.staging
    modifies ctx, flag
    ensures r.Ok? <==> table in old(ctx.tables) && !commitFails
    ensures r.Ok? ==> r.value == 0
    ensures ctx.tables == old(ctx.tables) && ctx.staging == old(ctx.staging)
  {
    var raw := new RawStream([]);
    var stream := new CancellableStream(raw, flag);
    ghost var before := ctx.tables;
    r := Write(ctx, table, stream, stagingName, k => false, g => false, commitFails);
    if r.Ok? {
      assert before[table] + Flatten(BatchesOf([])) == before[table];
    }
  }

  // ---------------------------------------------------------------- the protocol's polls are these

  /** A query that gives these batches and then ends or fails. */
  function ScriptOf(batches: seq<Batch>, failure: Option<string>): Script {
    if batches == [] then (if failure.Some? then [Broken(failure.value)] else [])
    else [Yielded(batches[0])] + ScriptOf(batches[1..], failure)
  }

  /** The protocol's poll step, again and again until the sink is no longer pulling. */
  function PollOn(t: Task, cancelAt: nat -> bool, k: nat): Phase
    requires t.phase.Writing?
    decreases |t.phase.left|
  {
    var p := Polled(t, cancelAt(k)).phase.value;
    if p.Writing? then PollOn(t.(phase := p), cancelAt, k + 1) else p
  }

  /** The protocol's poll steps come to what the stream stack gives the sink. */
  lemma {:induction false} ProtocolPollsAreTheStack(t: Task, cancelAt: nat -> bool, refuses: nat -> bool, k: nat,
                                                    g: nat)
    requires t.phase.Writing? && t.spec.query.Streams?
    requires forall i: nat :: !refuses(i)
    ensures
      var p := Pull(ScriptOf(t.phase.left, t.spec.query.failure), cancelAt, refuses, k, g, false);
      PollOn(t, cancelAt, k)
      == if p.error.None? then Ended(t.phase.got + p.got) else Finished(Errored(p.error.value))
    decreases |t.phase.left|
  {
    var left, got := t.phase.left, t.phase.got;
    if cancelAt(k) {
    } else if left == [] {
      assert got + [] == got;
    } else {
      var script := ScriptOf(left, t.spec.query.failure);
      assert script[1..] == ScriptOf(left[1..], t.spec.query.failure);
      ProtocolPollsAreTheStack(t.(phase := Writing(left[1..], got + [left[0]])), cancelAt, refuses, k + 1, g + 1);
      var rest := Pull(script[1..], cancelAt, refuses, k + 1, g + 1, false);
      Text.Assoc(got, [left[0]], rest.got);
    }
  }
}
