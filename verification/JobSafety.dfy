/**
What the job protocol guarantees over whole runs.  Every theorem is about every
list of events that can happen one after the other from an empty server.
*/
module JobSafety {
  import opened Options
  import opened Ledger
  import opened JobProtocol

  // ---------------------------------------------------------------- one world

  /**
  A run commits at most once, and then all rows of its own query into its own
  table.  A row count in the ledger is the number of rows that landed, every
  succeeded row has one and no failed row has one; a finish time is there exactly
  when the status is terminal.
  */
  lemma LedgerIsTruthful(es: seq<Event>, r: RunId)
    requires Exec(es).Some?
    ensures
      var w := Exec(es).value;
      var commits := CommitsOf(w.log, r);
      && (commits == [] || (r in w.accepted && CommittedOnce(r, w.accepted[r], commits)))
      && (commits != [] ==> r in w.ledger)
      && (r in w.ledger ==>
            var row := w.ledger[r];
            && (row.rowsWritten.Some? ==> |commits| == 1 && row.rowsWritten.value == |commits[0].rows|)
            && (row.status.Succeeded? ==> row.rowsWritten.Some?)
            && (row.status.Failed? ==> row.rowsWritten.None?)
            && (row.finishedAt.Some? <==> row.status.IsTerminal()))
  {
    InvAlways(es);
    assert RunOk(r, ViewOf(Exec(es).value, r));
  }

  /**
  The cancel-flag map holds a flag for exactly the runs that have a live task or
  are between the insertion and the spawn: no entry leaks, none is missing.
  */
  lemma FlagMapIsExact(es: seq<Event>, r: RunId)
    requires Exec(es).Some?
    ensures
      var w := Exec(es).value;
      r in w.flags <==> r in w.tasks || (r in w.submits && w.submits[r].FlagInserted?)
  {
    InvAlways(es);
    assert RunOk(r, ViewOf(Exec(es).value, r));
  }

  // ---------------------------------------------------------------- rows only move forward

  function Rank(s: JobRunStatus): nat {
    match s
    case Pending => 0
    case Running => 1
    case _ => 2
  }

  ghost predicate RowForward(w: World, w': World, r: RunId) {
    r in w.ledger ==>
      && r in w'.ledger
      && KeepsColumns(w.ledger[r], w'.ledger[r])
      && Rank(w.ledger[r].status) <= Rank(w'.ledger[r].status)
      && (w.ledger[r].status.IsTerminal() ==> w'.ledger[r] == w.ledger[r])
  }

  /** A task writes to its row only while the row is open. */
  lemma ActWritesOpenRows(r: RunId, t: Task, row: JobRun, commits: seq<Commit>,
                          cancelled: bool, staged: bool, e: TaskEvent)
    requires Ready(t, e) && TaskOk(r, t, row, commits)
    ensures
      var write := Act(t, cancelled, staged, e).write;
      write.Some? ==> !row.status.IsTerminal() && !write.value.status.Pending?
  {
  }

  lemma PutMovesRowForward(w: World, r: RunId, f: Effect)
    requires r in w.tasks && r in w.ledger
    requires f.write.Some? ==> !w.ledger[r].status.IsTerminal() && !f.write.value.status.Pending?
    ensures RowForward(w, Put(w, r, f), r)
  {
  }

  lemma StepMovesRowForward(w: World, e: Event, r: RunId)
    requires Inv(w) && Enabled(w, e)
    ensures RowForward(w, Step(w, e), r)
  {
    assert RunOk(r, ViewOf(w, r));
    if e.Crash? || e.Restart? {
    } else if e.run != r {
      OthersKept(w, e, r);
      assert ViewOf(Step(w, e), r).row == ViewOf(w, r).row;
    } else if e.OfTask? {
      ActWritesOpenRows(r, w.tasks[r], w.ledger[r], CommitsOf(w.log, r), Flag(w, r), r in w.staging, e.task);
      PutMovesRowForward(w, r, EffectOf(w, r, e.task));
    }
  }

  /**
  A row never disappears, none of its columns loses its value, its status only
  moves forward, and once it is terminal the whole row stays as it is: whatever
  happens next, crashes and restarts included.
  */
  lemma {:induction false} RowsMoveForward(w: World, es: seq<Event>, r: RunId)
    requires Inv(w) && ExecFrom(w, es).Some?
    ensures RowForward(w, ExecFrom(w, es).value, r)
  {
    if es != [] {
      var before := es[..|es| - 1];
      RowsMoveForward(w, before, r);
      InvFrom(w, before);
      StepMovesRowForward(ExecFrom(w, before).value, es[|es| - 1], r);
    }
  }

  // ---------------------------------------------------------------- ledger against destination

  /** The rows have landed and the ledger does not say so yet. */
  predicate Unrecorded(p: Phase) {
    || (p.Finished? && p.outcome.Wrote?)
    || (p.Recording? && p.update.rowsWritten.Some?)
  }

  /** This event is the reason why the ledger will never tell that the run's rows landed. */
  predicate Loses(w: World, e: Event, r: RunId) {
    && r in w.tasks
    && Unrecorded(w.tasks[r].phase)
    && (e.Crash? || e == OfTask(r, Record(false)))
  }

  /** Some crash, or the failed terminal write, fell between the run's commit and its row. */
  predicate Lost(es: seq<Event>, r: RunId) {
    && es != []
    && var before := es[..|es| - 1];
       Lost(before, r) || (Exec(before).Some? && Loses(Exec(before).value, es[|es| - 1], r))
  }

  predicate Disagrees(w: World, r: RunId) {
    r in w.ledger && CommitsOf(w.log, r) != [] && w.ledger[r].rowsWritten.None?
  }

  ghost predicate LossKnown(w: World, r: RunId, lost: bool) {
    && (r !in w.ledger ==> !lost)
    && (lost && r in w.tasks ==> w.tasks[r].phase.Closing?)
    && (lost ==> r !in w.submits)
    && (Disagrees(w, r) <==> lost || (r in w.tasks && Unrecorded(w.tasks[r].phase)))
  }

  /** What a row and the destination tell after a task step. */
  lemma ActRecords(r: RunId, t: Task, row: JobRun, commits: seq<Commit>,
                   cancelled: bool, staged: bool, e: TaskEvent)
    requires Ready(t, e) && TaskOk(r, t, row, commits)
    ensures
      var f := Act(t, cancelled, staged, e);
      var row' := if f.write.Some? then Apply(row, f.write.value) else row;
      (commits != [] || f.commit.Some?) && row'.rowsWritten.None?
      <==> || (commits != [] && row.rowsWritten.None? && !Unrecorded(t.phase))
           || (Unrecorded(t.phase) && e == Record(false))
           || (f.phase.Some? && Unrecorded(f.phase.value))
  {
  }

  lemma TaskAndRowAgree(w: World, r: RunId)
    requires RunOk(r, ViewOf(w, r)) && r in w.tasks
    ensures r in w.ledger && r !in w.submits && TaskOk(r, w.tasks[r], w.ledger[r], CommitsOf(w.log, r))
  {
    var v := ViewOf(w, r);
    assert v.task == Some(w.tasks[r]) && v.row == Lookup(w.ledger, r) && v.submit == Lookup(w.submits, r);
  }

  lemma PhaseCloses(t: Task, cancelled: bool, staged: bool, e: TaskEvent)
    requires Ready(t, e)
    ensures
      var f := Act(t, cancelled, staged, e);
      && (t.phase.Closing? ==> f.phase.None?)
      && (e == Record(false) ==> f.phase == Some(Closing))
  {
  }

  /** What a task step leaves of its run, field by field. */
  lemma TaskStepFields(w: World, r: RunId, f: Effect)
    requires r in w.tasks && r in w.ledger
    ensures
      var w' := Put(w, r, f);
      && (r in w'.tasks <==> f.phase.Some?)
      && (f.phase.Some? ==> w'.tasks[r].phase == f.phase.value)
      && r in w'.ledger
      && w'.ledger[r] == (if f.write.Some? then Apply(w.ledger[r], f.write.value) else w.ledger[r])
      && (CommitsOf(w'.log, r) != [] <==> CommitsOf(w.log, r) != [] || f.commit.Some?)
      && (r in w'.submits <==> r in w.submits)
  {
    hide Apply, CommitsOf;
    PutView(w, r, f);
    var v, v' := ViewOf(w, r), ViewOf(Put(w, r, f), r);
    assert v'.row == Lookup(Put(w, r, f).ledger, r) && v'.commits == CommitsOf(Put(w, r, f).log, r);
    assert v.row == Lookup(w.ledger, r) && v.commits == CommitsOf(w.log, r);
  }

  lemma LossTask(w: World, r: RunId, e: TaskEvent, lost: bool)
    requires RunOk(r, ViewOf(w, r)) && Enabled(w, OfTask(r, e)) && LossKnown(w, r, lost)
    ensures LossKnown(TaskStep(w, r, e), r, lost || Loses(w, OfTask(r, e), r))
  {
    TaskAndRowAgree(w, r);
    hide RunOk, TaskOk, Act, Put, ViewOf, CommitsOf, Apply;
    var f := EffectOf(w, r, e);
    PhaseCloses(w.tasks[r], Flag(w, r), r in w.staging, e);
    ActRecords(r, w.tasks[r], w.ledger[r], CommitsOf(w.log, r), Flag(w, r), r in w.staging, e);
    TaskStepFields(w, r, f);
  }

  lemma SameViewLoss(w: World, w': World, r: RunId, lost: bool)
    requires ViewOf(w', r) == ViewOf(w, r) && LossKnown(w, r, lost)
    ensures LossKnown(w', r, lost)
  {
    assert ViewOf(w', r).task == ViewOf(w, r).task;
    assert ViewOf(w', r).submit == ViewOf(w, r).submit;
    assert ViewOf(w', r).row == ViewOf(w, r).row;
    assert ViewOf(w', r).commits == ViewOf(w, r).commits;
  }

  lemma LossElsewhere(w: World, e: Event, r: RunId, lost: bool)
    requires RunOk(r, ViewOf(w, r)) && Enabled(w, e) && LossKnown(w, r, lost)
    requires e.Crash? || e.Restart? || (e.run == r && !e.OfTask?)
    requires !w.up ==> Quiet(w)
    ensures LossKnown(Step(w, e), r, lost || Loses(w, e, r))
  {
    assert ViewOf(w, r).row == Lookup(w.ledger, r) && ViewOf(w, r).task == Lookup(w.tasks, r);
  }

  lemma LossStep(w: World, e: Event, r: RunId, lost: bool)
    requires Inv(w) && Enabled(w, e) && LossKnown(w, r, lost)
    ensures LossKnown(Step(w, e), r, lost || Loses(w, e, r))
  {
    hide LossKnown;
    assert RunOk(r, ViewOf(w, r));
    if e.Crash? || e.Restart? || (e.run == r && !e.OfTask?) {
      LossElsewhere(w, e, r, lost);
    } else if e.run != r {
      OthersKept(w, e, r);
      SameViewLoss(w, Step(w, e), r, lost);
    } else {
      LossTask(w, r, e.task, lost);
    }
  }

  lemma {:induction false} LossFold(es: seq<Event>, r: RunId)
    requires Exec(es).Some?
    ensures LossKnown(Exec(es).value, r, Lost(es, r))
  {
    if es != [] {
      var before := es[..|es| - 1];
      LossFold(before, r);
      InvAlways(before);
      LossStep(Exec(before).value, es[|es| - 1], r, Lost(before, r));
    }
  }

  /**
  The ledger and the destination disagree about a run, that is, its rows landed
  and its row carries no count, exactly when its task has yet to record them, or
  a crash or a failed terminal write fell between the commit and the row.
  */
  lemma DisagreementIsExact(es: seq<Event>, r: RunId)
    requires Exec(es).Some?
    ensures
      var w := Exec(es).value;
      Disagrees(w, r) <==> Lost(es, r) || (r in w.tasks && Unrecorded(w.tasks[r].phase))
  {
    LossFold(es, r);
  }

  // ---------------------------------------------------------------- who is still open

  /** The run's terminal write failed and no restart has come since. */
  predicate Orphaned(es: seq<Event>, r: RunId) {
    if es == [] then false
    else
      var e := es[|es| - 1];
      if e == OfTask(r, Record(false)) then true
      else if e.Restart? && e.ok then false
      else Orphaned(es[..|es| - 1], r)
  }

  /** Somebody will still write the run's terminal status. */
  predicate InProgress(w: World, r: RunId) {
    r in w.submits || (r in w.tasks && !w.tasks[r].phase.Closing?)
  }

  ghost predicate OpenKnown(w: World, r: RunId, orphaned: bool) {
    && (r !in w.ledger ==> !orphaned)
    && (orphaned ==> !InProgress(w, r))
    && (w.up && r in w.ledger ==>
          (!w.ledger[r].status.IsTerminal() <==> InProgress(w, r) || orphaned))
  }

  lemma ActCloses(r: RunId, t: Task, row: JobRun, commits: seq<Commit>,
                  cancelled: bool, staged: bool, e: TaskEvent)
    requires Ready(t, e) && TaskOk(r, t, row, commits)
    ensures
      var f := Act(t, cancelled, staged, e);
      && (f.write.Some? && f.write.value.status.IsTerminal() <==> e == Record(true))
      && (f.write.Some? ==> e.MarkRunning? || e.Record?)
      && (f.phase.Some? && !f.phase.value.Closing? <==> !e.Record? && !e.DropFlag?)
  {
  }

  lemma OpenTask(w: World, r: RunId, e: TaskEvent, orphaned: bool)
    requires RunOk(r, ViewOf(w, r)) && Enabled(w, OfTask(r, e)) && OpenKnown(w, r, orphaned)
    ensures OpenKnown(TaskStep(w, r, e), r, orphaned || e == Record(false))
  {
    hide Act, CommitsOf;
    var f := EffectOf(w, r, e);
    ActCloses(r, w.tasks[r], w.ledger[r], CommitsOf(w.log, r), Flag(w, r), r in w.staging, e);
    PutView(w, r, f);
    var v := ViewOf(Put(w, r, f), r);
    assert v.row.Some? && v.row.value == Put(w, r, f).ledger[r];
    assert v.submit.None?;
  }

  lemma SameViewOpen(w: World, w': World, r: RunId, orphaned: bool)
    requires ViewOf(w', r) == ViewOf(w, r) && w'.up == w.up && OpenKnown(w, r, orphaned)
    ensures OpenKnown(w', r, orphaned)
  {
    assert ViewOf(w', r).task == ViewOf(w, r).task;
    assert ViewOf(w', r).submit == ViewOf(w, r).submit;
    assert ViewOf(w', r).row == ViewOf(w, r).row;
  }

  function OrphanedAfter(e: Event, r: RunId, orphaned: bool): bool {
    if e == OfTask(r, Record(false)) then true
    else if e.Restart? && e.ok then false
    else orphaned
  }

  lemma OpenElsewhere(w: World, e: Event, r: RunId, orphaned: bool)
    requires RunOk(r, ViewOf(w, r)) && Enabled(w, e) && OpenKnown(w, r, orphaned)
    requires e.Crash? || e.Restart? || (e.run == r && !e.OfTask?)
    requires !w.up ==> Quiet(w)
    ensures OpenKnown(Step(w, e), r, OrphanedAfter(e, r, orphaned))
  {
    assert ViewOf(w, r).row == Lookup(w.ledger, r) && ViewOf(w, r).task == Lookup(w.tasks, r);
  }

  lemma OpenStep(w: World, e: Event, r: RunId, orphaned: bool)
    requires Inv(w) && Enabled(w, e) && OpenKnown(w, r, orphaned)
    ensures OpenKnown(Step(w, e), r, OrphanedAfter(e, r, orphaned))
  {
    hide OpenKnown;
    assert RunOk(r, ViewOf(w, r));
    if e.Crash? || e.Restart? || (e.run == r && !e.OfTask?) {
      OpenElsewhere(w, e, r, orphaned);
    } else if e.run != r {
      OthersKept(w, e, r);
      SameViewOpen(w, Step(w, e), r, orphaned);
    } else {
      OpenTask(w, r, e.task, orphaned);
    }
  }

  lemma {:induction false} OpenFold(es: seq<Event>, r: RunId)
    requires Exec(es).Some?
    ensures OpenKnown(Exec(es).value, r, Orphaned(es, r))
  {
    if es != [] {
      var before := es[..|es| - 1];
      OpenFold(before, r);
      InvAlways(before);
      OpenStep(Exec(before).value, es[|es| - 1], r, Orphaned(before, r));
    }
  }

  /**
  While the server is up a row is open exactly when somebody is still going to
  write its terminal status, or that write was tried and failed since the start.
  */
  lemma OpenRowsAreExact(es: seq<Event>, r: RunId)
    requires Exec(es).Some? && Exec(es).value.up && r in Exec(es).value.ledger
    ensures
      var w := Exec(es).value;
      !w.ledger[r].status.IsTerminal() <==> InProgress(w, r) || Orphaned(es, r)
  {
    OpenFold(es, r);
  }

  /** A start that succeeds leaves every row terminal before the first submission. */
  lemma RestartClosesEveryRow(es: seq<Event>, now: string)
    requires Exec(es + [Restart(now, true)]).Some?
    ensures
      var w := Exec(es + [Restart(now, true)]).value;
      && w.up && w.submits == map[] && w.tasks == map[]
      && forall r :: r in w.ledger ==> w.ledger[r].status.IsTerminal()
  {
    assert (es + [Restart(now, true)])[..|es|] == es;
    InvAlways(es);
  }

  // ---------------------------------------------------------------- cancel

  predicate NoCrash(es: seq<Event>) {
    forall k :: 0 <= k < |es| ==> !es[k].Crash?
  }

  /** The flag has not been read for the last time. */
  predicate Undecided(w: World, r: RunId) {
    || r in w.submits
    || (r in w.tasks && !w.tasks[r].phase.Recording? && !w.tasks[r].phase.Closing?)
  }

  /** The sink has not seen the end of the stream. */
  predicate BeforeEnd(w: World, r: RunId) {
    || r in w.submits
    || (r in w.tasks && (var p := w.tasks[r].phase; p.Spawned? || p.Marked? || p.Planning? || p.Writing?))
  }

  ghost predicate BoundToCancel(w: World, r: RunId) {
    && r in w.ledger
    && (Undecided(w, r) ==> Flag(w, r))
    && (r in w.tasks && w.tasks[r].phase.Recording? ==> w.tasks[r].phase.update.status.Cancelled?)
    && !w.ledger[r].status.Succeeded?
    && !w.ledger[r].status.Failed?
  }

  lemma ActHeedsCancel(t: Task, staged: bool, e: TaskEvent)
    requires Ready(t, e)
    requires t.phase.Recording? ==> t.phase.update.status.Cancelled?
    ensures
      var f := Act(t, true, staged, e);
      && (f.write.Some? ==> f.write.value.status.Cancelled? || f.write.value.status.Running?)
      && (f.phase.Some? && f.phase.value.Recording? ==> f.phase.value.update.status.Cancelled?)
  {
  }

  lemma BoundPut(w: World, r: RunId, f: Effect)
    requires r in w.tasks && r !in w.submits && BoundToCancel(w, r)
    requires f.write.Some? ==> f.write.value.status.Cancelled? || f.write.value.status.Running?
    requires f.phase.Some? && f.phase.value.Recording? ==> f.phase.value.update.status.Cancelled?
    requires f.phase.Some? && !f.phase.value.Recording? && !f.phase.value.Closing? ==> Undecided(w, r)
    ensures BoundToCancel(Put(w, r, f), r)
  {
  }

  lemma BoundTask(w: World, r: RunId, e: TaskEvent)
    requires RunOk(r, ViewOf(w, r)) && Enabled(w, OfTask(r, e)) && BoundToCancel(w, r)
    ensures BoundToCancel(TaskStep(w, r, e), r)
  {
    var t := w.tasks[r];
    assert r !in w.submits by { assert ViewOf(w, r).submit.None?; }
    if Undecided(w, r) {
      ActHeedsCancel(t, r in w.staging, e);
    } else {
      assert e.Record? || e.DropFlag?;
    }
    BoundPut(w, r, EffectOf(w, r, e));
  }

  lemma SameViewBound(w: World, w': World, r: RunId)
    requires ViewOf(w', r) == ViewOf(w, r) && BoundToCancel(w, r)
    ensures BoundToCancel(w', r)
  {
    assert ViewOf(w', r).task == ViewOf(w, r).task;
    assert ViewOf(w', r).submit == ViewOf(w, r).submit;
    assert ViewOf(w', r).row == ViewOf(w, r).row;
    assert ViewOf(w', r).cell == ViewOf(w, r).cell;
  }

  lemma BoundStep(w: World, e: Event, r: RunId)
    requires Inv(w) && w.up && Enabled(w, e) && !e.Crash? && BoundToCancel(w, r)
    ensures Step(w, e).up && BoundToCancel(Step(w, e), r)
  {
    assert RunOk(r, ViewOf(w, r));
    if e.run != r {
      OthersKept(w, e, r);
      SameViewBound(w, Step(w, e), r);
    } else if e.OfTask? {
      BoundTask(w, r, e.task);
    }
  }

  lemma {:induction false} BoundFold(w: World, es: seq<Event>, r: RunId)
    requires Inv(w) && w.up && BoundToCancel(w, r) && NoCrash(es) && ExecFrom(w, es).Some?
    ensures ExecFrom(w, es).value.up && BoundToCancel(ExecFrom(w, es).value, r)
  {
    if es != [] {
      var before := es[..|es| - 1];
      BoundFold(w, before, r);
      InvFrom(w, before);
      BoundStep(ExecFrom(w, before).value, es[|es| - 1], r);
    }
  }

  /**
  A canceller that stores to the flag before the outcome match reads it wins:
  unless the server crashes, the run never becomes succeeded or failed, and the
  status its task chooses is cancelled.
  */
  lemma CancelWins(w: World, es: seq<Event>, r: RunId)
    requires Inv(w) && Enabled(w, OfCancel(r, Store)) && Undecided(w, r)
    requires NoCrash(es) && ExecFrom(Step(w, OfCancel(r, Store)), es).Some?
    ensures
      var w' := ExecFrom(Step(w, OfCancel(r, Store)), es).value;
      && r in w'.ledger
      && !w'.ledger[r].status.Succeeded? && !w'.ledger[r].status.Failed?
      && (r in w'.tasks && w'.tasks[r].phase.Recording? ==> w'.tasks[r].phase.update.status.Cancelled?)
  {
    assert RunOk(r, ViewOf(w, r));
    var cancelled := Step(w, OfCancel(r, Store));
    StepKeepsInv(w, OfCancel(r, Store));
    BoundFold(cancelled, es, r);
  }

  ghost predicate Barren(w: World, r: RunId) {
    && r in w.ledger
    && CommitsOf(w.log, r) == []
    && (BeforeEnd(w, r) ==> Flag(w, r))
    && (r in w.tasks ==>
          var p := w.tasks[r].phase;
          && !p.Ended?
          && (p.Finished? ==> p.outcome.Errored?))
  }

  lemma ActStaysBarren(t: Task, cancelled: bool, staged: bool, e: TaskEvent)
    requires Ready(t, e) && !t.phase.Ended? && (t.phase.Finished? ==> t.phase.outcome.Errored?)
    requires t.phase.Spawned? || t.phase.Marked? || t.phase.Planning? || t.phase.Writing? ==> cancelled
    ensures
      var f := Act(t, cancelled, staged, e);
      && f.commit.None?
      && (f.phase.Some? ==>
            var p := f.phase.value;
            && !p.Ended?
            && (p.Finished? ==> p.outcome.Errored?)
            && (p.Spawned? || p.Marked? || p.Planning? || p.Writing? ==> cancelled))
  {
  }

  lemma BarrenPut(w: World, r: RunId, f: Effect)
    requires r in w.tasks && r !in w.submits && Barren(w, r) && f.commit.None?
    requires f.phase.Some? ==>
               var p := f.phase.value;
               && !p.Ended?
               && (p.Finished? ==> p.outcome.Errored?)
               && (p.Spawned? || p.Marked? || p.Planning? || p.Writing? ==> Flag(w, r))
    ensures Barren(Put(w, r, f), r)
  {
  }

  lemma SameViewBarren(w: World, w': World, r: RunId)
    requires ViewOf(w', r) == ViewOf(w, r) && Barren(w, r)
    ensures Barren(w', r)
  {
    assert ViewOf(w', r).task == ViewOf(w, r).task;
    assert ViewOf(w', r).submit == ViewOf(w, r).submit;
    assert ViewOf(w', r).row == ViewOf(w, r).row;
    assert ViewOf(w', r).cell == ViewOf(w, r).cell;
    assert ViewOf(w', r).commits == ViewOf(w, r).commits;
  }

  lemma BarrenStep(w: World, e: Event, r: RunId)
    requires Inv(w) && Enabled(w, e) && Barren(w, r)
    ensures Barren(Step(w, e), r)
  {
    assert RunOk(r, ViewOf(w, r));
    if e.Crash? || e.Restart? {
    } else if e.run != r {
      OthersKept(w, e, r);
      SameViewBarren(w, Step(w, e), r);
    } else if e.OfTask? {
      assert r !in w.submits by { assert ViewOf(w, r).submit.None?; }
      ActStaysBarren(w.tasks[r], Flag(w, r), r in w.staging, e.task);
      BarrenPut(w, r, EffectOf(w, r, e.task));
    }
  }

  lemma {:induction false} BarrenFold(w: World, es: seq<Event>, r: RunId)
    requires Inv(w) && Barren(w, r) && ExecFrom(w, es).Some?
    ensures Barren(ExecFrom(w, es).value, r)
  {
    if es != [] {
      var before := es[..|es| - 1];
      BarrenFold(w, before, r);
      InvFrom(w, before);
      BarrenStep(ExecFrom(w, before).value, es[|es| - 1], r);
    }
  }

  /**
  If the store comes before the sink has seen the end of the stream, the run never
  commits anything, whatever happens later, crashes and restarts included.
  */
  lemma EarlyCancelCommitsNothing(w: World, es: seq<Event>, r: RunId)
    requires Inv(w) && Enabled(w, OfCancel(r, Store)) && BeforeEnd(w, r)
    requires ExecFrom(Step(w, OfCancel(r, Store)), es).Some?
    ensures CommitsOf(ExecFrom(Step(w, OfCancel(r, Store)), es).value.log, r) == []
  {
    assert RunOk(r, ViewOf(w, r));
    StepKeepsInv(w, OfCancel(r, Store));
    BarrenFold(Step(w, OfCancel(r, Store)), es, r);
  }
}
