/**
What a cancel does, exactly: which status every run ends with, and until when a
cancel keeps a run from committing.
*/
module JobCancel {
  import opened Options
  import opened Ledger
  import opened JobProtocol
  import opened JobSafety

  // ---------------------------------------------------------------- what has happened to a run

  /** Somebody has stored to the run's flag. */
  predicate Stored(es: seq<Event>, r: RunId) {
    OfCancel(r, Store) in es
  }

  /** Somebody had stored to the run's flag when its task read it at the outcome match. */
  predicate Heard(es: seq<Event>, r: RunId) {
    && es != []
    && var before, e := es[..|es| - 1], es[|es| - 1];
       Heard(before, r) || (Reads(e, r) && Stored(before, r))
  }

  predicate Reads(e: Event, r: RunId) {
    e.OfTask? && e.run == r && e.task.ReadOutcome?
  }

  /** The run's terminal write went through. */
  predicate Written(es: seq<Event>, r: RunId) {
    OfTask(r, Record(true)) in es
  }

  // ---------------------------------------------------------------- the invariant

  /** What the ledger, or the update on its way there, has to say. */
  predicate StatusFits(status: JobRunStatus, heard: bool, commits: seq<Commit>) {
    status == if heard then Cancelled else if commits != [] then Succeeded else Failed
  }

  ghost predicate Known(w: World, r: RunId, stored: bool, heard: bool, written: bool) {
    && (r !in w.ledger ==> !stored && !heard && !written)
    && (Undecided(w, r) ==> !heard && !written && (Flag(w, r) <==> stored))
    && (r in w.tasks && w.tasks[r].phase.Recording? ==>
          !written && StatusFits(w.tasks[r].phase.update.status, heard, CommitsOf(w.log, r)))
    && (r in w.ledger && written ==> StatusFits(w.ledger[r].status, heard, CommitsOf(w.log, r)))
    && (r in w.ledger && !written ==> !w.ledger[r].status.Cancelled? && !w.ledger[r].status.Succeeded?)
  }

  /** What a step of the task may do to the status, by the phase it starts from. */
  predicate Decides(t: Task, f: Effect, e: TaskEvent, cancelled: bool, commits: seq<Commit>) {
    if e.ReadOutcome? then
      && t.phase.Finished? && f.commit.None? && f.write.None?
      && f.phase.Some? && f.phase.value.Recording?
      && StatusFits(f.phase.value.update.status, cancelled, commits)
    else if e.Record? then
      && t.phase.Recording? && f.commit.None? && f.phase == Some(Closing)
      && f.write == if e.ok then Some(t.phase.update) else None
    else if e.DropFlag? then
      t.phase.Closing? && f.commit.None? && f.phase.None? && f.write.None?
    else
      && !t.phase.Finished? && !t.phase.Recording? && !t.phase.Closing?
      && f.phase.Some? && !f.phase.value.Recording? && !f.phase.value.Closing?
      && (f.write.Some? ==> f.write.value.status.Running?)
  }

  lemma ActDecides(r: RunId, t: Task, row: JobRun, commits: seq<Commit>, cancelled: bool, staged: bool, e: TaskEvent)
    requires Ready(t, e) && TaskOk(r, t, row, commits)
    ensures Decides(t, Act(t, cancelled, staged, e), e, cancelled, commits)
  {
  }

  lemma KnownAfterPut(w: World, r: RunId, f: Effect, e: TaskEvent, stored: bool, heard: bool, written: bool)
    requires r in w.tasks && r in w.ledger && r !in w.submits
    requires Known(w, r, stored, heard, written)
    requires Decides(w.tasks[r], f, e, Flag(w, r), CommitsOf(w.log, r))
    ensures Known(Put(w, r, f), r, stored, heard || (e.ReadOutcome? && stored), written || e == Record(true))
  {
    PutView(w, r, f);
    assert ViewOf(Put(w, r, f), r).commits
        == CommitsOf(w.log, r)
           + if f.commit.Some? then [Commit(r, w.tasks[r].spec.table, f.commit.value)] else [];
  }

  lemma KnownAfterTask(w: World, r: RunId, e: TaskEvent, stored: bool, heard: bool, written: bool)
    requires RunOk(r, ViewOf(w, r)) && Enabled(w, OfTask(r, e)) && Known(w, r, stored, heard, written)
    ensures Known(TaskStep(w, r, e), r, stored, heard || (e.ReadOutcome? && stored), written || e == Record(true))
  {
    assert ViewOf(w, r).submit.None? && ViewOf(w, r).row.Some?;
    ActDecides(r, w.tasks[r], w.ledger[r], CommitsOf(w.log, r), Flag(w, r), r in w.staging, e);
    KnownAfterPut(w, r, EffectOf(w, r, e), e, stored, heard, written);
  }

  lemma SameViewKnown(w: World, w': World, r: RunId, stored: bool, heard: bool, written: bool)
    requires ViewOf(w', r) == ViewOf(w, r) && Known(w, r, stored, heard, written)
    ensures Known(w', r, stored, heard, written)
  {
    assert ViewOf(w', r).task == ViewOf(w, r).task;
    assert ViewOf(w', r).submit == ViewOf(w, r).submit;
    assert ViewOf(w', r).row == ViewOf(w, r).row;
    assert ViewOf(w', r).cell == ViewOf(w, r).cell;
    assert ViewOf(w', r).commits == ViewOf(w, r).commits;
  }

  lemma KnownAfterSubmit(w: World, r: RunId, e: SubmitEvent, stored: bool, heard: bool, written: bool)
    requires RunOk(r, ViewOf(w, r)) && Enabled(w, OfSubmit(r, e)) && Known(w, r, stored, heard, written)
    ensures Known(SubmitStep(w, r, e), r, stored, heard, written)
  {
    assert ViewOf(w, r).cell == Lookup(w.cells, r);
    assert ViewOf(w, r).row == Lookup(w.ledger, r) && ViewOf(w, r).task == Lookup(w.tasks, r);
  }

  lemma KnownAfterCancel(w: World, r: RunId, e: CancelEvent, stored: bool, heard: bool, written: bool)
    requires RunOk(r, ViewOf(w, r)) && Enabled(w, OfCancel(r, e)) && Known(w, r, stored, heard, written)
    ensures Known(CancelStep(w, r, e), r, stored || e.Store?, heard, written)
  {
    assert ViewOf(w, r).cell == Lookup(w.cells, r) && ViewOf(w, r).cancelling == (r in w.cancellers);
    assert ViewOf(w, r).row == Lookup(w.ledger, r);
  }

  lemma KnownAfterServer(w: World, e: Event, r: RunId, stored: bool, heard: bool, written: bool)
    requires RunOk(r, ViewOf(w, r)) && Enabled(w, e) && (e.Crash? || e.Restart?)
    requires Known(w, r, stored, heard, written) && (!w.up ==> Quiet(w))
    ensures Known(Step(w, e), r, stored, heard, written)
  {
    assert ViewOf(w, r).row == Lookup(w.ledger, r);
  }

  lemma KnownStep(w: World, e: Event, r: RunId, stored: bool, heard: bool, written: bool)
    requires Inv(w) && Enabled(w, e) && Known(w, r, stored, heard, written)
    ensures Known(Step(w, e), r, stored || e == OfCancel(r, Store), heard || (Reads(e, r) && stored),
                  written || e == OfTask(r, Record(true)))
  {
    hide Known;
    assert RunOk(r, ViewOf(w, r));
    if e.Crash? || e.Restart? {
      KnownAfterServer(w, e, r, stored, heard, written);
    } else if e.run != r {
      OthersKept(w, e, r);
      SameViewKnown(w, Step(w, e), r, stored, heard, written);
    } else {
      match e
      case OfSubmit(_, x) => KnownAfterSubmit(w, r, x, stored, heard, written);
      case OfTask(_, x) => KnownAfterTask(w, r, x, stored, heard, written);
      case OfCancel(_, x) => KnownAfterCancel(w, r, x, stored, heard, written);
    }
  }

  lemma {:induction false} KnownFold(es: seq<Event>, r: RunId)
    requires Exec(es).Some?
    ensures Known(Exec(es).value, r, Stored(es, r), Heard(es, r), Written(es, r))
  {
    if es != [] {
      var before, e := es[..|es| - 1], es[|es| - 1];
      KnownFold(before, r);
      InvAlways(before);
      KnownStep(Exec(before).value, e, r, Stored(before, r), Heard(before, r), Written(before, r));
      assert es == before + [e];
    }
  }

  // ---------------------------------------------------------------- the exact law

  /**
  Which status a run ends with.  The task chooses cancelled exactly when somebody
  had stored to the flag before the outcome match read it, else succeeded exactly
  when the rows landed, else failed; the row says so once it is written, and no
  row is ever cancelled or succeeded otherwise.
  */
  lemma StatusIsExact(es: seq<Event>, r: RunId)
    requires Exec(es).Some?
    ensures
      var w := Exec(es).value;
      var commits := CommitsOf(w.log, r);
      && (r in w.tasks && w.tasks[r].phase.Recording? ==>
            && (w.tasks[r].phase.update.status.Cancelled? <==> Heard(es, r))
            && (w.tasks[r].phase.update.status.Succeeded? <==> !Heard(es, r) && commits != [])
            && (w.tasks[r].phase.update.status.Failed? <==> !Heard(es, r) && commits == []))
      && (r in w.ledger ==>
            && (w.ledger[r].status.Cancelled? <==> Written(es, r) && Heard(es, r))
            && (w.ledger[r].status.Succeeded? <==> Written(es, r) && !Heard(es, r) && commits != []))
  {
    KnownFold(es, r);
  }

  // ---------------------------------------------------------------- until when a commit can be prevented

  /** The run can still commit, if the others let it. */
  ghost predicate CanCommit(w: World, r: RunId) {
    exists es :: ExecFrom(w, es).Some? && CommitsOf(ExecFrom(w, es).value.log, r) != []
  }

  /** At the end of the stream the commit can go ahead, whatever the flag holds. */
  lemma CommitHeedsNoFlag(w: World, r: RunId)
    requires Inv(w) && r in w.tasks && w.tasks[r].phase.Ended?
    ensures
      var spec := w.tasks[r].spec;
      var e := OfTask(r, CommitRows(if spec.kind.Db? then None else Some("")));
      && Enabled(w, e)
      && spec.query.Streams?
      && CommitsOf(Step(w, e).log, r) == [Commit(r, spec.table, Flatten(spec.query.batches))]
  {
    assert RunOk(r, ViewOf(w, r));
    var spec := w.tasks[r].spec;
    EndedHoldsWholeQuery(w, r);
    CommitsOfAppend(w.log, Commit(r, spec.table, Flatten(spec.query.batches)), r);
    assert CommitsOf(w.log, r) == [] by { assert ViewOf(w, r).commits == []; }
  }

  lemma StoredIsBarren(w: World, r: RunId)
    requires Inv(w) && Enabled(w, OfCancel(r, Store)) && CommitsOf(w.log, r) == []
    requires !(r in w.tasks && w.tasks[r].phase.Ended?)
    ensures Inv(Step(w, OfCancel(r, Store))) && Barren(Step(w, OfCancel(r, Store)), r)
  {
    StepKeepsInv(w, OfCancel(r, Store));
    assert RunOk(r, ViewOf(w, r));
    assert ViewOf(w, r).cell == Lookup(w.cells, r) && ViewOf(w, r).row == Lookup(w.ledger, r);
    assert ViewOf(w, r).task == Lookup(w.tasks, r) && ViewOf(w, r).commits == [];
  }

  lemma EndedCanCommit(w: World, r: RunId)
    requires Inv(w) && r in w.tasks && w.tasks[r].phase.Ended?
    ensures CanCommit(w, r)
  {
    var e := OfTask(r, CommitRows(if w.tasks[r].spec.kind.Db? then None else Some("")));
    CommitHeedsNoFlag(w, r);
    hide Inv, Step, Enabled, Flatten;
    assert ExecFrom(w, []) == Some(w);
    Extend(w, [], e);
    assert [] + [e] == [e];
    assert ExecFrom(w, [e]) == Some(Step(w, e));
  }

  lemma BarrenCannotCommit(w: World, r: RunId)
    requires Inv(w) && Barren(w, r)
    ensures !CanCommit(w, r)
  {
    hide Inv, Barren, Step, Enabled;
    forall es | ExecFrom(w, es).Some?
      ensures CommitsOf(ExecFrom(w, es).value.log, r) == []
    {
      BarrenFold(w, es, r);
    }
  }

  /**
  A cancel of a run that has committed nothing keeps it from ever committing,
  exactly when the sink has not reached the end of the stream by then.
  */
  lemma CancelPreventsCommitExactly(w: World, r: RunId)
    requires Inv(w) && Enabled(w, OfCancel(r, Store)) && CommitsOf(w.log, r) == []
    ensures CanCommit(Step(w, OfCancel(r, Store)), r) <==> r in w.tasks && w.tasks[r].phase.Ended?
  {
    hide CanCommit, Inv, Barren;
    if r in w.tasks && w.tasks[r].phase.Ended? {
      StepKeepsInv(w, OfCancel(r, Store));
      EndedCanCommit(Step(w, OfCancel(r, Store)), r);
    } else {
      StoredIsBarren(w, r);
      BarrenCannotCommit(Step(w, OfCancel(r, Store)), r);
    }
  }
}
