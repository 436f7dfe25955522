/**
The ledger as a record of what happened: every column of every row is told by the
events alone, by what was asked for, which steps were taken and when.
*/
module JobHistory {
  import opened Options
  import opened Ledger
  import opened JobProtocol
  import opened JobSafety
  import Text

  // ---------------------------------------------------------------- what has happened to a run

  /** How the work on a run ended: its rows landed, or something broke it off. */
  datatype Ending = Landed(snapshot: Option<string>) | Broke(reason: string)

  /** What the events say about one run. */
  datatype History = History(
    asked: Option<JobSpec>,       // what it was accepted for
    created: string,              // when
    started: Option<string>,      // when the running write went through
    cancelled: bool,              // somebody has stored to its flag
    checked: bool,                // the task has looked at it for the first time
    pulled: nat,                  // batches the sink has pulled
    ending: Option<Ending>,
    finished: Option<string>,     // when the outcome was read
    heard: bool,                  // the flag was set by then
    written: bool,                // the terminal write went through
    timedOut: bool,
    reconciled: Option<string>)   // when a restart found the row open

  const NOTHING := History(None, "", None, false, false, 0, None, None, false, false, false, None)

  function HistoryOf(es: seq<Event>, r: RunId): History {
    if es == [] then NOTHING else Told(HistoryOf(es[..|es| - 1], r), es[|es| - 1], r)
  }

  function Told(h: History, e: Event, r: RunId): History {
    match e
    case OfSubmit(s, CreateRow(spec, now, ok)) =>
      if s == r && ok && h.asked.None? then h.(asked := Some(spec), created := now) else h
    case OfTask(s, x) => if s == r && h.asked.Some? then TaskTold(h, x) else h
    case OfCancel(s, Store) => if s == r then h.(cancelled := true) else h
    case Restart(now, ok) =>
      if ok && h.asked.Some? && !h.written && h.reconciled.None? then h.(reconciled := Some(now)) else h
    case _ => h
  }

  function TaskTold(h: History, e: TaskEvent): History
    requires h.asked.Some?
  {
    var query := h.asked.value.query;
    match e
    case MarkRunning(now, ok) => if ok then h.(started := Some(now)) else h
    case CheckCancel =>
      h.(checked := true, ending := if h.cancelled then Some(Broke("cancelled before execution")) else h.ending)
    case Plan => if query.PlanFails? then h.(ending := Some(Broke(query.reason))) else h
    case Poll =>
      if h.cancelled then h.(ending := Some(Broke("job cancelled before commit")))
      else if query.PlanFails? then h
      else if h.pulled < |query.batches| then h.(pulled := h.pulled + 1)
      else if query.failure.Some? then h.(ending := Some(Broke(query.failure.value)))
      else h
    case SinkFail(reason) => h.(ending := Some(Broke(reason)))
    case CommitRows(snapshot) => h.(ending := Some(Landed(snapshot)))
    case Timeout =>
      h.(timedOut := true,
         ending := if h.asked.value.timeoutMs.None? then h.ending
                   else Some(Broke("job timed out after " + Text.Digits(h.asked.value.timeoutMs.value)
                                   + "ms before commit")))
    case ReadOutcome(now) => h.(finished := Some(now), heard := h.cancelled)
    case Record(ok) => if ok then h.(written := true) else h
    case DropFlag => h
  }

  // ---------------------------------------------------------------- what a row tells

  /** The columns that the terminal write fills in. */
  predicate EndIsTold(h: History, u: StatusUpdate) {
    && h.asked.Some? && h.ending.Some? && h.finished.Some?
    && u.startedAt.None?
    && u.finishedAt == h.finished
    && match h.ending.value
       case Landed(snapshot) =>
         && h.asked.value.query.Streams?
         && u.status == (if h.heard then Cancelled else Succeeded)
         && u.rowsWritten == Some(|Flatten(h.asked.value.query.batches)|)
         && u.snapshotId == snapshot
         && u.error == (if h.heard then Some("cancelled after commit") else None)
       case Broke(reason) =>
         && u.status == (if h.heard then Cancelled else Failed)
         && u.rowsWritten.None?
         && u.snapshotId.None?
         && u.error == Some(reason)
  }

  /** The row of an accepted run. */
  predicate RowIsTold(h: History, r: RunId, row: JobRun) {
    && h.asked.Some?
    && row.id == r
    && row.jobName == h.asked.value.jobName
    && row.parameters == h.asked.value.parameters
    && row.createdAt == h.created
    && row.startedAt == h.started
    && if h.written then
         EndIsTold(h, StatusUpdate(row.status, None, row.finishedAt, row.rowsWritten, row.snapshotId, row.error))
       else if h.reconciled.Some? then
         && row.status == Failed
         && row.finishedAt == h.reconciled
         && row.rowsWritten.None?
         && row.snapshotId.None?
         && row.error == Some("server restarted before run completed")
       else
         && row.status == (if h.started.Some? then Running else Pending)
         && row.finishedAt.None?
         && row.rowsWritten.None?
         && row.snapshotId.None?
         && row.error.None?
  }

  // ---------------------------------------------------------------- the invariant

  predicate Untouched(h: History) {
    && h.started.None? && !h.checked && h.pulled == 0 && h.ending.None? && h.finished.None?
    && !h.heard && !h.written && !h.timedOut && h.reconciled.None?
  }

  predicate OutcomeIsTold(h: History, o: Outcome) {
    match o
    case Wrote(n, snapshot) => h.ending == Some(Landed(snapshot))
    case Errored(reason) => h.ending == Some(Broke(reason))
  }

  /** What a phase of the task tells. */
  predicate PhaseIsTold(h: History, p: Phase) {
    && h.reconciled.None?
    && (!p.Closing? ==> !h.written)
    && match p
       case Spawned => Untouched(h)
       case Marked => !h.checked && h.ending.None? && h.finished.None? && h.pulled == 0
       case Planning => h.checked && h.ending.None? && h.finished.None? && h.pulled == 0
       case Writing(left, got) => h.checked && h.ending.None? && h.finished.None? && h.pulled == |got|
       case Ended(got) => h.checked && h.ending.None? && h.finished.None?
       case Finished(o) => h.finished.None? && OutcomeIsTold(h, o)
       case Recording(u) => EndIsTold(h, u)
       case Closing => h.ending.Some?
  }

  ghost predicate Fits(w: World, r: RunId, h: History) {
    && (h.asked.Some? <==> r in w.ledger)
    && h.asked == Lookup(w.accepted, r)
    && (h.asked.None? ==> h == NOTHING)
    && (h.asked.Some? && h.timedOut ==> h.asked.value.timeoutMs.Some? && h.asked.value.timeoutMs.value > 0)
    && (Undecided(w, r) ==> (Flag(w, r) <==> h.cancelled))
    && (r in w.submits ==> Untouched(h))
    && (r in w.tasks ==> PhaseIsTold(h, w.tasks[r].phase))
    && (r in w.ledger ==> RowIsTold(h, r, w.ledger[r]))
  }

  // ---------------------------------------------------------------- its steps

  /** The outcome match writes down how the work ended. */
  lemma OutcomeMatchTells(r: RunId, t: Task, row: JobRun, commits: seq<Commit>, h: History, staged: bool, now: string)
    requires t.phase.Finished? && TaskOk(r, t, row, commits) && h.asked == Some(t.spec)
    requires PhaseIsTold(h, t.phase)
    ensures
      var f := Act(t, h.cancelled, staged, ReadOutcome(now));
      f.phase.Some? && PhaseIsTold(TaskTold(h, ReadOutcome(now)), f.phase.value)
  {
  }

  lemma PullTells(r: RunId, t: Task, row: JobRun, commits: seq<Commit>, h: History, staged: bool, e: TaskEvent)
    requires Ready(t, e) && TaskOk(r, t, row, commits) && h.asked == Some(t.spec)
    requires PhaseIsTold(h, t.phase)
    requires e.Plan? || e.Poll?
    ensures
      var f := Act(t, h.cancelled, staged, e);
      f.phase.Some? && PhaseIsTold(TaskTold(h, e), f.phase.value)
  {
  }

  lemma OtherStepsTell(r: RunId, t: Task, row: JobRun, commits: seq<Commit>, h: History,
                       cancelled: bool, staged: bool, e: TaskEvent)
    requires Ready(t, e) && TaskOk(r, t, row, commits) && h.asked == Some(t.spec)
    requires PhaseIsTold(h, t.phase)
    requires e.CheckCancel? ==> h.cancelled == cancelled
    requires !e.ReadOutcome? && !e.Plan? && !e.Poll?
    ensures
      var f := Act(t, cancelled, staged, e);
      f.phase.Some? ==> PhaseIsTold(TaskTold(h, e), f.phase.value)
  {
  }

  /** The row changes with the running and the terminal write only. */
  lemma WritesTell(t: Task, r: RunId, row: JobRun, h: History, cancelled: bool, staged: bool, e: TaskEvent)
    requires Ready(t, e) && h.asked == Some(t.spec) && PhaseIsTold(h, t.phase) && RowIsTold(h, r, row)
    ensures
      var f := Act(t, cancelled, staged, e);
      RowIsTold(TaskTold(h, e), r, if f.write.Some? then Apply(row, f.write.value) else row)
  {
    if !e.MarkRunning? && !e.Record? {
      assert Act(t, cancelled, staged, e).write.None?;
      SameRow(h, TaskTold(h, e), r, row);
    }
  }

  lemma SameRow(h: History, h': History, r: RunId, row: JobRun)
    requires RowIsTold(h, r, row) && (h.written ==> h' == h)
    requires h'.asked == h.asked && h'.created == h.created && h'.started == h.started
    requires h'.written == h.written && h'.reconciled == h.reconciled
    ensures RowIsTold(h', r, row)
  {
  }

  lemma RestIsKept(h: History, t: Task, e: TaskEvent)
    requires Ready(t, e) && h.asked == Some(t.spec)
    requires h.timedOut ==> t.spec.timeoutMs.Some? && t.spec.timeoutMs.value > 0
    ensures
      var h' := TaskTold(h, e);
      && h'.asked == h.asked
      && h'.cancelled == h.cancelled
      && (h'.timedOut ==> t.spec.timeoutMs.Some? && t.spec.timeoutMs.value > 0)
  {
    hide Text.Digits;
    match e
    case CheckCancel =>
    case Plan =>
    case Poll =>
    case _ =>
  }

  /** What one step of the task does to what is told. */
  lemma ActIsTold(r: RunId, t: Task, row: JobRun, commits: seq<Commit>, h: History,
                  cancelled: bool, staged: bool, e: TaskEvent)
    requires Ready(t, e) && TaskOk(r, t, row, commits) && h.asked == Some(t.spec)
    requires PhaseIsTold(h, t.phase) && RowIsTold(h, r, row)
    requires !t.phase.Recording? && !t.phase.Closing? ==> h.cancelled == cancelled
    requires h.timedOut ==> t.spec.timeoutMs.Some? && t.spec.timeoutMs.value > 0
    ensures
      var f := Act(t, cancelled, staged, e);
      var h' := TaskTold(h, e);
      && (f.phase.Some? ==> PhaseIsTold(h', f.phase.value))
      && RowIsTold(h', r, if f.write.Some? then Apply(row, f.write.value) else row)
      && h'.asked == h.asked
      && h'.cancelled == h.cancelled
      && (h'.timedOut ==> t.spec.timeoutMs.Some? && t.spec.timeoutMs.value > 0)
  {
    hide Act, PhaseIsTold, RowIsTold, TaskOk, Apply, TaskTold;
    RestIsKept(h, t, e);
    WritesTell(t, r, row, h, cancelled, staged, e);
    if e.ReadOutcome? {
      OutcomeMatchTells(r, t, row, commits, h, staged, e.now);
    } else if e.Plan? || e.Poll? {
      PullTells(r, t, row, commits, h, staged, e);
    } else {
      OtherStepsTell(r, t, row, commits, h, cancelled, staged, e);
    }
  }

  lemma FitsAfterTask(w: World, r: RunId, e: TaskEvent, h: History)
    requires RunOk(r, ViewOf(w, r)) && Enabled(w, OfTask(r, e)) && Fits(w, r, h)
    ensures Fits(TaskStep(w, r, e), r, Told(h, OfTask(r, e), r))
  {
    TaskAndRowAgree(w, r);
    assert ViewOf(w, r).spec == Lookup(w.accepted, r) && ViewOf(w, r).task == Lookup(w.tasks, r);
    hide RunOk, TaskOk, RowIsTold, PhaseIsTold, Apply;
    var t, f := w.tasks[r], EffectOf(w, r, e);
    ActIsTold(r, t, w.ledger[r], CommitsOf(w.log, r), h, Flag(w, r), r in w.staging, e);
    ActDecidesLater(t, Flag(w, r), r in w.staging, e);
    hide Act, TaskTold;
    TaskStepFields(w, r, f);
  }

  /** From the outcome match on, the flag no longer counts. */
  lemma ActDecidesLater(t: Task, cancelled: bool, staged: bool, e: TaskEvent)
    requires Ready(t, e)
    ensures
      var f := Act(t, cancelled, staged, e);
      t.phase.Recording? || t.phase.Closing? ==> f.phase.None? || f.phase.value.Closing?
  {
  }

  lemma FitsAfterSubmit(w: World, r: RunId, e: SubmitEvent, h: History)
    requires RunOk(r, ViewOf(w, r)) && Enabled(w, OfSubmit(r, e)) && Fits(w, r, h)
    ensures Fits(SubmitStep(w, r, e), r, Told(h, OfSubmit(r, e), r))
  {
    assert ViewOf(w, r).cell == Lookup(w.cells, r) && ViewOf(w, r).spec == Lookup(w.accepted, r);
    assert ViewOf(w, r).row == Lookup(w.ledger, r) && ViewOf(w, r).task == Lookup(w.tasks, r);
    assert ViewOf(w, r).submit == Lookup(w.submits, r);
  }

  lemma FitsAfterCancel(w: World, r: RunId, e: CancelEvent, h: History)
    requires RunOk(r, ViewOf(w, r)) && Enabled(w, OfCancel(r, e)) && Fits(w, r, h)
    ensures Fits(CancelStep(w, r, e), r, Told(h, OfCancel(r, e), r))
  {
    assert ViewOf(w, r).cell == Lookup(w.cells, r) && ViewOf(w, r).cancelling == (r in w.cancellers);
    assert ViewOf(w, r).row == Lookup(w.ledger, r);
  }

  lemma RestartTells(h: History, r: RunId, row: JobRun, now: string)
    requires RowIsTold(h, r, row) && RestIsTold(h, row)
    ensures RowIsTold(Told(h, Restart(now, true), r), r, ReconcileRow(row, now, RECONCILE_REASON))
  {
  }

  /** A terminal row is written or reconciled. */
  predicate RestIsTold(h: History, row: JobRun) {
    row.status.IsTerminal() <==> h.written || h.reconciled.Some?
  }

  lemma RowRests(h: History, r: RunId, row: JobRun)
    requires RowIsTold(h, r, row)
    ensures RestIsTold(h, row)
  {
  }

  lemma FitsAfterServer(w: World, r: RunId, e: Event, h: History)
    requires RunOk(r, ViewOf(w, r)) && Enabled(w, e) && (e.Crash? || e.Restart?)
    requires Fits(w, r, h) && (!w.up ==> Quiet(w))
    ensures Fits(Step(w, e), r, Told(h, e, r))
  {
    hide RunOk, RowIsTold, PhaseIsTold, ReconcileRow;
    if r in w.ledger {
      RowRests(h, r, w.ledger[r]);
      if e.Restart? && e.ok {
        RestartTells(h, r, w.ledger[r], e.now);
      }
    }
  }

  lemma SameViewFits(w: World, w': World, r: RunId, h: History)
    requires ViewOf(w', r) == ViewOf(w, r) && Fits(w, r, h)
    ensures Fits(w', r, h)
  {
    assert ViewOf(w', r).task == ViewOf(w, r).task;
    assert ViewOf(w', r).submit == ViewOf(w, r).submit;
    assert ViewOf(w', r).row == ViewOf(w, r).row;
    assert ViewOf(w', r).cell == ViewOf(w, r).cell;
    assert ViewOf(w', r).spec == ViewOf(w, r).spec;
  }

  lemma FitsAfter(w: World, e: Event, r: RunId, h: History)
    requires Inv(w) && Enabled(w, e) && Fits(w, r, h)
    ensures Fits(Step(w, e), r, Told(h, e, r))
  {
    hide Fits, TaskTold;
    assert RunOk(r, ViewOf(w, r));
    if e.Crash? || e.Restart? {
      FitsAfterServer(w, r, e, h);
    } else if e.run != r {
      OthersKept(w, e, r);
      SameViewFits(w, Step(w, e), r, h);
    } else {
      match e
      case OfSubmit(_, x) => FitsAfterSubmit(w, r, x, h);
      case OfTask(_, x) => FitsAfterTask(w, r, x, h);
      case OfCancel(_, x) => FitsAfterCancel(w, r, x, h);
    }
  }

  lemma {:induction false} FitsFold(es: seq<Event>, r: RunId)
    requires Exec(es).Some?
    ensures Fits(Exec(es).value, r, HistoryOf(es, r))
  {
    if es != [] {
      var before, e := es[..|es| - 1], es[|es| - 1];
      FitsFold(before, r);
      InvAlways(before);
      FitsAfter(Exec(before).value, e, r, HistoryOf(before, r));
    }
  }

  // ---------------------------------------------------------------- the ledger is told by the events

  /**
  Whatever happens, the ledger has a row for exactly the accepted runs, and every
  column says what the events do: what was asked for and when, when the running write
  went through, when the outcome was read, how many rows landed as which snapshot, or
  why not.  A row that a restart found open says that instead.
  */
  lemma LedgerIsToldByEvents(es: seq<Event>, r: RunId)
    requires Exec(es).Some?
    ensures
      var w, h := Exec(es).value, HistoryOf(es, r);
      && (r in w.ledger <==> h.asked.Some?)
      && (r in w.ledger ==>
            var row := w.ledger[r];
            && row.jobName == h.asked.value.jobName
            && row.parameters == h.asked.value.parameters
            && row.createdAt == h.created
            && row.startedAt == h.started
            && (h.written ==>
                  && row.finishedAt == h.finished && h.finished.Some?
                  && match h.ending
                     case Some(Landed(snapshot)) =>
                       && h.asked.value.query.Streams?
                       && row.status == (if h.heard then Cancelled else Succeeded)
                       && row.rowsWritten == Some(|Flatten(h.asked.value.query.batches)|)
                       && row.snapshotId == snapshot
                       && row.error == (if h.heard then Some("cancelled after commit") else None)
                     case Some(Broke(reason)) =>
                       && row.status == (if h.heard then Cancelled else Failed)
                       && row.rowsWritten.None? && row.snapshotId.None? && row.error == Some(reason)
                     case None => false)
            && (!h.written ==>
                  && row.finishedAt == h.reconciled && row.rowsWritten.None? && row.snapshotId.None?
                  && if h.reconciled.Some? then
                       row.status == Failed && row.error == Some("server restarted before run completed")
                     else
                       row.status == (if h.started.Some? then Running else Pending) && row.error.None?))
  {
    FitsFold(es, r);
  }

  /**
  The limit of a run can strike exactly from the first look at its flag on until its
  work has ended, and only if it is above zero.
  */
  lemma TimeoutStrikesExactly(es: seq<Event>, r: RunId)
    requires Exec(es).Some?
    ensures
      var w, h := Exec(es).value, HistoryOf(es, r);
      Enabled(w, OfTask(r, Timeout))
      <==> && r in w.tasks && h.checked && h.ending.None?
           && h.asked.Some? && h.asked.value.timeoutMs.Some? && h.asked.value.timeoutMs.value > 0
  {
    var w := Exec(es).value;
    FitsFold(es, r);
    InvAlways(es);
    if r in w.tasks {
      assert RunOk(r, ViewOf(w, r));
      assert ViewOf(w, r).spec == Lookup(w.accepted, r) && ViewOf(w, r).task == Lookup(w.tasks, r);
    }
  }

  /** Only a run with a limit above zero is ever timed out. */
  lemma TimeoutNeedsALimit(es: seq<Event>, r: RunId)
    requires Exec(es).Some? && OfTask(r, Timeout) in es
    ensures
      var h := HistoryOf(es, r);
      h.asked.Some? && h.asked.value.timeoutMs.Some? && h.asked.value.timeoutMs.value > 0
  {
    FitsFold(es, r);
    TimeoutIsTold(es, r);
  }

  lemma TimeoutStaysTold(h: History, e: Event, r: RunId)
    requires h.timedOut && h.asked.Some?
    ensures Told(h, e, r).timedOut && Told(h, e, r).asked.Some?
  {
  }

  lemma TimedOutRunWasAsked(w: World, r: RunId, h: History)
    requires Inv(w) && Enabled(w, OfTask(r, Timeout)) && Fits(w, r, h)
    ensures h.asked.Some?
  {
    assert RunOk(r, ViewOf(w, r));
    TaskAndRowAgree(w, r);
  }

  lemma {:induction false} TimeoutIsTold(es: seq<Event>, r: RunId)
    requires Exec(es).Some? && OfTask(r, Timeout) in es
    ensures HistoryOf(es, r).timedOut && HistoryOf(es, r).asked.Some?
  {
    hide Fits, Inv, Step, Enabled;
    var before, e := es[..|es| - 1], es[|es| - 1];
    assert es == before + [e];
    if OfTask(r, Timeout) in before {
      TimeoutIsTold(before, r);
      TimeoutStaysTold(HistoryOf(before, r), e, r);
    } else {
      FitsFold(before, r);
      InvAlways(before);
      TimedOutRunWasAsked(Exec(before).value, r, HistoryOf(before, r));
    }
  }
}
