/**
The executor as it sits in memory: shared maps, cancel flags on the heap, a
ledger object.  A flag is one cell that the map, the submitter or its task, and
any canceller may all hold.  Every method is one atomic step, and each is proved
to be the step of that name in JobProtocol, so what is proved there about all
runs holds of this code.
*/
module JobExecutor {
  import opened Options
  import opened Ledger
  import opened JobProtocol
  import Text

  class CancelFlag {
    var cancelled: bool

    constructor ()
      ensures !cancelled
    {
      cancelled := false;
    }

    method Cancel()
      modifies this
      ensures cancelled
    {
      cancelled := true;
    }
  }

  class JobServer {
    const store: SqliteJobStore
    var log: seq<Commit>
    var up: bool
    var submits: map<RunId, Submit>
    var cancelFlags: map<RunId, CancelFlag>
    var tasks: map<RunId, Task>
    /** The flag that a submitter, and then its task, keeps for itself. */
    var held: map<RunId, CancelFlag>
    var staging: set<RunId>
    /** Every flag this process has made, and who may still store to it. */
    ghost var cells: map<RunId, CancelFlag>
    ghost var cancellers: multiset<RunId>
    ghost var accepted: map<RunId, JobSpec>

    ghost function View(): World
      reads this, store, cells.Values
    {
      World(store.rows, log, up, submits, cancelFlags.Keys,
            map r | r in cells :: cells[r].cancelled,
            tasks, cancellers, staging, accepted)
    }

    ghost predicate Valid()
      reads this, store, cells.Values
    {
      Inv(View()) && FlagsAgree()
    }

    constructor ()
      ensures Valid() && View() == INIT && fresh(store)
    {
      store := new SqliteJobStore();
      log, up, submits, cancelFlags, tasks, held, staging := [], false, map[], map[], map[], map[], {};
      cells, cancellers, accepted := map[], multiset{}, map[];
      new;
      InvAlways([]);
      assert View() == INIT;
    }

    /** Opens the ledger and reconciles it before anybody can submit. */
    method Start(now: string, fault: bool)
      requires Valid() && !up
      modifies this, store
      ensures Valid() && View() == Step(old(View()), Restart(now, !fault))
    {
      StepKeepsInv(View(), Restart(now, !fault));
      ghost var after := Step(View(), Restart(now, !fault));
      var updated := store.ReconcileOrphaned(now, RECONCILE_REASON, fault);
      if updated.Some? {
        up := true;
      }
      assert View() == after;
    }

    /** The process dies: only the ledger and the destinations are left. */
    method Die()
      requires Valid() && up
      modifies this
      ensures Valid() && View() == Step(old(View()), Event.Crash)
    {
      StepKeepsInv(View(), Event.Crash);
      ghost var after := Step(View(), Event.Crash);
      up, submits, cancelFlags, tasks, held, staging := false, map[], map[], map[], map[], {};
      cells, cancellers := map[], multiset{};
      assert View() == after;
    }

    // -------------------------------------------------------------- submit

    method SubmitCreateRow(r: RunId, spec: JobSpec, now: string, fault: bool) returns (ok: bool)
      requires Valid() && up
      modifies this, store
      ensures ok <==> !fault && r !in old(store.rows)
      ensures Valid() && View() == Step(old(View()), OfSubmit(r, CreateRow(spec, now, !fault)))
    {
      StepKeepsInv(View(), OfSubmit(r, CreateRow(spec, now, !fault)));
      ghost var after := Step(View(), OfSubmit(r, CreateRow(spec, now, !fault)));
      ok := Accept(r, spec, now, fault);
      assert View() == after;
    }

    method Accept(r: RunId, spec: JobSpec, now: string, fault: bool) returns (ok: bool)
      modifies `submits, `accepted, store
      ensures ok <==> !fault && r !in old(store.rows)
      ensures !ok ==> View() == old(View())
      ensures ok ==> View() == old(View()).(ledger := old(store.rows)[r := PendingRow(r, spec, now)],
                                            submits := old(submits)[r := RowCreated(spec)],
                                            accepted := old(accepted)[r := spec])
    {
      ok := store.CreateRun(PendingRow(r, spec, now), fault);
      if ok {
        submits := submits[r := RowCreated(spec)];
        accepted := accepted[r := spec];
      }
    }

    ghost predicate Distinct()
      reads this
    {
      forall r, s :: r in cells && s in cells && r != s ==> cells[r] != cells[s]
    }

    method NewFlag(r: RunId) returns (flag: CancelFlag)
      requires Distinct() && r !in cells
      modifies `cells
      ensures fresh(flag) && Distinct() && cells == old(cells)[r := flag]
      ensures View() == old(View()).(cells := old(View()).cells[r := false])
    {
      flag := new CancelFlag();
      cells := cells[r := flag];
    }

    method Publish(r: RunId, flag: CancelFlag)
      requires r in submits
      modifies `submits, `cancelFlags, `held
      ensures submits == old(submits)[r := FlagInserted(old(submits)[r].spec)]
      ensures cancelFlags == old(cancelFlags)[r := flag] && held == old(held)[r := flag]
      ensures cancelFlags.Keys == old(cancelFlags).Keys + {r}
    {
      submits := submits[r := FlagInserted(submits[r].spec)];
      cancelFlags := cancelFlags[r := flag];
      held := held[r := flag];
    }

    method SubmitInsertFlag(r: RunId)
      requires Valid() && Enabled(View(), OfSubmit(r, InsertFlag))
      modifies this
      ensures Valid() && View() == Step(old(View()), OfSubmit(r, InsertFlag))
    {
      StepKeepsInv(View(), OfSubmit(r, InsertFlag));
      InsertedFlagIsNew(View(), r);
      ghost var after := Step(View(), OfSubmit(r, InsertFlag));
      ShareFlag(r);
      assert View() == after;
    }

    /** The map and the tasks hold the flags of this process, and each its own. */
    ghost predicate FlagsAgree()
      reads this
    {
      && (forall s :: s in cancelFlags ==> s in cells && cancelFlags[s] == cells[s])
      && held.Keys == cancelFlags.Keys
      && (forall s :: s in held ==> held[s] == cells[s])
      && Distinct()
    }

    /** A new flag, shared by the map and the submitter. */
    method ShareFlag(r: RunId)
      requires FlagsAgree() && r in submits && r !in cells
      modifies `submits, `cancelFlags, `held, `cells
      ensures FlagsAgree()
      ensures View() == old(View()).(submits := old(submits)[r := FlagInserted(old(submits)[r].spec)],
                                     flags := old(View()).flags + {r},
                                     cells := old(View()).cells[r := false])
    {
      var flag := NewFlag(r);
      Publish(r, flag);
    }

    method SubmitSpawn(r: RunId)
      requires Valid() && Enabled(View(), OfSubmit(r, Spawn))
      modifies this
      ensures Valid() && View() == Step(old(View()), OfSubmit(r, Spawn))
    {
      StepKeepsInv(View(), OfSubmit(r, Spawn));
      ghost var after := Step(View(), OfSubmit(r, Spawn));
      tasks := tasks[r := Task(submits[r].spec, Spawned)];
      submits := submits - {r};
      assert View() == after;
    }

    // -------------------------------------------------------------- cancel

    /** Clones the flag under the map's lock; None means that `cancel` answers false. */
    method CancelFind(r: RunId) returns (flag: CancelFlag?)
      requires Valid() && up
      modifies this
      ensures flag != null <==> r in old(cancelFlags)
      ensures flag != null ==> r in cells && flag == cells[r] && r in cancellers
      ensures Valid() && View() == Step(old(View()), OfCancel(r, Find))
    {
      StepKeepsInv(View(), OfCancel(r, Find));
      ghost var after := Step(View(), OfCancel(r, Find));
      if r in cancelFlags {
        flag := cancelFlags[r];
        cancellers := cancellers + multiset{r};
      } else {
        flag := null;
      }
      assert View() == after;
    }

    method CancelStore(r: RunId, flag: CancelFlag)
      requires Valid() && r in cancellers && r in cells && flag == cells[r]
      modifies this, flag
      ensures Valid() && View() == Step(old(View()), OfCancel(r, Store))
    {
      StepKeepsInv(View(), OfCancel(r, Store));
      ghost var after := Step(View(), OfCancel(r, Store));
      ghost var before := View();
      flag.Cancel();
      cancellers := cancellers - multiset{r};
      assert View().cells == before.cells[r := true];
      assert View() == after;
    }

    // -------------------------------------------------------------- the task

    /** The flag as the task reads it. */
    method IsCancelled(r: RunId) returns (b: bool)
      requires Valid() && r in tasks
      ensures b == Flag(View(), r)
    {
      TaskHoldsItsFlag(View(), r);
      b := held[r].cancelled;
    }

    /** Takes the task to its next phase, and registers or drops its staging table. */
    method Move(r: RunId, p: Phase, staged: bool)
      requires r in tasks
      modifies `tasks, `staging
      ensures View() == Put(old(View()), r, MoveTo(p, staged))
      ensures tasks == old(tasks)[r := old(tasks)[r].(phase := p)]
      ensures staging == if staged then old(staging) + {r} else old(staging) - {r}
    {
      tasks := tasks[r := tasks[r].(phase := p)];
      staging := if staged then staging + {r} else staging - {r};
    }

    method TaskMarkRunning(r: RunId, now: string, fault: bool)
      requires Valid() && Enabled(View(), OfTask(r, MarkRunning(now, !fault)))
      modifies this, store
      ensures Valid() && View() == Step(old(View()), OfTask(r, MarkRunning(now, !fault)))
    {
      StepKeepsInv(View(), OfTask(r, MarkRunning(now, !fault)));
      ghost var after := Step(View(), OfTask(r, MarkRunning(now, !fault)));
      var ok := store.UpdateStatus(r, RunningUpdate(now), fault);
      Move(r, Marked, r in staging);
      assert View() == after;
    }

    method TaskCheckCancel(r: RunId)
      requires Valid() && Enabled(View(), OfTask(r, CheckCancel))
      modifies this
      ensures Valid() && View() == Step(old(View()), OfTask(r, CheckCancel))
    {
      StepKeepsInv(View(), OfTask(r, CheckCancel));
      ghost var after := Step(View(), OfTask(r, CheckCancel));
      var cancelled := IsCancelled(r);
      if cancelled {
        Move(r, Finished(Errored("cancelled before execution")), r in staging);
      } else {
        Move(r, Planning, r in staging);
      }
      assert View() == after;
    }

    method TaskPlan(r: RunId)
      requires Valid() && Enabled(View(), OfTask(r, Plan))
      modifies this
      ensures Valid() && View() == Step(old(View()), OfTask(r, Plan))
    {
      StepKeepsInv(View(), OfTask(r, Plan));
      ghost var after := Step(View(), OfTask(r, Plan));
      var task := tasks[r];
      match task.spec.query {
        case PlanFails(reason) =>
          Move(r, Finished(Errored(reason)), r in staging);
        case Streams(batches, _) =>
          Move(r, Writing(batches, []), r in staging || task.spec.kind.Db?);
      }
      assert View() == after;
    }

    method TaskPoll(r: RunId)
      requires Valid() && Enabled(View(), OfTask(r, Poll))
      modifies this
      ensures Valid() && View() == Step(old(View()), OfTask(r, Poll))
    {
      StepKeepsInv(View(), OfTask(r, Poll));
      TaskHoldsItsFlag(View(), r);
      ghost var after := Step(View(), OfTask(r, Poll));
      var cancelled := IsCancelled(r);
      Pull(r, cancelled);
      assert View() == after;
    }

    /** The flag comes first; then the query's own stream gives a batch, an error, or the end. */
    method Pull(r: RunId, cancelled: bool)
      requires r in tasks && tasks[r].phase.Writing? && tasks[r].spec.query.Streams?
      modifies `tasks, `staging
      ensures View() == Put(old(View()), r, Polled(old(tasks)[r], cancelled))
    {
      var task := tasks[r];
      var left, got := task.phase.left, task.phase.got;
      if cancelled {
        Move(r, Finished(Errored("job cancelled before commit")), false);
      } else if left != [] {
        Move(r, Writing(left[1..], got + [left[0]]), task.spec.kind.Db?);
      } else if task.spec.query.failure.Some? {
        Move(r, Finished(Errored(task.spec.query.failure.value)), false);
      } else {
        Move(r, Ended(got), task.spec.kind.Db?);
      }
    }

    method TaskSinkFail(r: RunId, reason: string)
      requires Valid() && Enabled(View(), OfTask(r, SinkFail(reason)))
      modifies this
      ensures Valid() && View() == Step(old(View()), OfTask(r, SinkFail(reason)))
    {
      StepKeepsInv(View(), OfTask(r, SinkFail(reason)));
      ghost var after := Step(View(), OfTask(r, SinkFail(reason)));
      Move(r, Finished(Errored(reason)), false);
      assert View() == after;
    }

    method TaskCommit(r: RunId, snapshot: Option<string>)
      requires Valid() && Enabled(View(), OfTask(r, CommitRows(snapshot)))
      modifies this
      ensures Valid() && View() == Step(old(View()), OfTask(r, CommitRows(snapshot)))
    {
      StepKeepsInv(View(), OfTask(r, CommitRows(snapshot)));
      ghost var after := Step(View(), OfTask(r, CommitRows(snapshot)));
      var task := tasks[r];
      var rows := Flatten(task.phase.got);
      log := log + [Commit(r, task.spec.table, rows)];
      Move(r, Finished(Wrote(|rows|, snapshot)), false);
      assert View() == after;
    }

    method TaskTimeout(r: RunId)
      requires Valid() && Enabled(View(), OfTask(r, Timeout))
      modifies this
      ensures Valid() && View() == Step(old(View()), OfTask(r, Timeout))
    {
      StepKeepsInv(View(), OfTask(r, Timeout));
      ghost var after := Step(View(), OfTask(r, Timeout));
      var ms := tasks[r].spec.timeoutMs.value;
      Move(r, Finished(Errored("job timed out after " + Text.Digits(ms) + "ms before commit")), r in staging);
      assert View() == after;
    }

    method TaskReadOutcome(r: RunId, now: string)
      requires Valid() && Enabled(View(), OfTask(r, ReadOutcome(now)))
      modifies this
      ensures Valid() && View() == Step(old(View()), OfTask(r, ReadOutcome(now)))
    {
      StepKeepsInv(View(), OfTask(r, ReadOutcome(now)));
      ghost var after := Step(View(), OfTask(r, ReadOutcome(now)));
      var cancelled := IsCancelled(r);
      var update;
      match tasks[r].phase.outcome {
        case Wrote(n, snapshot) =>
          if cancelled {
            update := StatusUpdate(Cancelled, None, Some(now), Some(n), snapshot, Some("cancelled after commit"));
          } else {
            update := StatusUpdate(Succeeded, None, Some(now), Some(n), snapshot, None);
          }
        case Errored(reason) =>
          var status := if cancelled then Cancelled else Failed;
          update := StatusUpdate(status, None, Some(now), None, None, Some(reason));
      }
      Move(r, Recording(update), r in staging);
      assert View() == after;
    }

    method TaskRecord(r: RunId, fault: bool)
      requires Valid() && Enabled(View(), OfTask(r, Record(!fault)))
      modifies this, store
      ensures Valid() && View() == Step(old(View()), OfTask(r, Record(!fault)))
    {
      StepKeepsInv(View(), OfTask(r, Record(!fault)));
      ghost var after := Step(View(), OfTask(r, Record(!fault)));
      var ok := store.UpdateStatus(r, tasks[r].phase.update, fault);
      Move(r, Closing, r in staging);
      assert View() == after;
    }

    method TaskDropFlag(r: RunId)
      requires Valid() && Enabled(View(), OfTask(r, DropFlag))
      modifies this
      ensures Valid() && View() == Step(old(View()), OfTask(r, DropFlag))
    {
      StepKeepsInv(View(), OfTask(r, DropFlag));
      ghost var after := Step(View(), OfTask(r, DropFlag));
      Forget(r);
      assert View() == after;
    }

    method Forget(r: RunId)
      requires FlagsAgree()
      modifies `cancelFlags, `held, `tasks
      ensures FlagsAgree()
      ensures View() == old(View()).(flags := old(View()).flags - {r}, tasks := old(tasks) - {r})
    {
      cancelFlags := cancelFlags - {r};
      held := held - {r};
      tasks := tasks - {r};
      assert cancelFlags.Keys == old(cancelFlags).Keys - {r};
    }

    // -------------------------------------------------------------- a run nobody disturbs

    /** Why a run left alone lands nothing, if it does not. */
    ghost function WhyNot(spec: JobSpec, cancelled: bool): Option<string> {
      if cancelled then Some("cancelled before execution")
      else if spec.query.PlanFails? then Some(spec.query.reason)
      else spec.query.failure
    }

    /** The row of a run left alone after its terminal write. */
    ghost function FinalRow(row: JobRun, spec: JobSpec, cancelled: bool, finished: string,
                            snapshot: Option<string>): JobRun {
      match WhyNot(spec, cancelled)
      case Some(why) =>
        row.(status := if cancelled then Cancelled else Failed, finishedAt := Some(finished), error := Some(why))
      case None =>
        row.(status := Succeeded, finishedAt := Some(finished),
             rowsWritten := Some(|Flatten(spec.query.batches)|),
             snapshotId := if snapshot.Some? then snapshot else row.snapshotId)
    }

    /** The row of a run that was marked running, if that write went through. */
    ghost function StartedRow(row: JobRun, started: string, fault: bool): JobRun {
      if fault then row else row.(status := Running, startedAt := Some(started))
    }

    /** What a run left alone adds to its destination. */
    ghost function FinalCommits(r: RunId, spec: JobSpec, cancelled: bool): seq<Commit> {
      if cancelled || spec.query.PlanFails? || spec.query.failure.Some? then []
      else [Commit(r, spec.table, Flatten(spec.query.batches))]
    }

    /** The sink is at the end of the stream, or the write is over with an error. */
    ghost predicate Drained(r: RunId, spec: JobSpec, cancelled: bool)
      reads this, store, cells.Values
    {
      && r in tasks && tasks[r].spec == spec
      && Flag(View(), r) == cancelled
      && (tasks[r].phase.Ended? || (tasks[r].phase.Finished? && tasks[r].phase.outcome.Errored?))
      && (tasks[r].phase.Ended? ==> !cancelled)
      && (tasks[r].phase.Finished? ==> WhyNot(spec, cancelled) == Some(tasks[r].phase.outcome.reason))
    }

    /**
    Runs the task from its spawn to the removal of its flag, in the order of the
    code; either ledger write may fail.
    */
    method RunJobTask(r: RunId, started: string, finished: string, snapshot: Option<string>,
                      markFault: bool, recordFault: bool)
      requires Valid() && r in tasks && tasks[r].phase.Spawned?
      requires snapshot.None? <==> tasks[r].spec.kind.Db?
      modifies this, store
      ensures Valid()
      ensures r !in tasks && r !in cancelFlags && r in store.rows
      ensures
        var spec, cancelled := old(tasks)[r].spec, old(Flag(View(), r));
        && log == old(log) + FinalCommits(r, spec, cancelled)
        && r in old(store.rows)
        && (var row := StartedRow(old(store.rows)[r], started, markFault);
            store.rows[r] == if recordFault then row else FinalRow(row, spec, cancelled, finished, snapshot))
    {
      TaskHasRow(View(), r);
      Begin(r, started, markFault);
      Drain(r);
      Decide(r, finished, snapshot);
      Close(r, recordFault);
    }

    /** The task is in its destination's write, or past it. */
    ghost predicate Begun(r: RunId, spec: JobSpec, cancelled: bool)
      reads this, store, cells.Values
    {
      || (r in tasks && tasks[r].spec == spec && tasks[r].phase.Writing? && !cancelled && Flag(View(), r) == cancelled)
      || Drained(r, spec, cancelled)
    }

    method Begin(r: RunId, started: string, fault: bool)
      requires Valid() && r in tasks && tasks[r].phase.Spawned?
      modifies this, store
      ensures Valid() && log == old(log)
      ensures Begun(r, old(tasks)[r].spec, old(Flag(View(), r)))
      ensures r in store.rows && r in old(store.rows)
      ensures store.rows[r] == StartedRow(old(store.rows)[r], started, fault)
    {
      TaskHasRow(View(), r);
      TaskMarkRunning(r, started, fault);
      CheckAndPlan(r);
    }

    method CheckAndPlan(r: RunId)
      requires Valid() && r in tasks && tasks[r].phase.Marked?
      modifies this
      ensures Valid() && log == old(log) && View().ledger == old(View().ledger)
      ensures Begun(r, old(tasks)[r].spec, old(Flag(View(), r)))
    {
      TaskCheckCancel(r);
      if tasks[r].phase.Planning? {
        TaskPlan(r);
      }
    }

    method Drain(r: RunId)
      requires Valid() && r in tasks && Begun(r, tasks[r].spec, Flag(View(), r))
      modifies this
      ensures Valid() && log == old(log) && View().ledger == old(View().ledger)
      ensures Drained(r, old(tasks)[r].spec, old(Flag(View(), r)))
    {
      while tasks[r].phase.Writing?
        invariant Valid() && log == old(log) && View().ledger == old(View().ledger)
        invariant Begun(r, old(tasks)[r].spec, old(Flag(View(), r)))
        decreases if tasks[r].phase.Writing? then 1 + |tasks[r].phase.left| else 0
      {
        DrainOne(r, old(tasks)[r].spec);
      }
    }

    method DrainOne(r: RunId, ghost spec: JobSpec)
      requires Valid() && r in tasks && tasks[r].spec == spec && tasks[r].phase.Writing? && !Flag(View(), r)
      modifies this
      ensures Valid() && log == old(log) && View().ledger == old(View().ledger)
      ensures Begun(r, spec, false)
      ensures tasks[r].phase.Writing? ==> |tasks[r].phase.left| < |old(tasks)[r].phase.left|
    {
      TaskPoll(r);
    }

    method Decide(r: RunId, finished: string, snapshot: Option<string>)
      requires Valid() && r in tasks
      requires snapshot.None? <==> tasks[r].spec.kind.Db?
      requires Drained(r, tasks[r].spec, Flag(View(), r))
      modifies this
      ensures Valid() && r in tasks && tasks[r].phase.Recording? && View().ledger == old(View().ledger)
      ensures
        var spec, cancelled, u := old(tasks)[r].spec, old(Flag(View(), r)), tasks[r].phase.update;
        forall row :: Apply(row, u) == FinalRow(row, spec, cancelled, finished, snapshot)
      ensures log == old(log) + FinalCommits(r, old(tasks)[r].spec, old(Flag(View(), r)))
    {
      if tasks[r].phase.Ended? {
        EndedHoldsWholeQuery(View(), r);
        TaskCommit(r, snapshot);
      }
      TaskReadOutcome(r, finished);
    }

    method Close(r: RunId, fault: bool)
      requires Valid() && r in tasks && tasks[r].phase.Recording?
      modifies this, store
      ensures Valid() && r !in tasks && r !in cancelFlags && r in store.rows && log == old(log)
      ensures r in old(store.rows)
      ensures store.rows[r] == if fault then old(store.rows)[r]
                               else Apply(old(store.rows)[r], old(tasks)[r].phase.update)
    {
      TaskHasRow(View(), r);
      TaskRecord(r, fault);
      TaskDropFlag(r);
    }
  }
}
