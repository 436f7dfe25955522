/**
Progress of the tasks, leaked staging tables, and two runs that show how far the
guarantees of JobSafety go.
*/
module JobProgress {
  import opened Options
  import opened Ledger
  import opened JobProtocol
  import opened JobSafety

  // ---------------------------------------------------------------- termination

  /** An upper bound on the steps a task in this phase still takes. */
  function PhaseMeasure(spec: JobSpec, p: Phase): nat {
    match p
    case Spawned => 8 + StreamLength(spec)
    case Marked => 7 + StreamLength(spec)
    case Planning => 6 + StreamLength(spec)
    case Writing(left, _) => 5 + |left|
    case Ended(_) => 4
    case Finished(_) => 3
    case Recording(_) => 2
    case Closing => 1
  }

  function StreamLength(spec: JobSpec): nat {
    if spec.query.Streams? then |spec.query.batches| else 0
  }

  function Measure(w: World, r: RunId): nat {
    if r in w.tasks then PhaseMeasure(w.tasks[r].spec, w.tasks[r].phase) else 0
  }

  function StepsOf(es: seq<Event>, r: RunId): nat {
    if es == [] then 0
    else
      var e := es[|es| - 1];
      StepsOf(es[..|es| - 1], r) + (if e.OfTask? && e.run == r then 1 else 0)
  }

  /** A step that a task in this phase can always take. */
  function NextOwn(t: Task): (e: TaskEvent)
    ensures Ready(t, e)
  {
    match t.phase
    case Spawned => MarkRunning("", true)
    case Marked => CheckCancel
    case Planning => Plan
    case Writing(_, _) => Poll
    case Ended(_) => SinkFail("")
    case Finished(_) => ReadOutcome("")
    case Recording(_) => Record(true)
    case Closing => DropFlag
  }

  lemma ActAdvances(t: Task, cancelled: bool, staged: bool, e: TaskEvent)
    requires Ready(t, e)
    ensures
      var f := Act(t, cancelled, staged, e);
      f.phase.Some? ==> PhaseMeasure(t.spec, f.phase.value) < PhaseMeasure(t.spec, t.phase)
  {
  }

  /** The run was spawned: it is never submitted again and its task never comes back. */
  predicate Started(w: World, r: RunId) {
    r in w.ledger && r !in w.submits
  }

  lemma StepAdvances(w: World, e: Event, r: RunId)
    requires Inv(w) && w.up && Started(w, r) && Enabled(w, e) && !e.Crash?
    ensures Step(w, e).up && Started(Step(w, e), r)
    ensures Measure(Step(w, e), r) + (if e.OfTask? && e.run == r then 1 else 0) <= Measure(w, r)
  {
    assert RunOk(r, ViewOf(w, r));
    if e.run != r {
      OthersKept(w, e, r);
      assert ViewOf(Step(w, e), r).task == ViewOf(w, r).task;
      assert ViewOf(Step(w, e), r).submit == ViewOf(w, r).submit;
      assert ViewOf(Step(w, e), r).row == ViewOf(w, r).row;
    } else if e.OfTask? {
      ActAdvances(w.tasks[r], Flag(w, r), r in w.staging, e.task);
    }
  }

  lemma {:induction false} StepsAreBounded(w: World, es: seq<Event>, r: RunId)
    requires Inv(w) && w.up && Started(w, r) && NoCrash(es) && ExecFrom(w, es).Some?
    ensures
      var w' := ExecFrom(w, es).value;
      && w'.up && Started(w', r)
      && StepsOf(es, r) + Measure(w', r) <= Measure(w, r)
  {
    if es != [] {
      var before := es[..|es| - 1];
      StepsAreBounded(w, before, r);
      InvFrom(w, before);
      StepAdvances(ExecFrom(w, before).value, es[|es| - 1], r);
    }
  }

  predicate RecordFailed(es: seq<Event>, r: RunId) {
    OfTask(r, Record(false)) in es
  }

  ghost predicate OnItsWay(w: World, r: RunId, failed: bool) {
    r in w.ledger && (InProgress(w, r) || w.ledger[r].status.IsTerminal() || failed)
  }

  lemma OnItsWayStep(w: World, e: Event, r: RunId, failed: bool)
    requires Inv(w) && w.up && Enabled(w, e) && !e.Crash? && OnItsWay(w, r, failed)
    ensures OnItsWay(Step(w, e), r, failed || e == OfTask(r, Record(false)))
  {
    StepMovesRowForward(w, e, r);
    assert RunOk(r, ViewOf(w, r));
    if e.run != r {
      OthersKept(w, e, r);
      assert ViewOf(Step(w, e), r).task == ViewOf(w, r).task;
      assert ViewOf(Step(w, e), r).submit == ViewOf(w, r).submit;
    } else if e.OfTask? {
      ActCloses(r, w.tasks[r], w.ledger[r], CommitsOf(w.log, r), Flag(w, r), r in w.staging, e.task);
      PutView(w, r, EffectOf(w, r, e.task));
    }
  }

  lemma {:induction false} OnItsWayFold(w: World, es: seq<Event>, r: RunId)
    requires Inv(w) && w.up && r in w.tasks && NoCrash(es) && ExecFrom(w, es).Some?
    requires InProgress(w, r)
    ensures OnItsWay(ExecFrom(w, es).value, r, RecordFailed(es, r))
  {
    assert RunOk(r, ViewOf(w, r));
    if es != [] {
      var before := es[..|es| - 1];
      OnItsWayFold(w, before, r);
      InvFrom(w, before);
      StepsAreBounded(w, before, r);
      OnItsWayStep(ExecFrom(w, before).value, es[|es| - 1], r, RecordFailed(before, r));
      assert es == before + [es[|es| - 1]];
    }
  }

  /**
  However the other parties interleave with it, a live task takes a bounded number
  of steps and always has one it can take.  Whichever way it ends, early or late,
  its flag is gone and its row is terminal, unless the terminal write failed.
  */
  lemma EveryTaskEnds(w: World, es: seq<Event>, r: RunId)
    requires Inv(w) && w.up && r in w.tasks && InProgress(w, r)
    requires NoCrash(es) && ExecFrom(w, es).Some?
    ensures
      var w' := ExecFrom(w, es).value;
      && StepsOf(es, r) <= Measure(w, r)
      && (r in w'.tasks ==> Enabled(w', OfTask(r, NextOwn(w'.tasks[r]))))
      && (StepsOf(es, r) == Measure(w, r) ==> r !in w'.tasks)
      && (r !in w'.tasks ==>
            && r !in w'.flags
            && r in w'.ledger
            && (w'.ledger[r].status.IsTerminal() || RecordFailed(es, r)))
  {
    assert RunOk(r, ViewOf(w, r));
    StepsAreBounded(w, es, r);
    OnItsWayFold(w, es, r);
    InvFrom(w, es);
    assert RunOk(r, ViewOf(ExecFrom(w, es).value, r));
  }

  // ---------------------------------------------------------------- staging tables

  /** A timeout dropped the run's write to a database, and the process still lives. */
  predicate Leaked(es: seq<Event>, r: RunId) {
    if es == [] then false
    else
      var before, e := es[..|es| - 1], es[|es| - 1];
      if e.Crash? then false
      else if e == OfTask(r, Timeout) && Exec(before).Some? then
        var w := Exec(before).value;
        Leaked(before, r) || (r in w.tasks && w.tasks[r].spec.kind.Db? && InWrite(w.tasks[r].phase))
      else Leaked(before, r)
  }

  predicate WritesToDb(w: World, r: RunId) {
    r in w.tasks && w.tasks[r].spec.kind.Db? && InWrite(w.tasks[r].phase)
  }

  ghost predicate StagingKnown(w: World, r: RunId, leaked: bool) {
    && (r in w.staging <==> WritesToDb(w, r) || leaked)
    && (leaked && r in w.tasks ==>
          w.tasks[r].phase.Finished? || w.tasks[r].phase.Recording? || w.tasks[r].phase.Closing?)
  }

  /** Only a timeout leaves a staging table behind its write. */
  lemma ActLeaksOnTimeout(t: Task, cancelled: bool, leaked: bool, e: TaskEvent)
    requires Ready(t, e)
    requires leaked ==> t.phase.Finished? || t.phase.Recording? || t.phase.Closing?
    ensures
      var writes := t.spec.kind.Db? && InWrite(t.phase);
      var f := Act(t, cancelled, writes || leaked, e);
      var leaked' := leaked || (e.Timeout? && writes);
      && (f.staged <==> (f.phase.Some? && t.spec.kind.Db? && InWrite(f.phase.value)) || leaked')
      && (leaked' && f.phase.Some? ==>
            f.phase.value.Finished? || f.phase.value.Recording? || f.phase.value.Closing?)
  {
  }

  lemma StagingTask(w: World, r: RunId, e: TaskEvent, leaked: bool)
    requires Enabled(w, OfTask(r, e)) && StagingKnown(w, r, leaked)
    ensures StagingKnown(TaskStep(w, r, e), r, leaked || (e.Timeout? && WritesToDb(w, r)))
  {
    ActLeaksOnTimeout(w.tasks[r], Flag(w, r), leaked, e);
  }

  lemma SameViewStaging(w: World, w': World, r: RunId, leaked: bool)
    requires ViewOf(w', r) == ViewOf(w, r) && StagingKnown(w, r, leaked)
    ensures StagingKnown(w', r, leaked)
  {
    assert ViewOf(w', r).task == ViewOf(w, r).task;
    assert ViewOf(w', r).staged == ViewOf(w, r).staged;
  }

  lemma StagingStep(w: World, e: Event, r: RunId, leaked: bool)
    requires Inv(w) && Enabled(w, e) && StagingKnown(w, r, leaked)
    ensures StagingKnown(Step(w, e), r,
                         if e.Crash? then false
                         else leaked || (e == OfTask(r, Timeout) && WritesToDb(w, r)))
  {
    assert RunOk(r, ViewOf(w, r));
    if e.Crash? || e.Restart? {
    } else if e.run != r {
      OthersKept(w, e, r);
      SameViewStaging(w, Step(w, e), r, leaked);
    } else if e.OfTask? {
      StagingTask(w, r, e.task, leaked);
    }
  }

  lemma {:induction false} StagingFold(es: seq<Event>, r: RunId)
    requires Exec(es).Some?
    ensures StagingKnown(Exec(es).value, r, Leaked(es, r))
  {
    if es != [] {
      var before := es[..|es| - 1];
      StagingFold(before, r);
      InvAlways(before);
      StagingStep(Exec(before).value, es[|es| - 1], r, Leaked(before, r));
    }
  }

  /**
  A staging table is registered exactly while its run writes to a database, or
  for the rest of the process after a timeout has dropped such a write.
  */
  lemma StagingTablesAreExact(es: seq<Event>, r: RunId)
    requires Exec(es).Some?
    ensures
      var w := Exec(es).value;
      r in w.staging <==> WritesToDb(w, r) || Leaked(es, r)
  {
    StagingFold(es, r);
  }

  // ---------------------------------------------------------------- limits of the guarantees

  function SmallJob(): JobSpec {
    JobSpec("ingest", "{}", "dest", Db, Some(5), Streams([["1", "2"], ["3"]], None))
  }

  /** Start the server and bring one run to its destination's write. */
  lemma RunToWrite() returns (es: seq<Event>, w: World)
    ensures Exec(es) == Some(w)
    ensures w.up && w.flags == {"r"} && w.cells == map["r" := false] && w.cancellers == multiset{}
    ensures w.tasks == map["r" := Task(SmallJob(), Writing([["1", "2"], ["3"]], []))]
    ensures w.ledger.Keys == {"r"} && w.ledger["r"].status.Running? && w.ledger["r"].rowsWritten.None?
    ensures w.submits == map[] && w.log == [] && w.staging == {"r"}
  {
    es, w := [], INIT;
    es, w := Next(es, w, Restart("t0", true));
    es, w := Next(es, w, OfSubmit("r", CreateRow(SmallJob(), "t1", true)));
    es, w := Next(es, w, OfSubmit("r", InsertFlag));
    es, w := Next(es, w, OfSubmit("r", Spawn));
    assert w.tasks == map["r" := Task(SmallJob(), Spawned)];
    es, w := Next(es, w, OfTask("r", MarkRunning("t2", true)));
    es, w := Next(es, w, OfTask("r", CheckCancel));
    es, w := Next(es, w, OfTask("r", Plan));
  }

  /** ... to the end of the stream. */
  lemma RunToEnd() returns (es: seq<Event>, w: World)
    ensures Exec(es) == Some(w)
    ensures w.up && w.flags == {"r"} && w.cells == map["r" := false] && w.cancellers == multiset{}
    ensures w.tasks == map["r" := Task(SmallJob(), Ended([["1", "2"], ["3"]]))]
    ensures w.ledger.Keys == {"r"} && w.ledger["r"].status.Running? && w.ledger["r"].rowsWritten.None?
    ensures w.submits == map[] && w.log == []
  {
    es, w := RunToWrite();
    es, w := Next(es, w, OfTask("r", Poll));
    es, w := Next(es, w, OfTask("r", Poll));
    assert w.tasks["r"].phase == Writing([], [["1", "2"], ["3"]]);
    es, w := Next(es, w, OfTask("r", Poll));
  }

  /** ... and on to the point where its rows have landed. */
  lemma RunToCommit() returns (es: seq<Event>, w: World)
    ensures Exec(es) == Some(w)
    ensures w.up && w.flags == {"r"} && w.cells == map["r" := false] && w.cancellers == multiset{}
    ensures w.tasks == map["r" := Task(SmallJob(), Finished(Wrote(3, None)))]
    ensures w.ledger.Keys == {"r"} && w.ledger["r"].status.Running? && w.ledger["r"].rowsWritten.None?
    ensures w.submits == map[]
    ensures w.log == [Commit("r", "dest", ["1", "2", "3"])]
  {
    es, w := RunToEnd();
    assert Flatten([["1", "2"], ["3"]]) == ["1", "2", "3"] by {
      assert [["1", "2"], ["3"]][1..] == [["3"]];
      assert [["3"]][1..] == [];
    }
    es, w := Next(es, w, OfTask("r", CommitRows(None)));
  }

  lemma Next(es: seq<Event>, w: World, e: Event) returns (es': seq<Event>, w': World)
    requires Exec(es) == Some(w) && Enabled(w, e)
    ensures es' == es + [e] && w' == Step(w, e) && Exec(es') == Some(w')
  {
    es', w' := es + [e], Step(w, e);
    Extend(INIT, es, e);
  }

  /** `cancel` can report that it reached the run and the run still succeeds: the read came first. */
  lemma LateCancelStillSucceeds() returns (es: seq<Event>)
    ensures Exec(es).Some? && "r" in Exec(es).value.ledger
    ensures Exec(es).value.ledger["r"].status.Succeeded?
    ensures OfCancel("r", Store) in es
    ensures Flag(Exec(es).value, "r")
  {
    var w;
    es, w := RunToCommit();
    es, w := Next(es, w, OfTask("r", ReadOutcome("t3")));
    es, w := Next(es, w, OfCancel("r", Find));
    es, w := Next(es, w, OfCancel("r", Store));
    assert es[|es| - 1] == OfCancel("r", Store);
    es, w := Next(es, w, OfTask("r", Record(true)));
    assert es[|es| - 2] == OfCancel("r", Store);
  }

  /** A crash right after the commit: the restart marks the run failed although its rows landed. */
  lemma CommitThenCrashIsMarkedFailed() returns (es: seq<Event>)
    ensures Exec(es).Some? && "r" in Exec(es).value.ledger
    ensures Exec(es).value.ledger["r"].status.Failed?
    ensures TableRows(Exec(es).value.log, "dest") == ["1", "2", "3"]
  {
    var w;
    es, w := RunToCommit();
    es, w := Next(es, w, Crash);
    es, w := Next(es, w, Restart("t4", true));
  }

  /** A write that times out: the run ends, its row is failed, and its staging table stays registered. */
  lemma TimeoutLeaksStaging() returns (es: seq<Event>)
    ensures Exec(es).Some? && "r" in Exec(es).value.ledger
    ensures Exec(es).value.ledger["r"].status.Failed?
    ensures "r" !in Exec(es).value.tasks && "r" !in Exec(es).value.flags
    ensures "r" in Exec(es).value.staging
  {
    var w;
    es, w := RunToWrite();
    es, w := Next(es, w, OfTask("r", Timeout));
    es, w := Next(es, w, OfTask("r", ReadOutcome("t3")));
    es, w := Next(es, w, OfTask("r", Record(true)));
    es, w := Next(es, w, OfTask("r", DropFlag));
  }
}
