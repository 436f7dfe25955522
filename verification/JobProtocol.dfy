/**
The batch-job protocol as a state machine (`crates/skardi/src/jobs/executor.rs`).

Submitters, cancellers, one task per run, the destination's atomic commit, the
timeout, crashes and restarts interleave over shared state.  One event is one
await or one access to an atomic or a mutex; every event is one atomic step.
Ledger writes may fail at any time: the code logs such a failure and goes on.
*/
module JobProtocol {
  import opened Options
  import opened Ledger
  import Text

  type Row = string
  type Batch = seq<Row>

  datatype DestinationKind = Lake | Db

  /** What planning and streaming the rendered SQL will give. */
  datatype Query =
    | PlanFails(reason: string)
    | Streams(batches: seq<Batch>, failure: Option<string>)

  /** A submission that passed validation and pre-flight. */
  datatype JobSpec = JobSpec(
    jobName: string,
    parameters: string,
    table: string,
    kind: DestinationKind,
    timeoutMs: Option<nat>,
    query: Query)

  /** One atomic append to a destination table. */
  datatype Commit = Commit(run: RunId, table: string, rows: seq<Row>)

  datatype Outcome = Wrote(rows: nat, snapshot: Option<string>) | Errored(reason: string)

  /** Where `submit` is, once its row exists. */
  datatype Submit = RowCreated(spec: JobSpec) | FlagInserted(spec: JobSpec)

  /** Where `run_job_task` is. */
  datatype Phase =
    | Spawned
    | Marked                                    // the running write was attempted
    | Planning                                  // the first flag check passed
    | Writing(left: seq<Batch>, got: seq<Batch>)// the sink pulls from the stream
    | Ended(got: seq<Batch>)                    // the sink saw the end of the stream
    | Finished(outcome: Outcome)                // the result is there, the flag not read
    | Recording(update: StatusUpdate)           // the flag was read, the row not written
    | Closing                                   // the terminal write was attempted

  datatype Task = Task(spec: JobSpec, phase: Phase)

  /**
  `ledger` and `log` are durable; the rest lives in the process.  `flags` is the
  domain of the cancel-flag map and `cells` the atomics themselves: an atomic
  outlives its map entry, because tasks and cancellers hold it too.  A canceller
  that has cloned the flag and not yet stored to it is in `cancellers`.
  `accepted` is history, read by no step: what each accepted run asked for.
  */
  datatype World = World(
    ledger: Table,
    log: seq<Commit>,
    up: bool,
    submits: map<RunId, Submit>,
    flags: set<RunId>,
    cells: map<RunId, bool>,
    tasks: map<RunId, Task>,
    cancellers: multiset<RunId>,
    staging: set<RunId>,
    accepted: map<RunId, JobSpec>)

  /** The steps of `submit` after validation; `ok` is whether the INSERT went through. */
  datatype SubmitEvent =
    | CreateRow(spec: JobSpec, now: string, ok: bool)
    | InsertFlag
    | Spawn

  /** The steps of `run_job_task` and of the destination it calls. */
  datatype TaskEvent =
    | MarkRunning(now: string, ok: bool)
    | CheckCancel
    | Plan
    | Poll
    | SinkFail(reason: string)
    | CommitRows(snapshot: Option<string>)
    | Timeout
    | ReadOutcome(now: string)
    | Record(ok: bool)
    | DropFlag

  /** `cancel` clones the flag under the map's lock, then stores to it. */
  datatype CancelEvent = Find | Store

  datatype Event =
    | OfSubmit(run: RunId, submit: SubmitEvent)
    | OfTask(run: RunId, task: TaskEvent)
    | OfCancel(run: RunId, cancel: CancelEvent)
    | Crash
    | Restart(now: string, ok: bool)

  const RECONCILE_REASON := "server restarted before run completed"

  const INIT := World(map[], [], false, map[], {}, map[], map[], multiset{}, {}, map[])

  // ---------------------------------------------------------------- rows and commits

  function Flatten(batches: seq<Batch>): seq<Row> {
    if batches == [] then [] else batches[0] + Flatten(batches[1..])
  }

  /** The commits of one run, in the order in which they landed. */
  function CommitsOf(log: seq<Commit>, r: RunId): seq<Commit> {
    if log == [] then []
    else
      CommitsOf(log[..|log| - 1], r) + (if log[|log| - 1].run == r then [log[|log| - 1]] else [])
  }

  /** What a reader of the destination table sees. */
  function TableRows(log: seq<Commit>, table: string): seq<Row> {
    if log == [] then []
    else
      TableRows(log[..|log| - 1], table)
      + (if log[|log| - 1].table == table then log[|log| - 1].rows else [])
  }

  // ---------------------------------------------------------------- steps

  function PendingRow(r: RunId, spec: JobSpec, now: string): JobRun {
    JobRun(r, spec.jobName, spec.parameters, Pending, now, None, None, None, None, None)
  }

  function RunningUpdate(now: string): StatusUpdate {
    StatusUpdate(Running, Some(now), None, None, None, None)
  }

  /** The terminal update chosen by the match on the outcome. */
  function TerminalUpdate(outcome: Outcome, cancelled: bool, now: string): StatusUpdate {
    match outcome
    case Wrote(n, snapshot) =>
      if cancelled then
        StatusUpdate(Cancelled, None, Some(now), Some(n), snapshot, Some("cancelled after commit"))
      else
        StatusUpdate(Succeeded, None, Some(now), Some(n), snapshot, None)
    case Errored(reason) =>
      StatusUpdate(if cancelled then Cancelled else Failed, None, Some(now), None, None, Some(reason))
  }

  predicate Flag(w: World, r: RunId) {
    r in w.cells && w.cells[r]
  }

  /** Inside the destination's write. */
  predicate InWrite(p: Phase) {
    p.Writing? || p.Ended?
  }

  /** Inside the future that the timeout wraps, after its first poll. */
  predicate Timed(p: Phase) {
    p.Planning? || InWrite(p)
  }

  predicate Ready(t: Task, e: TaskEvent) {
    match e
    case MarkRunning(_, _) => t.phase.Spawned?
    case CheckCancel => t.phase.Marked?
    case Plan => t.phase.Planning?
    case Poll => t.phase.Writing?
    case SinkFail(_) => InWrite(t.phase)
    case CommitRows(snapshot) => t.phase.Ended? && (snapshot.None? <==> t.spec.kind.Db?)
    case Timeout => Timed(t.phase) && t.spec.timeoutMs.Some? && t.spec.timeoutMs.value > 0
    case ReadOutcome(_) => t.phase.Finished?
    case Record(_) => t.phase.Recording?
    case DropFlag => t.phase.Closing?
  }

  /**
  What one task step does: the phase it leads to (None when the task ends), the
  ledger write and the commit it makes, and whether a staging table is left.
  */
  datatype Effect = Effect(
    phase: Option<Phase>,
    write: Option<StatusUpdate>,
    commit: Option<seq<Row>>,
    staged: bool)

  function MoveTo(p: Phase, staged: bool): Effect {
    Effect(Some(p), None, None, staged)
  }

  function TimedOut(ms: nat): string {
    "job timed out after " + Text.Digits(ms) + "ms before commit"
  }

  /** `cancelled` is the value of the run's flag at this moment. */
  function Act(t: Task, cancelled: bool, staged: bool, e: TaskEvent): Effect
    requires Ready(t, e)
  {
    match e
    case MarkRunning(now, ok) =>
      Effect(Some(Marked), if ok then Some(RunningUpdate(now)) else None, None, staged)
    case CheckCancel =>
      MoveTo(if cancelled then Finished(Errored("cancelled before execution")) else Planning, staged)
    case Plan =>
      (match t.spec.query
       case PlanFails(reason) => MoveTo(Finished(Errored(reason)), staged)
       case Streams(batches, _) => MoveTo(Writing(batches, []), staged || t.spec.kind.Db?))
    case Poll => Polled(t, cancelled)
    // The write ran to its end, so its staging table is dropped.
    case SinkFail(reason) => MoveTo(Finished(Errored(reason)), false)
    case CommitRows(snapshot) =>
      var rows := Flatten(t.phase.got);
      Effect(Some(Finished(Wrote(|rows|, snapshot))), None, Some(rows), false)
    // The write is dropped half-way, and its staging table stays registered.
    case Timeout => MoveTo(Finished(Errored(TimedOut(t.spec.timeoutMs.value))), staged)
    case ReadOutcome(now) => MoveTo(Recording(TerminalUpdate(t.phase.outcome, cancelled, now)), staged)
    case Record(ok) => Effect(Some(Closing), if ok then Some(t.phase.update) else None, None, staged)
    case DropFlag => Effect(None, None, None, staged)
  }

  /** The sink pulls once: the flag is read first, then the query's own stream. */
  function Polled(t: Task, cancelled: bool): Effect
    requires t.phase.Writing?
  {
    if cancelled then MoveTo(Finished(Errored("job cancelled before commit")), false)
    else if t.phase.left != [] then
      MoveTo(Writing(t.phase.left[1..], t.phase.got + [t.phase.left[0]]), t.spec.kind.Db?)
    else if t.spec.query.Streams? && t.spec.query.failure.Some? then
      MoveTo(Finished(Errored(t.spec.query.failure.value)), false)
    else MoveTo(Ended(t.phase.got), t.spec.kind.Db?)
  }

  /** Carries out an effect of the run's task on the shared state. */
  function Put(w: World, r: RunId, f: Effect): World
    requires r in w.tasks
  {
    var t := w.tasks[r];
    w.(ledger := if f.write.Some? then UpdateRow(w.ledger, r, f.write.value) else w.ledger,
       log := if f.commit.Some? then w.log + [Commit(r, t.spec.table, f.commit.value)] else w.log,
       tasks := if f.phase.Some? then w.tasks[r := t.(phase := f.phase.value)] else w.tasks - {r},
       flags := if f.phase.Some? then w.flags else w.flags - {r},
       staging := if f.staged then w.staging + {r} else w.staging - {r})
  }

  function EffectOf(w: World, r: RunId, e: TaskEvent): Effect
    requires r in w.tasks && Ready(w.tasks[r], e)
  {
    Act(w.tasks[r], Flag(w, r), r in w.staging, e)
  }

  function TaskStep(w: World, r: RunId, e: TaskEvent): World
    requires r in w.tasks && Ready(w.tasks[r], e)
  {
    Put(w, r, EffectOf(w, r, e))
  }

  function SubmitStep(w: World, r: RunId, e: SubmitEvent): World
    requires Enabled(w, OfSubmit(r, e))
  {
    match e
    case CreateRow(spec, now, ok) =>
      if ok && r !in w.ledger then
        w.(ledger := w.ledger[r := PendingRow(r, spec, now)],
           submits := w.submits[r := RowCreated(spec)],
           accepted := w.accepted[r := spec])
      else w
    case InsertFlag =>
      w.(submits := w.submits[r := FlagInserted(w.submits[r].spec)],
         flags := w.flags + {r},
         cells := w.cells[r := false])
    case Spawn =>
      w.(submits := w.submits - {r}, tasks := w.tasks[r := Task(w.submits[r].spec, Spawned)])
  }

  function CancelStep(w: World, r: RunId, e: CancelEvent): World {
    match e
    case Find => if r in w.flags then w.(cancellers := w.cancellers + multiset{r}) else w
    case Store => w.(cells := w.cells[r := true], cancellers := w.cancellers - multiset{r})
  }

  predicate Enabled(w: World, e: Event) {
    match e
    case OfSubmit(r, s) =>
      (match s
       case CreateRow(_, _, _) => w.up
       case InsertFlag => r in w.submits && w.submits[r].RowCreated?
       case Spawn => r in w.submits && w.submits[r].FlagInserted?)
    case OfTask(r, t) => r in w.tasks && Ready(w.tasks[r], t)
    case OfCancel(r, c) => if c.Find? then w.up else r in w.cancellers
    case Crash => w.up
    case Restart(_, _) => !w.up
  }

  function Step(w: World, e: Event): World
    requires Enabled(w, e)
  {
    match e
    case OfSubmit(r, s) => SubmitStep(w, r, s)
    case OfTask(r, t) => TaskStep(w, r, t)
    case OfCancel(r, c) => CancelStep(w, r, c)
    case Crash =>
      w.(up := false, submits := map[], flags := {}, cells := map[], tasks := map[],
         cancellers := multiset{}, staging := {})
    case Restart(now, ok) =>
      if ok then w.(ledger := Reconcile(w.ledger, now, RECONCILE_REASON), up := true) else w
  }

  // ---------------------------------------------------------------- runs

  /** The world after the events, or None if one of them was not enabled when its turn came. */
  function ExecFrom(w: World, es: seq<Event>): Option<World> {
    if es == [] then Some(w)
    else
      match ExecFrom(w, es[..|es| - 1])
      case None => None
      case Some(u) => if Enabled(u, es[|es| - 1]) then Some(Step(u, es[|es| - 1])) else None
  }

  function Exec(es: seq<Event>): Option<World> {
    ExecFrom(INIT, es)
  }

  // ---------------------------------------------------------------- the invariant

  /** Everything the state holds about one run. */
  datatype RunView = RunView(
    row: Option<JobRun>,
    spec: Option<JobSpec>,
    submit: Option<Submit>,
    task: Option<Task>,
    commits: seq<Commit>,
    mapped: bool,
    cell: Option<bool>,
    cancelling: bool,
    staged: bool)

  function Lookup<V>(m: map<RunId, V>, r: RunId): Option<V> {
    if r in m then Some(m[r]) else None
  }

  function ViewOf(w: World, r: RunId): RunView {
    RunView(Lookup(w.ledger, r), Lookup(w.accepted, r), Lookup(w.submits, r), Lookup(w.tasks, r),
            CommitsOf(w.log, r), r in w.flags, Lookup(w.cells, r), r in w.cancellers, r in w.staging)
  }

  /** The one commit a run can make: all rows of its query, into its table. */
  predicate IsTheCommit(r: RunId, spec: JobSpec, c: Commit) {
    && c.run == r
    && c.table == spec.table
    && spec.query.Streams?
    && spec.query.failure.None?
    && c.rows == Flatten(spec.query.batches)
  }

  predicate CommittedOnce(r: RunId, spec: JobSpec, commits: seq<Commit>) {
    |commits| == 1 && IsTheCommit(r, spec, commits[0])
  }

  predicate Open(row: JobRun) {
    !row.status.IsTerminal() && row.rowsWritten.None? && row.finishedAt.None?
  }

  /** A run nobody works on: its row may be open (orphaned) or terminal. */
  predicate RestOk(r: RunId, row: JobRun, spec: JobSpec, commits: seq<Commit>) {
    && (commits == [] || CommittedOnce(r, spec, commits))
    && (row.status.IsTerminal() <==> row.finishedAt.Some?)
    && (row.rowsWritten.Some? ==> |commits| == 1 && row.rowsWritten.value == |commits[0].rows|)
    && (row.status.Succeeded? ==> row.rowsWritten.Some?)
    && (row.rowsWritten.Some? ==> row.status.Succeeded? || row.status.Cancelled?)
  }

  predicate UpdateOk(r: RunId, u: StatusUpdate, spec: JobSpec, commits: seq<Commit>) {
    && u.status.IsTerminal()
    && u.startedAt.None?
    && u.finishedAt.Some?
    && (u.rowsWritten.Some? <==> commits != [])
    && (u.rowsWritten.Some? ==>
          CommittedOnce(r, spec, commits) && u.rowsWritten.value == |commits[0].rows|)
    && (u.status.Succeeded? ==> u.rowsWritten.Some?)
    && (u.status.Failed? ==> u.rowsWritten.None?)
  }

  predicate TaskOk(r: RunId, t: Task, row: JobRun, commits: seq<Commit>) {
    && (!t.phase.Closing? ==> Open(row))
    && match t.phase
       case Spawned => commits == [] && row.status.Pending?
       case Marked => commits == []
       case Planning => commits == []
       case Writing(left, got) =>
         commits == [] && t.spec.query.Streams? && got + left == t.spec.query.batches
       case Ended(got) =>
         commits == [] && t.spec.query.Streams? && t.spec.query.failure.None? && got == t.spec.query.batches
       case Finished(Wrote(n, _)) => CommittedOnce(r, t.spec, commits) && n == |commits[0].rows|
       case Finished(Errored(_)) => commits == []
       case Recording(u) => UpdateOk(r, u, t.spec, commits)
       case Closing => RestOk(r, row, t.spec, commits)
  }

  /** What holds of one run, whatever the others do. */
  predicate RunOk(r: RunId, v: RunView) {
    && (v.row.Some? <==> v.spec.Some?)
    && (v.row.None? ==>
          v.submit.None? && v.task.None? && v.commits == [] && !v.mapped && v.cell.None? && !v.staged)
    && (v.row.Some? ==> v.row.value.id == r)
    && !(v.submit.Some? && v.task.Some?)
    // The map holds a flag for exactly the runs with a task or with one about to be spawned.
    && (v.mapped <==> v.task.Some? || (v.submit.Some? && v.submit.value.FlagInserted?))
    && (v.mapped ==> v.cell.Some?)
    && (v.cancelling ==> v.cell.Some?)
    && (v.submit.Some? && v.submit.value.RowCreated? ==> v.cell.None?)
    && (v.submit.Some? ==> !v.staged)
    && (v.task.Some? && v.task.value.spec.kind.Db? && InWrite(v.task.value.phase) ==> v.staged)
    && (v.row.Some? ==>
          match (v.submit, v.task)
          case (Some(s), _) =>
            s.spec == v.spec.value && v.row.value.status.Pending? && Open(v.row.value) && v.commits == []
          case (None, Some(t)) => t.spec == v.spec.value && TaskOk(r, t, v.row.value, v.commits)
          case (None, None) => RestOk(r, v.row.value, v.spec.value, v.commits))
  }

  predicate Quiet(w: World) {
    && w.submits == map[] && w.tasks == map[] && w.flags == {} && w.cells == map[]
    && w.cancellers == multiset{} && w.staging == {}
  }

  ghost predicate Inv(w: World) {
    && (!w.up ==> Quiet(w))
    && forall r :: RunOk(r, ViewOf(w, r))
  }

  // ---------------------------------------------------------------- preservation

  lemma CommitsOfAppend(log: seq<Commit>, c: Commit, r: RunId)
    ensures CommitsOf(log + [c], r) == CommitsOf(log, r) + (if c.run == r then [c] else [])
  {
    assert (log + [c])[..|log|] == log;
  }

  lemma PutKeepsOthers(w: World, s: RunId, f: Effect, r: RunId)
    requires s in w.tasks && r != s
    ensures ViewOf(Put(w, s, f), r) == ViewOf(w, r)
  {
    if f.commit.Some? {
      CommitsOfAppend(w.log, Commit(s, w.tasks[s].spec.table, f.commit.value), r);
    }
  }

  lemma SubmitKeepsOthers(w: World, s: RunId, e: SubmitEvent, r: RunId)
    requires Enabled(w, OfSubmit(s, e)) && r != s
    ensures ViewOf(SubmitStep(w, s, e), r) == ViewOf(w, r)
  {
  }

  lemma CancelKeepsOthers(w: World, s: RunId, e: CancelEvent, r: RunId)
    requires r != s
    ensures ViewOf(CancelStep(w, s, e), r) == ViewOf(w, r)
  {
  }

  /** A step about one run leaves every other run as it was. */
  lemma OthersKept(w: World, e: Event, r: RunId)
    requires Enabled(w, e) && !e.Crash? && !e.Restart? && e.run != r
    ensures ViewOf(Step(w, e), r) == ViewOf(w, r)
  {
    hide ViewOf, Put, EffectOf;
    match e
    case OfSubmit(s, x) => SubmitKeepsOthers(w, s, x, r);
    case OfTask(s, x) => PutKeepsOthers(w, s, EffectOf(w, s, x), r);
    case OfCancel(s, x) => CancelKeepsOthers(w, s, x, r);
  }

  lemma SubmitKeeps(w: World, r: RunId, e: SubmitEvent)
    requires Enabled(w, OfSubmit(r, e)) && RunOk(r, ViewOf(w, r))
    ensures RunOk(r, ViewOf(SubmitStep(w, r, e), r))
  {
  }

  lemma CancelKeeps(w: World, r: RunId, e: CancelEvent)
    requires Enabled(w, OfCancel(r, e)) && RunOk(r, ViewOf(w, r))
    ensures RunOk(r, ViewOf(CancelStep(w, r, e), r))
  {
  }

  /** How an effect of a task changes what the state holds about its run. */
  lemma PutView(w: World, r: RunId, f: Effect)
    requires r in w.tasks
    ensures
      var t := w.tasks[r];
      var v := ViewOf(w, r);
      ViewOf(Put(w, r, f), r)
      == v.(row := if f.write.Some? && v.row.Some? then Some(Apply(v.row.value, f.write.value)) else v.row,
            task := if f.phase.Some? then Some(t.(phase := f.phase.value)) else None,
            commits := v.commits + (if f.commit.Some? then [Commit(r, t.spec.table, f.commit.value)] else []),
            mapped := v.mapped && f.phase.Some?,
            staged := f.staged)
  {
    if f.commit.Some? {
      CommitsOfAppend(w.log, Commit(r, w.tasks[r].spec.table, f.commit.value), r);
    }
  }

  /** Every phase of the task hands over what the next one needs. */
  lemma ActKeeps(r: RunId, t: Task, row: JobRun, commits: seq<Commit>, cancelled: bool, staged: bool, e: TaskEvent)
    requires Ready(t, e) && TaskOk(r, t, row, commits)
    ensures
      var f := Act(t, cancelled, staged, e);
      var row' := if f.write.Some? then Apply(row, f.write.value) else row;
      var commits' := commits + (if f.commit.Some? then [Commit(r, t.spec.table, f.commit.value)] else []);
      if f.phase.Some? then TaskOk(r, t.(phase := f.phase.value), row', commits')
      else RestOk(r, row', t.spec, commits')
  {
  }

  lemma PutKeeps(w: World, r: RunId, f: Effect)
    requires r in w.tasks && RunOk(r, ViewOf(w, r))
    requires
      var t := w.tasks[r];
      var row := w.ledger[r];
      var row' := if f.write.Some? then Apply(row, f.write.value) else row;
      var commits' := CommitsOf(w.log, r)
                      + (if f.commit.Some? then [Commit(r, t.spec.table, f.commit.value)] else []);
      if f.phase.Some? then TaskOk(r, t.(phase := f.phase.value), row', commits')
      else RestOk(r, row', t.spec, commits')
    requires f.phase.Some? && InWrite(f.phase.value) && w.tasks[r].spec.kind.Db? ==> f.staged
    ensures RunOk(r, ViewOf(Put(w, r, f), r))
  {
    PutView(w, r, f);
  }

  lemma ActStages(t: Task, cancelled: bool, staged: bool, e: TaskEvent)
    requires Ready(t, e)
    ensures
      var f := Act(t, cancelled, staged, e);
      f.phase.Some? && InWrite(f.phase.value) && t.spec.kind.Db? ==> f.staged
  {
  }

  lemma TaskKeeps(w: World, r: RunId, e: TaskEvent)
    requires Enabled(w, OfTask(r, e)) && RunOk(r, ViewOf(w, r))
    ensures RunOk(r, ViewOf(TaskStep(w, r, e), r))
  {
    ActKeeps(r, w.tasks[r], w.ledger[r], CommitsOf(w.log, r), Flag(w, r), r in w.staging, e);
    ActStages(w.tasks[r], Flag(w, r), r in w.staging, e);
    PutKeeps(w, r, EffectOf(w, r, e));
  }

  lemma ServerKeeps(w: World, e: Event, r: RunId)
    requires Enabled(w, e) && (e.Crash? || e.Restart?)
    requires RunOk(r, ViewOf(w, r)) && (!w.up ==> Quiet(w))
    ensures RunOk(r, ViewOf(Step(w, e), r))
  {
  }

  lemma StepKeepsInv(w: World, e: Event)
    requires Inv(w) && Enabled(w, e)
    ensures Inv(Step(w, e))
  {
    var w' := Step(w, e);
    forall r
      ensures RunOk(r, ViewOf(w', r))
    {
      assert RunOk(r, ViewOf(w, r));
      if e.Crash? || e.Restart? {
        ServerKeeps(w, e, r);
      } else if e.run != r {
        OthersKept(w, e, r);
      } else {
        match e
        case OfSubmit(_, s) => SubmitKeeps(w, r, s);
        case OfTask(_, t) => TaskKeeps(w, r, t);
        case OfCancel(_, c) => CancelKeeps(w, r, c);
      }
    }
  }

  /** What the code relies on when it takes a flag or a stream for granted. */
  lemma TaskHoldsItsFlag(w: World, r: RunId)
    requires Inv(w) && r in w.tasks
    ensures r in w.flags && r in w.cells
    ensures w.tasks[r].phase.Writing? ==> w.tasks[r].spec.query.Streams?
  {
    assert RunOk(r, ViewOf(w, r));
  }

  lemma EndedHoldsWholeQuery(w: World, r: RunId)
    requires Inv(w) && r in w.tasks && w.tasks[r].phase.Ended?
    ensures
      var query := w.tasks[r].spec.query;
      query.Streams? && query.failure.None? && w.tasks[r].phase.got == query.batches
  {
    assert RunOk(r, ViewOf(w, r));
  }

  lemma TaskHasRow(w: World, r: RunId)
    requires Inv(w) && r in w.tasks
    ensures r in w.ledger
  {
    assert RunOk(r, ViewOf(w, r));
  }

  lemma InsertedFlagIsNew(w: World, r: RunId)
    requires Inv(w) && Enabled(w, OfSubmit(r, InsertFlag))
    ensures r !in w.flags && r !in w.cells
  {
    assert RunOk(r, ViewOf(w, r));
  }

  lemma {:induction false} InvFrom(w: World, es: seq<Event>)
    requires Inv(w) && ExecFrom(w, es).Some?
    ensures Inv(ExecFrom(w, es).value)
  {
    if es != [] {
      InvFrom(w, es[..|es| - 1]);
      StepKeepsInv(ExecFrom(w, es[..|es| - 1]).value, es[|es| - 1]);
    }
  }

  /** The invariant holds in every world that any events lead to. */
  lemma InvAlways(es: seq<Event>)
    requires Exec(es).Some?
    ensures Inv(Exec(es).value)
  {
    assert forall r :: RunOk(r, ViewOf(INIT, r));
    InvFrom(INIT, es);
  }

  lemma Extend(w: World, es: seq<Event>, e: Event)
    requires ExecFrom(w, es).Some? && Enabled(ExecFrom(w, es).value, e)
    ensures ExecFrom(w, es + [e]) == Some(Step(ExecFrom(w, es).value, e))
  {
    assert (es + [e])[..|es|] == es;
  }
}
