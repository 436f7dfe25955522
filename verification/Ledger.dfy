/**
The run ledger (`crates/skardi/src/jobs/store.rs`): one row per accepted job run.

The table is a map from run id to row.  A status update writes the status and
overwrites every other column only where the update carries a value (SQL
COALESCE).  The store itself never looks at the status it overwrites: that a
terminal row stays as it is rests on the executor alone (see JobProtocol).
*/
module Ledger {
  import opened Options

  type RunId = string

  datatype JobRunStatus = Pending | Running | Succeeded | Failed | Cancelled {

    predicate IsTerminal() {
      Succeeded? || Failed? || Cancelled?
    }

    function AsStr(): string {
      match this
      case Pending => "pending"
      case Running => "running"
      case Succeeded => "succeeded"
      case Failed => "failed"
      case Cancelled => "cancelled"
    }
  }

  function FromStr(s: string): Option<JobRunStatus> {
    match s
    case "pending" => Some(Pending)
    case "running" => Some(Running)
    case "succeeded" => Some(Succeeded)
    case "failed" => Some(Failed)
    case "cancelled" => Some(Cancelled)
    case _ => None
  }

  /** The stored text of a status reads back as that status, and no other text reads as one. */
  lemma StatusReadsBackExactly(s: string, status: JobRunStatus)
    ensures FromStr(s) == Some(status) <==> s == status.AsStr()
    ensures FromStr(s) == Some(status) <==> (s, status) in {
              ("pending", Pending), ("running", Running), ("succeeded", Succeeded),
              ("failed", Failed), ("cancelled", Cancelled)
            }
  {
  }

  datatype JobRun = JobRun(
    id: RunId,
    jobName: string,
    parameters: string,
    status: JobRunStatus,
    createdAt: string,
    startedAt: Option<string>,
    finishedAt: Option<string>,
    rowsWritten: Option<nat>,
    snapshotId: Option<string>,
    error: Option<string>)

  /** The arguments of `update_status` after the run id. */
  datatype StatusUpdate = StatusUpdate(
    status: JobRunStatus,
    startedAt: Option<string>,
    finishedAt: Option<string>,
    rowsWritten: Option<nat>,
    snapshotId: Option<string>,
    error: Option<string>)

  type Table = map<RunId, JobRun>

  function Coalesce<T>(given: Option<T>, stored: Option<T>): Option<T> {
    if given.Some? then given else stored
  }

  function Apply(row: JobRun, u: StatusUpdate): JobRun {
    row.(status := u.status,
         startedAt := Coalesce(u.startedAt, row.startedAt),
         finishedAt := Coalesce(u.finishedAt, row.finishedAt),
         rowsWritten := Coalesce(u.rowsWritten, row.rowsWritten),
         snapshotId := Coalesce(u.snapshotId, row.snapshotId),
         error := Coalesce(u.error, row.error))
  }

  /** `UPDATE ... WHERE id = ?`: an unknown id updates no row and is no error. */
  function UpdateRow(t: Table, id: RunId, u: StatusUpdate): Table {
    if id in t then t[id := Apply(t[id], u)] else t
  }

  function ReconcileRow(row: JobRun, now: string, reason: string): JobRun {
    if row.status.IsTerminal() then row
    else row.(status := Failed, finishedAt := Some(now), error := Some(reason))
  }

  function Reconcile(t: Table, now: string, reason: string): Table {
    map id | id in t :: ReconcileRow(t[id], now, reason)
  }

  /** No column that holds a value has lost it. */
  predicate KeepsColumns(before: JobRun, after: JobRun) {
    && after.id == before.id
    && after.jobName == before.jobName
    && after.parameters == before.parameters
    && after.createdAt == before.createdAt
    && (before.startedAt.Some? ==> after.startedAt.Some?)
    && (before.finishedAt.Some? ==> after.finishedAt.Some?)
    && (before.rowsWritten.Some? ==> after.rowsWritten.Some?)
    && (before.snapshotId.Some? ==> after.snapshotId.Some?)
    && (before.error.Some? ==> after.error.Some?)
  }

  /** The SQLite table behind the ledger.  `fault` says that the statement fails. */
  class SqliteJobStore {
    var rows: Table

    constructor ()
      ensures rows == map[]
    {
      rows := map[];
    }

    method CreateRun(run: JobRun, fault: bool) returns (ok: bool)
      modifies this
      ensures ok <==> !fault && run.id !in old(rows)
      ensures rows == if ok then old(rows)[run.id := run] else old(rows)
    {
      // The primary key rejects a second row with the same id.
      if fault || run.id in rows {
        return false;
      }
      rows := rows[run.id := run];
      return true;
    }

    method UpdateStatus(id: RunId, u: StatusUpdate, fault: bool) returns (ok: bool)
      modifies this
      ensures ok <==> !fault
      ensures rows == if ok then UpdateRow(old(rows), id, u) else old(rows)
      ensures !ok || id !in old(rows) ==> rows == old(rows)
      ensures ok && id in old(rows) ==>
                var was := old(rows)[id];
                rows == old(rows)[id := JobRun(
                  was.id, was.jobName, was.parameters, u.status, was.createdAt,
                  if u.startedAt.Some? then u.startedAt else was.startedAt,
                  if u.finishedAt.Some? then u.finishedAt else was.finishedAt,
                  if u.rowsWritten.Some? then u.rowsWritten else was.rowsWritten,
                  if u.snapshotId.Some? then u.snapshotId else was.snapshotId,
                  if u.error.Some? then u.error else was.error)]
    {
      if fault {
        return false;
      }
      if id in rows {
        var row := rows[id];
        row := row.(status := u.status);
        if u.startedAt.Some? { row := row.(startedAt := u.startedAt); }
        if u.finishedAt.Some? { row := row.(finishedAt := u.finishedAt); }
        if u.rowsWritten.Some? { row := row.(rowsWritten := u.rowsWritten); }
        if u.snapshotId.Some? { row := row.(snapshotId := u.snapshotId); }
        if u.error.Some? { row := row.(error := u.error); }
        rows := rows[id := row];
      }
      return true;
    }

    /** Returns how many rows were rewritten, or None when the statement failed. */
    method ReconcileOrphaned(now: string, reason: string, fault: bool) returns (updated: Option<nat>)
      modifies this
      ensures updated.None? <==> fault
      ensures rows == if fault then old(rows) else Reconcile(old(rows), now, reason)
      ensures rows.Keys == old(rows).Keys
      ensures forall id :: id in rows ==>
                var was := old(rows)[id];
                rows[id] == if fault || was.status.Succeeded? || was.status.Failed? || was.status.Cancelled? then was
                            else was.(status := Failed, finishedAt := Some(now), error := Some(reason))
      ensures updated.Some? ==>
                updated.value == |set id | id in old(rows) && !old(rows)[id].status.IsTerminal()|
    {
      if fault {
        return None;
      }
      var orphaned := set id | id in rows && !rows[id].status.IsTerminal();
      var todo := orphaned;
      var n := 0;
      while todo != {}
        invariant todo <= orphaned && n == |orphaned| - |todo|
        invariant rows.Keys == old(rows).Keys
        invariant forall id :: id in rows ==>
          rows[id] == if id in orphaned - todo then ReconcileRow(old(rows)[id], now, reason) else old(rows)[id]
        decreases todo
      {
        var id :| id in todo;
        rows := rows[id := rows[id].(status := Failed, finishedAt := Some(now), error := Some(reason))];
        todo := todo - {id};
        n := n + 1;
      }
      assert rows == Reconcile(old(rows), now, reason);
      return Some(n);
    }
  }
}
