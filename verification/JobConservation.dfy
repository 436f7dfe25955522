/**
Conservation: a destination table grows by exactly what the ledger says, plus
what has landed and is not recorded yet, plus what crashes and failed ledger
writes have made it lose sight of.
*/
module JobConservation {
  import opened Options
  import opened Ledger
  import opened JobProtocol
  import opened JobSafety
  import opened Sums

  /** How many rows the commits added to the table. */
  function LandedIn(commits: seq<Commit>, table: string): nat {
    if commits == [] then 0
    else
      var last := commits[|commits| - 1];
      LandedIn(commits[..|commits| - 1], table) + (if last.table == table then |last.rows| else 0)
  }

  /** Each run's share of the growth of a table. */
  function Shares(ids: set<RunId>, log: seq<Commit>, table: string): map<RunId, nat> {
    map r | r in ids :: LandedIn(CommitsOf(log, r), table)
  }

  lemma ShareGrows(log: seq<Commit>, c: Commit, r: RunId, table: string)
    ensures LandedIn(CommitsOf(log + [c], r), table)
         == LandedIn(CommitsOf(log, r), table) + (if c.run == r && c.table == table then |c.rows| else 0)
  {
    CommitsOfAppend(log, c, r);
    if c.run == r {
      assert (CommitsOf(log, r) + [c])[..|CommitsOf(log, r)|] == CommitsOf(log, r);
    } else {
      assert CommitsOf(log, r) + [] == CommitsOf(log, r);
    }
  }

  lemma SharesGrow(ids: set<RunId>, log: seq<Commit>, c: Commit, table: string)
    requires c.run in ids
    ensures Sum(Shares(ids, log + [c], table))
         == Sum(Shares(ids, log, table)) + (if c.table == table then |c.rows| else 0)
  {
    var a, b := Shares(ids, log, table), Shares(ids, log + [c], table);
    var delta := if c.table == table then |c.rows| else 0;
    forall r | r in ids
      ensures b[r] == if r == c.run then a[r] + delta else a[r]
    {
      ShareGrows(log, c, r, table);
    }
    SumRaise(a, b, c.run, delta);
  }

  lemma {:induction false} GrowthIsSumOfShares(ids: set<RunId>, log: seq<Commit>, table: string)
    requires forall r :: r !in ids ==> CommitsOf(log, r) == []
    ensures |TableRows(log, table)| == Sum(Shares(ids, log, table))
  {
    if log == [] {
      SumOfZeros(Shares(ids, log, table));
    } else {
      var before, c := log[..|log| - 1], log[|log| - 1];
      assert log == before + [c];
      assert c.run in ids by { CommitsOfAppend(before, c, c.run); }
      forall r | r !in ids
        ensures CommitsOf(before, r) == []
      {
        CommitsOfAppend(before, c, r);
      }
      GrowthIsSumOfShares(ids, before, table);
      SharesGrow(ids, before, c, table);
    }
  }

  /** The counts in the ledger, for runs that write to the table. */
  function Recorded(w: World, table: string): map<RunId, nat> {
    map r | r in w.ledger ::
      if r in w.accepted && w.accepted[r].table == table && w.ledger[r].rowsWritten.Some?
      then w.ledger[r].rowsWritten.value else 0
  }

  function HeldRows(p: Phase): nat
    requires Unrecorded(p)
  {
    if p.Finished? then p.outcome.rows else p.update.rowsWritten.value
  }

  /** The counts that live tasks hold after their commit and have not written down. */
  function InFlight(w: World, table: string): map<RunId, nat> {
    map r | r in w.ledger ::
      if r in w.tasks && w.tasks[r].spec.table == table && Unrecorded(w.tasks[r].phase)
      then HeldRows(w.tasks[r].phase) else 0
  }

  /** What landed for runs whose count was lost. */
  function LostRows(es: seq<Event>, w: World, table: string): map<RunId, nat> {
    map r | r in w.ledger :: if Lost(es, r) then LandedIn(CommitsOf(w.log, r), table) else 0
  }

  lemma ShareOfOneRun(es: seq<Event>, r: RunId, table: string)
    requires Exec(es).Some? && r in Exec(es).value.ledger
    ensures
      var w := Exec(es).value;
      LandedIn(CommitsOf(w.log, r), table)
      == Recorded(w, table)[r] + InFlight(w, table)[r] + LostRows(es, w, table)[r]
  {
    InvAlways(es);
    LossFold(es, r);
    var w := Exec(es).value;
    var commits := CommitsOf(w.log, r);
    assert RunOk(r, ViewOf(w, r));
    if commits != [] {
      assert commits[..0] == [];
      assert LandedIn(commits, table) == if commits[0].table == table then |commits[0].rows| else 0;
    }
  }

  /** For every run of the system and every table, nothing is missing and nothing counted twice. */
  lemma Conservation(es: seq<Event>, table: string)
    requires Exec(es).Some?
    ensures
      var w := Exec(es).value;
      |TableRows(w.log, table)|
      == Sum(Recorded(w, table)) + Sum(InFlight(w, table)) + Sum(LostRows(es, w, table))
  {
    InvAlways(es);
    var w := Exec(es).value;
    forall r | r !in w.ledger
      ensures CommitsOf(w.log, r) == []
    {
      assert RunOk(r, ViewOf(w, r));
    }
    var ids := w.ledger.Keys;
    GrowthIsSumOfShares(ids, w.log, table);
    forall r | r in ids { ShareOfOneRun(es, r, table); }
    var known := map r | r in ids :: Recorded(w, table)[r] + InFlight(w, table)[r];
    SumPointwise(known, Recorded(w, table), InFlight(w, table));
    SumPointwise(Shares(ids, w.log, table), known, LostRows(es, w, table));
  }

  predicate NoFaults(es: seq<Event>) {
    forall k :: 0 <= k < |es| ==> !es[k].Crash? && !(es[k].OfTask? && es[k].task == Record(false))
  }

  lemma {:induction false} NothingLostWithoutFaults(es: seq<Event>, r: RunId)
    requires NoFaults(es)
    ensures !Lost(es, r)
  {
    if es != [] {
      NothingLostWithoutFaults(es[..|es| - 1], r);
    }
  }

  /** Without crashes and failed terminal writes the ledger accounts for every row. */
  lemma ConservationWithoutFaults(es: seq<Event>, table: string)
    requires Exec(es).Some? && NoFaults(es)
    ensures
      var w := Exec(es).value;
      |TableRows(w.log, table)| == Sum(Recorded(w, table)) + Sum(InFlight(w, table))
  {
    Conservation(es, table);
    var w := Exec(es).value;
    forall r | r in w.ledger { NothingLostWithoutFaults(es, r); }
    SumOfZeros(LostRows(es, w, table));
  }

  /**
  Without crashes and failed terminal writes a failed row, and a cancelled row
  without a count, left nothing in any table.
  */
  lemma UncountedRowsLeftNothing(es: seq<Event>, r: RunId)
    requires Exec(es).Some? && NoFaults(es) && r in Exec(es).value.ledger
    requires Exec(es).value.ledger[r].status.IsTerminal()
    requires Exec(es).value.ledger[r].rowsWritten.None?
    ensures CommitsOf(Exec(es).value.log, r) == []
  {
    InvAlways(es);
    NothingLostWithoutFaults(es, r);
    DisagreementIsExact(es, r);
    assert RunOk(r, ViewOf(Exec(es).value, r));
  }
}
