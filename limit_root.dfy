/** What the top-level copy of the limit monitoring page does with the engine:
    its `analyze_limits` lets errors escape to the page, its save reports
    nothing back, and its display splits each report into direct violations
    and circumvention attempts. */
module LimitRoot {
  import opened Wrappers
  import opened Records
  import opened LimitMonitoring

  /** `analyze_limits`: the engine's three tables, or the `KeyError` of the
      first aggregated column that is missing. */
  function AnalyzeLimits(columns: set<string>, rows: seq<Txn>, limits: Limits): (r: Result<LimitReport, string>)
    ensures r.Ok? <==> AggregatedColumns <= columns
    ensures r.Ok? ==> r.value == Analyze(rows, limits)
    ensures r.Err? ==> r.error in AggregatedColumns && r.error !in columns
  {
    if "bank_name" !in columns then Err("bank_name")
    else if "account_id" !in columns then Err("account_id")
    else if "transaction_id" !in columns then Err("transaction_id")
    else Ok(Analyze(rows, limits))
  }

  predicate IsDirect(t: PeriodTotal, limit: real) {
    t.amount > limit
  }

  predicate IsCircumvention(t: PeriodTotal, limit: real) {
    t.amount >= limit * 0.8 && t.amount <= limit && t.numAccounts > 1
  }

  /** `violations[violations['amount'] > limit_value]`. */
  function DirectRows(ts: seq<PeriodTotal>, limit: real): (r: seq<PeriodTotal>)
    ensures |r| <= |ts|
    ensures forall t :: t in r <==> t in ts && IsDirect(t, limit)
  {
    if ts == [] then []
    else
      var init := ts[..|ts| - 1];
      assert ts == init + [ts[|ts| - 1]];
      DirectRows(init, limit) + (if IsDirect(ts[|ts| - 1], limit) then [ts[|ts| - 1]] else [])
  }

  /** The circumvention attempts: 80% to 100% of the limit over several accounts. */
  function CircumventionRows(ts: seq<PeriodTotal>, limit: real): (r: seq<PeriodTotal>)
    ensures |r| <= |ts|
    ensures forall t :: t in r <==> t in ts && IsCircumvention(t, limit)
  {
    if ts == [] then []
    else
      var init := ts[..|ts| - 1];
      assert ts == init + [ts[|ts| - 1]];
      CircumventionRows(init, limit) + (if IsCircumvention(ts[|ts| - 1], limit) then [ts[|ts| - 1]] else [])
  }

  /** On flagged totals the two displays split the report: no total is in
      both, every total is in one, and their sizes add up to the report's. */
  lemma {:induction false} DisplaySplitsReport(ts: seq<PeriodTotal>, limit: real)
    requires forall i :: 0 <= i < |ts| ==> Flagged(ts[i], limit)
    ensures forall t :: t in ts ==> (t in DirectRows(ts, limit) <==> t !in CircumventionRows(ts, limit))
    ensures |DirectRows(ts, limit)| + |CircumventionRows(ts, limit)| == |ts|
  {
    if ts != [] {
      var init := ts[..|ts| - 1];
      DisplaySplitsReport(init, limit);
      assert Flagged(ts[|ts| - 1], limit);
    }
  }

  /** The split of an analysed report agrees with the stored type: a total
      is displayed as direct exactly when it is saved as a Direct Violation. */
  lemma DisplayAgreesWithType(rows: seq<Txn>, p: Period, limit: real, t: PeriodTotal)
    requires t in Violations(rows, p, limit)
    ensures t in DirectRows(Violations(rows, p, limit), limit) <==> ViolationType(t.amount, limit) == "Direct Violation"
    ensures t in CircumventionRows(Violations(rows, p, limit), limit) <==>
              ViolationType(t.amount, limit) == "Potential Circumvention"
  {
    assert Flagged(t, limit);
    ReportedRowsClassified(t, limit);
  }

  /** `save_violations_to_db` of this copy: the same inserts with nothing
      returned; a missing connection or a failing statement leaves the table
      as it was. */
  method SaveViolations(table: ViolationTable, report: LimitReport, limits: Limits, db: DbStatus)
    modifies table
    ensures db == Works ==> table.records == old(table.records) + ReportRecords(report, limits)
    ensures db != Works ==> table.records == old(table.records)
  {
    var _ := table.SaveViolations(report, limits, db);
  }
}
