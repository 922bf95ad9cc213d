/** What the limit monitoring page under `pages/` does with the engine: its
    `analyze_limits` traps every error and answers three empty tables, its save
    (`ViolationTable.SaveViolations`) returns a count, and its display adds the amount over the limit. */
module LimitPage {
  import opened Wrappers
  import opened Records
  import opened LimitMonitoring

  const EmptyReport := LimitReport([], [], [])

  /** `analyze_limits`: the engine's three tables, or three empty ones when a
      column it aggregates is missing (the trapped `KeyError`). */
  function AnalyzeLimits(columns: set<string>, rows: seq<Txn>, limits: Limits): (r: LimitReport)
    ensures AggregatedColumns <= columns ==> r == Analyze(rows, limits)
    ensures !(AggregatedColumns <= columns) ==> r.daily == [] && r.weekly == [] && r.monthly == []
  {
    if AggregatedColumns <= columns then Analyze(rows, limits) else EmptyReport
  }

  datatype UploadError = PreprocessFailed | MissingUploadColumns

  /** The upload handler: preprocess, insist on the upload columns, analyse. */
  function ProcessUpload(columns: set<string>, raw: seq<RawTxn>, limits: Limits): (r: Result<LimitReport, UploadError>)
    ensures r == Err(PreprocessFailed) <==> Preprocess(columns, raw).None?
    ensures r == Err(MissingUploadColumns) <==> Preprocess(columns, raw).Some? && !(UploadColumns <= columns)
    ensures r.Ok? ==> r.value == AnalyzeLimits(columns, Preprocess(columns, raw).value, limits)
  {
    match Preprocess(columns, raw)
    case None => Err(PreprocessFailed)
    case Some(rows) =>
      if UploadColumns <= columns then Ok(AnalyzeLimits(columns, rows, limits)) else Err(MissingUploadColumns)
  }

  /** Once the upload columns are present, the page reports exactly the
      flagged totals of each period when the three aggregated columns are
      present too, and nothing otherwise. */
  lemma AnalyzeLimitsFlagged(columns: set<string>, rows: seq<Txn>, limits: Limits, p: Period)
    requires UploadColumns <= columns
    ensures RequiredColumns <= columns ==>
              forall t :: t in ReportFor(AnalyzeLimits(columns, rows, limits), p) <==>
                t in Totals(rows, p) && Flagged(t, LimitFor(limits, p))
    ensures !(RequiredColumns <= columns) ==> ReportFor(AnalyzeLimits(columns, rows, limits), p) == []
  {
    assert RequiredColumns == UploadColumns + AggregatedColumns;
    if AggregatedColumns <= columns {
      AnalyzeReportsFlagged(rows, limits, p);
    }
  }

  /** The displayed `over_limit`. */
  function OverLimit(t: PeriodTotal, limit: real): real {
    t.amount - limit
  }

  /** The displayed `over_limit_percent`; None where pandas divides by a zero
      limit and shows an infinity or NaN. */
  function OverLimitPercent(t: PeriodTotal, limit: real): (r: Option<real>)
    ensures limit == 0.0 <==> r.None?
    ensures r.Some? ==> r.value * limit == OverLimit(t, limit) * 100.0
  {
    if limit == 0.0 then None else Some(OverLimit(t, limit) / limit * 100.0)
  }

  /** Against a positive limit, a flagged group shows a positive percentage
      exactly when it is a direct violation, and never less than -20%. */
  lemma OverLimitPercentOfFlagged(t: PeriodTotal, limit: real)
    requires limit > 0.0
    requires Flagged(t, limit)
    ensures OverLimitPercent(t, limit).value > 0.0 <==> ViolationType(t.amount, limit) == "Direct Violation"
    ensures OverLimitPercent(t, limit).value >= -20.0
  {
    var q := OverLimitPercent(t, limit).value;
    assert q * limit == (t.amount - limit) * 100.0;
    if t.amount <= limit {
      assert t.amount >= limit * 0.8;
      assert q * limit >= -20.0 * limit;
    }
  }
}
