/** The fraud detection page under `pages/`: `predict` falls back to its input
    instead of failing, and `create_summary_report` summarises the stored
    results per individual. */
module FraudPage {
  import opened Wrappers
  import opened Records
  import opened FraudFeatures
  import Grouping

  /** A row of the returned frame: the enriched row and the two prediction
      columns, None where the prediction failed. */
  datatype ScoredRow = ScoredRow(features: Features, probability: Option<real>, suspicious: Option<nat>)

  /** What `predict` returns: the input frame untouched, or a copy with the
      prediction columns added. */
  datatype Prediction = Unchanged(rows: seq<Features>) | Predicted(scored: seq<ScoredRow>)

  /** The result of `predict` for a frame with columns `columns`. */
  function PredictionOf(pipeline: Option<Pipeline>, columns: set<string>, rows: seq<Features>): Prediction {
    if pipeline.None? then Unchanged(rows)
    else if !(forall i :: 0 <= i < |FeatureNames| ==> FeatureNames[i] in columns) then Unchanged(rows)
    else
      var p := pipeline.value;
      var codes := BankCodes(p, rows);
      match ScoreAll(p, rows, codes)
      case None => Predicted(seq(|rows|, i requires 0 <= i < |rows| => ScoredRow(rows[i], None, None)))
      case Some(ps) =>
        Predicted(seq(|rows|, i requires 0 <= i < |rows| => ScoredRow(rows[i], Some(ps[i] as real), Some(Suspicious(ps[i])))))
  }

  /** `FraudDetector.predict`: the pipeline check, the feature loop, then
      encoding, scaling and scoring. */
  method Predict(pipeline: Option<Pipeline>, columns: set<string>, rows: seq<Features>) returns (out: Prediction)
    ensures out == PredictionOf(pipeline, columns, rows)
  {
    if pipeline.None? {
      return Unchanged(rows);
    }
    var missing := FirstMissingFeature(columns);
    if missing.Some? {
      return Unchanged(rows);
    }
    var p := pipeline.value;
    var codes := BankCodes(p, rows);
    var probs := ScoreAll(p, rows, codes);
    if probs.None? {
      return Predicted(seq(|rows|, i requires 0 <= i < |rows| => ScoredRow(rows[i], None, None)));
    }
    var ps := probs.value;
    return Predicted(seq(|rows|, i requires 0 <= i < |rows| => ScoredRow(rows[i], Some(ps[i] as real), Some(Suspicious(ps[i])))));
  }

  /** Without a model, or with a feature missing, the frame comes back as it was. */
  lemma PredictFallsBack(pipeline: Option<Pipeline>, columns: set<string>, rows: seq<Features>)
    requires pipeline.None? || exists i :: 0 <= i < |FeatureNames| && FeatureNames[i] !in columns
    ensures PredictionOf(pipeline, columns, rows) == Unchanged(rows)
  {
  }

  /** With a model and every feature, each input row comes back once, in
      order, flagged suspicious exactly when its probability is at least 0.3;
      when scaling or the model fails, both columns are None on every row. */
  lemma PredictFlagsAtThreshold(p: Pipeline, columns: set<string>, rows: seq<Features>)
    requires forall i :: 0 <= i < |FeatureNames| ==> FeatureNames[i] in columns
    ensures PredictionOf(Some(p), columns, rows).Predicted?
    ensures var out := PredictionOf(Some(p), columns, rows).scored;
            |out| == |rows|
            && (forall i :: 0 <= i < |rows| ==> out[i].features == rows[i])
            && (forall i :: 0 <= i < |rows| ==> (out[i].probability.None? <==> out[i].suspicious.None?))
            && (forall i :: 0 <= i < |rows| ==>
                  (out[i].suspicious == Some(1) <==> out[i].probability.Some? && out[i].probability.value >= 0.3))
            && (forall i :: 0 <= i < |rows| ==>
                  (out[i].probability.Some? ==>
                     (0.0 <= out[i].probability.value <= 1.0
                      && out[i].probability.value == Score(p, rows[i], BankCodes(p, rows)[i]).value as real)))
  {
  }

  /** A bank the encoder does not know sets every row's bank code to 0. */
  lemma UnknownBankZeroesCodes(p: Pipeline, columns: set<string>, rows: seq<Features>, i: nat)
    requires forall k :: 0 <= k < |FeatureNames| ==> FeatureNames[k] in columns
    requires i < |rows| && p.encode(rows[i].txn.bankName).None?
    ensures var out := PredictionOf(Some(p), columns, rows).scored;
            forall k :: 0 <= k < |rows| && out[k].probability.Some? ==>
              out[k].probability.value == Score(p, rows[k], 0.0).value as real
  {
    assert !AllBanksKnown(p, rows);
  }

  /** A frame straight out of `preprocess_data` has every feature, so with a
      model loaded `predict` always adds the prediction columns. */
  lemma PreprocessedFramesArePredicted(p: Pipeline, rows: seq<Txn>)
    ensures PredictionOf(Some(p), EnrichedColumns, Enrich(rows)).Predicted?
  {
    EnrichedHasFeatures();
  }

  /** One row of the summary report. */
  datatype IndividualSummary = IndividualSummary(individualId: string, transactionCount: nat, totalAmount: real,
                                                 suspiciousTransactions: real, averageRisk: real,
                                                 suspiciousPercent: real)

  function RowIndividual(r: ResultRow): string { r.individualId }
  function RowAmount(r: ResultRow): real { r.amount }
  function RowSuspicious(r: ResultRow): real { r.suspicious as real }
  function RowProbability(r: ResultRow): real { r.probability }

  function SummaryOf(rows: seq<ResultRow>, id: string): IndividualSummary {
    var ms := Grouping.Members(rows, RowIndividual, id);
    var n := |ms|;
    var suspicious := Grouping.Sum(ms, RowSuspicious);
    IndividualSummary(id, n, Grouping.Sum(ms, RowAmount), suspicious,
                      if n == 0 then 0.0 else Grouping.Sum(ms, RowProbability) / n as real,
                      if n == 0 then 0.0 else suspicious / n as real * 100.0)
  }

  function SummariesOf(ids: seq<string>, rows: seq<ResultRow>): seq<IndividualSummary> {
    seq(|ids|, i requires 0 <= i < |ids| => SummaryOf(rows, ids[i]))
  }

  /** `create_summary_report`: nothing for an empty frame, otherwise one row
      per individual. */
  function CreateSummaryReport(rows: seq<ResultRow>): seq<IndividualSummary> {
    if rows == [] then [] else SummariesOf(Grouping.Keys(rows, RowIndividual), rows)
  }

  function SummaryCount(s: IndividualSummary): real { s.transactionCount as real }
  function SummaryAmount(s: IndividualSummary): real { s.totalAmount }

  lemma {:induction false} SummariesSums(ids: seq<string>, rows: seq<ResultRow>)
    ensures Grouping.Sum(SummariesOf(ids, rows), SummaryCount) == Grouping.GroupSums(ids, rows, RowIndividual, Grouping.One)
    ensures Grouping.Sum(SummariesOf(ids, rows), SummaryAmount) == Grouping.GroupSums(ids, rows, RowIndividual, RowAmount)
  {
    if ids != [] {
      var init := ids[..|ids| - 1];
      SummariesSums(init, rows);
      var ss := SummariesOf(ids, rows);
      assert ss[..|ss| - 1] == SummariesOf(init, rows);
      Grouping.SumOnes(Grouping.Members(rows, RowIndividual, ids[|ids| - 1]));
    }
  }

  /** The report accounts for every row once: its counts add up to the number
      of rows and its amounts to the total amount. */
  lemma SummaryPartitionsRows(rows: seq<ResultRow>)
    ensures Grouping.Sum(CreateSummaryReport(rows), SummaryCount) == |rows| as real
    ensures Grouping.Sum(CreateSummaryReport(rows), SummaryAmount) == Grouping.Sum(rows, RowAmount)
  {
    if rows != [] {
      SummariesSums(Grouping.Keys(rows, RowIndividual), rows);
      Grouping.GroupSizesPartition(rows, RowIndividual);
      Grouping.GroupSumsPartition(rows, RowIndividual, RowAmount);
    }
  }

  /** One report row per individual: no individual twice, every individual of
      the input present, each with at least one transaction. */
  lemma SummaryOnePerIndividual(rows: seq<ResultRow>)
    ensures forall i, j :: 0 <= i < j < |CreateSummaryReport(rows)| ==>
              CreateSummaryReport(rows)[i].individualId != CreateSummaryReport(rows)[j].individualId
    ensures forall r :: 0 <= r < |rows| ==>
              exists i :: 0 <= i < |CreateSummaryReport(rows)| && CreateSummaryReport(rows)[i].individualId == rows[r].individualId
    ensures forall i :: 0 <= i < |CreateSummaryReport(rows)| ==> CreateSummaryReport(rows)[i].transactionCount >= 1
  {
    var ks := Grouping.Keys(rows, RowIndividual);
    var rep := CreateSummaryReport(rows);
    ReportFollowsKeys(rows);
    ReportCountsPositive(rows);
    forall r | 0 <= r < |rows|
      ensures exists i :: 0 <= i < |rep| && rep[i].individualId == rows[r].individualId
    {
      assert RowIndividual(rows[r]) in ks;
    }
  }

  lemma ReportCountsPositive(rows: seq<ResultRow>)
    ensures forall i :: 0 <= i < |CreateSummaryReport(rows)| ==> CreateSummaryReport(rows)[i].transactionCount >= 1
  {
    var ks := Grouping.Keys(rows, RowIndividual);
    var rep := CreateSummaryReport(rows);
    ReportFollowsKeys(rows);
    forall i | 0 <= i < |rep| ensures rep[i].transactionCount >= 1 {
      var r :| 0 <= r < |rows| && RowIndividual(rows[r]) == ks[i];
      assert rows[r] in Grouping.Members(rows, RowIndividual, ks[i]);
    }
  }

  /** The report's rows follow the individuals in first-appearance order. */
  lemma ReportFollowsKeys(rows: seq<ResultRow>)
    ensures var ks := Grouping.Keys(rows, RowIndividual);
            |CreateSummaryReport(rows)| == |ks|
            && forall i :: 0 <= i < |ks| ==>
                 CreateSummaryReport(rows)[i].individualId == ks[i]
                 && CreateSummaryReport(rows)[i].transactionCount == |Grouping.Members(rows, RowIndividual, ks[i])|
  {
    if rows == [] {
      assert Grouping.Keys(rows, RowIndividual) == [];
    }
  }

  /** With 0/1 flags and probabilities in [0, 1], each row's suspicious
      percentage lies in [0, 100] and its average risk in [0, 1]. */
  lemma SummaryBounds(rows: seq<ResultRow>, id: string)
    requires forall r :: 0 <= r < |rows| ==> rows[r].suspicious <= 1 && 0.0 <= rows[r].probability <= 1.0
    ensures 0.0 <= SummaryOf(rows, id).suspiciousPercent <= 100.0
    ensures 0.0 <= SummaryOf(rows, id).averageRisk <= 1.0
    ensures SummaryOf(rows, id).suspiciousTransactions <= SummaryOf(rows, id).transactionCount as real
  {
    var ms := Grouping.Members(rows, RowIndividual, id);
    Grouping.SumBounds(ms, RowSuspicious, 0.0, 1.0);
    Grouping.SumBounds(ms, RowProbability, 0.0, 1.0);
    var n := |ms| as real;
    if n > 0.0 {
      var s := Grouping.Sum(ms, RowSuspicious);
      var q := Grouping.Sum(ms, RowProbability);
      Ratio(s, n);
      Ratio(q, n);
    }
  }

  lemma Ratio(s: real, n: real)
    requires n > 0.0 && 0.0 <= s <= n
    ensures 0.0 <= s / n <= 1.0
    ensures 0.0 <= s / n * 100.0 <= 100.0
  {
  }
}
