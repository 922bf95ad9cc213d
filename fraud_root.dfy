/** The top-level copy of the fraud detection page: `predict` answers None
    without a model and lets every other failure escape, returns a fresh
    frame of twelve columns with the probability rounded to four places, and
    the analysis view shows summary statistics and colours the probability. */
module FraudRoot {
  import opened Wrappers
  import opened Records
  import opened FraudFeatures
  import Grouping

  /** numpy's `round`: to the nearest integer, halves to the even neighbour. */
  function RoundHalfEven(x: real): (n: int)
    ensures x - 0.5 <= n as real <= x + 0.5
    ensures (n as real == x - 0.5 || n as real == x + 0.5) ==> n % 2 == 0
  {
    var f := x.Floor;
    var d := x - f as real;
    if d > 0.5 then f + 1
    else if d < 0.5 then f
    else if f % 2 == 0 then f else f + 1
  }

  /** `round(4)`. */
  function Round4(p: real): real {
    RoundHalfEven(p * 10000.0) as real / 10000.0
  }

  /** Rounding keeps a probability a probability. */
  lemma Round4InUnitInterval(p: real)
    requires 0.0 <= p <= 1.0
    ensures 0.0 <= Round4(p) <= 1.0
  {
    var x := p * 10000.0;
    var f := x.Floor;
    assert 0 <= f <= 10000;
    if f == 10000 {
      assert x == 10000.0;
    }
  }

  /** One row of the returned frame. */
  datatype PredictedRow = PredictedRow(transactionId: string, individualId: string, accountId: string,
                                       bankName: string, amount: real,
                                       dailyTotal: real, weeklyTotal: real, monthlyTotal: real,
                                       nAccounts: nat, probability: real, suspicious: nat, time: Stamp)

  /** What `predict` gives: None without a model, an escaping exception, or
      the frame. */
  datatype RootPrediction = NoModel | Raised | Results(rows: seq<PredictedRow>)

  function ResultFor(f: Features, p: real): PredictedRow {
    PredictedRow(f.txn.transactionId, f.txn.individualId, f.txn.accountId, f.txn.bankName, f.txn.amount,
                 f.dailyTotal, f.weeklyTotal, f.monthlyTotal, f.nAccounts, Round4(p), Suspicious(p), f.txn.time)
  }

  function RootPredictionOf(pipeline: Option<Pipeline>, columns: set<string>, rows: seq<Features>): RootPrediction {
    if pipeline.None? then NoModel
    else if !(forall i :: 0 <= i < |FeatureNames| ==> FeatureNames[i] in columns) then Raised
    else if !AllBanksKnown(pipeline.value, rows) then Raised
    else
      match ScoreAll(pipeline.value, rows, BankCodes(pipeline.value, rows))
      case None => Raised
      case Some(ps) => Results(seq(|rows|, i requires 0 <= i < |rows| => ResultFor(rows[i], ps[i] as real)))
  }

  /** `FraudDetector.predict`: the pipeline check, the feature loop (a
      missing column raises `KeyError`), then encoding, scaling and scoring. */
  method Predict(pipeline: Option<Pipeline>, columns: set<string>, rows: seq<Features>) returns (out: RootPrediction)
    ensures out == RootPredictionOf(pipeline, columns, rows)
  {
    if pipeline.None? {
      return NoModel;
    }
    var missing := FirstMissingFeature(columns);
    if missing.Some? {
      return Raised;
    }
    var p := pipeline.value;
    if !AllBanksKnown(p, rows) {
      return Raised;
    }
    var probs := ScoreAll(p, rows, BankCodes(p, rows));
    if probs.None? {
      return Raised;
    }
    var ps := probs.value;
    return Results(seq(|rows|, i requires 0 <= i < |rows| => ResultFor(rows[i], ps[i] as real)));
  }

  /** Any failure after the model check is raised: a missing feature, an
      unknown bank or a failing scaler or model gives no partial output. */
  lemma PredictRaisesOnFailure(p: Pipeline, columns: set<string>, rows: seq<Features>)
    requires (exists i :: 0 <= i < |FeatureNames| && FeatureNames[i] !in columns)
             || !AllBanksKnown(p, rows)
             || ScoreAll(p, rows, BankCodes(p, rows)).None?
    ensures RootPredictionOf(Some(p), columns, rows) == Raised
  {
  }

  /** The frame has one row per input row with its identifiers and amounts
      copied through; a row is flagged exactly when its unrounded probability
      is at least 0.3, and the stored probability is that value rounded. */
  lemma PredictResultsCopyRows(p: Pipeline, columns: set<string>, rows: seq<Features>)
    requires RootPredictionOf(Some(p), columns, rows).Results?
    ensures var out := RootPredictionOf(Some(p), columns, rows).rows;
            |out| == |rows|
            && forall i :: 0 <= i < |rows| ==>
                 var prob := Score(p, rows[i], BankCodes(p, rows)[i]).value as real;
                 out[i].transactionId == rows[i].txn.transactionId
                 && out[i].individualId == rows[i].txn.individualId
                 && out[i].accountId == rows[i].txn.accountId
                 && out[i].bankName == rows[i].txn.bankName
                 && out[i].amount == rows[i].txn.amount
                 && out[i].nAccounts == rows[i].nAccounts
                 && (out[i].suspicious == 1 <==> prob >= 0.3)
                 && out[i].probability == Round4(prob)
                 && 0.0 <= out[i].probability <= 1.0
  {
    var ps := ScoreAll(p, rows, BankCodes(p, rows)).value;
    forall i | 0 <= i < |rows| ensures 0.0 <= Round4(ps[i] as real) <= 1.0 {
      Round4InUnitInterval(ps[i] as real);
    }
  }

  /** The summary metrics of the analysis view. */
  datatype Stats = Stats(totalCount: nat, suspiciousCount: real, suspiciousPercent: real, averageProbability: real)

  function FlagOf(r: PredictedRow): real { r.suspicious as real }
  function ProbabilityOf(r: PredictedRow): real { r.probability }

  /** `_show_analysis_results`: None (a warning) for an empty frame. */
  function AnalysisStats(results: seq<PredictedRow>): (s: Option<Stats>)
    ensures s.None? <==> results == []
    ensures s.Some? ==> s.value.totalCount == |results| && s.value.suspiciousCount == Grouping.Sum(results, FlagOf)
  {
    if results == [] then None
    else
      var n := |results|;
      var suspicious := Grouping.Sum(results, FlagOf);
      Some(Stats(n, suspicious, if n > 0 then suspicious / n as real * 100.0 else 0.0,
                 Grouping.Sum(results, ProbabilityOf) / n as real))
  }

  /** With 0/1 flags and probabilities in [0, 1], the percentage is the
      flagged share out of 100 and the average a probability. */
  lemma AnalysisStatsBounds(results: seq<PredictedRow>)
    requires results != []
    requires forall i :: 0 <= i < |results| ==> results[i].suspicious <= 1 && 0.0 <= results[i].probability <= 1.0
    ensures var s := AnalysisStats(results).value;
            0.0 <= s.suspiciousPercent <= 100.0
            && s.suspiciousPercent * |results| as real == s.suspiciousCount * 100.0
            && 0.0 <= s.averageProbability <= 1.0
  {
    Grouping.SumBounds(results, FlagOf, 0.0, 1.0);
    Grouping.SumBounds(results, ProbabilityOf, 0.0, 1.0);
    var n := |results| as real;
    Share(Grouping.Sum(results, FlagOf), n);
    Share(Grouping.Sum(results, ProbabilityOf), n);
  }

  lemma Share(s: real, n: real)
    requires n > 0.0 && 0.0 <= s <= n
    ensures 0.0 <= s / n <= 1.0
    ensures 0.0 <= s / n * 100.0 <= 100.0
    ensures s / n * 100.0 * n == s * 100.0
  {
  }

  datatype Colour = Red | Green

  /** `color_probability` as written: applied to the rounded probability column. */
  function ColourAsWritten(r: PredictedRow): Colour {
    if r.probability >= 0.3 then Red else Green
  }

  /** A probability just under 0.3 is not flagged, yet rounds to 0.3 and is
      coloured red. */
  lemma RoundedColourDisagreesWithFlag()
    ensures var f := Features(Txn("t1", "p1", "a1", "Bank", 10.0, Stamp(0, Date(2024, 1, 1), 0, 0, 2024, 1)),
                              10.0, 10.0, 10.0, 1, 1, 1, 1, 0, 0, 0, 10.0, 10.0, 10.0);
            var r := ResultFor(f, 0.29996);
            r.suspicious == 0 && ColourAsWritten(r) == Red
  {
    assert (2999.6).Floor == 2999;
  }

  /** The colouring the flag calls for: red exactly on the flagged rows. */
  function ProbabilityColour(r: PredictedRow): Colour {
    if r.suspicious == 1 then Red else Green
  }

  /** Red marks exactly the rows whose unrounded probability reaches 0.3. */
  lemma ColourMatchesThreshold(f: Features, p: real)
    ensures ProbabilityColour(ResultFor(f, p)) == Red <==> p >= SuspiciousThreshold
  {
  }
}
