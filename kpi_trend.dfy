/** The dashboard's key figures: the change of a count against the previous
    week, the direction and size of the trend shown for it, and the fraud
    rate.  Counts come from `COUNT(*)` queries, passed in; None stands for a
    query or connection that raises. */
module KpiTrend {
  import opened Wrappers

  /** `percent_change`: 100 when the previous count is zero and the current
      one is not, 0 when both are zero, otherwise the change relative to the
      previous count, in percent. */
  function PercentChange(current: nat, previous: nat): (r: real)
    ensures previous == 0 ==> r == (if current > 0 then 100.0 else 0.0)
    ensures previous > 0 ==> r * (previous as real) == ((current as real) - (previous as real)) * 100.0
  {
    if previous == 0 then (if current > 0 then 100.0 else 0.0)
    else ((current as real - previous as real) / previous as real) * 100.0
  }

  /** The change is positive, zero or negative exactly as the current count
      is above, equal to or below the previous one. */
  lemma PercentChangeSign(current: nat, previous: nat)
    ensures PercentChange(current, previous) > 0.0 <==> current > previous
    ensures PercentChange(current, previous) == 0.0 <==> current == previous
    ensures PercentChange(current, previous) < 0.0 <==> current < previous
  {
    if previous > 0 {
      var r := PercentChange(current, previous);
      var d := (current as real) - (previous as real);
      SignOfQuotient(r, previous as real, d * 100.0);
    }
  }

  /** r * p == q with p > 0 gives r the sign of q. */
  lemma SignOfQuotient(r: real, p: real, q: real)
    requires p > 0.0 && r * p == q
    ensures (r > 0.0 <==> q > 0.0) && (r == 0.0 <==> q == 0.0) && (r < 0.0 <==> q < 0.0)
  {
    if r > 0.0 {
      assert r * p > 0.0;
    } else if r < 0.0 {
      assert (-r) * p > 0.0;
    }
  }

  /** `calculate_kpi_trend`: the current count and its percent change, or
      (0, 0) when a query fails. */
  function KpiTrend(counts: Option<(nat, nat)>): (r: (nat, real))
    ensures counts.None? ==> r == (0, 0.0)
    ensures counts.Some? ==> r.0 == counts.value.0 && r.1 == PercentChange(counts.value.0, counts.value.1)
  {
    match counts
    case None => (0, 0.0)
    case Some((current, previous)) => (current, PercentChange(current, previous))
  }

  /** The three trend indicators. */
  datatype Trend = Neutral | Up | Down

  /** `get_trend_html`: no change is neutral; otherwise up when the change is
      positive and the metric is not inverted, or negative and inverted. */
  function TrendOf(change: real, inverted: bool): (t: Trend)
    ensures t == Neutral <==> change == 0.0
    ensures t == Up <==> (change > 0.0 && !inverted) || (change < 0.0 && inverted)
    ensures t == Down <==> (change > 0.0 && inverted) || (change < 0.0 && !inverted)
  {
    if change == 0.0 then Neutral
    else if (change > 0.0 && !inverted) || (change < 0.0 && inverted) then Up
    else Down
  }

  function Flip(t: Trend): Trend {
    match t
    case Neutral => Neutral
    case Up => Down
    case Down => Up
  }

  /** Toggling `inverted` swaps up and down, and a neutral trend stays
      neutral. */
  lemma InvertedSwaps(change: real, inverted: bool)
    ensures TrendOf(change, !inverted) == Flip(TrendOf(change, inverted))
  {
  }

  /** The magnitude shown beside an up or down arrow: `abs(change)`. */
  function Magnitude(change: real): (m: real)
    ensures m >= 0.0 && (m == change || m == -change)
  {
    if change < 0.0 then -change else change
  }

  /** The trend of a week's count against the previous week's, read
      directly: up when more, neutral when equal, down when fewer (and the
      other way round for an inverted metric), and neutral when a query
      fails. */
  lemma KpiTrendDirection(counts: Option<(nat, nat)>, inverted: bool)
    ensures counts.None? ==> TrendOf(KpiTrend(counts).1, inverted) == Neutral
    ensures counts.Some? ==>
              var (current, previous) := counts.value;
              TrendOf(KpiTrend(counts).1, inverted) ==
                (if current == previous then Neutral
                 else if (current > previous) != inverted then Up
                 else Down)
  {
    if counts.Some? {
      PercentChangeSign(counts.value.0, counts.value.1);
    }
  }

  /** `fraud_rate`: flagged results over all results, in percent, and 0
      when there are none. */
  function FraudRate(suspicious: nat, frauds: nat): (r: real)
    ensures frauds == 0 ==> r == 0.0
    ensures frauds > 0 ==> r * (frauds as real) == (suspicious as real) * 100.0
  {
    if frauds > 0 then (suspicious as real / frauds as real) * 100.0 else 0.0
  }

  /** The flagged results are among all results, so the rate is a percentage. */
  lemma FraudRateBounds(suspicious: nat, frauds: nat)
    requires suspicious <= frauds
    ensures 0.0 <= FraudRate(suspicious, frauds) <= 100.0
    ensures frauds > 0 ==> (FraudRate(suspicious, frauds) == 100.0 <==> suspicious == frauds)
  {
    if frauds > 0 {
      var r := FraudRate(suspicious, frauds);
      var f := frauds as real;
      var s := suspicious as real;
      SignOfQuotient(r, f, s * 100.0);
      SignOfQuotient(100.0 - r, f, (f - s) * 100.0);
    }
  }
}
