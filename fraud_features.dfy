/** The part of the fraud detection page that both copies share: the feature
    enrichment of `FraudDetector.preprocess_data`, the 17-feature vector and
    the 0.3 decision threshold of `predict`, the stored result rows and the
    filtered, paginated listing of `get_paginated_results`. */
module FraudFeatures {
  import opened Wrappers
  import opened Records
  import Grouping
  import Sorting
  import Paging

  /** `transform` keys: (individual, date), (individual, ISO week number) and
      (individual, month number); the last two carry no year. */
  function DayKey(t: Txn): (string, Date) { (t.individualId, t.time.date) }
  function WeekNumberKey(t: Txn): (string, nat) { (t.individualId, t.time.isoWeek) }
  function MonthNumberKey(t: Txn): (string, nat) { (t.individualId, t.time.date.month) }

  const DailyThreshold: real := 1000.0
  const WeeklyThreshold: real := 5000.0
  const MonthlyThreshold: real := 10000.0

  /** One enriched row: the transaction and the columns `preprocess_data` adds. */
  datatype Features = Features(txn: Txn,
                               dailyTotal: real, weeklyTotal: real, monthlyTotal: real,
                               dailyCount: nat, weeklyCount: nat, monthlyCount: nat,
                               nAccounts: nat,
                               exceedsDaily: nat, exceedsWeekly: nat, exceedsMonthly: nat,
                               avgDaily: real, avgWeekly: real, avgMonthly: real)

  function Indicator(b: bool): nat { if b then 1 else 0 }

  /** `total / n_accounts.replace(0, 1)`. */
  function PerAccount(total: real, n: nat): real {
    total / (if n == 0 then 1 else n) as real
  }

  /** The amount summed over the rows sharing `t`'s group. */
  function GroupTotal<K(==)>(rows: seq<Txn>, key: Txn -> K, t: Txn): real {
    Grouping.Sum(Grouping.Members(rows, key, key(t)), AmountOf)
  }

  /** The number of rows sharing `t`'s group. */
  function GroupCount<K(==)>(rows: seq<Txn>, key: Txn -> K, t: Txn): nat {
    |Grouping.Members(rows, key, key(t))|
  }

  /** `nunique` of the account ids of `t`'s individual over the whole batch. */
  function AccountsOf(rows: seq<Txn>, t: Txn): nat {
    |Grouping.Keys(Grouping.Members(rows, IndividualOf, t.individualId), AccountOf)|
  }

  /** The enriched form of row `t` of the batch `rows`. */
  function FeaturesOf(rows: seq<Txn>, t: Txn): (f: Features)
    ensures f.txn == t
    ensures f.exceedsDaily == 1 <==> f.dailyTotal > DailyThreshold
    ensures f.exceedsWeekly == 1 <==> f.weeklyTotal > WeeklyThreshold
    ensures f.exceedsMonthly == 1 <==> f.monthlyTotal > MonthlyThreshold
    ensures f.exceedsDaily <= 1 && f.exceedsWeekly <= 1 && f.exceedsMonthly <= 1
  {
    var daily := GroupTotal(rows, DayKey, t);
    var weekly := GroupTotal(rows, WeekNumberKey, t);
    var monthly := GroupTotal(rows, MonthNumberKey, t);
    var n := AccountsOf(rows, t);
    Features(t, daily, weekly, monthly,
             GroupCount(rows, DayKey, t), GroupCount(rows, WeekNumberKey, t), GroupCount(rows, MonthNumberKey, t),
             n,
             Indicator(daily > DailyThreshold), Indicator(weekly > WeeklyThreshold), Indicator(monthly > MonthlyThreshold),
             PerAccount(daily, n), PerAccount(weekly, n), PerAccount(monthly, n))
  }

  function Enrich(rows: seq<Txn>): (r: seq<Features>)
    ensures |r| == |rows|
    ensures forall i :: 0 <= i < |rows| ==> r[i] == FeaturesOf(rows, rows[i])
  {
    seq(|rows|, i requires 0 <= i < |rows| => FeaturesOf(rows, rows[i]))
  }

  /** The columns present after enrichment. */
  const EnrichedColumns: set<string> := RequiredColumns +
    {"date", "hour", "weekday", "week", "month",
     "daily_total", "weekly_total", "monthly_total",
     "daily_txn_count", "weekly_txn_count", "monthly_txn_count", "n_accounts",
     "exceeds_daily", "exceeds_weekly", "exceeds_monthly",
     "avg_amount_per_account_daily", "avg_amount_per_account_weekly", "avg_amount_per_account_monthly"}

  /** `preprocess_data`: the `ValueError` names the missing required columns;
      otherwise every row is enriched. */
  function PreprocessData(columns: set<string>, rows: seq<Txn>): (r: Result<seq<Features>, set<string>>)
    ensures r.Err? <==> !(RequiredColumns <= columns)
    ensures r.Err? ==> r.error == RequiredColumns - columns && r.error != {}
    ensures r.Ok? ==> r.value == Enrich(rows)
  {
    if RequiredColumns <= columns then Ok(Enrich(rows))
    else
      MissingColumnsNonEmpty(RequiredColumns, columns);
      Err(RequiredColumns - columns)
  }

  /** Every row counts itself: its group counts and its `n_accounts` are at
      least one. */
  lemma RowCountsItself(rows: seq<Txn>, i: nat)
    requires i < |rows|
    ensures FeaturesOf(rows, rows[i]).dailyCount >= 1
    ensures FeaturesOf(rows, rows[i]).weeklyCount >= 1
    ensures FeaturesOf(rows, rows[i]).monthlyCount >= 1
    ensures FeaturesOf(rows, rows[i]).nAccounts >= 1
  {
    var t := rows[i];
    assert t in Grouping.Members(rows, DayKey, DayKey(t));
    assert t in Grouping.Members(rows, WeekNumberKey, WeekNumberKey(t));
    assert t in Grouping.Members(rows, MonthNumberKey, MonthNumberKey(t));
    var ms := Grouping.Members(rows, IndividualOf, t.individualId);
    assert t in ms;
    var j :| 0 <= j < |ms| && ms[j] == t;
    assert AccountOf(ms[j]) in Grouping.Keys(ms, AccountOf);
  }

  /** Every individual holds at least one account, so the zero replacement
      never applies and each average is the total over `n_accounts`. */
  lemma AveragesDivideByAccounts(rows: seq<Txn>, i: nat)
    requires i < |rows|
    ensures var f := FeaturesOf(rows, rows[i]);
            f.nAccounts >= 1
            && f.avgDaily == f.dailyTotal / f.nAccounts as real
            && f.avgWeekly == f.weeklyTotal / f.nAccounts as real
            && f.avgMonthly == f.monthlyTotal / f.nAccounts as real
  {
    RowCountsItself(rows, i);
  }

  /** The stamps' ISO week is a function of their date. */
  ghost predicate DateFixesWeek(rows: seq<Txn>) {
    forall i, j :: 0 <= i < |rows| && 0 <= j < |rows| && rows[i].time.date == rows[j].time.date ==>
      rows[i].time.isoWeek == rows[j].time.isoWeek
  }

  /** With no negative amounts, a row's daily group is part of its monthly
      group, and of its weekly group when the date fixes the ISO week, so the
      daily figures never exceed the weekly and monthly ones. */
  lemma DailyWithinLongerPeriods(rows: seq<Txn>, i: nat)
    requires i < |rows|
    requires forall r :: 0 <= r < |rows| ==> rows[r].amount >= 0.0
    ensures FeaturesOf(rows, rows[i]).dailyTotal <= FeaturesOf(rows, rows[i]).monthlyTotal
    ensures FeaturesOf(rows, rows[i]).dailyCount <= FeaturesOf(rows, rows[i]).monthlyCount
    ensures DateFixesWeek(rows) ==>
              FeaturesOf(rows, rows[i]).dailyTotal <= FeaturesOf(rows, rows[i]).weeklyTotal
              && FeaturesOf(rows, rows[i]).dailyCount <= FeaturesOf(rows, rows[i]).weeklyCount
  {
    var t := rows[i];
    Grouping.MembersRefine(rows, DayKey, DayKey(t), MonthNumberKey, MonthNumberKey(t), AmountOf);
    if DateFixesWeek(rows) {
      forall r | 0 <= r < |rows| && DayKey(rows[r]) == DayKey(t)
        ensures WeekNumberKey(rows[r]) == WeekNumberKey(t)
      {
        assert rows[r].time.date == rows[i].time.date;
      }
      Grouping.MembersRefine(rows, DayKey, DayKey(t), WeekNumberKey, WeekNumberKey(t), AmountOf);
    }
  }

  /** The weekly group has no year: ISO week 1 of 2024 and ISO week 1 of 2025
      count towards one `weekly_total`. */
  lemma WeekNumberSpansYears()
    ensures var a := Txn("t1", "p1", "acc1", "Bank", 3000.0, Stamp(1704067200, Date(2024, 1, 1), 0, 0, 2024, 1));
            var b := Txn("t2", "p1", "acc1", "Bank", 3000.0, Stamp(1735689600, Date(2025, 1, 1), 0, 2, 2025, 1));
            FeaturesOf([a, b], a).weeklyTotal == 6000.0
            && FeaturesOf([a, b], a).exceedsWeekly == 1
  {
    var a := Txn("t1", "p1", "acc1", "Bank", 3000.0, Stamp(1704067200, Date(2024, 1, 1), 0, 0, 2024, 1));
    var b := Txn("t2", "p1", "acc1", "Bank", 3000.0, Stamp(1735689600, Date(2025, 1, 1), 0, 2, 2025, 1));
    assert [a, b][..1] == [a];
    assert [a][..0] == [];
    assert Grouping.Members([a, b], WeekNumberKey, WeekNumberKey(a)) == [a, b];
    assert Grouping.Sum([a], AmountOf) == 3000.0 by {
      assert [a][..0] == [];
    }
    assert Grouping.Sum([a, b], AmountOf) == 6000.0 by {
      assert [a, b][..1] == [a];
    }
  }

  /** The 17 model features, in the order the matrix is built. */
  const FeatureNames: seq<string> :=
    ["amount", "bank_name", "hour", "weekday",
     "daily_total", "weekly_total", "monthly_total",
     "daily_txn_count", "weekly_txn_count", "monthly_txn_count",
     "n_accounts", "exceeds_daily", "exceeds_weekly", "exceeds_monthly",
     "avg_amount_per_account_daily", "avg_amount_per_account_weekly", "avg_amount_per_account_monthly"]

  /** Column `name` of an enriched row, with the encoded bank in `bank_name`. */
  function FeatureValue(f: Features, name: string, bankCode: real): real {
    if name == "amount" then f.txn.amount
    else if name == "bank_name" then bankCode
    else if name == "hour" then f.txn.time.hour as real
    else if name == "weekday" then f.txn.time.weekday as real
    else if name == "daily_total" then f.dailyTotal
    else if name == "weekly_total" then f.weeklyTotal
    else if name == "monthly_total" then f.monthlyTotal
    else if name == "daily_txn_count" then f.dailyCount as real
    else if name == "weekly_txn_count" then f.weeklyCount as real
    else if name == "monthly_txn_count" then f.monthlyCount as real
    else if name == "n_accounts" then f.nAccounts as real
    else if name == "exceeds_daily" then f.exceedsDaily as real
    else if name == "exceeds_weekly" then f.exceedsWeekly as real
    else if name == "exceeds_monthly" then f.exceedsMonthly as real
    else if name == "avg_amount_per_account_daily" then f.avgDaily
    else if name == "avg_amount_per_account_weekly" then f.avgWeekly
    else f.avgMonthly
  }

  /** One row of `X`: `X[feature] = df[feature]` for each feature in turn. */
  function FeatureVector(f: Features, bankCode: real): (v: seq<real>)
    ensures |v| == |FeatureNames|
  {
    seq(|FeatureNames|, i requires 0 <= i < |FeatureNames| => FeatureValue(f, FeatureNames[i], bankCode))
  }

  /** The vector holds the features in exactly the listed order. */
  lemma FeatureVectorOrder(f: Features, code: real)
    ensures FeatureVector(f, code) ==
      [f.txn.amount, code, f.txn.time.hour as real, f.txn.time.weekday as real,
       f.dailyTotal, f.weeklyTotal, f.monthlyTotal,
       f.dailyCount as real, f.weeklyCount as real, f.monthlyCount as real,
       f.nAccounts as real, f.exceedsDaily as real, f.exceedsWeekly as real, f.exceedsMonthly as real,
       f.avgDaily, f.avgWeekly, f.avgMonthly]
  {
  }

  /** The feature loop: the first listed feature missing from the frame, if any. */
  method FirstMissingFeature(columns: set<string>) returns (missing: Option<string>)
    ensures missing.None? <==> forall i :: 0 <= i < |FeatureNames| ==> FeatureNames[i] in columns
    ensures missing.Some? ==>
              (exists i :: 0 <= i < |FeatureNames| && FeatureNames[i] == missing.value
                 && missing.value !in columns && forall j :: 0 <= j < i ==> FeatureNames[j] in columns)
  {
    var i := 0;
    while i < |FeatureNames|
      invariant i <= |FeatureNames|
      invariant forall j :: 0 <= j < i ==> FeatureNames[j] in columns
    {
      if FeatureNames[i] !in columns {
        return Some(FeatureNames[i]);
      }
      i := i + 1;
    }
    return None;
  }

  /** An enriched frame carries every feature. */
  lemma EnrichedHasFeatures()
    ensures forall i :: 0 <= i < |FeatureNames| ==> FeatureNames[i] in EnrichedColumns
  {
  }

  type Probability = p: real | 0.0 <= p <= 1.0

  /** The loaded pipeline, as opaque functions: the label encoder (None for a
      bank it was not fitted on), the scaler and the model's fraud
      probability (None where they raise). */
  datatype Pipeline = Pipeline(encode: string -> Option<nat>,
                               scale: seq<real> -> Option<seq<real>>,
                               model: seq<real> -> Option<Probability>)

  const SuspiciousThreshold: real := 0.3

  /** `(y_prob >= 0.3).astype(int)`. */
  function Suspicious(p: real): (flag: nat)
    ensures flag == 1 <==> p >= SuspiciousThreshold
    ensures flag == 0 <==> p < SuspiciousThreshold
  {
    if p >= SuspiciousThreshold then 1 else 0
  }

  predicate AllBanksKnown(pipeline: Pipeline, rows: seq<Features>) {
    forall i :: 0 <= i < |rows| ==> pipeline.encode(rows[i].txn.bankName).Some?
  }

  /** The encoded bank column. */
  function BankCodes(pipeline: Pipeline, rows: seq<Features>): (codes: seq<real>)
    ensures |codes| == |rows|
    ensures AllBanksKnown(pipeline, rows) ==>
              forall i :: 0 <= i < |rows| ==> codes[i] == pipeline.encode(rows[i].txn.bankName).value as real
    ensures !AllBanksKnown(pipeline, rows) ==> forall i :: 0 <= i < |rows| ==> codes[i] == 0.0
  {
    if AllBanksKnown(pipeline, rows) then
      seq(|rows|, i requires 0 <= i < |rows| => pipeline.encode(rows[i].txn.bankName).value as real)
    else seq(|rows|, _ => 0.0)
  }

  /** The model's probability for one row, None where scaling or the model fails. */
  function Score(pipeline: Pipeline, f: Features, code: real): Option<Probability> {
    match pipeline.scale(FeatureVector(f, code))
    case None => None
    case Some(x) => pipeline.model(x)
  }

  /** `predict_proba(X)[:, 1]`: every row's probability, or None if any row fails. */
  function ScoreAll(pipeline: Pipeline, rows: seq<Features>, codes: seq<real>): (r: Option<seq<Probability>>)
    requires |codes| == |rows|
    ensures r.Some? <==> forall i :: 0 <= i < |rows| ==> Score(pipeline, rows[i], codes[i]).Some?
    ensures r.Some? ==>
              (|r.value| == |rows|
               && forall i :: 0 <= i < |rows| ==> r.value[i] == Score(pipeline, rows[i], codes[i]).value)
  {
    if rows == [] then Some([])
    else
      var n := |rows| - 1;
      var init := ScoreAll(pipeline, rows[..n], codes[..n]);
      assert forall i :: 0 <= i < n ==> rows[..n][i] == rows[i] && codes[..n][i] == codes[i];
      match init
      case None => None
      case Some(ps) =>
        match Score(pipeline, rows[n], codes[n])
        case None => None
        case Some(p) => Some(ps + [p])
  }

  /** A row of the `fraud_detection_results` table. */
  datatype ResultRow = ResultRow(transactionId: string, individualId: string, accountId: string,
                                 bankName: string, amount: real,
                                 dailyTotal: real, weeklyTotal: real, monthlyTotal: real,
                                 nAccounts: nat, probability: real, suspicious: nat, time: Stamp,
                                 status: string)

  /** The optional filters of the listing. */
  datatype Filters = Filters(dateRange: Option<(Date, Date)>, status: Option<string>, suspicious: Option<bool>)

  /** One `where_clauses` entry with its parameters. */
  datatype Clause = DateBetween(start: Date, end: Date) | StatusIs(status: string) | SuspiciousIs(flag: nat)

  predicate Satisfies(r: ResultRow, c: Clause) {
    match c
    case DateBetween(s, e) => DateLe(s, r.time.date) && DateLe(r.time.date, e)
    case StatusIs(st) => r.status == st
    case SuspiciousIs(v) => r.suspicious == v
  }

  predicate AllSatisfied(r: ResultRow, clauses: seq<Clause>) {
    forall k :: 0 <= k < |clauses| ==> Satisfies(r, clauses[k])
  }

  lemma AllSatisfiedConcat(r: ResultRow, a: seq<Clause>, b: seq<Clause>)
    ensures AllSatisfied(r, a + b) <==> AllSatisfied(r, a) && AllSatisfied(r, b)
  {
    if AllSatisfied(r, a + b) {
      forall k | 0 <= k < |a| ensures Satisfies(r, a[k]) {
        assert (a + b)[k] == a[k];
      }
      forall k | 0 <= k < |b| ensures Satisfies(r, b[k]) {
        assert (a + b)[|a| + k] == b[k];
      }
    }
    if AllSatisfied(r, a) && AllSatisfied(r, b) {
      forall k | 0 <= k < |a + b| ensures Satisfies(r, (a + b)[k]) {
        if k < |a| {
          assert (a + b)[k] == a[k];
        } else {
          assert (a + b)[k] == b[k - |a|];
        }
      }
    }
  }

  lemma AllSatisfiedOne(r: ResultRow, c: Clause)
    ensures AllSatisfied(r, [c]) <==> Satisfies(r, c)
  {
    assert [c][0] == c;
  }

  /** The filters read directly: each one present must hold (an empty status
      counts as absent). */
  predicate MatchesFilters(f: Filters, r: ResultRow) {
    (f.dateRange.Some? ==> DateLe(f.dateRange.value.0, r.time.date) && DateLe(r.time.date, f.dateRange.value.1))
    && (f.status.Some? && f.status.value != "" ==> r.status == f.status.value)
    && (f.suspicious.Some? ==> r.suspicious == Indicator(f.suspicious.value))
  }

  /** Building `where_clauses`: date range, then status, then suspicious, each
      appended when present; a row passes the `AND` of the clauses exactly
      when it matches the filters. */
  method BuildWhereClauses(f: Filters) returns (clauses: seq<Clause>)
    ensures |clauses| <= 3
    ensures forall r :: AllSatisfied(r, clauses) <==> MatchesFilters(f, r)
  {
    var date: seq<Clause> := [];
    var status: seq<Clause> := [];
    var flag: seq<Clause> := [];
    clauses := [];
    if f.dateRange.Some? {
      date := [DateBetween(f.dateRange.value.0, f.dateRange.value.1)];
      clauses := clauses + date;
    }
    assert clauses == date;
    if f.status.Some? && f.status.value != "" {
      status := [StatusIs(f.status.value)];
      clauses := clauses + status;
    }
    assert clauses == date + status;
    if f.suspicious.Some? {
      flag := [SuspiciousIs(Indicator(f.suspicious.value))];
      clauses := clauses + flag;
    }
    assert clauses == date + status + flag;
    forall r ensures AllSatisfied(r, clauses) <==> MatchesFilters(f, r) {
      AllSatisfiedConcat(r, date, status);
      AllSatisfiedConcat(r, date + status, flag);
      if f.dateRange.Some? {
        AllSatisfiedOne(r, DateBetween(f.dateRange.value.0, f.dateRange.value.1));
      }
      if f.status.Some? && f.status.value != "" {
        AllSatisfiedOne(r, StatusIs(f.status.value));
      }
      if f.suspicious.Some? {
        AllSatisfiedOne(r, SuspiciousIs(Indicator(f.suspicious.value)));
      }
    }
  }

  function Matching(rows: seq<ResultRow>, f: Filters): (r: seq<ResultRow>)
    ensures |r| <= |rows|
    ensures forall x :: x in r <==> x in rows && MatchesFilters(f, x)
  {
    if rows == [] then []
    else
      var init := rows[..|rows| - 1];
      assert rows == init + [rows[|rows| - 1]];
      Matching(init, f) + (if MatchesFilters(f, rows[|rows| - 1]) then [rows[|rows| - 1]] else [])
  }

  function Instant(r: ResultRow): int { r.time.instant }

  /** `ORDER BY timestamp DESC`, ties kept in table order. */
  function NewestFirst(rows: seq<ResultRow>): seq<ResultRow> {
    Sorting.SortBy(rows, Sorting.IntDesc(Instant))
  }

  const PageSize: nat := 50

  /** `get_paginated_results`: the page of matching rows, newest first, and
      the number of pages; an empty page and 0 pages where the query fails
      (`table` is None). */
  function PaginatedResults(table: Option<seq<ResultRow>>, page: nat, f: Filters): (r: (seq<ResultRow>, nat))
    ensures table.None? ==> r == ([], 0)
    ensures table.Some? ==> r.1 == Paging.TotalPages(|Matching(table.value, f)|, PageSize)
    ensures table.Some? ==> r.0 == Paging.Page(NewestFirst(Matching(table.value, f)), page, PageSize)
  {
    match table
    case None => ([], 0)
    case Some(rows) =>
      var m := Matching(rows, f);
      (Paging.Page(NewestFirst(m), page, PageSize), Paging.TotalPages(|m|, PageSize))
  }

  /** Every listed row matches the filters, the page is sorted newest first,
      and each matching row is on exactly one page below the page count. */
  lemma PaginatedResultsCorrect(rows: seq<ResultRow>, page: nat, f: Filters)
    ensures var r := PaginatedResults(Some(rows), page, f);
            |r.0| <= PageSize
            && (forall k :: 0 <= k < |r.0| ==> r.0[k] in rows && MatchesFilters(f, r.0[k]))
            && (forall j, k :: 0 <= j < k < |r.0| ==> Instant(r.0[j]) >= Instant(r.0[k]))
  {
    var m := Matching(rows, f);
    var sorted := Sorting.SortBy(m, Sorting.IntDesc(Instant));
    assert sorted == NewestFirst(m);
    var pg := Paging.Page(sorted, page, PageSize);
    Paging.PageElements(sorted, page, PageSize);
    forall k | 0 <= k < |pg| ensures pg[k] in rows && MatchesFilters(f, pg[k]) {
      assert pg[k] in multiset(sorted);
      assert pg[k] in m;
    }
    Sorting.SortByIntDesc(m, Instant);
    forall i, j | 0 <= i < j < |sorted| ensures Instant(sorted[i]) >= Instant(sorted[j]) {
      assert Sorting.SortBy(m, Sorting.IntDesc(Instant))[i] == sorted[i];
    }
    Paging.PageOrdered(sorted, page, PageSize, Instant);
  }

  /** Every matching row appears on the page its sorted position names, and
      that page is below the page count. */
  lemma MatchingRowOnItsPage(rows: seq<ResultRow>, f: Filters, i: nat)
    requires i < |Matching(rows, f)|
    ensures var sorted := NewestFirst(Matching(rows, f));
            i / PageSize < PaginatedResults(Some(rows), i / PageSize, f).1
            && PaginatedResults(Some(rows), i / PageSize, f).0[i % PageSize] == sorted[i]
  {
    Paging.RowOnPage(NewestFirst(Matching(rows, f)), PageSize, i);
  }
}
