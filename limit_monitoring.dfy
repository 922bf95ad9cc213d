/** The limit-violation engine of the limit monitoring page: per-individual
    daily, weekly and monthly totals, the violation rule, the stored violation
    records and the configured limits.  Both copies of the page share it;
    LimitPage and LimitRoot hold what differs between them. */
module LimitMonitoring {
  import opened Wrappers
  import opened Records
  import Grouping
  import Text
  import Sorting

  datatype Period = Daily | Weekly | Monthly

  /** The `period_type` column of a stored violation. */
  function PeriodName(p: Period): string {
    match p
    case Daily => "daily"
    case Weekly => "weekly"
    case Monthly => "monthly"
  }

  datatype PeriodKey = DayOf(date: Date) | WeekOf(year: nat, week: nat) | MonthOf(year: nat, month: nat)

  /** A group: one individual in one period. */
  datatype GroupKey = GroupKey(individualId: string, period: PeriodKey)

  /** The weekly key as the page computes it: calendar year with ISO week. */
  function WeekKeyAsWritten(s: Stamp): PeriodKey {
    WeekOf(s.date.year, s.isoWeek)
  }

  /** The weekly key the model uses: ISO year with ISO week. */
  function WeekKey(s: Stamp): PeriodKey {
    WeekOf(s.isoYear, s.isoWeek)
  }

  function PeriodKeyOf(p: Period, s: Stamp): PeriodKey {
    match p
    case Daily => DayOf(s.date)
    case Weekly => WeekKey(s)
    case Monthly => MonthOf(s.date.year, s.date.month)
  }

  function KeyFn(p: Period): Txn -> GroupKey {
    (t: Txn) => GroupKey(t.individualId, PeriodKeyOf(p, t.time))
  }

  /** One row of `daily_totals`, `weekly_totals` or `monthly_totals`: the summed
      amount, the `", "`-joined sorted distinct banks and accounts, the row count
      (`transaction_id: count`) and the two comma-derived counts. */
  datatype PeriodTotal = PeriodTotal(individualId: string, period: PeriodKey, amount: real,
                                     bankNames: string, accountIds: string, transactionCount: nat,
                                     numBanks: nat, numAccounts: nat)

  /** `', '.join(sorted(set(column)))`. */
  function JoinedDistinct(column: seq<string>): string {
    Text.Join(Text.SortedDistinct(column), ", ")
  }

  /** `str.count(',') + 1`: the number of values in a joined column. */
  function ValueCount(joined: string): nat {
    Text.CountChar(joined, ',') + 1
  }

  function Summarize(k: GroupKey, members: seq<Txn>): PeriodTotal {
    var banks := JoinedDistinct(Grouping.Column(members, BankOf));
    var accounts := JoinedDistinct(Grouping.Column(members, AccountOf));
    PeriodTotal(k.individualId, k.period, Grouping.Sum(members, AmountOf), banks, accounts,
                |members|, ValueCount(banks), ValueCount(accounts))
  }

  function TotalsOf(ks: seq<GroupKey>, rows: seq<Txn>, p: Period): seq<PeriodTotal> {
    seq(|ks|, i requires 0 <= i < |ks| => Summarize(ks[i], Grouping.Members(rows, KeyFn(p), ks[i])))
  }

  /** The `groupby(...).agg(...)` table of one period. */
  function Totals(rows: seq<Txn>, p: Period): seq<PeriodTotal> {
    TotalsOf(Grouping.Keys(rows, KeyFn(p)), rows, p)
  }

  /** The violation rule: over the limit, or at least 80% of it spread over
      more than one account. */
  predicate Flagged(t: PeriodTotal, limit: real) {
    t.amount > limit || (t.amount >= limit * 0.8 && t.numAccounts > 1)
  }

  function FlaggedOnly(ts: seq<PeriodTotal>, limit: real): (r: seq<PeriodTotal>)
    ensures |r| <= |ts|
    ensures forall t :: t in r <==> t in ts && Flagged(t, limit)
  {
    if ts == [] then []
    else
      var init := ts[..|ts| - 1];
      assert ts == init + [ts[|ts| - 1]];
      FlaggedOnly(init, limit) + (if Flagged(ts[|ts| - 1], limit) then [ts[|ts| - 1]] else [])
  }

  /** The reported groups of one period. */
  function Violations(rows: seq<Txn>, p: Period, limit: real): (r: seq<PeriodTotal>)
    ensures forall t :: t in r <==> t in Totals(rows, p) && Flagged(t, limit)
  {
    FlaggedOnly(Totals(rows, p), limit)
  }

  datatype Limits = Limits(daily: real, weekly: real, monthly: real)

  function LimitFor(limits: Limits, p: Period): real {
    match p
    case Daily => limits.daily
    case Weekly => limits.weekly
    case Monthly => limits.monthly
  }

  datatype LimitReport = LimitReport(daily: seq<PeriodTotal>, weekly: seq<PeriodTotal>, monthly: seq<PeriodTotal>)

  function ReportFor(report: LimitReport, p: Period): seq<PeriodTotal> {
    match p
    case Daily => report.daily
    case Weekly => report.weekly
    case Monthly => report.monthly
  }

  /** The three violation tables for a batch. */
  function Analyze(rows: seq<Txn>, limits: Limits): LimitReport
  {
    LimitReport(Violations(rows, Daily, limits.daily), Violations(rows, Weekly, limits.weekly),
                Violations(rows, Monthly, limits.monthly))
  }

  /** The `violation_type` stored for a reported group. */
  function ViolationType(amount: real, limit: real): string {
    if amount > limit then "Direct Violation" else "Potential Circumvention"
  }

  /** The `period_date` column: `str(date)`, `"Week {week}, {year}"` or `"{month}/{year}"`. */
  function PeriodLabel(k: PeriodKey): string {
    match k
    case DayOf(d) => DateText(d)
    case WeekOf(y, w) => "Week " + Text.NatToString(w) + ", " + Text.NatToString(y)
    case MonthOf(y, m) => Text.NatToString(m) + "/" + Text.NatToString(y)
  }

  /** One row of the `violations` table. */
  datatype ViolationRecord = ViolationRecord(individualId: string, periodType: string, periodDate: string,
                                             amount: real, numAccounts: nat, numBanks: nat,
                                             bankNames: string, accountIds: string,
                                             transactionCount: nat, limitValue: real, violationType: string)

  function RecordFor(t: PeriodTotal, p: Period, limits: Limits): ViolationRecord {
    var limit := LimitFor(limits, p);
    ViolationRecord(t.individualId, PeriodName(p), PeriodLabel(t.period), t.amount, t.numAccounts,
                    t.numBanks, t.bankNames, t.accountIds, t.transactionCount, limit,
                    ViolationType(t.amount, limit))
  }

  function RecordsFor(ts: seq<PeriodTotal>, p: Period, limits: Limits): seq<ViolationRecord> {
    seq(|ts|, i requires 0 <= i < |ts| => RecordFor(ts[i], p, limits))
  }

  /** All rows one save inserts: daily, then weekly, then monthly. */
  function ReportRecords(report: LimitReport, limits: Limits): seq<ViolationRecord> {
    RecordsFor(report.daily, Daily, limits) + RecordsFor(report.weekly, Weekly, limits)
      + RecordsFor(report.monthly, Monthly, limits)
  }

  /** The `violations` table. */
  class ViolationTable {
    var records: seq<ViolationRecord>

    constructor ()
      ensures records == []
    {
      records := [];
    }

    /** Inserts one record per total, counting them. */
    method InsertAll(ts: seq<PeriodTotal>, p: Period, limits: Limits) returns (n: nat)
      modifies this
      ensures records == old(records) + RecordsFor(ts, p, limits)
      ensures n == |ts|
    {
      n := 0;
      while n < |ts|
        invariant n <= |ts|
        invariant records == old(records) + RecordsFor(ts[..n], p, limits)
      {
        assert RecordsFor(ts[..n + 1], p, limits) == RecordsFor(ts[..n], p, limits) + [RecordFor(ts[n], p, limits)];
        records := records + [RecordFor(ts[n], p, limits)];
        n := n + 1;
      }
      assert ts[..n] == ts;
    }

    /** `save_violations_to_db`: no connection gives None; a failing statement
        rolls back and gives 0; otherwise every reported group is inserted
        and their number returned. */
    method SaveViolations(report: LimitReport, limits: Limits, db: DbStatus) returns (inserted: Option<nat>)
      modifies this
      ensures db == NoConnection ==> inserted == None && records == old(records)
      ensures db == StatementFails ==> inserted == Some(0) && records == old(records)
      ensures db == Works ==> inserted == Some(|report.daily| + |report.weekly| + |report.monthly|)
      ensures db == Works ==> records == old(records) + ReportRecords(report, limits)
    {
      if db == NoConnection {
        return None;
      }
      var before := records;
      var d := InsertAll(report.daily, Daily, limits);
      var w := InsertAll(report.weekly, Weekly, limits);
      var m := InsertAll(report.monthly, Monthly, limits);
      if db == StatementFails {
        records := before;
        inserted := Some(0);
      } else {
        inserted := Some(d + w + m);
      }
    }
  }

  /** `preprocess_dataframe`: convert the `amount` and `timestamp` columns, or
      give None when either column is absent or any cell does not convert. */
  function Preprocess(columns: set<string>, raw: seq<RawTxn>): (r: Option<seq<Txn>>)
    ensures r.Some? <==> "amount" in columns && "timestamp" in columns
                         && forall i :: 0 <= i < |raw| ==> Convertible(raw[i])
    ensures r.Some? ==> |r.value| == |raw| && forall i :: 0 <= i < |raw| ==> r.value[i] == Converted(raw[i])
  {
    if "amount" in columns && "timestamp" in columns then ConvertAll(raw) else None
  }

  /** The columns the upload handler insists on before analysing. */
  const UploadColumns: set<string> := {"individual_id", "amount", "timestamp"}

  /** The columns `analyze_limits` reads beyond the upload columns. */
  const AggregatedColumns: set<string> := {"bank_name", "account_id", "transaction_id"}

  /** One row of the `settings` table. */
  datatype SettingRow = SettingRow(name: string, value: real)

  const DefaultLimits := Limits(1000.0, 5000.0, 10000.0)

  /** The value of the last row named `name`, or `default` when there is none. */
  function LastSetting(rows: seq<SettingRow>, name: string, default: real): (v: real)
    ensures (forall i :: 0 <= i < |rows| ==> rows[i].name != name) ==> v == default
    ensures (exists i :: 0 <= i < |rows| && rows[i].name == name) ==>
              exists i :: 0 <= i < |rows| && rows[i].name == name && v == rows[i].value
                && forall j :: i < j < |rows| ==> rows[j].name != name
  {
    if rows == [] then default
    else if rows[|rows| - 1].name == name then rows[|rows| - 1].value
    else
      var init := rows[..|rows| - 1];
      assert forall i :: 0 <= i < |init| ==> init[i] == rows[i];
      LastSetting(init, name, default)
  }

  function LimitsFromSettings(rows: seq<SettingRow>): Limits {
    Limits(LastSetting(rows, "daily_limit", DefaultLimits.daily),
           LastSetting(rows, "weekly_limit", DefaultLimits.weekly),
           LastSetting(rows, "monthly_limit", DefaultLimits.monthly))
  }

  /** `get_settings_from_db`: start from the defaults and let each
      `daily_limit`, `weekly_limit` or `monthly_limit` row overwrite its entry;
      `rows` is None when the connection or the query failed. */
  method GetSettingsFromDb(rows: Option<seq<SettingRow>>) returns (limits: Limits)
    ensures rows.None? ==> limits == DefaultLimits
    ensures rows.Some? ==> limits == LimitsFromSettings(rows.value)
  {
    limits := DefaultLimits;
    if rows.None? {
      return;
    }
    var rs := rows.value;
    var i := 0;
    while i < |rs|
      invariant i <= |rs|
      invariant limits == LimitsFromSettings(rs[..i])
    {
      assert rs[..i + 1][..i] == rs[..i];
      if rs[i].name == "daily_limit" {
        limits := limits.(daily := rs[i].value);
      } else if rs[i].name == "weekly_limit" {
        limits := limits.(weekly := rs[i].value);
      } else if rs[i].name == "monthly_limit" {
        limits := limits.(monthly := rs[i].value);
      }
      i := i + 1;
    }
    assert rs[..i] == rs;
  }

  function TimeOf(t: Txn): Stamp { t.time }
  function TotalAmount(t: PeriodTotal): real { t.amount }
  function TotalCount(t: PeriodTotal): real { t.transactionCount as real }

  lemma TotalsOfSums(ks: seq<GroupKey>, rows: seq<Txn>, p: Period)
    ensures Grouping.Sum(TotalsOf(ks, rows, p), TotalAmount) == Grouping.GroupSums(ks, rows, KeyFn(p), AmountOf)
    ensures Grouping.Sum(TotalsOf(ks, rows, p), TotalCount) == Grouping.GroupSums(ks, rows, KeyFn(p), Grouping.One)
  {
    TotalsOfAmounts(ks, rows, p);
    TotalsOfCounts(ks, rows, p);
  }

  lemma {:induction false} TotalsOfAmounts(ks: seq<GroupKey>, rows: seq<Txn>, p: Period)
    ensures Grouping.Sum(TotalsOf(ks, rows, p), TotalAmount) == Grouping.GroupSums(ks, rows, KeyFn(p), AmountOf)
  {
    if ks != [] {
      var init := ks[..|ks| - 1];
      TotalsOfAmounts(init, rows, p);
      var ts := TotalsOf(ks, rows, p);
      var ms := Grouping.Members(rows, KeyFn(p), ks[|ks| - 1]);
      assert Grouping.Sum(ts, TotalAmount) == Grouping.Sum(TotalsOf(init, rows, p), TotalAmount) + TotalAmount(ts[|ts| - 1]) by {
        assert ts[..|ts| - 1] == TotalsOf(init, rows, p);
      }
      assert TotalAmount(ts[|ts| - 1]) == Grouping.Sum(ms, AmountOf) by {
        assert ts[|ts| - 1] == Summarize(ks[|ks| - 1], ms);
      }
    }
  }

  lemma {:induction false} TotalsOfCounts(ks: seq<GroupKey>, rows: seq<Txn>, p: Period)
    ensures Grouping.Sum(TotalsOf(ks, rows, p), TotalCount) == Grouping.GroupSums(ks, rows, KeyFn(p), Grouping.One)
  {
    if ks != [] {
      var init := ks[..|ks| - 1];
      TotalsOfCounts(init, rows, p);
      var ts := TotalsOf(ks, rows, p);
      var ms := Grouping.Members(rows, KeyFn(p), ks[|ks| - 1]);
      assert Grouping.Sum(ts, TotalCount) == Grouping.Sum(TotalsOf(init, rows, p), TotalCount) + TotalCount(ts[|ts| - 1]) by {
        assert ts[..|ts| - 1] == TotalsOf(init, rows, p);
      }
      assert TotalCount(ts[|ts| - 1]) == Grouping.Sum(ms, Grouping.One) by {
        Grouping.SumOnes(ms);
        assert ts[|ts| - 1] == Summarize(ks[|ks| - 1], ms);
      }
    }
  }

  /** The totals of one period partition the batch: their amounts add up to
      the batch total and their counts to the number of rows. */
  lemma TotalsPartitionBatch(rows: seq<Txn>, p: Period)
    ensures Grouping.Sum(Totals(rows, p), TotalAmount) == Grouping.Sum(rows, AmountOf)
    ensures Grouping.Sum(Totals(rows, p), TotalCount) == |rows| as real
  {
    var ks := Grouping.Keys(rows, KeyFn(p));
    TotalsOfSums(ks, rows, p);
    Grouping.GroupSumsPartition(rows, KeyFn(p), AmountOf);
    Grouping.GroupSizesPartition(rows, KeyFn(p));
  }

  lemma TotalAt(rows: seq<Txn>, p: Period, i: nat)
    requires i < |Totals(rows, p)|
    ensures var k := Grouping.Keys(rows, KeyFn(p))[i];
            Totals(rows, p)[i].individualId == k.individualId && Totals(rows, p)[i].period == k.period
  {
  }

  /** Each (individual, period) key has exactly one total, and every row's key
      has one. */
  lemma TotalsKeyed(rows: seq<Txn>, p: Period)
    ensures forall i, j :: 0 <= i < j < |Totals(rows, p)| ==>
              Totals(rows, p)[i].individualId != Totals(rows, p)[j].individualId
              || Totals(rows, p)[i].period != Totals(rows, p)[j].period
    ensures forall r :: 0 <= r < |rows| ==>
              (exists i :: 0 <= i < |Totals(rows, p)|
                && Totals(rows, p)[i].individualId == rows[r].individualId
                && Totals(rows, p)[i].period == PeriodKeyOf(p, rows[r].time))
  {
    TotalsDistinct(rows, p);
    var ks := Grouping.Keys(rows, KeyFn(p));
    var ts := Totals(rows, p);
    forall r | 0 <= r < |rows|
      ensures exists i :: 0 <= i < |ts| && ts[i].individualId == rows[r].individualId
                && ts[i].period == PeriodKeyOf(p, rows[r].time)
    {
      assert KeyFn(p)(rows[r]) in ks;
      var i :| 0 <= i < |ks| && ks[i] == KeyFn(p)(rows[r]);
      TotalAt(rows, p, i);
    }
  }

  lemma TotalsDistinct(rows: seq<Txn>, p: Period)
    ensures forall i, j :: 0 <= i < j < |Totals(rows, p)| ==>
              Totals(rows, p)[i].individualId != Totals(rows, p)[j].individualId
              || Totals(rows, p)[i].period != Totals(rows, p)[j].period
  {
    var ks := Grouping.Keys(rows, KeyFn(p));
    var ts := Totals(rows, p);
    forall i, j | 0 <= i < j < |ts|
      ensures ts[i].individualId != ts[j].individualId || ts[i].period != ts[j].period
    {
      TotalAt(rows, p, i);
      TotalAt(rows, p, j);
      assert ks[i] != ks[j];
    }
  }

  /** When no value of the column contains a comma, `count(',') + 1` over the
      joined sorted distinct values is the number of distinct values. */
  lemma JoinedDistinctCount(ms: seq<Txn>, f: Txn -> string)
    requires |ms| > 0
    requires forall x :: x in ms ==> Text.CountChar(f(x), ',') == 0
    ensures ValueCount(JoinedDistinct(Grouping.Column(ms, f))) == |Grouping.Distinct(ms, f)|
  {
    var col := Grouping.Column(ms, f);
    var sd := Text.SortedDistinct(col);
    DistinctOfColumn(ms, f);
    assert col[0] in sd;
    SortedDistinctWithoutCommas(ms, f);
    Text.CommasOfJoin(sd);
  }

  lemma DistinctOfColumn(ms: seq<Txn>, f: Txn -> string)
    ensures Grouping.Distinct(Grouping.Column(ms, f), Text.Identity) == Grouping.Distinct(ms, f)
  {
    var col := Grouping.Column(ms, f);
    forall v | v in Grouping.Distinct(ms, f) ensures v in Grouping.Distinct(col, Text.Identity) {
      var i :| 0 <= i < |ms| && f(ms[i]) == v;
      assert Text.Identity(col[i]) == v;
    }
  }

  lemma SortedDistinctWithoutCommas(ms: seq<Txn>, f: Txn -> string)
    requires forall x :: x in ms ==> Text.CountChar(f(x), ',') == 0
    ensures var sd := Text.SortedDistinct(Grouping.Column(ms, f));
            forall j :: 0 <= j < |sd| ==> Text.CountChar(sd[j], ',') == 0
  {
    var col := Grouping.Column(ms, f);
    var sd := Text.SortedDistinct(col);
    forall j | 0 <= j < |sd| ensures Text.CountChar(sd[j], ',') == 0 {
      assert sd[j] in col;
      var i :| 0 <= i < |col| && col[i] == sd[j];
      assert ms[i] in ms;
    }
  }

  /** `num_banks` and `num_accounts` are the numbers of distinct banks and
      accounts in the group, provided no bank name or account id contains a
      comma. */
  lemma DistinctCountsWithoutCommas(rows: seq<Txn>, p: Period, i: nat)
    requires i < |Totals(rows, p)|
    requires forall r :: 0 <= r < |rows| ==>
               Text.CountChar(rows[r].bankName, ',') == 0 && Text.CountChar(rows[r].accountId, ',') == 0
    ensures var ms := Grouping.Members(rows, KeyFn(p), Grouping.Keys(rows, KeyFn(p))[i]);
            Totals(rows, p)[i].numBanks == |Grouping.Distinct(ms, BankOf)|
            && Totals(rows, p)[i].numAccounts == |Grouping.Distinct(ms, AccountOf)|
  {
    var ks := Grouping.Keys(rows, KeyFn(p));
    var ms := Grouping.Members(rows, KeyFn(p), ks[i]);
    TotalIsSummary(rows, p, i);
    MembersWithoutCommas(rows, KeyFn(p), ks[i]);
    SummaryCounts(ks[i], ms);
  }

  lemma TotalIsSummary(rows: seq<Txn>, p: Period, i: nat)
    requires i < |Totals(rows, p)|
    ensures var k := Grouping.Keys(rows, KeyFn(p))[i];
            Totals(rows, p)[i] == Summarize(k, Grouping.Members(rows, KeyFn(p), k))
  {
  }

  lemma SummaryCounts(k: GroupKey, ms: seq<Txn>)
    requires |ms| > 0
    requires forall x :: x in ms ==> Text.CountChar(BankOf(x), ',') == 0 && Text.CountChar(AccountOf(x), ',') == 0
    ensures Summarize(k, ms).numBanks == |Grouping.Distinct(ms, BankOf)|
    ensures Summarize(k, ms).numAccounts == |Grouping.Distinct(ms, AccountOf)|
  {
    JoinedDistinctCount(ms, BankOf);
    JoinedDistinctCount(ms, AccountOf);
  }

  lemma MembersWithoutCommas(rows: seq<Txn>, key: Txn -> GroupKey, k: GroupKey)
    requires k in Grouping.Keys(rows, key)
    requires forall r :: 0 <= r < |rows| ==>
               Text.CountChar(rows[r].bankName, ',') == 0 && Text.CountChar(rows[r].accountId, ',') == 0
    ensures |Grouping.Members(rows, key, k)| > 0
    ensures forall x :: x in Grouping.Members(rows, key, k) ==>
              Text.CountChar(BankOf(x), ',') == 0 && Text.CountChar(AccountOf(x), ',') == 0
  {
    var ks := Grouping.Keys(rows, key);
    var j :| 0 <= j < |ks| && ks[j] == k;
    var r :| 0 <= r < |rows| && key(rows[r]) == k;
    assert rows[r] in Grouping.Members(rows, key, k);
  }

  /** A single account whose id contains a comma is counted as two accounts,
      so a lone 900 against a daily limit of 1000 is reported as a possible
      circumvention. */
  lemma CommaInAccountIdCountsTwice()
    ensures var t := Txn("t1", "p1", "A,B", "Bank", 900.0, Stamp(0, Date(2024, 1, 1), 0, 0, 2024, 1));
            var total := Totals([t], Daily)[0];
            |Totals([t], Daily)| == 1
            && |Grouping.Distinct([t], AccountOf)| == 1
            && total.numAccounts == 2
            && t in [t] && total in Violations([t], Daily, 1000.0)
  {
    var t := Txn("t1", "p1", "A,B", "Bank", 900.0, Stamp(0, Date(2024, 1, 1), 0, 0, 2024, 1));
    var k := KeyFn(Daily)(t);
    assert Grouping.Keys([t], KeyFn(Daily)) == [k] by {
      assert [t][..0] == [];
    }
    assert Grouping.Members([t], KeyFn(Daily), k) == [t] by {
      assert [t][..0] == [];
    }
    assert Grouping.Distinct([t], AccountOf) == {"A,B"};
    var col := Grouping.Column([t], AccountOf);
    assert col == ["A,B"];
    assert Grouping.Keys(col, Text.Identity) == ["A,B"] by {
      assert col[..0] == [];
    }
    assert Text.SortedDistinct(col) == ["A,B"] by {
      assert Sorting.SortBy(["A,B"], Text.StrLe) == ["A,B"] by {
        assert ["A,B"][..0] == [];
      }
    }
    assert Text.CountChar("A,B", ',') == 1 by {
      assert "A,B"[1..] == ",B";
      assert ",B"[1..] == "B";
      assert "B"[1..] == "";
    }
  }

  /** Distinct period keys get distinct `period_date` labels. */
  lemma PeriodLabelInjective(k1: PeriodKey, k2: PeriodKey)
    requires PeriodLabel(k1) == PeriodLabel(k2)
    ensures k1 == k2
  {
    match k1 {
      case DayOf(d1) =>
        match k2 {
          case DayOf(d2) => DayLabelInjective(d1, d2);
          case WeekOf(_, _) => LabelStartsWithDigit(k1);
          case MonthOf(_, _) => DayMonthLabelsDiffer(k1, k2);
        }
      case WeekOf(y1, w1) =>
        match k2 {
          case DayOf(_) => LabelStartsWithDigit(k2);
          case WeekOf(y2, w2) => WeekLabelInjective(y1, w1, y2, w2);
          case MonthOf(_, _) => LabelStartsWithDigit(k2);
        }
      case MonthOf(y1, m1) =>
        match k2 {
          case DayOf(_) => DayMonthLabelsDiffer(k2, k1);
          case WeekOf(_, _) => LabelStartsWithDigit(k1);
          case MonthOf(y2, m2) => MonthLabelInjective(y1, m1, y2, m2);
        }
    }
  }

  lemma LabelStartsWithDigit(k: PeriodKey)
    requires !k.WeekOf?
    ensures |PeriodLabel(k)| > 0 && Text.IsDigit(PeriodLabel(k)[0])
  {
  }

  lemma DayLabelInjective(d1: Date, d2: Date)
    requires PeriodLabel(DayOf(d1)) == PeriodLabel(DayOf(d2))
    ensures d1 == d2
  {
    var y1, m1, e1 := Text.PadNat(d1.year, 4), Text.PadNat(d1.month, 2), Text.PadNat(d1.day, 2);
    var y2, m2, e2 := Text.PadNat(d2.year, 4), Text.PadNat(d2.month, 2), Text.PadNat(d2.day, 2);
    assert PeriodLabel(DayOf(d1)) == y1 + "-" + (m1 + "-" + e1);
    assert PeriodLabel(DayOf(d2)) == y2 + "-" + (m2 + "-" + e2);
    Text.SplitAfterDigits(y1, m1 + "-" + e1, y2, m2 + "-" + e2, "-");
    Text.SplitAfterDigits(m1, e1, m2, e2, "-");
    Text.PadNatValue(d1.year, 4);
    Text.PadNatValue(d2.year, 4);
    Text.PadNatValue(d1.month, 2);
    Text.PadNatValue(d2.month, 2);
    Text.PadNatValue(d1.day, 2);
    Text.PadNatValue(d2.day, 2);
  }

  lemma WeekLabelInjective(y1: nat, w1: nat, y2: nat, w2: nat)
    requires PeriodLabel(WeekOf(y1, w1)) == PeriodLabel(WeekOf(y2, w2))
    ensures y1 == y2 && w1 == w2
  {
    var a, b := Text.NatToString(w1), Text.NatToString(y1);
    var c, d := Text.NatToString(w2), Text.NatToString(y2);
    assert PeriodLabel(WeekOf(y1, w1)) == "Week " + (a + ", " + b);
    assert PeriodLabel(WeekOf(y2, w2)) == "Week " + (c + ", " + d);
    assert a + ", " + b == ("Week " + (a + ", " + b))[5..];
    assert c + ", " + d == ("Week " + (c + ", " + d))[5..];
    Text.SplitAfterDigits(a, b, c, d, ", ");
    Text.NatToStringValue(w1);
    Text.NatToStringValue(w2);
    Text.NatToStringValue(y1);
    Text.NatToStringValue(y2);
  }

  lemma MonthLabelInjective(y1: nat, m1: nat, y2: nat, m2: nat)
    requires PeriodLabel(MonthOf(y1, m1)) == PeriodLabel(MonthOf(y2, m2))
    ensures y1 == y2 && m1 == m2
  {
    Text.SplitAfterDigits(Text.NatToString(m1), Text.NatToString(y1), Text.NatToString(m2), Text.NatToString(y2), "/");
    Text.NatToStringValue(m1);
    Text.NatToStringValue(m2);
    Text.NatToStringValue(y1);
    Text.NatToStringValue(y2);
  }

  /** A day label has `-` after its leading digits, a month label `/`. */
  lemma DayMonthLabelsDiffer(kd: PeriodKey, km: PeriodKey)
    requires kd.DayOf? && km.MonthOf?
    ensures PeriodLabel(kd) != PeriodLabel(km)
  {
    var a := Text.PadNat(kd.date.year, 4);
    var ra := "-" + Text.PadNat(kd.date.month, 2) + "-" + Text.PadNat(kd.date.day, 2);
    var c := Text.NatToString(km.month);
    var rc := "/" + Text.NatToString(km.year);
    assert PeriodLabel(kd) == a + ra;
    assert PeriodLabel(km) == c + rc;
    Text.DigitRunOf(a, ra);
    Text.DigitRunOf(c, rc);
    assert (a + ra)[|a|] == '-';
    assert (c + rc)[|c|] == '/';
  }

  /** Each of the three reports holds exactly the flagged totals of its
      period, judged against that period's limit. */
  lemma AnalyzeReportsFlagged(rows: seq<Txn>, limits: Limits, p: Period)
    ensures forall t :: t in ReportFor(Analyze(rows, limits), p) <==>
              t in Totals(rows, p) && Flagged(t, LimitFor(limits, p))
  {
    match p {
      case Daily =>
      case Weekly =>
      case Monthly =>
    }
  }

  /** A flagged group (every member of `Violations`) is typed Direct Violation
      exactly when it is over the limit; every other flagged group is within [80%, 100%] of the limit and
      spread over more than one account. */
  lemma ReportedRowsClassified(t: PeriodTotal, limit: real)
    requires Flagged(t, limit)
    ensures ViolationType(t.amount, limit) == "Direct Violation" <==> t.amount > limit
    ensures ViolationType(t.amount, limit) == "Potential Circumvention" <==>
              limit * 0.8 <= t.amount <= limit && t.numAccounts > 1
  {
  }

  /** The weekly key as written files 2024-01-01 (ISO week 1 of 2024) and
      2024-12-30 (ISO week 1 of 2025) under the same key (2024, 1), although
      they lie 52 weeks apart; the ISO-year key keeps them apart. */
  lemma WeekKeyAsWrittenMergesYears()
    ensures var s1 := Stamp(1704067200, Date(2024, 1, 1), 0, 0, 2024, 1);
            var s2 := Stamp(1735516800, Date(2024, 12, 30), 0, 0, 2025, 1);
            WeekKeyAsWritten(s1) == WeekKeyAsWritten(s2)
            && AbsoluteWeek(s1) == 2818 && AbsoluteWeek(s2) == 2870
            && WeekKey(s1) != WeekKey(s2)
  {
  }

  /** With calendar-faithful ISO labels, two rows of one individual share a
      weekly total exactly when they fall in the same Monday-to-Sunday week. */
  lemma WeeklyGroupsAreCalendarWeeks(rows: seq<Txn>, i: nat, j: nat)
    requires IsoLabelsFaithful(Grouping.Column(rows, TimeOf))
    requires i < |rows| && j < |rows|
    requires rows[i].individualId == rows[j].individualId
    ensures KeyFn(Weekly)(rows[i]) == KeyFn(Weekly)(rows[j]) <==>
              AbsoluteWeek(rows[i].time) == AbsoluteWeek(rows[j].time)
  {
    var c := Grouping.Column(rows, TimeOf);
    assert c[i] == rows[i].time && c[j] == rows[j].time;
  }
}
