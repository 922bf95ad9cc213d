/** The seeding script that recreates the alerts database and fills its four
    alert tables from the stored transactions and fraud detection results:
    each generator runs one selecting query, inserts one alert per row it
    returns and counts them. */
module AlertSeeding {
  import opened Wrappers
  import opened Records
  import opened Alerts
  import Grouping
  import Tables
  import Text

  /** `WHERE amount > threshold LIMIT 100`. */
  function LargeTransactions(ts: seq<Txn>, threshold: real): seq<Txn> {
    Tables.Limit(Tables.Where(ts, (t: Txn) => t.amount > threshold), 100)
  }

  /** `WHERE predicted_suspicious = 1 LIMIT 100`; a failing query reads as
      no rows. */
  function SuspiciousResults(results: Option<seq<FraudResult>>): seq<FraudResult> {
    if results.None? then [] else Tables.Limit(Tables.Where(results.value, Flagged), 100)
  }

  /** `GROUP BY account_id HAVING SUM(amount) < threshold LIMIT 100`. */
  function LowBalances(ts: seq<Txn>, threshold: real): seq<(string, real)> {
    Tables.Limit(Tables.Where(Balances(ts), (b: (string, real)) => b.1 < threshold), 100)
  }

  /** `WHERE predicted_suspicious = 1 GROUP BY account_id HAVING COUNT(*) > 1
      LIMIT 25`; a failing query reads as no rows. */
  function RepeatOffenders(results: Option<seq<FraudResult>>): seq<(string, nat)> {
    if results.None? then []
    else Tables.Limit(Tables.Where(CountsBy(Tables.Where(results.value, Flagged), ResultAccount),
                                   (c: (string, nat)) => c.1 > 1), 25)
  }

  function StatusReason(n: nat): string {
    "Multiple suspicious transactions (" + Text.NatToString(n) + ")"
  }

  function StatusDescription(n: nat): string {
    "Account restricted due to " + Text.NatToString(n) + " suspicious transactions"
  }

  function StatusAlertFor(c: (string, nat), now: int): StatusAlert {
    StatusAlert(now, c.0, "ACTIVE", "RESTRICTED", StatusReason(c.1), "NEW", StatusDescription(c.1))
  }

  function StatusAlerts(cs: seq<(string, nat)>, now: int): seq<StatusAlert> {
    if cs == [] then [] else StatusAlerts(cs[..|cs| - 1], now) + [StatusAlertFor(cs[|cs| - 1], now)]
  }

  /** The counts `main` reports. */
  datatype SeedSummary = SeedSummary(largeTransactions: nat, patternDeviations: nat, dailyBalances: nat,
                                     accountStatuses: nat, total: nat)

  /** The alerts database the script writes. */
  class AlertsDatabase {
    var settings: seq<Setting>
    var largeAlerts: seq<LargeAlert>
    var patternAlerts: seq<PatternAlert>
    var balanceAlerts: seq<BalanceAlert>
    var statusAlerts: seq<StatusAlert>

    /** `initialize_alerts_database`: the old file is removed, so the tables
        start empty and hold exactly the four default settings. */
    constructor (now: int)
      ensures settings == DefaultSettings(now)
      ensures largeAlerts == [] && patternAlerts == [] && balanceAlerts == [] && statusAlerts == []
    {
      settings := DefaultSettings(now);
      largeAlerts, patternAlerts, balanceAlerts, statusAlerts := [], [], [], [];
    }

    /** `generate_large_transaction_alerts`. Without a `large_transaction`
        setting `fetchone()[0]` raises, so the setting is required. */
    method GenerateLargeTransactionAlerts(transactions: seq<Txn>) returns (count: nat)
      requires SettingValue(settings, "large_transaction").Some?
      modifies this
      ensures settings == old(settings)
      ensures var threshold := SettingValue(settings, "large_transaction").value;
              var found := LargeTransactions(transactions, threshold);
              count == |found| && largeAlerts == old(largeAlerts) + LargeAlerts(found, threshold)
      ensures settings == old(settings) && patternAlerts == old(patternAlerts)
      ensures balanceAlerts == old(balanceAlerts) && statusAlerts == old(statusAlerts)
    {
      var threshold := SettingValue(settings, "large_transaction").value;
      var found := LargeTransactions(transactions, threshold);
      if found == [] {
        return 0;
      }
      count := 0;
      for i := 0 to |found|
        invariant count == i
        invariant largeAlerts == old(largeAlerts) + LargeAlerts(found[..i], threshold)
        invariant settings == old(settings) && patternAlerts == old(patternAlerts)
        invariant balanceAlerts == old(balanceAlerts) && statusAlerts == old(statusAlerts)
      {
        assert found[..i + 1][..i] == found[..i];
        assert LargeAlerts(found[..i + 1], threshold) == LargeAlerts(found[..i], threshold) + [LargeAlertFor(found[i], threshold)];
        largeAlerts := largeAlerts + [LargeAlertFor(found[i], threshold)];
        count := count + 1;
      }
      assert found[..|found|] == found;
    }

    /** `generate_fraud_alerts`: one SPENDING_PATTERN alert per flagged
        result, with the severity of its probability. */
    method GenerateFraudAlerts(results: Option<seq<FraudResult>>) returns (count: nat)
      modifies this
      ensures var found := SuspiciousResults(results);
              count == |found| && patternAlerts == old(patternAlerts) + PatternAlerts(found)
      ensures settings == old(settings) && largeAlerts == old(largeAlerts)
      ensures balanceAlerts == old(balanceAlerts) && statusAlerts == old(statusAlerts)
    {
      var found := SuspiciousResults(results);
      if found == [] {
        return 0;
      }
      count := 0;
      for i := 0 to |found|
        invariant count == i
        invariant patternAlerts == old(patternAlerts) + PatternAlerts(found[..i])
        invariant settings == old(settings) && largeAlerts == old(largeAlerts)
        invariant balanceAlerts == old(balanceAlerts) && statusAlerts == old(statusAlerts)
      {
        assert found[..i + 1][..i] == found[..i];
        assert PatternAlerts(found[..i + 1]) == PatternAlerts(found[..i]) + [PatternAlertFor(found[i])];
        patternAlerts := patternAlerts + [PatternAlertFor(found[i])];
        count := count + 1;
      }
      assert found[..|found|] == found;
    }

    /** `generate_balance_alerts`: every alert carries the same `now`. */
    method GenerateBalanceAlerts(transactions: seq<Txn>, now: int) returns (count: nat)
      requires SettingValue(settings, "daily_balance").Some?
      modifies this
      ensures settings == old(settings)
      ensures var threshold := SettingValue(settings, "daily_balance").value;
              var found := LowBalances(transactions, threshold);
              count == |found| && balanceAlerts == old(balanceAlerts) + BalanceAlerts(found, threshold, now)
      ensures largeAlerts == old(largeAlerts)
      ensures patternAlerts == old(patternAlerts) && statusAlerts == old(statusAlerts)
    {
      var threshold := SettingValue(settings, "daily_balance").value;
      var found := LowBalances(transactions, threshold);
      if found == [] {
        return 0;
      }
      count := InsertBalanceAlerts(found, threshold, now);
    }

    /** The insert loop of `generate_balance_alerts`. */
    method InsertBalanceAlerts(found: seq<(string, real)>, threshold: real, now: int) returns (count: nat)
      modifies this
      ensures count == |found| && balanceAlerts == old(balanceAlerts) + BalanceAlerts(found, threshold, now)
      ensures settings == old(settings) && largeAlerts == old(largeAlerts)
      ensures patternAlerts == old(patternAlerts) && statusAlerts == old(statusAlerts)
    {
      count := 0;
      for i := 0 to |found|
        invariant count == i
        invariant balanceAlerts == old(balanceAlerts) + BalanceAlerts(found[..i], threshold, now)
        invariant settings == old(settings) && largeAlerts == old(largeAlerts)
        invariant patternAlerts == old(patternAlerts) && statusAlerts == old(statusAlerts)
      {
        assert found[..i + 1][..i] == found[..i];
        assert BalanceAlerts(found[..i + 1], threshold, now) == BalanceAlerts(found[..i], threshold, now) + [BalanceAlertFor(found[i], threshold, now)];
        balanceAlerts := balanceAlerts + [BalanceAlertFor(found[i], threshold, now)];
        count := count + 1;
      }
      assert found[..|found|] == found;
    }

    /** `generate_status_alerts`: one ACTIVE to RESTRICTED alert per account
        with more than one flagged result. */
    method GenerateStatusAlerts(results: Option<seq<FraudResult>>, now: int) returns (count: nat)
      modifies this
      ensures var found := RepeatOffenders(results);
              count == |found| && statusAlerts == old(statusAlerts) + StatusAlerts(found, now)
      ensures settings == old(settings) && largeAlerts == old(largeAlerts)
      ensures patternAlerts == old(patternAlerts) && balanceAlerts == old(balanceAlerts)
    {
      var found := RepeatOffenders(results);
      if found == [] {
        return 0;
      }
      count := InsertStatusAlerts(found, now);
    }

    /** The insert loop of `generate_status_alerts`. */
    method InsertStatusAlerts(found: seq<(string, nat)>, now: int) returns (count: nat)
      modifies this
      ensures count == |found| && statusAlerts == old(statusAlerts) + StatusAlerts(found, now)
      ensures settings == old(settings) && largeAlerts == old(largeAlerts)
      ensures patternAlerts == old(patternAlerts) && balanceAlerts == old(balanceAlerts)
    {
      count := 0;
      for i := 0 to |found|
        invariant count == i
        invariant statusAlerts == old(statusAlerts) + StatusAlerts(found[..i], now)
        invariant settings == old(settings) && largeAlerts == old(largeAlerts)
        invariant patternAlerts == old(patternAlerts) && balanceAlerts == old(balanceAlerts)
      {
        assert found[..i + 1][..i] == found[..i];
        assert StatusAlerts(found[..i + 1], now) == StatusAlerts(found[..i], now) + [StatusAlertFor(found[i], now)];
        statusAlerts := statusAlerts + [StatusAlertFor(found[i], now)];
        count := count + 1;
      }
      assert found[..|found|] == found;
    }
  }

  /** `main`: a fresh database, the four generators in turn on the default
      thresholds, and the total of their counts. */
  method SeedAlerts(transactions: seq<Txn>, results: Option<seq<FraudResult>>, now: int)
    returns (db: AlertsDatabase, summary: SeedSummary)
    ensures fresh(db)
    ensures summary.largeTransactions == |LargeTransactions(transactions, 10000.0)|
    ensures summary.patternDeviations == |SuspiciousResults(results)|
    ensures summary.dailyBalances == |LowBalances(transactions, 1000.0)|
    ensures summary.accountStatuses == |RepeatOffenders(results)|
    ensures summary.total == summary.largeTransactions + summary.patternDeviations
                             + summary.dailyBalances + summary.accountStatuses
    ensures db.largeAlerts == LargeAlerts(LargeTransactions(transactions, 10000.0), 10000.0)
    ensures db.patternAlerts == PatternAlerts(SuspiciousResults(results))
    ensures db.balanceAlerts == BalanceAlerts(LowBalances(transactions, 1000.0), 1000.0, now)
    ensures db.statusAlerts == StatusAlerts(RepeatOffenders(results), now)
  {
    db := new AlertsDatabase(now);
    DefaultThresholds(now);
    var largeTx := db.GenerateLargeTransactionAlerts(transactions);
    var fraud := db.GenerateFraudAlerts(results);
    var balance := db.GenerateBalanceAlerts(transactions, now);
    var status := db.GenerateStatusAlerts(results, now);
    summary := SeedSummary(largeTx, fraud, balance, status, largeTx + fraud + balance + status);
  }

  /** At most 100 rows are alerted, each strictly over the threshold; when
      fewer than 100 are, every row over the threshold is. */
  lemma LargeTransactionsFacts(ts: seq<Txn>, threshold: real)
    ensures var f := LargeTransactions(ts, threshold);
            |f| <= 100
            && (forall k :: 0 <= k < |f| ==> f[k] in ts && f[k].amount > threshold)
            && (|f| < 100 ==> forall i :: 0 <= i < |ts| && ts[i].amount > threshold ==> ts[i] in f)
  {
    var w := Tables.Where(ts, (t: Txn) => t.amount > threshold);
    var f := LargeTransactions(ts, threshold);
    forall k | 0 <= k < |f| ensures f[k] in ts && f[k].amount > threshold {
      assert f[k] == w[k];
    }
  }

  /** At most 100 results are alerted, each flagged; when fewer than 100 are,
      every flagged result is; a failing query alerts nothing. */
  lemma SuspiciousResultsFacts(results: Option<seq<FraudResult>>)
    ensures var f := SuspiciousResults(results);
            |f| <= 100
            && (results.None? ==> f == [])
            && (results.Some? ==> forall k :: 0 <= k < |f| ==> f[k] in results.value && f[k].suspicious == 1)
            && (results.Some? && |f| < 100 ==>
                  forall i :: 0 <= i < |results.value| && results.value[i].suspicious == 1 ==> results.value[i] in f)
  {
    if results.Some? {
      var w := Tables.Where(results.value, Flagged);
      var f := SuspiciousResults(results);
      forall k | 0 <= k < |f| ensures f[k] in results.value && f[k].suspicious == 1 {
        assert f[k] == w[k];
      }
    }
  }

  function Account<V>(row: (string, V)): string { row.0 }

  /** Rows of a `GROUP BY account_id` result name distinct accounts, and so do
      the rows a filter keeps. */
  lemma FilteredGroupsUnique<V>(rows: seq<(string, V)>, p: ((string, V)) -> bool)
    requires forall j, l :: 0 <= j < l < |rows| ==> rows[j].0 != rows[l].0
    ensures Tables.UniqueKeys(Tables.Where(rows, p), Account)
  {
    Tables.WhereUnique(rows, Account, p);
  }

  /** Every low-balance row is an account of the batch whose amounts sum to
      less than the threshold, and no account is alerted twice. */
  lemma LowBalanceRow(ts: seq<Txn>, threshold: real, k: nat)
    requires k < |LowBalances(ts, threshold)|
    ensures var f := LowBalances(ts, threshold);
            Tables.HasKey(ts, AccountOf, f[k].0)
            && f[k].1 == Grouping.Sum(Grouping.Members(ts, AccountOf, f[k].0), AmountOf)
            && f[k].1 < threshold
            && forall l :: 0 <= l < |f| && l != k ==> f[l].0 != f[k].0
  {
    var b := Balances(ts);
    var p := (x: (string, real)) => x.1 < threshold;
    var w := Tables.Where(b, p);
    var f := LowBalances(ts, threshold);
    assert f[k] == w[k];
    var j :| 0 <= j < |b| && b[j] == w[k];
    BalanceRow(ts, j);
    BalancesUnique(ts);
    FilteredGroupsUnique(b, p);
    forall l | 0 <= l < |f| && l != k ensures f[l].0 != f[k].0 {
      assert f[l] == w[l];
      assert Account(w[l]) != Account(w[k]);
    }
  }

  /** When fewer than 100 accounts are alerted, every account of the batch
      whose amounts sum to less than the threshold is. */
  lemma LowBalancesComplete(ts: seq<Txn>, threshold: real, i: nat)
    requires i < |ts| && |LowBalances(ts, threshold)| < 100
    requires Grouping.Sum(Grouping.Members(ts, AccountOf, ts[i].accountId), AmountOf) < threshold
    ensures exists k :: 0 <= k < |LowBalances(ts, threshold)| && LowBalances(ts, threshold)[k].0 == ts[i].accountId
  {
    var b := Balances(ts);
    var j := BalanceOfAccount(ts, i);
    var f := LowBalances(ts, threshold);
    assert b[j] in f;
  }

  /** Every status alert names an account with more than one flagged result,
      with that number; at most 25 accounts, none twice. */
  lemma RepeatOffenderRow(rs: seq<FraudResult>, k: nat)
    requires k < |RepeatOffenders(Some(rs))|
    ensures var f := RepeatOffenders(Some(rs));
            var flagged := Tables.Where(rs, Flagged);
            |f| <= 25
            && Tables.HasKey(flagged, ResultAccount, f[k].0)
            && f[k].1 == |Grouping.Members(flagged, ResultAccount, f[k].0)|
            && f[k].1 >= 2
            && forall l :: 0 <= l < |f| && l != k ==> f[l].0 != f[k].0
  {
    var flagged := Tables.Where(rs, Flagged);
    var c := CountsBy(flagged, ResultAccount);
    var p := (x: (string, nat)) => x.1 > 1;
    var w := Tables.Where(c, p);
    var f := RepeatOffenders(Some(rs));
    assert f[k] == w[k];
    var j :| 0 <= j < |c| && c[j] == w[k];
    CountRow(flagged, ResultAccount, j);
    forall m, n | 0 <= m < n < |c| ensures c[m].0 != c[n].0 {
      CountRow(flagged, ResultAccount, m);
    }
    FilteredGroupsUnique(c, p);
    forall l | 0 <= l < |f| && l != k ensures f[l].0 != f[k].0 {
      assert f[l] == w[l];
      assert Account(w[l]) != Account(w[k]);
    }
  }

  /** A failing query and an empty source both alert nothing. */
  lemma EmptySourcesAlertNothing(threshold: real)
    ensures LargeTransactions([], threshold) == [] && LowBalances([], threshold) == []
    ensures SuspiciousResults(None) == [] && SuspiciousResults(Some([])) == []
    ensures RepeatOffenders(None) == [] && RepeatOffenders(Some([])) == []
  {
    assert Balances([]) == [];
    assert CountsBy(Tables.Where([], Flagged), ResultAccount) == [];
  }
}
