/** What the two alert generators share: the severity tiers of a fraud
    probability, the rows of the four alert tables and of `alert_settings`,
    and the `GROUP BY account_id` aggregates their queries compute. */
module Alerts {
  import opened Wrappers
  import opened Records
  import Grouping
  import Tables

  datatype Severity = Low | Medium | High | Critical

  /** Severity order, LOW below MEDIUM below HIGH below CRITICAL. */
  function Rank(s: Severity): nat {
    match s
    case Low => 0
    case Medium => 1
    case High => 2
    case Critical => 3
  }

  /** The text stored in the `severity` column. */
  function SeverityName(s: Severity): string {
    match s
    case Low => "LOW"
    case Medium => "MEDIUM"
    case High => "HIGH"
    case Critical => "CRITICAL"
  }

  /** The tier of a fraud probability: CRITICAL from 0.9, HIGH from 0.7,
      MEDIUM from 0.5, LOW below. */
  function SeverityOf(p: real): (s: Severity)
    ensures s == Critical <==> p >= 0.9
    ensures s == High <==> 0.7 <= p < 0.9
    ensures s == Medium <==> 0.5 <= p < 0.7
    ensures s == Low <==> p < 0.5
  {
    if p >= 0.9 then Critical
    else if p >= 0.7 then High
    else if p >= 0.5 then Medium
    else Low
  }

  /** A higher probability never gets a lower tier. */
  lemma SeverityMonotone(p: real, q: real)
    requires p <= q
    ensures Rank(SeverityOf(p)) <= Rank(SeverityOf(q))
  {
  }

  /** A row of `fraud_detection_results` as the generators read it. */
  datatype FraudResult = FraudResult(transactionId: string, accountId: string, probability: real,
                                     suspicious: int, time: Stamp)

  function ResultAccount(r: FraudResult): string { r.accountId }
  function ResultId(r: FraudResult): string { r.transactionId }

  /** `predicted_suspicious = 1`. */
  predicate Flagged(r: FraudResult) { r.suspicious == 1 }

  /** A row of `large_transaction_alerts`. */
  datatype LargeAlert = LargeAlert(time: int, accountId: string, transactionId: string,
                                   amount: real, threshold: real, status: string)

  /** A row of `pattern_deviation_alerts`. */
  datatype PatternAlert = PatternAlert(time: int, accountId: string, deviationType: string,
                                       severity: Severity, status: string, description: string)

  /** A row of `daily_balance_alerts`. */
  datatype BalanceAlert = BalanceAlert(time: int, accountId: string, alertType: string,
                                       balance: real, threshold: real, status: string)

  /** A row of `account_status_alerts`. */
  datatype StatusAlert = StatusAlert(time: int, accountId: string, previousStatus: string, newStatus: string,
                                     reason: string, status: string, description: string)

  /** A row of `alert_settings`. */
  datatype Setting = Setting(alertType: string, threshold: real, isActive: bool, lastUpdated: int)

  /** The four settings written when the alerts database is created. */
  function DefaultSettings(now: int): seq<Setting> {
    [Setting("large_transaction", 10000.0, true, now),
     Setting("daily_balance", 1000.0, true, now),
     Setting("pattern_deviation", 0.8, true, now),
     Setting("account_status", 1.0, true, now)]
  }

  /** `SELECT threshold_value FROM alert_settings WHERE alert_type = ?`,
      `fetchone()`: the first matching row's threshold, None without one. */
  function SettingValue(settings: seq<Setting>, name: string): (r: Option<real>)
    ensures r.None? <==> forall i :: 0 <= i < |settings| ==> settings[i].alertType != name
    ensures r.Some? ==> exists i :: 0 <= i < |settings| && settings[i].alertType == name && settings[i].threshold == r.value
  {
    if settings == [] then None
    else if settings[0].alertType == name then Some(settings[0].threshold)
    else
      var r := SettingValue(settings[1..], name);
      assert forall i :: 1 <= i < |settings| ==> settings[1..][i - 1] == settings[i];
      if r.Some? then
        var i :| 0 <= i < |settings[1..]| && settings[1..][i].alertType == name && settings[1..][i].threshold == r.value;
        assert settings[i + 1] == settings[1..][i];
        r
      else r
  }

  /** The default rows give 10000 for large transactions and 1000 for the
      daily balance. */
  lemma DefaultThresholds(now: int)
    ensures SettingValue(DefaultSettings(now), "large_transaction") == Some(10000.0)
    ensures SettingValue(DefaultSettings(now), "daily_balance") == Some(1000.0)
    ensures SettingValue(DefaultSettings(now), "pattern_deviation") == Some(0.8)
    ensures SettingValue(DefaultSettings(now), "account_status") == Some(1.0)
  {
    var d := DefaultSettings(now);
    assert d[0].alertType == "large_transaction";
    assert d[1].alertType == "daily_balance" && d[0].alertType != "daily_balance";
    assert d[1..][0] == d[1];
    assert d[2].alertType == "pattern_deviation" && d[1..][1..][0] == d[2];
    assert d[3].alertType == "account_status" && d[1..][1..][1..][0] == d[3];
  }

  /** `SELECT account_id, SUM(amount) ... GROUP BY account_id`: one row per
      account, in order of first appearance. */
  function Balances(ts: seq<Txn>): seq<(string, real)> {
    var ks := Grouping.Keys(ts, AccountOf);
    seq(|ks|, j requires 0 <= j < |ks| => (ks[j], Grouping.Sum(Grouping.Members(ts, AccountOf, ks[j]), AmountOf)))
  }

  /** `SELECT account_id, COUNT(*) ... GROUP BY account_id` over some rows. */
  function CountsBy<T(==)>(xs: seq<T>, key: T -> string): seq<(string, nat)> {
    var ks := Grouping.Keys(xs, key);
    seq(|ks|, j requires 0 <= j < |ks| => (ks[j], |Grouping.Members(xs, key, ks[j])|))
  }

  /** Every balance row is an account of the batch with the sum of that
      account's amounts, and no account appears twice. */
  lemma BalanceRow(ts: seq<Txn>, j: nat)
    requires j < |Balances(ts)|
    ensures var b := Balances(ts);
            Tables.HasKey(ts, AccountOf, b[j].0)
            && b[j].1 == Grouping.Sum(Grouping.Members(ts, AccountOf, b[j].0), AmountOf)
            && forall l :: 0 <= l < |b| && l != j ==> b[l].0 != b[j].0
  {
    var ks := Grouping.Keys(ts, AccountOf);
    var i :| 0 <= i < |ts| && AccountOf(ts[i]) == ks[j];
  }

  /** No account has two balance rows. */
  lemma BalancesUnique(ts: seq<Txn>)
    ensures var b := Balances(ts);
            forall m, n :: 0 <= m < n < |b| ==> b[m].0 != b[n].0
  {
    var b := Balances(ts);
    forall m, n | 0 <= m < n < |b| ensures b[m].0 != b[n].0 {
      BalanceRow(ts, m);
    }
  }

  /** Every account of the batch has its balance row. */
  lemma BalanceOfAccount(ts: seq<Txn>, i: nat) returns (j: nat)
    requires i < |ts|
    ensures j < |Balances(ts)| && Balances(ts)[j].0 == ts[i].accountId
  {
    var ks := Grouping.Keys(ts, AccountOf);
    assert AccountOf(ts[i]) in ks;
    j :| 0 <= j < |ks| && ks[j] == AccountOf(ts[i]);
  }

  /** Every count row is a key of the rows with the number of rows carrying
      it, at least one, and no key appears twice. */
  lemma CountRow<T>(xs: seq<T>, key: T -> string, j: nat)
    requires j < |CountsBy(xs, key)|
    ensures var c := CountsBy(xs, key);
            Tables.HasKey(xs, key, c[j].0) && c[j].1 == |Grouping.Members(xs, key, c[j].0)| && c[j].1 >= 1
            && forall l :: 0 <= l < |c| && l != j ==> c[l].0 != c[j].0
  {
    var ks := Grouping.Keys(xs, key);
    var i :| 0 <= i < |xs| && key(xs[i]) == ks[j];
    assert xs[i] in Grouping.Members(xs, key, ks[j]);
  }

  /** Every row's key has its count row. */
  lemma CountOfKey<T>(xs: seq<T>, key: T -> string, i: nat) returns (j: nat)
    requires i < |xs|
    ensures j < |CountsBy(xs, key)| && CountsBy(xs, key)[j].0 == key(xs[i])
  {
    var ks := Grouping.Keys(xs, key);
    assert key(xs[i]) in ks;
    j :| 0 <= j < |ks| && ks[j] == key(xs[i]);
  }

  /** The alert row each generator inserts for one selected row. */
  function LargeAlertFor(t: Txn, threshold: real): LargeAlert {
    LargeAlert(t.time.instant, t.accountId, t.transactionId, t.amount, threshold, "NEW")
  }

  function LargeAlerts(ts: seq<Txn>, threshold: real): seq<LargeAlert> {
    if ts == [] then [] else LargeAlerts(ts[..|ts| - 1], threshold) + [LargeAlertFor(ts[|ts| - 1], threshold)]
  }

  const SpendingPattern: string := "SPENDING_PATTERN"
  const PatternDescription: string := "Unusual spending pattern detected by fraud detection system"

  function PatternAlertFor(r: FraudResult): PatternAlert {
    PatternAlert(r.time.instant, r.accountId, SpendingPattern, SeverityOf(r.probability), "NEW", PatternDescription)
  }

  function PatternAlerts(rs: seq<FraudResult>): seq<PatternAlert> {
    if rs == [] then [] else PatternAlerts(rs[..|rs| - 1]) + [PatternAlertFor(rs[|rs| - 1])]
  }

  function BalanceAlertFor(b: (string, real), threshold: real, now: int): BalanceAlert {
    BalanceAlert(now, b.0, "LOW_BALANCE", b.1, threshold, "NEW")
  }

  function BalanceAlerts(bs: seq<(string, real)>, threshold: real, now: int): seq<BalanceAlert> {
    if bs == [] then [] else BalanceAlerts(bs[..|bs| - 1], threshold, now) + [BalanceAlertFor(bs[|bs| - 1], threshold, now)]
  }

  /** Each large-transaction alert copies its transaction and stores the
      threshold, and its status is NEW. */
  lemma {:induction false} LargeAlertsCopy(ts: seq<Txn>, threshold: real, k: nat)
    requires k < |ts|
    ensures |LargeAlerts(ts, threshold)| == |ts|
    ensures LargeAlerts(ts, threshold)[k] == LargeAlert(ts[k].time.instant, ts[k].accountId, ts[k].transactionId,
                                                       ts[k].amount, threshold, "NEW")
  {
    if k < |ts| - 1 {
      LargeAlertsCopy(ts[..|ts| - 1], threshold, k);
    } else if |ts| > 1 {
      LargeAlertsLength(ts[..|ts| - 1], threshold);
    }
  }

  lemma {:induction false} LargeAlertsLength(ts: seq<Txn>, threshold: real)
    ensures |LargeAlerts(ts, threshold)| == |ts|
  {
    if ts != [] {
      LargeAlertsLength(ts[..|ts| - 1], threshold);
    }
  }

  /** Each pattern alert is a NEW SPENDING_PATTERN alert on its result's
      account whose severity is the tier of the result's probability. */
  lemma {:induction false} PatternAlertsCopy(rs: seq<FraudResult>, k: nat)
    requires k < |rs|
    ensures |PatternAlerts(rs)| == |rs|
    ensures PatternAlerts(rs)[k] == PatternAlert(rs[k].time.instant, rs[k].accountId, "SPENDING_PATTERN",
                                                 SeverityOf(rs[k].probability), "NEW", PatternDescription)
  {
    if k < |rs| - 1 {
      PatternAlertsCopy(rs[..|rs| - 1], k);
    } else if |rs| > 1 {
      PatternAlertsLength(rs[..|rs| - 1]);
    }
  }

  lemma {:induction false} PatternAlertsLength(rs: seq<FraudResult>)
    ensures |PatternAlerts(rs)| == |rs|
  {
    if rs != [] {
      PatternAlertsLength(rs[..|rs| - 1]);
    }
  }

  /** Each balance alert is a NEW LOW_BALANCE alert dated `now` on its
      account, storing the account's balance and the threshold. */
  lemma {:induction false} BalanceAlertsCopy(bs: seq<(string, real)>, threshold: real, now: int, k: nat)
    requires k < |bs|
    ensures |BalanceAlerts(bs, threshold, now)| == |bs|
    ensures BalanceAlerts(bs, threshold, now)[k] == BalanceAlert(now, bs[k].0, "LOW_BALANCE", bs[k].1, threshold, "NEW")
  {
    if k < |bs| - 1 {
      BalanceAlertsCopy(bs[..|bs| - 1], threshold, now, k);
    } else if |bs| > 1 {
      BalanceAlertsLength(bs[..|bs| - 1], threshold, now);
    }
  }

  lemma {:induction false} BalanceAlertsLength(bs: seq<(string, real)>, threshold: real, now: int)
    ensures |BalanceAlerts(bs, threshold, now)| == |bs|
  {
    if bs != [] {
      BalanceAlertsLength(bs[..|bs| - 1], threshold, now);
    }
  }

  function LargeId(a: LargeAlert): string { a.transactionId }

  /** The large-transaction alerts of some rows carry exactly those rows'
      transaction ids, and no id twice when the rows have none twice. */
  lemma LargeAlertIds(ts: seq<Txn>, threshold: real)
    ensures forall id :: Tables.HasKey(LargeAlerts(ts, threshold), LargeId, id) <==> Tables.HasKey(ts, IdOf, id)
    ensures Tables.UniqueKeys(ts, IdOf) ==> Tables.UniqueKeys(LargeAlerts(ts, threshold), LargeId)
  {
    var r := LargeAlerts(ts, threshold);
    LargeAlertsLength(ts, threshold);
    forall k | 0 <= k < |ts| ensures LargeId(r[k]) == IdOf(ts[k]) {
      LargeAlertsCopy(ts, threshold, k);
    }
    forall id ensures Tables.HasKey(r, LargeId, id) <==> Tables.HasKey(ts, IdOf, id) {
      if Tables.HasKey(r, LargeId, id) {
        var k :| 0 <= k < |r| && LargeId(r[k]) == id;
      }
      if Tables.HasKey(ts, IdOf, id) {
        var k :| 0 <= k < |ts| && IdOf(ts[k]) == id;
      }
    }
  }
}
