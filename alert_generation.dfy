/** The alert generator that runs against an existing alerts database: its
    queries look back over a window ending at "now" and leave out what was
    already alerted, so rerunning it does not alert the same row twice.  The
    store below performs that deduplication against the alert tables; the
    code as written runs each `NOT IN` subquery on the source database
    instead (see `SelectRaisesAsWritten`). */
module AlertGeneration {
  import opened Wrappers
  import opened Records
  import opened Alerts
  import Grouping
  import Tables
  import Text

  /** `timestamp >= datetime('now', '-N day')`. */
  predicate Within(t: int, now: int, days: nat) {
    t >= now - days * Day
  }

  function SettingType(s: Setting): string { s.alertType }

  /** `init_alerts_database`: the tables are created if missing (None stands
      for a missing `alert_settings`), then the four defaults are inserted
      with `INSERT OR IGNORE` over the UNIQUE `alert_type`. */
  function InitSettings(settings: Option<seq<Setting>>, now: int): seq<Setting> {
    Tables.InsertAllIfAbsent(if settings.None? then [] else settings.value, SettingType, DefaultSettings(now))
  }

  /** Creating the database keeps every stored setting as it is and leaves a
      row for each of the four alert types. */
  lemma InitSettingsFacts(settings: Option<seq<Setting>>, now: int)
    ensures settings.Some? ==> |settings.value| <= |InitSettings(settings, now)|
                               && InitSettings(settings, now)[..|settings.value|] == settings.value
    ensures forall name :: name in ["large_transaction", "daily_balance", "pattern_deviation", "account_status"] ==>
              Tables.HasKey(InitSettings(settings, now), SettingType, name)
  {
    var base := if settings.None? then [] else settings.value;
    var d := DefaultSettings(now);
    Tables.InsertAllKeepsRows(base, SettingType, d);
    forall name | name in ["large_transaction", "daily_balance", "pattern_deviation", "account_status"]
      ensures Tables.HasKey(InitSettings(settings, now), SettingType, name)
    {
      Tables.InsertAllKeys(base, SettingType, d, name);
      var i :| 0 <= i < 4 && ["large_transaction", "daily_balance", "pattern_deviation", "account_status"][i] == name;
      assert SettingType(d[i]) == name;
    }
  }

  /** Creating the database a second time changes nothing. */
  lemma InitSettingsIdempotent(settings: Option<seq<Setting>>, now: int)
    ensures InitSettings(Some(InitSettings(settings, now)), now) == InitSettings(settings, now)
  {
    var base := if settings.None? then [] else settings.value;
    Tables.InsertAllIdempotent(base, SettingType, DefaultSettings(now));
  }

  /** The threshold of an alert type: the first stored row's value, or the
      default when the settings table or the row is missing. */
  function ThresholdOr(settings: Option<seq<Setting>>, name: string, default: real): (v: real)
    ensures (settings.None? || forall i :: 0 <= i < |settings.value| ==> settings.value[i].alertType != name) ==> v == default
    ensures settings.Some? && (exists i :: 0 <= i < |settings.value| && settings.value[i].alertType == name) ==>
              exists i :: 0 <= i < |settings.value| && settings.value[i].alertType == name && settings.value[i].threshold == v
  {
    if settings.None? then default
    else match SettingValue(settings.value, name)
         case None => default
         case Some(v) => v
  }

  function LargeThreshold(settings: Option<seq<Setting>>): real {
    ThresholdOr(settings, "large_transaction", 10000.0)
  }

  function BalanceThreshold(settings: Option<seq<Setting>>): real {
    ThresholdOr(settings, "daily_balance", 1000.0)
  }

  /** A row of `fraud_detection_results` keeps its transaction id with the
      pattern alert it raised, so that the next run can leave it out. */
  datatype TrackedPattern = TrackedPattern(transactionId: string, alert: PatternAlert)

  function TrackedId(p: TrackedPattern): string { p.transactionId }

  function Tracked(rs: seq<FraudResult>): (r: seq<TrackedPattern>)
    ensures |r| == |rs|
  {
    seq(|rs|, i requires 0 <= i < |rs| => TrackedPattern(rs[i].transactionId, PatternAlertFor(rs[i])))
  }

  /** A row of `violations` as the status query reads it. */
  datatype Violation = Violation(accountId: string, time: int)

  function ViolationAccount(v: Violation): string { v.accountId }

  /** Large transactions of the last 30 days over the threshold, strictly,
      not yet alerted, the first 100. */
  function NewLargeTransactions(ts: seq<Txn>, threshold: real, now: int, alerted: seq<LargeAlert>): seq<Txn> {
    Tables.Limit(Tables.Where(ts, (t: Txn) => t.amount > threshold && Within(t.time.instant, now, 30)
                                               && !Tables.HasKey(alerted, LargeId, t.transactionId)), 100)
  }

  /** Flagged results of the last 30 days not yet alerted (no LIMIT). */
  function NewSuspicious(rs: seq<FraudResult>, now: int, alerted: seq<TrackedPattern>): seq<FraudResult> {
    Tables.Where(rs, (r: FraudResult) => Flagged(r) && Within(r.time.instant, now, 30)
                                         && !Tables.HasKey(alerted, TrackedId, r.transactionId))
  }

  /** Some alert of `account` is dated at or after `since`. */
  predicate BalanceAlertedSince(alerted: seq<BalanceAlert>, account: string, since: int) {
    exists i :: 0 <= i < |alerted| && alerted[i].accountId == account && alerted[i].time >= since
  }

  predicate StatusAlertedSince(alerted: seq<StatusAlert>, account: string, since: int) {
    exists i :: 0 <= i < |alerted| && alerted[i].accountId == account && alerted[i].time >= since
  }

  /** Accounts whose amounts sum to less than the threshold and that have no
      balance alert from the last day (no LIMIT). */
  function NewLowBalances(ts: seq<Txn>, threshold: real, now: int, alerted: seq<BalanceAlert>): seq<(string, real)> {
    Tables.Where(Balances(ts), (b: (string, real)) => b.1 < threshold && !BalanceAlertedSince(alerted, b.0, now - Day))
  }

  /** Accounts with at least three violations in the last seven days; when
      the violations query raises, accounts with at least two flagged
      results in the last seven days. */
  function RepeatedViolations(violations: Option<seq<Violation>>, rs: seq<FraudResult>, now: int): seq<(string, nat)> {
    if violations.Some? then
      Tables.Where(CountsBy(Tables.Where(violations.value, (v: Violation) => Within(v.time, now, 7)), ViolationAccount),
                   (c: (string, nat)) => c.1 >= 3)
    else
      Tables.Where(CountsBy(Tables.Where(rs, (r: FraudResult) => Flagged(r) && Within(r.time.instant, now, 7)), ResultAccount),
                   (c: (string, nat)) => c.1 >= 2)
  }

  /** The accounts of `offenders` without a status alert from the last seven
      days. */
  function DueStatusChanges(offenders: seq<(string, nat)>, alerted: seq<StatusAlert>, now: int): seq<(string, nat)> {
    Tables.Where(offenders, (c: (string, nat)) => !StatusAlertedSince(alerted, c.0, now - 7 * Day))
  }

  function StatusReason(n: nat): string {
    "Multiple limit violations (" + Text.NatToString(n) + " in past week)"
  }

  function StatusDescription(n: nat): string {
    "Account restricted due to " + Text.NatToString(n) + " limit violations in the past week"
  }

  function StatusAlertFor(c: (string, nat), now: int): StatusAlert {
    StatusAlert(now, c.0, "ACTIVE", "RESTRICTED", StatusReason(c.1), "NEW", StatusDescription(c.1))
  }

  function StatusAlerts(cs: seq<(string, nat)>, now: int): (r: seq<StatusAlert>)
    ensures |r| == |cs|
  {
    seq(|cs|, i requires 0 <= i < |cs| => StatusAlertFor(cs[i], now))
  }

  /** The counts `generate_all_alerts` returns. */
  datatype Totals = Totals(largeTransaction: nat, patternDeviation: nat, dailyBalance: nat, accountStatus: nat,
                           total: nat)

  /** The alert rows one run computes before its `executemany`. */
  method LargeAlertRows(found: seq<Txn>, threshold: real) returns (alerts: seq<LargeAlert>)
    ensures alerts == LargeAlerts(found, threshold)
  {
    alerts := [];
    for i := 0 to |found|
      invariant alerts == LargeAlerts(found[..i], threshold)
    {
      assert found[..i + 1][..i] == found[..i];
      alerts := alerts + [LargeAlertFor(found[i], threshold)];
    }
    assert found[..|found|] == found;
  }

  method PatternAlertRows(found: seq<FraudResult>) returns (alerts: seq<TrackedPattern>)
    ensures alerts == Tracked(found)
  {
    alerts := [];
    for i := 0 to |found|
      invariant alerts == Tracked(found[..i])
    {
      var severity := SeverityOf(found[i].probability);
      alerts := alerts + [TrackedPattern(found[i].transactionId,
                                         PatternAlert(found[i].time.instant, found[i].accountId, SpendingPattern,
                                                      severity, "NEW", PatternDescription))];
    }
    assert found[..|found|] == found;
  }

  method BalanceAlertRows(found: seq<(string, real)>, threshold: real, now: int) returns (alerts: seq<BalanceAlert>)
    ensures alerts == BalanceAlerts(found, threshold, now)
  {
    alerts := [];
    for i := 0 to |found|
      invariant alerts == BalanceAlerts(found[..i], threshold, now)
    {
      assert found[..i + 1][..i] == found[..i];
      alerts := alerts + [BalanceAlertFor(found[i], threshold, now)];
    }
    assert found[..|found|] == found;
  }

  /** The status loop: accounts with a recent status alert are skipped. */
  method StatusAlertRows(offenders: seq<(string, nat)>, alerted: seq<StatusAlert>, now: int)
    returns (alerts: seq<StatusAlert>)
    ensures alerts == StatusAlerts(DueStatusChanges(offenders, alerted, now), now)
  {
    alerts := [];
    for i := 0 to |offenders|
      invariant alerts == StatusAlerts(DueStatusChanges(offenders[..i], alerted, now), now)
    {
      assert offenders[..i + 1][..i] == offenders[..i];
      if StatusAlertedSince(alerted, offenders[i].0, now - 7 * Day) {
        continue;
      }
      alerts := alerts + [StatusAlertFor(offenders[i], now)];
    }
    assert offenders[..|offenders|] == offenders;
  }

  /** The alerts database the generator reads and extends. */
  class AlertStore {
    var settings: Option<seq<Setting>>
    var largeAlerts: seq<LargeAlert>
    var patternAlerts: seq<TrackedPattern>
    var balanceAlerts: seq<BalanceAlert>
    var statusAlerts: seq<StatusAlert>

    /** No transaction is alerted twice as large or as a pattern deviation. */
    ghost predicate Valid()
      reads this
    {
      Tables.UniqueKeys(largeAlerts, LargeId) && Tables.UniqueKeys(patternAlerts, TrackedId)
    }

    /** A database file that does not exist yet. */
    constructor ()
      ensures settings.None? && largeAlerts == [] && patternAlerts == [] && balanceAlerts == [] && statusAlerts == []
      ensures Valid()
    {
      settings, largeAlerts, patternAlerts, balanceAlerts, statusAlerts := None, [], [], [], [];
    }

    /** `init_alerts_database`. */
    method InitAlertsDatabase(now: int)
      modifies this
      ensures settings == Some(InitSettings(old(settings), now))
      ensures largeAlerts == old(largeAlerts) && patternAlerts == old(patternAlerts)
      ensures balanceAlerts == old(balanceAlerts) && statusAlerts == old(statusAlerts)
    {
      settings := Some(InitSettings(settings, now));
    }

    /** `generate_large_transaction_alerts`: the threshold is read before the
        database is initialised. */
    method GenerateLargeTransactionAlerts(transactions: seq<Txn>, now: int) returns (count: nat)
      modifies this
      ensures settings == Some(InitSettings(old(settings), now))
      ensures var found := NewLargeTransactions(transactions, LargeThreshold(old(settings)), now, old(largeAlerts));
              count == |found| && largeAlerts == old(largeAlerts) + LargeAlerts(found, LargeThreshold(old(settings)))
      ensures patternAlerts == old(patternAlerts) && balanceAlerts == old(balanceAlerts) && statusAlerts == old(statusAlerts)
      ensures old(Valid()) && Tables.UniqueKeys(transactions, IdOf) ==> Valid()
    {
      var threshold := LargeThreshold(settings);
      InitAlertsDatabase(now);
      var found := NewLargeTransactions(transactions, threshold, now, largeAlerts);
      if Valid() && Tables.UniqueKeys(transactions, IdOf) {
        LargeAlertsStayUnique(transactions, threshold, now, largeAlerts);
      }
      if found == [] {
        return 0;
      }
      var alerts := LargeAlertRows(found, threshold);
      largeAlerts := largeAlerts + alerts;
      count := |found|;
    }

    /** `generate_pattern_deviation_alerts`. */
    method GeneratePatternDeviationAlerts(results: seq<FraudResult>, now: int) returns (count: nat)
      modifies this
      ensures var found := NewSuspicious(results, now, old(patternAlerts));
              count == |found| && patternAlerts == old(patternAlerts) + Tracked(found)
      ensures settings == old(settings) && largeAlerts == old(largeAlerts)
      ensures balanceAlerts == old(balanceAlerts) && statusAlerts == old(statusAlerts)
      ensures old(Valid()) && Tables.UniqueKeys(results, ResultId) ==> Valid()
    {
      var found := NewSuspicious(results, now, patternAlerts);
      if Valid() && Tables.UniqueKeys(results, ResultId) {
        PatternAlertsStayUnique(results, now, patternAlerts);
      }
      if found == [] {
        return 0;
      }
      var alerts := PatternAlertRows(found);
      patternAlerts := patternAlerts + alerts;
      count := |alerts|;
    }

    /** `generate_daily_balance_alerts`. */
    method GenerateDailyBalanceAlerts(transactions: seq<Txn>, now: int) returns (count: nat)
      modifies this
      ensures var threshold := BalanceThreshold(old(settings));
              var found := NewLowBalances(transactions, threshold, now, old(balanceAlerts));
              count == |found| && balanceAlerts == old(balanceAlerts) + BalanceAlerts(found, threshold, now)
      ensures settings == old(settings) && largeAlerts == old(largeAlerts)
      ensures patternAlerts == old(patternAlerts) && statusAlerts == old(statusAlerts)
    {
      var threshold := BalanceThreshold(settings);
      var found := NewLowBalances(transactions, threshold, now, balanceAlerts);
      if found == [] {
        return 0;
      }
      var alerts := BalanceAlertRows(found, threshold, now);
      balanceAlerts := balanceAlerts + alerts;
      count := |found|;
    }

    /** `generate_account_status_alerts`: `violations` is None when the
        violations query raises and the flagged results are used instead. */
    method GenerateAccountStatusAlerts(violations: Option<seq<Violation>>, results: seq<FraudResult>, now: int)
      returns (count: nat)
      modifies this
      ensures var due := DueStatusChanges(RepeatedViolations(violations, results, now), old(statusAlerts), now);
              count == |due| && statusAlerts == old(statusAlerts) + StatusAlerts(due, now)
      ensures settings == old(settings) && largeAlerts == old(largeAlerts)
      ensures patternAlerts == old(patternAlerts) && balanceAlerts == old(balanceAlerts)
    {
      var offenders := RepeatedViolations(violations, results, now);
      if offenders == [] {
        return 0;
      }
      var alerts := StatusAlertRows(offenders, statusAlerts, now);
      statusAlerts := statusAlerts + alerts;
      count := |alerts|;
    }

    /** `generate_all_alerts`: the database is initialised, the four
        generators run in turn, and the total is the sum of their counts. */
    method GenerateAllAlerts(transactions: seq<Txn>, results: seq<FraudResult>, violations: Option<seq<Violation>>,
                             now: int) returns (totals: Totals)
      modifies this
      ensures settings == Some(InitSettings(old(settings), now))
      ensures var s := Some(InitSettings(old(settings), now));
              totals.largeTransaction == |NewLargeTransactions(transactions, LargeThreshold(s), now, old(largeAlerts))|
              && totals.dailyBalance == |NewLowBalances(transactions, BalanceThreshold(s), now, old(balanceAlerts))|
      ensures totals.patternDeviation == |NewSuspicious(results, now, old(patternAlerts))|
      ensures totals.accountStatus == |DueStatusChanges(RepeatedViolations(violations, results, now), old(statusAlerts), now)|
      ensures totals.total == totals.largeTransaction + totals.patternDeviation + totals.dailyBalance + totals.accountStatus
      ensures old(Valid()) && Tables.UniqueKeys(transactions, IdOf) && Tables.UniqueKeys(results, ResultId) ==> Valid()
    {
      InitAlertsDatabase(now);
      InitSettingsIdempotent(old(settings), now);
      var largeTx := GenerateLargeTransactionAlerts(transactions, now);
      var patternDev := GeneratePatternDeviationAlerts(results, now);
      var dailyBal := GenerateDailyBalanceAlerts(transactions, now);
      var acctStatus := GenerateAccountStatusAlerts(violations, results, now);
      totals := Totals(largeTx, patternDev, dailyBal, acctStatus, largeTx + patternDev + dailyBal + acctStatus);
    }
  }

  /** Each alerted large transaction is one of the rows, over the threshold,
      from the last 30 days and not alerted before; at most 100 are, and
      when fewer are, every such row is. */
  lemma NewLargeTransactionsFacts(ts: seq<Txn>, threshold: real, now: int, alerted: seq<LargeAlert>)
    ensures var f := NewLargeTransactions(ts, threshold, now, alerted);
            |f| <= 100
            && (forall k :: 0 <= k < |f| ==>
                  f[k] in ts && f[k].amount > threshold && Within(f[k].time.instant, now, 30)
                  && !Tables.HasKey(alerted, LargeId, f[k].transactionId))
            && (|f| < 100 ==> forall i :: (0 <= i < |ts| && ts[i].amount > threshold && Within(ts[i].time.instant, now, 30)
                                             && !Tables.HasKey(alerted, LargeId, ts[i].transactionId)) ==> ts[i] in f)
  {
    var w := Tables.Where(ts, (t: Txn) => t.amount > threshold && Within(t.time.instant, now, 30)
                                           && !Tables.HasKey(alerted, LargeId, t.transactionId));
    var f := NewLargeTransactions(ts, threshold, now, alerted);
    forall k | 0 <= k < |f| ensures f[k] == w[k] {
    }
  }

  /** A run never stores a transaction id twice when the source holds each
      id once. */
  lemma LargeAlertsStayUnique(ts: seq<Txn>, threshold: real, now: int, alerted: seq<LargeAlert>)
    requires Tables.UniqueKeys(alerted, LargeId) && Tables.UniqueKeys(ts, IdOf)
    ensures Tables.UniqueKeys(alerted + LargeAlerts(NewLargeTransactions(ts, threshold, now, alerted), threshold), LargeId)
  {
    var p := (t: Txn) => t.amount > threshold && Within(t.time.instant, now, 30) && !Tables.HasKey(alerted, LargeId, t.transactionId);
    var w := Tables.Where(ts, p);
    var f := NewLargeTransactions(ts, threshold, now, alerted);
    Tables.WhereUnique(ts, IdOf, p);
    assert Tables.UniqueKeys(f, IdOf) by {
      forall i, j | 0 <= i < j < |f| ensures IdOf(f[i]) != IdOf(f[j]) {
        assert f[i] == w[i] && f[j] == w[j];
      }
    }
    var n := LargeAlerts(f, threshold);
    LargeAlertIds(f, threshold);
    UniqueUnion(alerted, n, LargeId);
    forall id | Tables.HasKey(n, LargeId, id) ensures !Tables.HasKey(alerted, LargeId, id) {
      var k :| 0 <= k < |f| && IdOf(f[k]) == id;
      assert f[k] == w[k];
    }
  }

  /** Two key-unique tables with no key in common form a key-unique table. */
  lemma UniqueUnion<T, K>(a: seq<T>, b: seq<T>, key: T -> K)
    requires Tables.UniqueKeys(a, key) && Tables.UniqueKeys(b, key)
    ensures (forall k :: Tables.HasKey(b, key, k) ==> !Tables.HasKey(a, key, k)) ==> Tables.UniqueKeys(a + b, key)
  {
    if forall k :: Tables.HasKey(b, key, k) ==> !Tables.HasKey(a, key, k) {
      var r := a + b;
      forall i, j | 0 <= i < j < |r| ensures key(r[i]) != key(r[j]) {
        if i < |a| && j >= |a| {
          assert r[j] == b[j - |a|] && r[i] == a[i];
          assert Tables.HasKey(b, key, key(r[j]));
        } else if i >= |a| {
          assert r[i] == b[i - |a|] && r[j] == b[j - |a|];
        }
      }
    }
  }

  /** Rerunning at the same or a later time, after a run that stayed under
      the cap of 100, alerts no large transaction. */
  lemma LargeRerunAddsNothing(ts: seq<Txn>, threshold: real, now: int, later: int, alerted: seq<LargeAlert>)
    requires now <= later
    requires |NewLargeTransactions(ts, threshold, now, alerted)| < 100
    ensures var first := NewLargeTransactions(ts, threshold, now, alerted);
            NewLargeTransactions(ts, threshold, later, alerted + LargeAlerts(first, threshold)) == []
  {
    var first := NewLargeTransactions(ts, threshold, now, alerted);
    NewLargeTransactionsFacts(ts, threshold, now, alerted);
    var after := alerted + LargeAlerts(first, threshold);
    var q := (t: Txn) => t.amount > threshold && Within(t.time.instant, later, 30) && !Tables.HasKey(after, LargeId, t.transactionId);
    LargeAlertIds(first, threshold);
    forall i | 0 <= i < |ts| ensures !q(ts[i]) {
      Tables.HasKeyConcat(alerted, LargeAlerts(first, threshold), LargeId, ts[i].transactionId);
      if ts[i].amount > threshold && Within(ts[i].time.instant, later, 30) && !Tables.HasKey(alerted, LargeId, ts[i].transactionId) {
        assert ts[i] in first;
        var k :| 0 <= k < |first| && first[k] == ts[i];
        assert IdOf(first[k]) == ts[i].transactionId;
      }
    }
    Tables.WhereNone(ts, q);
  }

  /** Every alerted result is flagged, from the last 30 days and not alerted
      before, and every such result is alerted. */
  lemma NewSuspiciousFacts(rs: seq<FraudResult>, now: int, alerted: seq<TrackedPattern>)
    ensures var f := NewSuspicious(rs, now, alerted);
            (forall k :: 0 <= k < |f| ==>
               f[k] in rs && f[k].suspicious == 1 && Within(f[k].time.instant, now, 30)
               && !Tables.HasKey(alerted, TrackedId, f[k].transactionId))
            && (forall i :: (0 <= i < |rs| && rs[i].suspicious == 1 && Within(rs[i].time.instant, now, 30)
                             && !Tables.HasKey(alerted, TrackedId, rs[i].transactionId)) ==> rs[i] in f)
  {
  }

  /** The tracked pattern alerts carry exactly the results' transaction ids,
      each with the severity of its result, and its status NEW. */
  lemma TrackedFacts(rs: seq<FraudResult>)
    ensures forall id :: Tables.HasKey(Tracked(rs), TrackedId, id) <==> Tables.HasKey(rs, ResultId, id)
    ensures forall k :: 0 <= k < |rs| ==>
              Tracked(rs)[k].alert.severity == SeverityOf(rs[k].probability) && Tracked(rs)[k].alert.status == "NEW"
    ensures Tables.UniqueKeys(rs, ResultId) ==> Tables.UniqueKeys(Tracked(rs), TrackedId)
  {
    var r := Tracked(rs);
    forall id ensures Tables.HasKey(r, TrackedId, id) <==> Tables.HasKey(rs, ResultId, id) {
      if Tables.HasKey(r, TrackedId, id) {
        var k :| 0 <= k < |r| && TrackedId(r[k]) == id;
        assert ResultId(rs[k]) == id;
      }
      if Tables.HasKey(rs, ResultId, id) {
        var k :| 0 <= k < |rs| && ResultId(rs[k]) == id;
        assert TrackedId(r[k]) == id;
      }
    }
    if Tables.UniqueKeys(rs, ResultId) {
      forall i, j | 0 <= i < j < |r| ensures TrackedId(r[i]) != TrackedId(r[j]) {
        assert ResultId(rs[i]) != ResultId(rs[j]);
      }
    }
  }

  lemma PatternAlertsStayUnique(rs: seq<FraudResult>, now: int, alerted: seq<TrackedPattern>)
    requires Tables.UniqueKeys(alerted, TrackedId) && Tables.UniqueKeys(rs, ResultId)
    ensures Tables.UniqueKeys(alerted + Tracked(NewSuspicious(rs, now, alerted)), TrackedId)
  {
    var p := (r: FraudResult) => Flagged(r) && Within(r.time.instant, now, 30) && !Tables.HasKey(alerted, TrackedId, r.transactionId);
    var f := Tables.Where(rs, p);
    Tables.WhereUnique(rs, ResultId, p);
    TrackedFacts(f);
    UniqueUnion(alerted, Tracked(f), TrackedId);
    forall id | Tables.HasKey(Tracked(f), TrackedId, id) ensures !Tables.HasKey(alerted, TrackedId, id) {
      var k :| 0 <= k < |f| && ResultId(f[k]) == id;
    }
  }

  /** Rerunning at the same or a later time alerts no result again: every
      flagged result of the window was alerted by the first run. */
  lemma PatternRerunAddsNothing(rs: seq<FraudResult>, now: int, later: int, alerted: seq<TrackedPattern>)
    requires now <= later
    ensures NewSuspicious(rs, later, alerted + Tracked(NewSuspicious(rs, now, alerted))) == []
  {
    var first := NewSuspicious(rs, now, alerted);
    NewSuspiciousFacts(rs, now, alerted);
    TrackedFacts(first);
    var after := alerted + Tracked(first);
    var q := (r: FraudResult) => Flagged(r) && Within(r.time.instant, later, 30) && !Tables.HasKey(after, TrackedId, r.transactionId);
    forall i | 0 <= i < |rs| ensures !q(rs[i]) {
      Tables.HasKeyConcat(alerted, Tracked(first), TrackedId, rs[i].transactionId);
      if Flagged(rs[i]) && Within(rs[i].time.instant, later, 30) && !Tables.HasKey(alerted, TrackedId, rs[i].transactionId) {
        assert rs[i] in first;
        var k :| 0 <= k < |first| && first[k] == rs[i];
        assert ResultId(first[k]) == rs[i].transactionId;
      }
    }
    Tables.WhereNone(rs, q);
  }

  function Account<V>(row: (string, V)): string { row.0 }

  /** Every new low-balance row is an account of the transactions with the
      sum of its amounts, under the threshold, without a balance alert from
      the last day, and no account is alerted twice. */
  lemma NewLowBalanceRow(ts: seq<Txn>, threshold: real, now: int, alerted: seq<BalanceAlert>, k: nat)
    requires k < |NewLowBalances(ts, threshold, now, alerted)|
    ensures var f := NewLowBalances(ts, threshold, now, alerted);
            Tables.HasKey(ts, AccountOf, f[k].0)
            && f[k].1 == Grouping.Sum(Grouping.Members(ts, AccountOf, f[k].0), AmountOf)
            && f[k].1 < threshold
            && !BalanceAlertedSince(alerted, f[k].0, now - Day)
            && forall l :: 0 <= l < |f| && l != k ==> f[l].0 != f[k].0
  {
    var b := Balances(ts);
    var f := NewLowBalances(ts, threshold, now, alerted);
    var j :| 0 <= j < |b| && b[j] == f[k];
    BalanceRow(ts, j);
    NewLowBalancesUnique(ts, threshold, now, alerted);
    forall l | 0 <= l < |f| && l != k ensures f[l].0 != f[k].0 {
      assert Account(f[l]) != Account(f[k]);
    }
  }

  lemma NewLowBalancesUnique(ts: seq<Txn>, threshold: real, now: int, alerted: seq<BalanceAlert>)
    ensures Tables.UniqueKeys(NewLowBalances(ts, threshold, now, alerted), Account)
  {
    var b := Balances(ts);
    var p := (x: (string, real)) => x.1 < threshold && !BalanceAlertedSince(alerted, x.0, now - Day);
    BalancesUnique(ts);
    assert Tables.UniqueKeys(b, Account);
    Tables.WhereUnique(b, Account, p);
  }

  /** Every account of the transactions whose amounts sum to less than the
      threshold and that has no balance alert from the last day is alerted. */
  lemma NewLowBalancesComplete(ts: seq<Txn>, threshold: real, now: int, alerted: seq<BalanceAlert>, i: nat)
    requires i < |ts|
    requires Grouping.Sum(Grouping.Members(ts, AccountOf, ts[i].accountId), AmountOf) < threshold
    requires !BalanceAlertedSince(alerted, ts[i].accountId, now - Day)
    ensures Tables.HasKey(NewLowBalances(ts, threshold, now, alerted), Account, ts[i].accountId)
  {
    var j := BalanceOfAccount(ts, i);
    var f := NewLowBalances(ts, threshold, now, alerted);
    assert Balances(ts)[j] in f;
    var k :| 0 <= k < |f| && f[k] == Balances(ts)[j];
    assert Account(f[k]) == ts[i].accountId;
  }

  /** A rerun within a day alerts none of the accounts the first run
      alerted, and a rerun at the same instant alerts nothing. */
  lemma BalanceRerunSkipsAlerted(ts: seq<Txn>, threshold: real, now: int, later: int, alerted: seq<BalanceAlert>)
    requires now <= later <= now + Day
    ensures var first := NewLowBalances(ts, threshold, now, alerted);
            var second := NewLowBalances(ts, threshold, later, alerted + BalanceAlerts(first, threshold, now));
            (forall k, j :: 0 <= k < |second| && 0 <= j < |first| ==> second[k].0 != first[j].0)
            && (later == now ==> second == [])
  {
    var first := NewLowBalances(ts, threshold, now, alerted);
    var added := BalanceAlerts(first, threshold, now);
    var after := alerted + added;
    var second := NewLowBalances(ts, threshold, later, after);
    BalanceAlertsLength(first, threshold, now);
    forall j | 0 <= j < |first| ensures BalanceAlertedSince(after, first[j].0, later - Day) {
      BalanceAlertsCopy(first, threshold, now, j);
      assert after[|alerted| + j] == added[j];
    }
    if later == now {
      var q := (x: (string, real)) => x.1 < threshold && !BalanceAlertedSince(after, x.0, later - Day);
      var b := Balances(ts);
      forall i | 0 <= i < |b| ensures !q(b[i]) {
        if b[i].1 < threshold {
          if BalanceAlertedSince(alerted, b[i].0, now - Day) {
            var m :| 0 <= m < |alerted| && alerted[m].accountId == b[i].0 && alerted[m].time >= now - Day;
            assert after[m] == alerted[m];
          } else {
            assert b[i] in first;
          }
        }
      }
      Tables.WhereNone(b, q);
    }
  }

  /** Every account due a status change had at least three violations in
      the last seven days, or, when the violations query raises, at least
      two flagged results in the last seven days; no account appears twice. */
  lemma RepeatedViolationRow(violations: Option<seq<Violation>>, rs: seq<FraudResult>, now: int, k: nat)
    requires k < |RepeatedViolations(violations, rs, now)|
    ensures var f := RepeatedViolations(violations, rs, now);
            (violations.Some? ==>
               var recent := Tables.Where(violations.value, (v: Violation) => Within(v.time, now, 7));
               Tables.HasKey(recent, ViolationAccount, f[k].0)
               && f[k].1 == |Grouping.Members(recent, ViolationAccount, f[k].0)| && f[k].1 >= 3)
            && (violations.None? ==>
                  var recent := Tables.Where(rs, (r: FraudResult) => Flagged(r) && Within(r.time.instant, now, 7));
                  Tables.HasKey(recent, ResultAccount, f[k].0)
                  && f[k].1 == |Grouping.Members(recent, ResultAccount, f[k].0)| && f[k].1 >= 2)
            && forall l :: 0 <= l < |f| && l != k ==> f[l].0 != f[k].0
  {
    if violations.Some? {
      var recent := Tables.Where(violations.value, (v: Violation) => Within(v.time, now, 7));
      HavingRow(recent, ViolationAccount, (x: (string, nat)) => x.1 >= 3, k);
    } else {
      var recent := Tables.Where(rs, (r: FraudResult) => Flagged(r) && Within(r.time.instant, now, 7));
      HavingRow(recent, ResultAccount, (x: (string, nat)) => x.1 >= 2, k);
    }
  }

  /** A row of `COUNT(*) ... GROUP BY ... HAVING`: a key of the rows with
      its number of rows, passing the filter, and no key twice. */
  lemma HavingRow<T>(xs: seq<T>, key: T -> string, p: ((string, nat)) -> bool, k: nat)
    requires k < |Tables.Where(CountsBy(xs, key), p)|
    ensures var f := Tables.Where(CountsBy(xs, key), p);
            Tables.HasKey(xs, key, f[k].0) && f[k].1 == |Grouping.Members(xs, key, f[k].0)| && p(f[k])
            && forall l :: 0 <= l < |f| && l != k ==> f[l].0 != f[k].0
  {
    var c := CountsBy(xs, key);
    var f := Tables.Where(c, p);
    forall m, n | 0 <= m < n < |c| ensures c[m].0 != c[n].0 {
      CountRow(xs, key, m);
    }
    DistinctCounts(c, p, k);
    var j :| 0 <= j < |c| && c[j] == f[k];
    CountRow(xs, key, j);
  }

  /** A `HAVING` filter over `COUNT(*) ... GROUP BY` keeps the keys distinct. */
  lemma DistinctCounts(c: seq<(string, nat)>, p: ((string, nat)) -> bool, k: nat)
    requires forall m, n :: 0 <= m < n < |c| ==> c[m].0 != c[n].0
    requires k < |Tables.Where(c, p)|
    ensures forall l :: 0 <= l < |Tables.Where(c, p)| && l != k ==> Tables.Where(c, p)[l].0 != Tables.Where(c, p)[k].0
  {
    var f := Tables.Where(c, p);
    Tables.WhereUnique(c, Account, p);
    forall l | 0 <= l < |f| && l != k ensures f[l].0 != f[k].0 {
      assert Account(f[l]) != Account(f[k]);
    }
  }

  /** Within seven days of a status run, no account that run alerted is
      alerted again, whatever the violations then are. */
  lemma StatusRerunSkipsAlerted(violations: Option<seq<Violation>>, rs: seq<FraudResult>, now: int,
                                laterViolations: Option<seq<Violation>>, laterResults: seq<FraudResult>, later: int,
                                alerted: seq<StatusAlert>)
    requires now <= later <= now + 7 * Day
    ensures var first := DueStatusChanges(RepeatedViolations(violations, rs, now), alerted, now);
            var second := DueStatusChanges(RepeatedViolations(laterViolations, laterResults, later),
                                           alerted + StatusAlerts(first, now), later);
            forall k, j :: 0 <= k < |second| && 0 <= j < |first| ==> second[k].0 != first[j].0
  {
    var first := DueStatusChanges(RepeatedViolations(violations, rs, now), alerted, now);
    var added := StatusAlerts(first, now);
    var after := alerted + added;
    forall j | 0 <= j < |first| ensures StatusAlertedSince(after, first[j].0, later - 7 * Day) {
      assert after[|alerted| + j] == added[j];
    }
  }

  /** The tables of each database file. */
  const TransactionsDbTables: set<string> := {"accounts", "transactions"}
  const FraudDbTables: set<string> := {"fraud_detection_results", "users"}
  const AlertsDbTables: set<string> :=
    {"daily_balance_alerts", "large_transaction_alerts", "pattern_deviation_alerts", "account_status_alerts", "alert_settings"}

  /** The tables a generator's SELECT names: its source table and, once the
      alert table exists, the alert table of its `NOT IN` subquery. */
  function SelectTables(source: string, alertTable: string, alertTableExists: bool): set<string> {
    if alertTableExists then {source, alertTable} else {source}
  }

  /** SQLite raises "no such table" when the database the query runs on
      lacks one of the tables it names. */
  predicate SelectRaises(tables: set<string>, database: set<string>) {
    !(tables <= database)
  }

  /** As written, the large-transaction, pattern and balance SELECTs run on
      the source database.  Once `init_alerts_database` has created the alert
      tables, the `NOT IN` subquery names a table that database lacks, so the
      read raises; `generate_all_alerts` catches nothing, and no alert of any
      kind is generated.  Before the alert tables exist the same SELECT runs. */
  lemma SelectRaisesAsWritten()
    ensures "large_transaction_alerts" in AlertsDbTables && "pattern_deviation_alerts" in AlertsDbTables
            && "daily_balance_alerts" in AlertsDbTables
    ensures SelectRaises(SelectTables("transactions", "large_transaction_alerts", true), TransactionsDbTables)
    ensures SelectRaises(SelectTables("fraud_detection_results", "pattern_deviation_alerts", true), FraudDbTables)
    ensures SelectRaises(SelectTables("transactions", "daily_balance_alerts", true), TransactionsDbTables)
    ensures !SelectRaises(SelectTables("transactions", "large_transaction_alerts", false), TransactionsDbTables)
  {
    assert "large_transaction_alerts" !in TransactionsDbTables;
    assert "pattern_deviation_alerts" !in FraudDbTables;
    assert "daily_balance_alerts" !in TransactionsDbTables;
  }
}
