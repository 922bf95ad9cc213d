/** The financial alerts page: the filtered, paginated alert listing, the
    detail view with its action history, and the status change an analyst
    makes on an open alert, which updates the alert and logs one action. */
module AlertWorkflow {
  import opened Wrappers
  import opened Records
  import Tables
  import Sorting
  import Paging

  /** A row of `alerts`; times are instants in seconds. */
  datatype Alert = Alert(id: int, alertType: string, individualId: string, accountId: string, description: string,
                         severity: string, status: string, createdAt: int, updatedAt: Option<int>,
                         assignedTo: Option<string>)

  /** A row of `alert_actions`. */
  datatype AlertAction = AlertAction(id: int, alertId: int, actionType: string, details: string,
                                     performedBy: string, performedAt: int)

  /** The values the `CHECK` constraints of `alerts` allow. */
  const Statuses: set<string> := {"new", "in_progress", "resolved", "false_positive"}
  const Severities: set<string> := {"low", "medium", "high", "critical"}

  const PageSize: nat := 20

  function AlertId(a: Alert): int { a.id }
  function Created(a: Alert): int { a.createdAt }
  function ActionAlert(x: AlertAction): int { x.alertId }
  function PerformedAt(x: AlertAction): int { x.performedAt }

  /** `date(t)` as a day number. */
  function DayOf(t: int): int { t / Day }

  /** The listing's optional filters; an empty text and a zero day count
      are falsy and so filter nothing. */
  datatype Filters = Filters(status: Option<string>, severity: Option<string>, daysBack: Option<nat>)

  /** One `where_clauses` entry with its parameter. */
  datatype Clause = StatusIs(status: string) | SeverityIs(severity: string) | CreatedOnOrAfter(day: int)

  predicate Satisfies(a: Alert, c: Clause) {
    match c
    case StatusIs(s) => a.status == s
    case SeverityIs(s) => a.severity == s
    case CreatedOnOrAfter(d) => DayOf(a.createdAt) >= d
  }

  predicate AllSatisfied(a: Alert, clauses: seq<Clause>) {
    forall k :: 0 <= k < |clauses| ==> Satisfies(a, clauses[k])
  }

  lemma AllSatisfiedConcat(a: Alert, xs: seq<Clause>, ys: seq<Clause>)
    ensures AllSatisfied(a, xs + ys) <==> AllSatisfied(a, xs) && AllSatisfied(a, ys)
  {
    if AllSatisfied(a, xs + ys) {
      forall k | 0 <= k < |xs| ensures Satisfies(a, xs[k]) {
        assert (xs + ys)[k] == xs[k];
      }
      forall k | 0 <= k < |ys| ensures Satisfies(a, ys[k]) {
        assert (xs + ys)[|xs| + k] == ys[k];
      }
    }
    if AllSatisfied(a, xs) && AllSatisfied(a, ys) {
      forall k | 0 <= k < |xs + ys| ensures Satisfies(a, (xs + ys)[k]) {
        if k < |xs| {
          assert (xs + ys)[k] == xs[k];
        } else {
          assert (xs + ys)[k] == ys[k - |xs|];
        }
      }
    }
  }

  lemma AllSatisfiedOne(a: Alert, c: Clause)
    ensures AllSatisfied(a, [c]) <==> Satisfies(a, c)
  {
    assert [c][0] == c;
  }

  /** The filters read directly: each one given must hold, the day filter
      keeping alerts created on or after the day `daysBack` days before now. */
  predicate MatchesFilters(f: Filters, now: int, a: Alert) {
    (f.status.Some? && f.status.value != "" ==> a.status == f.status.value)
    && (f.severity.Some? && f.severity.value != "" ==> a.severity == f.severity.value)
    && (f.daysBack.Some? && f.daysBack.value != 0 ==> DayOf(a.createdAt) >= DayOf(now - f.daysBack.value * Day))
  }

  /** Building `where_clauses`: status, then severity, then the cut-off day,
      each appended when given; an alert passes the `AND` of the clauses
      exactly when it matches the filters. */
  method BuildWhereClauses(f: Filters, now: int) returns (clauses: seq<Clause>)
    ensures |clauses| <= 3
    ensures forall a :: AllSatisfied(a, clauses) <==> MatchesFilters(f, now, a)
  {
    var status: seq<Clause> := [];
    var severity: seq<Clause> := [];
    var day: seq<Clause> := [];
    clauses := [];
    if f.status.Some? && f.status.value != "" {
      status := [StatusIs(f.status.value)];
      clauses := clauses + status;
    }
    assert clauses == status;
    if f.severity.Some? && f.severity.value != "" {
      severity := [SeverityIs(f.severity.value)];
      clauses := clauses + severity;
    }
    assert clauses == status + severity;
    if f.daysBack.Some? && f.daysBack.value != 0 {
      day := [CreatedOnOrAfter(DayOf(now - f.daysBack.value * Day))];
      clauses := clauses + day;
    }
    assert clauses == status + severity + day;
    forall a ensures AllSatisfied(a, clauses) <==> MatchesFilters(f, now, a) {
      AllSatisfiedConcat(a, status, severity);
      AllSatisfiedConcat(a, status + severity, day);
      if f.status.Some? && f.status.value != "" {
        AllSatisfiedOne(a, StatusIs(f.status.value));
      }
      if f.severity.Some? && f.severity.value != "" {
        AllSatisfiedOne(a, SeverityIs(f.severity.value));
      }
      if f.daysBack.Some? && f.daysBack.value != 0 {
        AllSatisfiedOne(a, CreatedOnOrAfter(DayOf(now - f.daysBack.value * Day)));
      }
    }
  }

  function Matching(alerts: seq<Alert>, f: Filters, now: int): seq<Alert> {
    Tables.Where(alerts, (a: Alert) => MatchesFilters(f, now, a))
  }

  /** `ORDER BY created_at DESC`, ties kept in table order. */
  function NewestFirst(alerts: seq<Alert>): seq<Alert> {
    Sorting.SortBy(alerts, Sorting.IntDesc(Created))
  }

  /** The page count shown: the ceiling of records / 20, but 1 when there
      are no records. */
  function PageCount(records: nat): (n: nat)
    ensures n >= 1
    ensures records > 0 ==> (n - 1) * PageSize < records <= n * PageSize
  {
    Paging.TotalPagesIsCeiling(records, PageSize);
    if records > 0 then Paging.TotalPages(records, PageSize) else 1
  }

  /** `get_paginated_alerts`: the page of matching alerts newest first, the
      page count and the number of matching alerts; an empty page and
      (0, 0) when the query fails (`table` is None). */
  function PaginatedAlerts(table: Option<seq<Alert>>, page: nat, f: Filters, now: int): (r: (seq<Alert>, nat, nat))
    ensures table.None? ==> r == ([], 0, 0)
    ensures table.Some? ==> r.2 == |Matching(table.value, f, now)| && r.1 == PageCount(r.2)
  {
    match table
    case None => ([], 0, 0)
    case Some(alerts) =>
      var m := Matching(alerts, f, now);
      (Paging.Page(NewestFirst(m), page, PageSize), PageCount(|m|), |m|)
  }

  /** Every listed alert matches the filters, at most 20 are listed, and
      each is the one at its place in the sorted listing. */
  lemma PaginatedAlertsMatch(alerts: seq<Alert>, page: nat, f: Filters, now: int)
    ensures var r := PaginatedAlerts(Some(alerts), page, f, now);
            |r.0| <= PageSize
            && (forall k :: 0 <= k < |r.0| ==> r.0[k] in alerts && MatchesFilters(f, now, r.0[k]))
            && (forall k :: 0 <= k < |r.0| ==> r.0[k] == NewestFirst(Matching(alerts, f, now))[page * PageSize + k])
  {
    var m := Matching(alerts, f, now);
    var sorted := NewestFirst(m);
    var pg := Paging.Page(sorted, page, PageSize);
    Paging.PageElements(sorted, page, PageSize);
    forall k | 0 <= k < |pg| ensures pg[k] in alerts && MatchesFilters(f, now, pg[k]) {
      assert pg[k] in multiset(sorted);
      assert pg[k] in m;
    }
  }

  /** The listed alerts are newest first. */
  lemma PaginatedAlertsNewestFirst(alerts: seq<Alert>, page: nat, f: Filters, now: int)
    ensures var r := PaginatedAlerts(Some(alerts), page, f, now);
            forall j, k :: 0 <= j < k < |r.0| ==> r.0[j].createdAt >= r.0[k].createdAt
  {
    var m := Matching(alerts, f, now);
    var sorted := Sorting.SortBy(m, Sorting.IntDesc(Created));
    assert sorted == NewestFirst(m);
    Sorting.SortByIntDesc(m, Created);
    forall i, j | 0 <= i < j < |sorted| ensures Created(sorted[i]) >= Created(sorted[j]) {
      assert Sorting.SortBy(m, Sorting.IntDesc(Created))[i] == sorted[i];
    }
    Paging.PageOrdered(sorted, page, PageSize, Created);
    var pg := Paging.Page(sorted, page, PageSize);
    forall j, k | 0 <= j < k < |pg| ensures pg[j].createdAt >= pg[k].createdAt {
      assert Created(pg[j]) >= Created(pg[k]);
    }
  }

  /** Every matching alert is listed on exactly one page, the one its sorted
      position names, and that page is below the page count. */
  lemma MatchingAlertOnItsPage(alerts: seq<Alert>, f: Filters, now: int, i: nat)
    requires i < |Matching(alerts, f, now)|
    ensures var sorted := NewestFirst(Matching(alerts, f, now));
            var r := PaginatedAlerts(Some(alerts), i / PageSize, f, now);
            i / PageSize < r.1 && r.0[i % PageSize] == sorted[i]
  {
    var sorted := NewestFirst(Matching(alerts, f, now));
    Paging.RowOnPage(sorted, PageSize, i);
  }

  /** The first alert with the given id, as `fetchone` returns it. */
  function FindAlert(alerts: seq<Alert>, id: int): (r: Option<Alert>)
    ensures r.None? <==> !Tables.HasKey(alerts, AlertId, id)
    ensures r.Some? ==> r.value in alerts && r.value.id == id
  {
    if alerts == [] then None
    else if alerts[0].id == id then Some(alerts[0])
    else
      var r := FindAlert(alerts[1..], id);
      assert forall i :: 0 <= i < |alerts| - 1 ==> alerts[1..][i] == alerts[i + 1];
      r
  }

  /** The status choices the page offers: none once an alert is resolved or
      a false positive, otherwise in_progress, resolved and false_positive. */
  function StatusChoices(current: string): (r: seq<string>)
    ensures r == [] <==> current == "resolved" || current == "false_positive"
    ensures forall k :: 0 <= k < |r| ==> r[k] in Statuses && r[k] != "new"
  {
    if current in ["resolved", "false_positive"] then [] else ["in_progress", "resolved", "false_positive"]
  }

  /** The page calls `update_alert_status` only when both fields are filled. */
  predicate UpdateAttempted(performedBy: string, details: string) {
    performedBy != "" && details != ""
  }

  /** The alerts after `UPDATE alerts SET status, updated_at, assigned_to
      WHERE id = ?`. */
  function StatusUpdated(alerts: seq<Alert>, id: int, status: string, performedBy: string, now: int): seq<Alert> {
    seq(|alerts|, i requires 0 <= i < |alerts| =>
      if alerts[i].id == id then alerts[i].(status := status, updatedAt := Some(now), assignedTo := Some(performedBy))
      else alerts[i])
  }

  /** The `CHECK` on `status` rejects the update exactly when a row with that
      id exists and the new status is not one of the four; an update that
      matches no row checks nothing. */
  predicate UpdateAccepted(alerts: seq<Alert>, id: int, status: string) {
    !Tables.HasKey(alerts, AlertId, id) || status in Statuses
  }

  /** The update changes only the alert with that id: its status, update
      time and assignee; each other field and each other alert is kept, and
      with unique ids at most one alert changes. */
  lemma StatusUpdatedFacts(alerts: seq<Alert>, id: int, status: string, performedBy: string, now: int)
    ensures var r := StatusUpdated(alerts, id, status, performedBy, now);
            |r| == |alerts|
            && (forall i :: 0 <= i < |r| ==>
                  r[i].id == alerts[i].id && r[i].createdAt == alerts[i].createdAt && r[i].severity == alerts[i].severity)
            && (forall i :: 0 <= i < |r| && alerts[i].id != id ==> r[i] == alerts[i])
            && (forall i :: 0 <= i < |r| && alerts[i].id == id ==>
                  r[i].status == status && r[i].updatedAt == Some(now) && r[i].assignedTo == Some(performedBy))
            && (Tables.HasKey(alerts, AlertId, id) <==> Tables.HasKey(r, AlertId, id))
            && (Tables.UniqueKeys(alerts, AlertId) ==>
                  forall i, j :: 0 <= i < |r| && 0 <= j < |r| && r[i] != alerts[i] && r[j] != alerts[j] ==> i == j)
  {
    var r := StatusUpdated(alerts, id, status, performedBy, now);
    if Tables.HasKey(r, AlertId, id) {
      var i :| 0 <= i < |r| && AlertId(r[i]) == id;
      assert AlertId(alerts[i]) == id;
    }
    if Tables.HasKey(alerts, AlertId, id) {
      var i :| 0 <= i < |alerts| && AlertId(alerts[i]) == id;
      assert AlertId(r[i]) == id;
    }
  }

  /** The alerts database. */
  class AlertDatabase {
    var alerts: seq<Alert>
    var actions: seq<AlertAction>
    /** The last id `AUTOINCREMENT` handed out for `alert_actions`. */
    var lastActionId: int

    /** Ids are keys, statuses and severities meet their `CHECK`s, and every
        action id was handed out. */
    ghost predicate Valid()
      reads this
    {
      Tables.UniqueKeys(alerts, AlertId)
      && (forall i :: 0 <= i < |alerts| ==> alerts[i].status in Statuses && alerts[i].severity in Severities)
      && (forall k :: 0 <= k < |actions| ==> actions[k].id <= lastActionId)
    }

    constructor (stored: seq<Alert>)
      requires Tables.UniqueKeys(stored, AlertId)
      requires forall i :: 0 <= i < |stored| ==> stored[i].status in Statuses && stored[i].severity in Severities
      ensures alerts == stored && actions == [] && lastActionId == 0
      ensures Valid()
    {
      alerts, actions, lastActionId := stored, [], 0;
    }

    /** The action row the next `INSERT INTO alert_actions` stores. */
    function NextAction(alertId: int, actionType: string, details: string, performedBy: string, now: int): AlertAction
      reads this
    {
      AlertAction(lastActionId + 1, alertId, actionType, details, performedBy, now)
    }

    /** `get_alert_details`: None when the connection or a query fails or no
        alert has the id; otherwise the alert and its actions, newest first. */
    function Details(id: int, db: DbStatus): (r: Option<(Alert, seq<AlertAction>)>)
      reads this
      ensures r.None? <==> db != Works || !Tables.HasKey(alerts, AlertId, id)
      ensures r.Some? ==> r.value.0 in alerts && r.value.0.id == id && r.value.1 == ActionHistory(actions, id)
    {
      if db != Works then None
      else
        var found := FindAlert(alerts, id);
        if found.None? then None else Some((found.value, ActionHistory(actions, id)))
    }

    /** `update_alert_status`: in one transaction the alert's status, update
        time and assignee are set and one `status_change` action is logged;
        when the connection or a statement fails, or the `CHECK` rejects the
        status, the rollback leaves both tables as they were. */
    method UpdateAlertStatus(alertId: int, newStatus: string, performedBy: string, details: string, now: int,
                             db: DbStatus) returns (ok: bool)
      modifies this
      ensures ok <==> db == Works && UpdateAccepted(old(alerts), alertId, newStatus)
      ensures ok ==> alerts == StatusUpdated(old(alerts), alertId, newStatus, performedBy, now)
                     && actions == old(actions) + [old(NextAction(alertId, "status_change", details, performedBy, now))]
                     && lastActionId == old(lastActionId) + 1
      ensures !ok ==> alerts == old(alerts) && actions == old(actions) && lastActionId == old(lastActionId)
      ensures old(Valid()) ==> Valid()
    {
      if db != Works || !UpdateAccepted(alerts, alertId, newStatus) {
        return false;
      }
      StatusUpdatedFacts(alerts, alertId, newStatus, performedBy, now);
      var updated := StatusUpdated(alerts, alertId, newStatus, performedBy, now);
      var action := NextAction(alertId, "status_change", details, performedBy, now);
      if Valid() {
        assert Tables.UniqueKeys(updated, AlertId) by {
          forall i, j | 0 <= i < j < |updated| ensures AlertId(updated[i]) != AlertId(updated[j]) {
            assert AlertId(alerts[i]) != AlertId(alerts[j]);
          }
        }
        forall i | 0 <= i < |updated| ensures updated[i].status in Statuses && updated[i].severity in Severities {
          if alerts[i].id == alertId {
            assert Tables.HasKey(alerts, AlertId, alertId);
          }
        }
      }
      alerts := updated;
      actions := actions + [action];
      lastActionId := lastActionId + 1;
      ok := true;
    }

    /** `add_alert_action`: one action row is appended and the alerts are
        left alone; nothing changes when the connection or insert fails. */
    method AddAlertAction(alertId: int, actionType: string, details: string, performedBy: string, now: int,
                          db: DbStatus) returns (ok: bool)
      modifies this
      ensures ok <==> db == Works
      ensures alerts == old(alerts)
      ensures ok ==> actions == old(actions) + [old(NextAction(alertId, actionType, details, performedBy, now))]
                     && lastActionId == old(lastActionId) + 1
      ensures !ok ==> actions == old(actions) && lastActionId == old(lastActionId)
      ensures old(Valid()) ==> Valid()
    {
      if db != Works {
        return false;
      }
      actions := actions + [NextAction(alertId, actionType, details, performedBy, now)];
      lastActionId := lastActionId + 1;
      ok := true;
    }

    /** The status change from the detail view: the alert is looked up, the
        choice must be one the page offers for its status and both fields
        must be filled; only then is `update_alert_status` called. */
    method SubmitStatusChange(alertId: int, newStatus: string, performedBy: string, details: string, now: int,
                              db: DbStatus) returns (ok: bool)
      modifies this
      ensures var shown := old(Details(alertId, db));
              var offered := shown.Some? && newStatus in StatusChoices(shown.value.0.status)
                             && UpdateAttempted(performedBy, details);
              (ok <==> offered)
              && (offered ==> alerts == StatusUpdated(old(alerts), alertId, newStatus, performedBy, now)
                              && actions == old(actions) + [old(NextAction(alertId, "status_change", details, performedBy, now))])
              && (!offered ==> alerts == old(alerts) && actions == old(actions))
      ensures old(Valid()) ==> Valid()
    {
      var shown := Details(alertId, db);
      if shown.None? || newStatus !in StatusChoices(shown.value.0.status) || !UpdateAttempted(performedBy, details) {
        return false;
      }
      ok := UpdateAlertStatus(alertId, newStatus, performedBy, details, now, db);
    }
  }

  /** `SELECT * FROM alert_actions WHERE alert_id = ? ORDER BY performed_at
      DESC`, ties kept in table order. */
  function ActionHistory(actions: seq<AlertAction>, id: int): seq<AlertAction> {
    Sorting.SortBy(Tables.Where(actions, (x: AlertAction) => x.alertId == id), Sorting.IntDesc(PerformedAt))
  }

  /** The history holds exactly the actions of that alert, newest first. */
  lemma ActionHistoryFacts(actions: seq<AlertAction>, id: int)
    ensures var h := ActionHistory(actions, id);
            (forall k :: 0 <= k < |h| ==> h[k] in actions && h[k].alertId == id)
            && (forall i :: 0 <= i < |actions| && actions[i].alertId == id ==> actions[i] in h)
            && (forall j, k :: 0 <= j < k < |h| ==> h[j].performedAt >= h[k].performedAt)
  {
    var w := Tables.Where(actions, (x: AlertAction) => x.alertId == id);
    var h := ActionHistory(actions, id);
    Sorting.IntDescTotal(PerformedAt);
    Sorting.SortBySorted(w, Sorting.IntDesc(PerformedAt));
    forall k | 0 <= k < |h| ensures h[k] in actions && h[k].alertId == id {
      assert h[k] in multiset(w);
    }
    forall i | 0 <= i < |actions| && actions[i].alertId == id ensures actions[i] in h {
      assert actions[i] in multiset(h);
    }
    forall j, k | 0 <= j < k < |h| ensures h[j].performedAt >= h[k].performedAt {
      assert Sorting.IntDesc(PerformedAt)(h[j], h[k]);
      assert PerformedAt(h[j]) >= PerformedAt(h[k]);
    }
  }

  /** Through the page an alert never returns to `new`, and a resolved or
      false-positive alert keeps its status: every status the page can set
      is one the `CHECK` accepts. */
  lemma PageStatusChangesForward(current: string, choice: string)
    requires choice in StatusChoices(current)
    ensures choice in Statuses && choice != "new"
    ensures current != "resolved" && current != "false_positive"
  {
    var k :| 0 <= k < |StatusChoices(current)| && StatusChoices(current)[k] == choice;
  }
}
