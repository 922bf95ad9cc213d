/** The top-level multiple accounts page: an upload is sorted by timestamp,
    cut to one row per transaction id and validated; the store takes it under
    a skip, update or cancel policy for ids it holds already; and the analysis
    lists the individuals with more than one distinct account. */
module MultipleAccountsRoot {
  import opened Wrappers
  import opened Records
  import Grouping
  import Sorting
  import Paging
  import Tables
  import Text
  import MultipleAccountsPage

  const PageSize: nat := 1000

  /** A cell of a CSV column: a value, missing (NaN or NaT), or text the
      converter rejects. */
  datatype Cell<T> = Value(v: T) | Null | Unparseable

  /** A row of the uploaded CSV; an identifier is None where the cell is empty. */
  datatype UploadRow = UploadRow(transactionId: Option<string>, individualId: Option<string>,
                                 accountId: Option<string>, bankName: Option<string>,
                                 amount: Cell<real>, time: Cell<Stamp>)

  function UploadId(r: UploadRow): Option<string> { r.transactionId }

  /** `sort_values('timestamp')`: ascending, missing timestamps last. */
  predicate TimeBefore(a: UploadRow, b: UploadRow) {
    match (a.time, b.time)
    case (Value(s), Value(t)) => s.instant <= t.instant
    case (_, Value(_)) => false
    case _ => true
  }

  lemma TimeBeforeTotal()
    ensures Sorting.TotalPreorder(TimeBefore)
  {
  }

  /** `preprocess_dataframe`: None when the timestamp or transaction id column
      is absent or a timestamp does not parse; otherwise the rows by timestamp,
      keeping the first row of each transaction id. */
  function Preprocess(columns: set<string>, rows: seq<UploadRow>): (r: Option<seq<UploadRow>>)
    ensures r.None? <==> "timestamp" !in columns || "transaction_id" !in columns
                          || exists i :: 0 <= i < |rows| && rows[i].time.Unparseable?
  {
    if "timestamp" !in columns || "transaction_id" !in columns then None
    else if exists i :: 0 <= i < |rows| && rows[i].time.Unparseable? then None
    else Some(Tables.InsertAllIfAbsent([], UploadId, Sorting.SortBy(rows, TimeBefore)))
  }

  /** The preprocessed rows carry each transaction id once, and each is an
      uploaded row. */
  lemma PreprocessUniqueIds(columns: set<string>, rows: seq<UploadRow>)
    requires Preprocess(columns, rows).Some?
    ensures Tables.UniqueKeys(Preprocess(columns, rows).value, UploadId)
    ensures forall j :: 0 <= j < |Preprocess(columns, rows).value| ==> Preprocess(columns, rows).value[j] in rows
  {
    var sorted := Sorting.SortBy(rows, TimeBefore);
    Tables.InsertAllUnique([], UploadId, sorted);
    Tables.InsertAllKeepsRows([], UploadId, sorted);
    var r := Preprocess(columns, rows).value;
    forall j | 0 <= j < |r| ensures r[j] in rows {
      assert r[j] in multiset(sorted);
    }
  }

  /** No transaction id of the upload is lost, and the rows come out in
      timestamp order. */
  lemma PreprocessKeepsIds(columns: set<string>, rows: seq<UploadRow>, id: Option<string>)
    requires Preprocess(columns, rows).Some?
    ensures Tables.HasKey(Preprocess(columns, rows).value, UploadId, id) <==> Tables.HasKey(rows, UploadId, id)
    ensures Sorting.SortedBy(Preprocess(columns, rows).value, TimeBefore)
  {
    var sorted := Sorting.SortBy(rows, TimeBefore);
    Tables.InsertAllKeys([], UploadId, sorted, id);
    TimeBeforeTotal();
    Sorting.SortBySorted(rows, TimeBefore);
    Tables.InsertAllSorted(UploadId, sorted, TimeBefore);
    if Tables.HasKey(rows, UploadId, id) {
      var i :| 0 <= i < |rows| && UploadId(rows[i]) == id;
      var k := Grouping.PermutedIndex(sorted, rows, i);
    }
    if exists k :: 0 <= k < |sorted| && UploadId(sorted[k]) == id {
      var k :| 0 <= k < |sorted| && UploadId(sorted[k]) == id;
      var i := Grouping.PermutedIndex(rows, sorted, k);
    }
  }

  /** Of the rows sharing a transaction id, the one kept has the earliest
      timestamp. */
  lemma PreprocessKeepsEarliest(columns: set<string>, rows: seq<UploadRow>, i: nat)
    requires Preprocess(columns, rows).Some? && i < |rows|
    ensures var r := Preprocess(columns, rows).value;
            exists j :: 0 <= j < |r| && r[j].transactionId == rows[i].transactionId && TimeBefore(r[j], rows[i])
  {
    var sorted := Sorting.SortBy(rows, TimeBefore);
    TimeBeforeTotal();
    Sorting.SortBySorted(rows, TimeBefore);
    var k := Grouping.PermutedIndex(sorted, rows, i);
    Tables.InsertAllEarliest(UploadId, sorted, TimeBefore, k);
  }

  /** Why `validate_dataframe` said False, in the order it checks. */
  datatype ValidationError = NoData | MissingColumns(missing: set<string>) | ConversionError | NullValues(columns: set<string>)

  predicate Converts(r: UploadRow) { !r.amount.Unparseable? && !r.time.Unparseable? }
  predicate Complete(r: UploadRow) { r.amount.Value? && r.time.Value? }

  /** `astype(str)`: an empty cell becomes the text "nan". */
  function AsText(c: Option<string>): string {
    match c
    case Some(s) => s
    case None => "nan"
  }

  function AsTxn(r: UploadRow): Txn
    requires Complete(r)
  {
    Txn(AsText(r.transactionId), AsText(r.individualId), AsText(r.accountId), AsText(r.bankName),
        r.amount.v, r.time.v)
  }

  /** The columns `isnull().sum()` reports once the identifiers are text. */
  function NullColumns(rows: seq<UploadRow>): set<string> {
    (if exists i :: 0 <= i < |rows| && rows[i].amount.Null? then {"amount"} else {})
    + (if exists i :: 0 <= i < |rows| && rows[i].time.Null? then {"timestamp"} else {})
  }

  /** `validate_dataframe` as written: empty input, missing columns, a value
      that does not convert, then the null check, which runs after the
      identifier columns were turned into text. */
  function ValidateDataframe(columns: set<string>, rows: seq<UploadRow>): (r: Result<seq<Txn>, ValidationError>)
    ensures r.Ok? <==> rows != [] && RequiredColumns <= columns && forall i :: 0 <= i < |rows| ==> Complete(rows[i])
    ensures r.Ok? ==> |r.value| == |rows| && forall i :: 0 <= i < |rows| ==> r.value[i] == AsTxn(rows[i])
    ensures r == Err(NoData) <==> rows == [] || columns == {}
    ensures r.Err? && r.error.MissingColumns? ==> r.error.missing == RequiredColumns - columns && r.error.missing != {}
    ensures r.Err? && r.error.NullValues? ==> r.error.columns != {} && r.error.columns <= {"amount", "timestamp"}
  {
    if rows == [] || columns == {} then Err(NoData)
    else if !(RequiredColumns <= columns) then
      MissingColumnsNonEmpty(RequiredColumns, columns);
      Err(MissingColumns(RequiredColumns - columns))
    else if exists i :: 0 <= i < |rows| && !Converts(rows[i]) then Err(ConversionError)
    else if NullColumns(rows) != {} then Err(NullValues(NullColumns(rows)))
    else Ok(seq(|rows|, i requires 0 <= i < |rows| => AsTxn(rows[i])))
  }

  /** A row whose individual is empty passes validation and is stored under
      the individual "nan". */
  lemma EmptyIndividualBecomesNan()
    ensures var row := UploadRow(Some("t1"), None, Some("a1"), Some("Bank"), Value(10.0),
                                 Value(Stamp(0, Date(2024, 1, 1), 0, 0, 2024, 1)));
            var r := ValidateDataframe(RequiredColumns, [row]);
            r.Ok? && r.value[0].individualId == "nan"
  {
    var row := UploadRow(Some("t1"), None, Some("a1"), Some("Bank"), Value(10.0),
                         Value(Stamp(0, Date(2024, 1, 1), 0, 0, 2024, 1)));
    assert NullColumns([row]) == {};
  }

  /** The columns with an empty cell, identifiers included. */
  function AllNullColumns(rows: seq<UploadRow>): set<string> {
    NullColumns(rows)
    + (if exists i :: 0 <= i < |rows| && rows[i].transactionId.None? then {"transaction_id"} else {})
    + (if exists i :: 0 <= i < |rows| && rows[i].individualId.None? then {"individual_id"} else {})
    + (if exists i :: 0 <= i < |rows| && rows[i].accountId.None? then {"account_id"} else {})
    + (if exists i :: 0 <= i < |rows| && rows[i].bankName.None? then {"bank_name"} else {})
  }

  predicate Filled(r: UploadRow) {
    Complete(r) && r.transactionId.Some? && r.individualId.Some? && r.accountId.Some? && r.bankName.Some?
  }

  /** `validate_dataframe` with the null check ahead of the text conversion. */
  function ValidateDataframeChecked(columns: set<string>, rows: seq<UploadRow>): (r: Result<seq<Txn>, ValidationError>)
  {
    if rows == [] || columns == {} then Err(NoData)
    else if !(RequiredColumns <= columns) then
      MissingColumnsNonEmpty(RequiredColumns, columns);
      Err(MissingColumns(RequiredColumns - columns))
    else if exists i :: 0 <= i < |rows| && !Converts(rows[i]) then Err(ConversionError)
    else if AllNullColumns(rows) != {} then Err(NullValues(AllNullColumns(rows)))
    else Ok(seq(|rows|, i requires 0 <= i < |rows| => AsTxn(rows[i])))
  }

  /** With the check moved, a frame passes exactly when no cell of the six
      columns is empty, and every stored identifier is the uploaded one. */
  lemma CheckedValidationRejectsEmptyCells(columns: set<string>, rows: seq<UploadRow>)
    ensures ValidateDataframeChecked(columns, rows).Ok? <==>
              rows != [] && RequiredColumns <= columns && forall i :: 0 <= i < |rows| ==> Filled(rows[i])
    ensures ValidateDataframeChecked(columns, rows).Ok? ==>
              forall i :: 0 <= i < |rows| ==>
                ValidateDataframeChecked(columns, rows).value[i].individualId == rows[i].individualId.value
                && ValidateDataframeChecked(columns, rows).value[i].transactionId == rows[i].transactionId.value
                && ValidateDataframeChecked(columns, rows).value[i].accountId == rows[i].accountId.value
                && ValidateDataframeChecked(columns, rows).value[i].bankName == rows[i].bankName.value
  {
    if rows != [] && columns != {} && RequiredColumns <= columns && forall i :: 0 <= i < |rows| ==> Converts(rows[i]) {
      if AllNullColumns(rows) == {} {
        forall i | 0 <= i < |rows| ensures Filled(rows[i]) {
          assert "amount" !in AllNullColumns(rows) && "timestamp" !in AllNullColumns(rows);
          assert "transaction_id" !in AllNullColumns(rows) && "individual_id" !in AllNullColumns(rows);
          assert "account_id" !in AllNullColumns(rows) && "bank_name" !in AllNullColumns(rows);
        }
      } else {
        var c :| c in AllNullColumns(rows);
        assert exists i :: 0 <= i < |rows| && !Filled(rows[i]);
      }
    }
  }

  /** `nunique()` of one individual's account ids. */
  function AccountCount(rows: seq<Txn>, id: string): nat {
    |Grouping.Keys(MultipleAccountsPage.RowsOf(rows, id), AccountOf)|
  }

  /** The individuals of `ids` with more than one distinct account, in order. */
  function WithAccounts(rows: seq<Txn>, ids: seq<string>): (r: seq<string>)
    ensures forall id :: id in r <==> id in ids && AccountCount(rows, id) > 1
    ensures Grouping.NoDup(ids) ==> Grouping.NoDup(r)
  {
    if ids == [] then []
    else
      var init := ids[..|ids| - 1];
      var last := ids[|ids| - 1];
      assert ids == init + [last];
      assert Grouping.NoDup(ids) ==> Grouping.NoDup(init) && last !in init;
      WithAccounts(rows, init) + (if AccountCount(rows, last) > 1 then [last] else [])
  }

  /** `account_counts[account_counts > 1].index`; `groupby` sorts its keys. */
  function MultiAccountIds(rows: seq<Txn>): seq<string> {
    WithAccounts(rows, Text.SortedDistinct(Grouping.Column(rows, IndividualOf)))
  }

  /** One row of the summary. */
  datatype Summary = Summary(individualId: string, accounts: seq<string>, banks: seq<string>,
                             transactionCount: nat, totalAmount: real, first: int, last: int,
                             numAccounts: nat, numBanks: nat)

  function SummaryId(s: Summary): string { s.individualId }
  function NumAccounts(s: Summary): int { s.numAccounts }

  /** The `agg` of one individual: sorted distinct accounts and banks, count,
      sum, earliest and latest timestamp, and the two list lengths. */
  function SummaryOf(rows: seq<Txn>, id: string): Summary {
    var ms := MultipleAccountsPage.RowsOf(rows, id);
    var accounts := Text.SortedDistinct(Grouping.Column(ms, AccountOf));
    var banks := Text.SortedDistinct(Grouping.Column(ms, BankOf));
    Summary(id, accounts, banks, |ms|, Grouping.Sum(ms, AmountOf),
            MultipleAccountsPage.FirstInstant(ms), MultipleAccountsPage.LastInstant(ms), |accounts|, |banks|)
  }

  function SummariesOf(rows: seq<Txn>, ids: seq<string>): (ss: seq<Summary>)
    ensures |ss| == |ids|
  {
    if ids == [] then [] else SummariesOf(rows, ids[..|ids| - 1]) + [SummaryOf(rows, ids[|ids| - 1])]
  }

  lemma {:induction false} SummariesOfAt(rows: seq<Txn>, ids: seq<string>, j: nat)
    requires j < |ids|
    ensures SummariesOf(rows, ids)[j] == SummaryOf(rows, ids[j])
    ensures SummariesOf(rows, ids)[j].individualId == ids[j]
  {
    if j < |ids| - 1 {
      SummariesOfAt(rows, ids[..|ids| - 1], j);
    }
  }

  /** `get_multiple_accounts`: nothing for an empty frame or when the index of
      multi-account individuals is all falsy (`.any()`), otherwise their
      summaries by number of accounts, largest first. */
  function GetMultipleAccounts(rows: seq<Txn>): seq<Summary> {
    if rows == [] then []
    else
      var ids := MultiAccountIds(rows);
      if !(exists k :: 0 <= k < |ids| && ids[k] != "") then []
      else Sorting.SortBy(SummariesOf(rows, ids), Sorting.IntDesc(NumAccounts))
  }

  /** Some individual other than "" has more than one distinct account. */
  predicate HasNamedMultiHolder(rows: seq<Txn>) {
    exists i :: 0 <= i < |rows| && rows[i].individualId != "" && AccountCount(rows, rows[i].individualId) > 1
  }

  lemma MultiAccountIdsExactly(rows: seq<Txn>, id: string)
    ensures id in MultiAccountIds(rows) <==> MultipleAccountsPage.HasTransactions(rows, id) && AccountCount(rows, id) > 1
  {
    var col := Grouping.Column(rows, IndividualOf);
    if MultipleAccountsPage.HasTransactions(rows, id) {
      var i :| 0 <= i < |rows| && rows[i].individualId == id;
      assert col[i] == id;
    }
    if id in Text.SortedDistinct(col) {
      assert id in col;
    }
  }

  /** The `.any()` test passes exactly when a multi-account individual has a
      non-empty id. */
  lemma AnyNamedExactly(rows: seq<Txn>)
    ensures (exists k :: 0 <= k < |MultiAccountIds(rows)| && MultiAccountIds(rows)[k] != "") <==> HasNamedMultiHolder(rows)
  {
    var ids := MultiAccountIds(rows);
    if exists k :: 0 <= k < |ids| && ids[k] != "" {
      var k :| 0 <= k < |ids| && ids[k] != "";
      MultiAccountIdsExactly(rows, ids[k]);
    }
    if HasNamedMultiHolder(rows) {
      var i :| 0 <= i < |rows| && rows[i].individualId != "" && AccountCount(rows, rows[i].individualId) > 1;
      MultiAccountIdsExactly(rows, rows[i].individualId);
    }
  }

  /** An individual has a summary row exactly when it has more than one
      distinct account, given that the `.any()` test lets the result through. */
  lemma MultipleAccountsListed(rows: seq<Txn>, id: string)
    ensures Tables.HasKey(GetMultipleAccounts(rows), SummaryId, id) <==>
              MultipleAccountsPage.HasTransactions(rows, id) && AccountCount(rows, id) > 1 && HasNamedMultiHolder(rows)
  {
    var ids := MultiAccountIds(rows);
    MultiAccountIdsExactly(rows, id);
    AnyNamedExactly(rows);
    if rows != [] && HasNamedMultiHolder(rows) {
      SummaryIds(rows, ids, id);
    }
  }

  lemma SummaryIds(rows: seq<Txn>, ids: seq<string>, id: string)
    ensures Tables.HasKey(Sorting.SortBy(SummariesOf(rows, ids), Sorting.IntDesc(NumAccounts)), SummaryId, id) <==> id in ids
  {
    SummariesIds(rows, ids);
    SortedSummaryIds(SummariesOf(rows, ids), ids, id);
  }

  /** `SummariesOf` gives the rows for `ids`, in that order. */
  lemma SummariesIds(rows: seq<Txn>, ids: seq<string>)
    ensures forall j :: 0 <= j < |ids| ==> SummariesOf(rows, ids)[j].individualId == ids[j]
  {
    forall j | 0 <= j < |ids| ensures SummariesOf(rows, ids)[j].individualId == ids[j] {
      SummariesOfAt(rows, ids, j);
    }
  }

  lemma SortedSummaryIds(pre: seq<Summary>, ids: seq<string>, id: string)
    requires |pre| == |ids|
    requires forall j :: 0 <= j < |ids| ==> pre[j].individualId == ids[j]
    ensures Tables.HasKey(Sorting.SortBy(pre, Sorting.IntDesc(NumAccounts)), SummaryId, id) <==> id in ids
  {
    Tables.PermutedHasKey(pre, Sorting.SortBy(pre, Sorting.IntDesc(NumAccounts)), SummaryId, id);
    if id in ids {
      var j :| 0 <= j < |ids| && ids[j] == id;
      assert SummaryId(pre[j]) == id;
    }
    if Tables.HasKey(pre, SummaryId, id) {
      var j :| 0 <= j < |pre| && SummaryId(pre[j]) == id;
      assert ids[j] == id;
    }
  }

  /** An empty frame has no summary rows. */
  lemma EmptyFrameNoSummaries()
    ensures GetMultipleAccounts([]) == []
  {
  }

  /** Every summary row is the aggregate of an individual with more than one
      distinct account. */
  lemma MultipleAccountsRows(rows: seq<Txn>)
    ensures var hs := GetMultipleAccounts(rows);
            forall k :: 0 <= k < |hs| ==>
              hs[k] == SummaryOf(rows, hs[k].individualId) && AccountCount(rows, hs[k].individualId) > 1
  {
    var ids := MultiAccountIds(rows);
    var pre := SummariesOf(rows, ids);
    var hs := Sorting.SortBy(pre, Sorting.IntDesc(NumAccounts));
    GetMultipleAccountsShape(rows);
    forall k | 0 <= k < |hs| ensures hs[k] == SummaryOf(rows, hs[k].individualId) && AccountCount(rows, hs[k].individualId) > 1 {
      var j := Grouping.PermutedIndex(pre, hs, k);
      SummariesOfAt(rows, ids, j);
      assert ids[j] in ids;
    }
  }

  /** No individual has two summary rows. */
  lemma MultipleAccountsUnique(rows: seq<Txn>)
    ensures Tables.UniqueKeys(GetMultipleAccounts(rows), SummaryId)
  {
    var ids := MultiAccountIds(rows);
    var pre := SummariesOf(rows, ids);
    GetMultipleAccountsShape(rows);
    if GetMultipleAccounts(rows) != [] {
      MultiAccountIdsNoDup(rows);
      SummariesIds(rows, ids);
      SortedSummariesUnique(pre, ids);
    }
  }

  /** The summary is empty or the sorted summaries of the holders. */
  lemma GetMultipleAccountsShape(rows: seq<Txn>)
    ensures var r := GetMultipleAccounts(rows);
            r == [] || r == Sorting.SortBy(SummariesOf(rows, MultiAccountIds(rows)), Sorting.IntDesc(NumAccounts))
  {
  }

  lemma MultiAccountIdsNoDup(rows: seq<Txn>)
    ensures Grouping.NoDup(MultiAccountIds(rows))
  {
    var sorted := Text.SortedDistinct(Grouping.Column(rows, IndividualOf));
    assert Grouping.NoDup(sorted);
  }

  lemma SortedSummariesUnique(pre: seq<Summary>, ids: seq<string>)
    requires |pre| == |ids| && Grouping.NoDup(ids)
    requires forall j :: 0 <= j < |ids| ==> pre[j].individualId == ids[j]
    ensures Tables.UniqueKeys(Sorting.SortBy(pre, Sorting.IntDesc(NumAccounts)), SummaryId)
  {
    var hs := Sorting.SortBy(pre, Sorting.IntDesc(NumAccounts));
    forall x, y | 0 <= x < y < |pre| ensures pre[x] != pre[y] {
      assert ids[x] != ids[y];
    }
    assert Grouping.NoDup(pre);
    Grouping.NoDupPermutation(pre, hs);
    forall k, l | 0 <= k < l < |hs| ensures SummaryId(hs[k]) != SummaryId(hs[l]) {
      var j1 := Grouping.PermutedIndex(pre, hs, k);
      var j2 := Grouping.PermutedIndex(pre, hs, l);
      assert hs[k] != hs[l];
      assert j1 != j2;
      assert SummaryId(hs[k]) == ids[j1] && SummaryId(hs[l]) == ids[j2];
      assert ids[j1] != ids[j2] by {
        if j1 < j2 { assert ids[j1] != ids[j2]; } else { assert ids[j2] != ids[j1]; }
      }
    }
  }

  /** The summary rows are ordered by number of accounts, largest first. */
  lemma MultipleAccountsOrdered(rows: seq<Txn>)
    ensures Sorting.SortedBy(GetMultipleAccounts(rows), Sorting.IntDesc(NumAccounts))
  {
    Sorting.IntDescTotal(NumAccounts);
    Sorting.SortBySorted(SummariesOf(rows, MultiAccountIds(rows)), Sorting.IntDesc(NumAccounts));
  }

  /** Distinct values of a column are distinct key values. */
  lemma DistinctColumn(ms: seq<Txn>, f: Txn -> string)
    ensures Grouping.Distinct(Grouping.Column(ms, f), Text.Identity) == Grouping.Distinct(ms, f)
  {
    var col := Grouping.Column(ms, f);
    forall x | x in Grouping.Distinct(ms, f) ensures x in Grouping.Distinct(col, Text.Identity) {
      var i :| 0 <= i < |ms| && f(ms[i]) == x;
      assert Text.Identity(col[i]) == x;
    }
  }

  /** `num_accounts` is the individual's distinct account count, and a
      summary counts and sums the individual's rows. */
  lemma SummaryCounts(rows: seq<Txn>, id: string)
    ensures var s := SummaryOf(rows, id);
            s.numAccounts == |s.accounts| == AccountCount(rows, id)
            && s.numBanks == |s.banks|
            && s.transactionCount == |MultipleAccountsPage.RowsOf(rows, id)|
            && s.totalAmount == Grouping.Sum(MultipleAccountsPage.RowsOf(rows, id), AmountOf)
  {
    var ms := MultipleAccountsPage.RowsOf(rows, id);
    DistinctColumn(ms, AccountOf);
    Grouping.KeysCount(ms, AccountOf);
  }

  /** The account and bank lists are in text order without repeats. */
  lemma SummaryListsSorted(rows: seq<Txn>, id: string)
    ensures var s := SummaryOf(rows, id);
            (forall a, b :: 0 <= a < b < |s.accounts| ==> Text.StrLe(s.accounts[a], s.accounts[b]) && s.accounts[a] != s.accounts[b])
            && (forall a, b :: 0 <= a < b < |s.banks| ==> Text.StrLe(s.banks[a], s.banks[b]) && s.banks[a] != s.banks[b])
  {
  }

  /** Every row of the individual shows up in the summary: its account and
      bank are listed and its timestamp lies between first and last. */
  lemma SummaryCoversRows(rows: seq<Txn>, id: string, i: nat)
    requires i < |rows| && rows[i].individualId == id
    ensures var s := SummaryOf(rows, id);
            rows[i].accountId in s.accounts && rows[i].bankName in s.banks && s.first <= rows[i].time.instant <= s.last
  {
    var ms := MultipleAccountsPage.RowsOf(rows, id);
    assert IndividualOf(rows[i]) == id;
    assert rows[i] in ms;
    var j :| 0 <= j < |ms| && ms[j] == rows[i];
    assert Grouping.Column(ms, AccountOf)[j] == rows[i].accountId;
    assert Grouping.Column(ms, BankOf)[j] == rows[i].bankName;
  }

  /** Every listed account is one of the individual's. */
  lemma SummaryAccountsAreOwn(rows: seq<Txn>, id: string, a: string)
    requires a in SummaryOf(rows, id).accounts
    ensures exists i :: 0 <= i < |rows| && rows[i].individualId == id && rows[i].accountId == a
  {
    var ms := MultipleAccountsPage.RowsOf(rows, id);
    var col := Grouping.Column(ms, AccountOf);
    assert a in col;
    var j :| 0 <= j < |col| && col[j] == a;
    assert ms[j] in rows;
  }

  /** `get_db_stats`: the database-wide counters, the account-count metrics
      and the five individuals with most accounts. */
  datatype RootStats = RootStats(totalRecords: nat, uniqueIndividuals: nat, totalAmount: real,
                                 dateRange: Option<(int, int)>, avgAccounts: real,
                                 multiHolders: nat, percentMultiple: real,
                                 topIndividuals: seq<(string, nat)>)

  const NoStats := RootStats(0, 0, 0.0, None, 0.0, 0, 0.0, [])

  /** The groups of `GROUP BY individual_id`. */
  function Individuals(table: seq<Txn>): seq<string> {
    Grouping.Keys(table, IndividualOf)
  }

  /** `SELECT individual_id, COUNT(DISTINCT account_id) ... GROUP BY individual_id`. */
  function AccountCounts(rows: seq<Txn>, ids: seq<string>): (cs: seq<(string, nat)>)
    ensures |cs| == |ids|
    ensures forall k :: 0 <= k < |ids| ==> cs[k] == (ids[k], AccountCount(rows, ids[k]))
  {
    if ids == [] then [] else AccountCounts(rows, ids[..|ids| - 1]) + [(ids[|ids| - 1], AccountCount(rows, ids[|ids| - 1]))]
  }

  function CountOf(c: (string, nat)): int { c.1 }
  function CountValue(c: (string, nat)): real { c.1 as real }

  /** `account_count.mean()`, 0 for an empty frame. */
  function AverageAccounts(table: seq<Txn>): real {
    var cs := AccountCounts(table, Individuals(table));
    Grouping.Mean(Grouping.Sum(cs, CountValue), |cs|)
  }

  /** `len(multi_accounts_data[account_count > 1])`. */
  function HolderCount(table: seq<Txn>): nat {
    |WithAccounts(table, Individuals(table))|
  }

  /** The holders as a percentage of the individuals, 0 for an empty frame. */
  function PercentMultiple(table: seq<Txn>): real {
    Grouping.Percent(HolderCount(table) as real, |Individuals(table)|)
  }

  /** `nlargest(5, 'account_count')`. */
  function Top5(cs: seq<(string, nat)>): seq<(string, nat)> {
    var sorted := Sorting.SortBy(cs, Sorting.IntDesc(CountOf));
    sorted[..Paging.Min(5, |sorted|)]
  }

  /** `MIN(timestamp)` and `MAX(timestamp)`: NULL on an empty table. */
  function DateRange(table: seq<Txn>): Option<(int, int)> {
    if table == [] then None
    else Some((MultipleAccountsPage.FirstInstant(table), MultipleAccountsPage.LastInstant(table)))
  }

  /** `get_db_stats`; None when the connection, the table or a query is
      missing, which gives the zero counters.  `SUM` over no rows is NULL and
      shows as 0. */
  function GetDbStats(table: Option<seq<Txn>>): RootStats {
    match table
    case None => NoStats
    case Some(t) =>
      RootStats(|t|, |Individuals(t)|, Grouping.Sum(t, AmountOf), DateRange(t), AverageAccounts(t),
                HolderCount(t), PercentMultiple(t), Top5(AccountCounts(t, Individuals(t))))
  }

  /** The share of multi-account holders is a percentage of the individuals:
      0 exactly when nobody holds several accounts, 100 exactly when
      everybody does. */
  lemma StatsPercent(table: seq<Txn>)
    ensures HolderCount(table) <= |Individuals(table)|
    ensures 0.0 <= PercentMultiple(table) <= 100.0
    ensures PercentMultiple(table) == 0.0 <==> HolderCount(table) == 0
    ensures PercentMultiple(table) == 100.0 <==> |Individuals(table)| > 0 && HolderCount(table) == |Individuals(table)|
  {
    HoldersAmongIndividuals(table, Individuals(table));
    Grouping.PercentBounds(HolderCount(table) as real, |Individuals(table)|);
  }

  /** Without data every counter is zero and the date range is absent. */
  lemma StatsOfEmptyTable()
    ensures GetDbStats(Some([])) == RootStats(0, 0, 0.0, None, 0.0, 0, 0.0, [])
  {
    assert Individuals([]) == [];
  }

  /** Filtering a list without repeats keeps it no longer. */
  lemma HoldersAmongIndividuals(table: seq<Txn>, ids: seq<string>)
    requires Grouping.NoDup(ids)
    ensures |WithAccounts(table, ids)| <= |ids|
  {
    var h := WithAccounts(table, ids);
    Grouping.NoDupCard(ids);
    Grouping.NoDupCard(h);
    forall x | x in Grouping.Elements(h) ensures x in Grouping.Elements(ids) {
      var i :| 0 <= i < |h| && h[i] == x;
      assert h[i] in h;
      var j :| 0 <= j < |ids| && ids[j] == x;
    }
    assert Grouping.Elements(h) <= Grouping.Elements(ids);
  }

  /** The holder count agrees with the analysis: it is the number of
      individuals with more than one distinct account. */
  lemma StatsHoldersMatchAnalysis(table: seq<Txn>)
    ensures HolderCount(table) == |MultiAccountIds(table)|
  {
    var ks := Individuals(table);
    var a := WithAccounts(table, ks);
    var b := MultiAccountIds(table);
    assert Grouping.NoDup(a);
    MultiAccountIdsNoDup(table);
    forall id ensures id in a <==> id in b {
      MultiAccountIdsExactly(table, id);
      IndividualsExactly(table, id);
    }
    SameMembersSameLength(a, b);
  }

  /** The individuals listed are exactly those with a transaction. */
  lemma IndividualsExactly(table: seq<Txn>, id: string)
    ensures id in Individuals(table) <==> MultipleAccountsPage.HasTransactions(table, id)
  {
    var ks := Individuals(table);
    if id in ks {
      var k :| 0 <= k < |ks| && ks[k] == id;
      var i :| 0 <= i < |table| && IndividualOf(table[i]) == ks[k];
      assert table[i].individualId == id;
    }
    if MultipleAccountsPage.HasTransactions(table, id) {
      var i :| 0 <= i < |table| && table[i].individualId == id;
      assert IndividualOf(table[i]) in ks;
    }
  }

  /** Two lists without repeats and with the same members are equally long. */
  lemma SameMembersSameLength(a: seq<string>, b: seq<string>)
    requires Grouping.NoDup(a) && Grouping.NoDup(b)
    requires forall x :: x in a <==> x in b
    ensures |a| == |b|
  {
    Grouping.NoDupCard(a);
    Grouping.NoDupCard(b);
    forall x ensures x in Grouping.Elements(a) <==> x in Grouping.Elements(b) {
      if x in a {
        var i :| 0 <= i < |a| && a[i] == x;
        var j :| 0 <= j < |b| && b[j] == x;
      }
      if x in Grouping.Elements(a) {
        var i :| 0 <= i < |a| && a[i] == x;
        assert a[i] in a;
      }
      if x in Grouping.Elements(b) {
        var j :| 0 <= j < |b| && b[j] == x;
        assert b[j] in b;
      }
    }
    assert Grouping.Elements(a) == Grouping.Elements(b);
  }

  /** Every individual in the table has at least one account, so with data
      the mean account count is at least 1 and at most the row count. */
  lemma StatsAverageBounds(table: seq<Txn>)
    requires table != []
    ensures 1.0 <= AverageAccounts(table) <= |table| as real
  {
    var ks := Individuals(table);
    var cs := AccountCounts(table, ks);
    forall k | 0 <= k < |cs| ensures 1.0 <= CountValue(cs[k]) <= |table| as real {
      var i :| 0 <= i < |table| && IndividualOf(table[i]) == ks[k];
      AccountCountBounds(table, i);
      assert cs[k] == (table[i].individualId, AccountCount(table, table[i].individualId));
    }
    assert cs != [] by {
      assert IndividualOf(table[0]) in ks;
    }
    Grouping.MeanOfBounded(cs, CountValue, 1.0, |table| as real);
  }

  /** An individual with a transaction has between one and `|table|`
      distinct accounts. */
  lemma AccountCountBounds(table: seq<Txn>, i: nat)
    requires i < |table|
    ensures 1 <= AccountCount(table, table[i].individualId) <= |table|
  {
    var ms := MultipleAccountsPage.RowsOf(table, table[i].individualId);
    assert table[i] in ms;
    assert AccountOf(table[i]) in Grouping.Keys(ms, AccountOf);
  }

  /** At most five individuals are reported, and no individual left out has
      more accounts than one reported. */
  lemma TopIndividuals(table: seq<Txn>)
    ensures var cs := AccountCounts(table, Individuals(table));
            var top := GetDbStats(Some(table)).topIndividuals;
            |top| == Paging.Min(5, |cs|)
            && (forall k, c :: 0 <= k < |top| && c in cs && c !in top ==> c.1 <= top[k].1)
  {
    TopOfCounts(AccountCounts(table, Individuals(table)));
  }

  /** Each reported individual is reported with its own account count. */
  lemma TopIndividualsCounts(table: seq<Txn>, k: nat)
    requires k < |GetDbStats(Some(table)).topIndividuals|
    ensures var top := GetDbStats(Some(table)).topIndividuals;
            top[k].0 in Individuals(table) && top[k].1 == AccountCount(table, top[k].0)
  {
    var ids := Individuals(table);
    var cs := AccountCounts(table, ids);
    var top := Top5(cs);
    assert GetDbStats(Some(table)).topIndividuals == top;
    TopOfCounts(cs);
    assert top[k] in cs;
    var j :| 0 <= j < |cs| && cs[j] == top[k];
    assert cs[j] == (ids[j], AccountCount(table, ids[j]));
    assert ids[j] in ids;
  }

  lemma TopOfCounts(cs: seq<(string, nat)>)
    ensures |Top5(cs)| == Paging.Min(5, |cs|)
    ensures forall k :: 0 <= k < |Top5(cs)| ==> Top5(cs)[k] in cs
    ensures forall k, c :: 0 <= k < |Top5(cs)| && c in cs && c !in Top5(cs) ==> c.1 <= Top5(cs)[k].1
  {
    var le := Sorting.IntDesc(CountOf);
    var sorted := Sorting.SortBy(cs, le);
    var top := Top5(cs);
    Sorting.IntDescTotal(CountOf);
    Sorting.SortBySorted(cs, le);
    forall k | 0 <= k < |top| ensures top[k] in cs {
      assert top[k] == sorted[k];
      assert sorted[k] in multiset(cs);
    }
    forall k, c | 0 <= k < |top| && c in cs && c !in top ensures c.1 <= top[k].1 {
      assert c in multiset(sorted);
      var l :| 0 <= l < |sorted| && sorted[l] == c;
      assert l >= |top|;
      assert top[k] == sorted[k];
      assert le(sorted[k], sorted[l]);
      assert CountOf(sorted[k]) >= CountOf(sorted[l]);
    }
  }

  /** `ORDER BY timestamp DESC` over the whole table. */
  function Newest(table: seq<Txn>): seq<Txn> {
    Sorting.SortBy(table, Sorting.IntDesc(MultipleAccountsPage.Instant))
  }

  /** `get_paginated_data`: `page_size` rows from offset `page * page_size`,
      newest first, with the page count and the row count; a failing query
      or a page size of 0 (a division by zero) gives an empty page and zero
      counts. */
  function PaginatedData(table: Option<seq<Txn>>, page: nat, pageSize: nat): (seq<Txn>, nat, nat) {
    if table.None? || pageSize == 0 then ([], 0, 0)
    else (Paging.Page(Newest(table.value), page, pageSize), Paging.TotalPages(|table.value|, pageSize), |table.value|)
  }

  /** The ordering lists every stored row once, newest first. */
  lemma NewestCorrect(table: seq<Txn>)
    ensures var m := Newest(table);
            multiset(m) == multiset(table)
            && (forall k :: 0 <= k < |m| ==> m[k] in table)
            && (forall k, l :: 0 <= k < l < |m| ==> MultipleAccountsPage.Instant(m[k]) >= MultipleAccountsPage.Instant(m[l]))
  {
    var m := Newest(table);
    Sorting.IntDescTotal(MultipleAccountsPage.Instant);
    Sorting.SortBySorted(table, Sorting.IntDesc(MultipleAccountsPage.Instant));
    forall k | 0 <= k < |m| ensures m[k] in table {
      assert m[k] in multiset(table);
    }
    forall k, l | 0 <= k < l < |m| ensures MultipleAccountsPage.Instant(m[k]) >= MultipleAccountsPage.Instant(m[l]) {
      assert Sorting.IntDesc(MultipleAccountsPage.Instant)(m[k], m[l]);
    }
  }

  /** A page holds at most `page_size` stored rows, and the counts are those
      of the whole table. */
  lemma PaginatedDataRows(table: seq<Txn>, page: nat, pageSize: nat)
    requires pageSize > 0
    ensures var r := PaginatedData(Some(table), page, pageSize);
            |r.0| <= pageSize
            && (forall k :: 0 <= k < |r.0| ==> r.0[k] in table)
            && r.2 == |table| && r.1 == Paging.TotalPages(|table|, pageSize)
  {
    var m := Newest(table);
    NewestCorrect(table);
    var rows := Paging.Page(m, page, pageSize);
    var lo := Paging.PageSlice(m, page, pageSize);
    forall k | 0 <= k < |rows| ensures rows[k] in table {
      assert rows[k] == m[lo + k];
    }
  }

  /** A page lists its rows newest first. */
  lemma PaginatedDataNewestFirst(table: seq<Txn>, page: nat, pageSize: nat)
    requires pageSize > 0
    ensures var rows := PaginatedData(Some(table), page, pageSize).0;
            forall k, l :: 0 <= k < l < |rows| ==> rows[k].time.instant >= rows[l].time.instant
  {
    var m := Newest(table);
    NewestCorrect(table);
    var rows := Paging.Page(m, page, pageSize);
    var lo := Paging.PageSlice(m, page, pageSize);
    forall k, l | 0 <= k < l < |rows| ensures rows[k].time.instant >= rows[l].time.instant {
      assert rows[k] == m[lo + k] && rows[l] == m[lo + l];
    }
  }

  /** Paging through the listing with the page's size of 1000 shows every
      stored row, at its position in the newest-first order. */
  lemma EveryRowOnItsPage(table: seq<Txn>, i: nat)
    requires i < |table|
    ensures i / PageSize < PaginatedData(Some(table), i / PageSize, PageSize).1
    ensures PaginatedData(Some(table), i / PageSize, PageSize).0[i % PageSize] == Newest(table)[i]
  {
    Paging.RowOnPage(Newest(table), PageSize, i);
  }

  type Account = MultipleAccountsPage.Account

  /** The choice offered when some uploaded ids are stored already. */
  datatype DuplicatePolicy = SkipExisting | UpdateExisting | Cancel

  /** The `(success, message)` pairs of `save_to_database`. */
  datatype SaveOutcome =
    | Saved(count: nat)      // "Successfully saved n transactions"
    | Cancelled              // "Operation cancelled by user"
    | NothingNew             // every uploaded id was stored already
    | NothingToSave          // an empty frame
    | MissingAccounts        // a FOREIGN KEY failure
    | Rejected               // any other integrity error: a repeated transaction id
    | Failed                 // no connection, or a failing query

  /** Both tables keep their primary keys and every transaction refers to a
      stored account. */
  ghost predicate ValidTables(accounts: seq<Account>, transactions: seq<Txn>) {
    Tables.UniqueKeys(accounts, MultipleAccountsPage.AccountKey)
    && Tables.UniqueKeys(transactions, IdOf)
    && forall i :: 0 <= i < |transactions| ==> Tables.HasKey(accounts, MultipleAccountsPage.AccountKey, transactions[i].accountId)
  }

  /** The existing-id query finds something. */
  predicate AnyStored(transactions: seq<Txn>, rows: seq<Txn>) {
    exists i :: 0 <= i < |rows| && Tables.HasKey(transactions, IdOf, rows[i].transactionId)
  }

  /** `~df['transaction_id'].isin(existing_ids)`. */
  function Fresh(transactions: seq<Txn>): Txn -> bool {
    (r: Txn) => !Tables.HasKey(transactions, IdOf, r.transactionId)
  }

  /** The rows the `DELETE ... WHERE transaction_id IN (...)` keeps. */
  function NotUploaded(rows: seq<Txn>): Txn -> bool {
    (t: Txn) => !Tables.HasKey(rows, IdOf, t.transactionId)
  }

  /** The account frame goes in as one transaction: it fails, and is
      skipped, when an account id is stored already or the frame holds one
      account id twice. */
  predicate AccountsFit(accounts: seq<Account>, frame: seq<Account>) {
    (forall k :: 0 <= k < |frame| ==> !Tables.HasKey(accounts, MultipleAccountsPage.AccountKey, frame[k].accountId))
    && (forall j, k :: 0 <= j < k < |frame| ==> frame[j].accountId != frame[k].accountId)
  }

  /** Row `k` of the batch breaks the UNIQUE constraint on `transaction_id`. */
  predicate Clash(transactions: seq<Txn>, batch: seq<Txn>, k: nat)
    requires k < |batch|
  {
    Tables.HasKey(transactions, IdOf, batch[k].transactionId) || Tables.HasKey(batch[..k], IdOf, batch[k].transactionId)
  }

  /** Row `k` of the batch breaks a constraint: UNIQUE, or the foreign key. */
  predicate Fails(accounts: seq<Account>, transactions: seq<Txn>, batch: seq<Txn>, k: nat)
    requires k < |batch|
  {
    Clash(transactions, batch, k) || !Tables.HasKey(accounts, MultipleAccountsPage.AccountKey, batch[k].accountId)
  }

  /** The first row from `k` on that the insert stops at. */
  function FirstFailing(accounts: seq<Account>, transactions: seq<Txn>, batch: seq<Txn>, k: nat): (r: Option<nat>)
    requires k <= |batch|
    ensures r.None? <==> forall j :: k <= j < |batch| ==> !Fails(accounts, transactions, batch, j)
    ensures r.Some? ==> k <= r.value < |batch| && Fails(accounts, transactions, batch, r.value)
                        && forall j :: k <= j < r.value ==> !Fails(accounts, transactions, batch, j)
    decreases |batch| - k
  {
    if k == |batch| then None
    else if Fails(accounts, transactions, batch, k) then Some(k)
    else FirstFailing(accounts, transactions, batch, k + 1)
  }

  /** The two tables after a save and its message. */
  datatype SaveResult = SaveResult(accounts: seq<Account>, transactions: seq<Txn>, outcome: SaveOutcome)

  /** The insert block: the account frame (an integrity error is ignored),
      then the batch in one transaction, rolled back at the first failing
      row, the foreign key reported apart from any other failure. */
  function WriteBatch(accounts: seq<Account>, kept: seq<Txn>, batch: seq<Txn>): SaveResult {
    var frame := MultipleAccountsPage.AccountsFrame(batch);
    var accs := if AccountsFit(accounts, frame) then accounts + frame else accounts;
    match FirstFailing(accs, kept, batch, 0)
    case None => SaveResult(accs, kept + batch, Saved(|batch|))
    case Some(k) => SaveResult(accs, kept, if Clash(kept, batch, k) then Rejected else MissingAccounts)
  }

  /** The rows that go to the insert: under Skip only those whose ids are
      not stored. */
  function Batch(transactions: seq<Txn>, rows: seq<Txn>, policy: DuplicatePolicy): seq<Txn> {
    if AnyStored(transactions, rows) && policy == SkipExisting then Tables.Where(rows, Fresh(transactions)) else rows
  }

  /** The stored transactions before the insert: under Update those whose
      ids were not uploaded. */
  function Kept(transactions: seq<Txn>, rows: seq<Txn>, policy: DuplicatePolicy): seq<Txn> {
    if AnyStored(transactions, rows) && policy == UpdateExisting then Tables.Where(transactions, NotUploaded(rows)) else transactions
  }

  /** `save_to_database` with the policy chosen for stored ids: Cancel stops,
      Skip saves only the new rows, Update first deletes (and commits the
      deletion of) the stored rows with uploaded ids. */
  function SaveEffect(accounts: seq<Account>, transactions: seq<Txn>, rows: seq<Txn>,
                      policy: DuplicatePolicy, db: DbStatus): SaveResult
  {
    if db != Works then SaveResult(accounts, transactions, Failed)
    else if AnyStored(transactions, rows) && policy == Cancel then SaveResult(accounts, transactions, Cancelled)
    else if AnyStored(transactions, rows) && policy == SkipExisting && Batch(transactions, rows, policy) == []
    then SaveResult(accounts, transactions, NothingNew)
    else if Batch(transactions, rows, policy) == [] then SaveResult(accounts, Kept(transactions, rows, policy), NothingToSave)
    else WriteBatch(accounts, Kept(transactions, rows, policy), Batch(transactions, rows, policy))
  }

  /** A successful save appended the whole batch, on which no row fails,
      to the kept rows. */
  lemma SavedShape(accounts: seq<Account>, transactions: seq<Txn>, rows: seq<Txn>,
                   policy: DuplicatePolicy, db: DbStatus)
    requires SaveEffect(accounts, transactions, rows, policy, db).outcome.Saved?
    ensures var r := SaveEffect(accounts, transactions, rows, policy, db);
            var batch := Batch(transactions, rows, policy);
            var kept := Kept(transactions, rows, policy);
            db == Works && batch != [] && r.transactions == kept + batch && r.outcome.count == |batch|
            && FirstFailing(r.accounts, kept, batch, 0).None?
  {
  }

  /** The `accounts` and `transactions` tables of the top-level page. */
  class RootStore {
    var accounts: seq<Account>
    var transactions: seq<Txn>

    ghost predicate Valid()
      reads this
    {
      ValidTables(accounts, transactions)
    }

    constructor ()
      ensures accounts == [] && transactions == []
      ensures Valid()
    {
      accounts := [];
      transactions := [];
    }

    /** `save_to_database`: the existing-id query, the policy, then the
        account and transaction inserts.  True exactly when the rows were
        saved. */
    method SaveToDatabase(rows: seq<Txn>, policy: DuplicatePolicy, db: DbStatus) returns (ok: bool, outcome: SaveOutcome)
      modifies this
      ensures SaveResult(accounts, transactions, outcome) == SaveEffect(old(accounts), old(transactions), rows, policy, db)
      ensures ok <==> outcome.Saved?
      ensures old(Valid()) ==> Valid()
    {
      ghost var accounts0, transactions0 := accounts, transactions;
      if db != Works {
        outcome := Failed;
      } else {
        var stored := AnyStored(transactions, rows);
        if stored && policy == Cancel {
          outcome := Cancelled;
        } else {
          var batch := rows;
          if stored && policy == SkipExisting {
            batch := Tables.Where(rows, Fresh(transactions));
          }
          assert batch == Batch(transactions0, rows, policy);
          if stored && policy == SkipExisting && batch == [] {
            outcome := NothingNew;
          } else {
            if stored && policy == UpdateExisting {
              transactions := Tables.Where(transactions, NotUploaded(rows));
            }
            assert transactions == Kept(transactions0, rows, policy);
            if batch == [] {
              outcome := NothingToSave;
            } else {
              assert SaveEffect(accounts0, transactions0, rows, policy, db) == WriteBatch(accounts0, transactions, batch);
              var frame := MultipleAccountsPage.AccountsFrame(batch);
              if AccountsFit(accounts, frame) {
                accounts := accounts + frame;
              }
              var failing := FirstFailing(accounts, transactions, batch, 0);
              if failing.None? {
                transactions := transactions + batch;
                outcome := Saved(|batch|);
              } else if Clash(transactions, batch, failing.value) {
                outcome := Rejected;
              } else {
                outcome := MissingAccounts;
              }
            }
          }
        }
      }
      ok := outcome.Saved?;
      if ValidTables(accounts0, transactions0) {
        SaveKeepsValid(accounts0, transactions0, rows, policy, db);
      }
    }
  }

  /** A save keeps both primary keys and the foreign key. */
  lemma SaveKeepsValid(accounts: seq<Account>, transactions: seq<Txn>, rows: seq<Txn>,
                       policy: DuplicatePolicy, db: DbStatus)
    requires ValidTables(accounts, transactions)
    ensures ValidTables(SaveEffect(accounts, transactions, rows, policy, db).accounts,
                        SaveEffect(accounts, transactions, rows, policy, db).transactions)
  {
    KeptValid(accounts, transactions, Kept(transactions, rows, policy), NotUploaded(rows));
    WriteBatchValid(accounts, Kept(transactions, rows, policy), Batch(transactions, rows, policy));
  }

  /** Deleting transactions keeps the tables valid. */
  lemma KeptValid(accounts: seq<Account>, transactions: seq<Txn>, kept: seq<Txn>, p: Txn -> bool)
    requires ValidTables(accounts, transactions)
    requires kept == transactions || kept == Tables.Where(transactions, p)
    ensures ValidTables(accounts, kept)
  {
    if kept != transactions {
      Tables.WhereUnique(transactions, IdOf, p);
      forall i | 0 <= i < |kept| ensures Tables.HasKey(accounts, MultipleAccountsPage.AccountKey, kept[i].accountId) {
        var j :| 0 <= j < |transactions| && transactions[j] == kept[i];
      }
    }
  }

  lemma WriteBatchValid(accounts: seq<Account>, kept: seq<Txn>, batch: seq<Txn>)
    requires ValidTables(accounts, kept)
    ensures ValidTables(WriteBatch(accounts, kept, batch).accounts, WriteBatch(accounts, kept, batch).transactions)
  {
    var frame := MultipleAccountsPage.AccountsFrame(batch);
    var accs := if AccountsFit(accounts, frame) then accounts + frame else accounts;
    AccountsValid(accounts, frame);
    forall i | 0 <= i < |kept| ensures Tables.HasKey(accs, MultipleAccountsPage.AccountKey, kept[i].accountId) {
      assert Tables.HasKey(accounts, MultipleAccountsPage.AccountKey, kept[i].accountId);
      Tables.HasKeyConcat(accounts, frame, MultipleAccountsPage.AccountKey, kept[i].accountId);
    }
    if FirstFailing(accs, kept, batch, 0).None? {
      AppendValid(accs, kept, batch);
    }
  }

  /** Adding a fitting account frame keeps the account ids unique and every
      stored account. */
  lemma AccountsValid(accounts: seq<Account>, frame: seq<Account>)
    requires Tables.UniqueKeys(accounts, MultipleAccountsPage.AccountKey)
    ensures AccountsFit(accounts, frame) ==> Tables.UniqueKeys(accounts + frame, MultipleAccountsPage.AccountKey)
  {
    if AccountsFit(accounts, frame) {
      var r := accounts + frame;
      forall i, j | 0 <= i < j < |r| ensures r[i].accountId != r[j].accountId {
        if i < |accounts| && j >= |accounts| {
          assert r[j] == frame[j - |accounts|];
          assert MultipleAccountsPage.AccountKey(accounts[i]) == r[i].accountId;
        } else if i >= |accounts| {
          assert r[i] == frame[i - |accounts|] && r[j] == frame[j - |accounts|];
        }
      }
    }
  }

  /** Appending a batch in which no row fails keeps the tables valid. */
  lemma AppendValid(accounts: seq<Account>, kept: seq<Txn>, batch: seq<Txn>)
    requires ValidTables(accounts, kept)
    requires forall j :: 0 <= j < |batch| ==> !Fails(accounts, kept, batch, j)
    ensures ValidTables(accounts, kept + batch)
  {
    var r := kept + batch;
    forall i, j | 0 <= i < j < |r| ensures IdOf(r[i]) != IdOf(r[j]) {
      if j >= |kept| {
        var b := j - |kept|;
        assert r[j] == batch[b];
        assert !Fails(accounts, kept, batch, b);
        if i < |kept| {
          assert r[i] == kept[i];
        } else {
          assert r[i] == batch[..b][i - |kept|];
        }
      }
    }
    forall i | 0 <= i < |r| ensures Tables.HasKey(accounts, MultipleAccountsPage.AccountKey, r[i].accountId) {
      if i >= |kept| {
        assert r[i] == batch[i - |kept|];
        assert !Fails(accounts, kept, batch, i - |kept|);
      }
    }
  }

  /** Cancel, and every failure outside the update policy, leave the stored
      transactions as they were. */
  lemma FailuresKeepTransactions(accounts: seq<Account>, transactions: seq<Txn>, rows: seq<Txn>,
                                 policy: DuplicatePolicy, db: DbStatus)
    requires !SaveEffect(accounts, transactions, rows, policy, db).outcome.Saved?
    requires policy != UpdateExisting || !AnyStored(transactions, rows)
    ensures SaveEffect(accounts, transactions, rows, policy, db).transactions == transactions
  {
  }

  /** With stored ids, Cancel changes neither table. */
  lemma CancelChangesNothing(accounts: seq<Account>, transactions: seq<Txn>, rows: seq<Txn>)
    requires AnyStored(transactions, rows)
    ensures var r := SaveEffect(accounts, transactions, rows, Cancel, Works);
            r.accounts == accounts && r.transactions == transactions && r.outcome == Cancelled
  {
  }

  /** After a successful save every uploaded id is stored. */
  lemma SavedStoresEveryId(accounts: seq<Account>, transactions: seq<Txn>, rows: seq<Txn>,
                           policy: DuplicatePolicy, db: DbStatus, i: nat)
    requires SaveEffect(accounts, transactions, rows, policy, db).outcome.Saved?
    requires i < |rows|
    ensures Tables.HasKey(SaveEffect(accounts, transactions, rows, policy, db).transactions, IdOf, rows[i].transactionId)
  {
    SavedShape(accounts, transactions, rows, policy, db);
    KeptAndBatchHoldId(transactions, rows, policy, i);
  }

  /** Every uploaded id is among the kept rows or the batch. */
  lemma KeptAndBatchHoldId(transactions: seq<Txn>, rows: seq<Txn>, policy: DuplicatePolicy, i: nat)
    requires i < |rows|
    ensures Tables.HasKey(Kept(transactions, rows, policy) + Batch(transactions, rows, policy), IdOf, rows[i].transactionId)
  {
    var batch := Batch(transactions, rows, policy);
    var kept := Kept(transactions, rows, policy);
    var ts := kept + batch;
    if AnyStored(transactions, rows) && policy == SkipExisting && !Fresh(transactions)(rows[i]) {
      var j :| 0 <= j < |transactions| && IdOf(transactions[j]) == rows[i].transactionId;
      assert kept == transactions;
      assert ts[j] == transactions[j];
    } else {
      assert rows[i] in batch;
      var j :| 0 <= j < |batch| && batch[j] == rows[i];
      assert ts[|kept| + j] == rows[i];
    }
  }

  /** A successful save keeps every stored row whose id was not uploaded. */
  lemma SavedKeepsOtherRows(accounts: seq<Account>, transactions: seq<Txn>, rows: seq<Txn>,
                            policy: DuplicatePolicy, db: DbStatus, t: Txn)
    requires SaveEffect(accounts, transactions, rows, policy, db).outcome.Saved?
    requires t in transactions && !Tables.HasKey(rows, IdOf, t.transactionId)
    ensures t in SaveEffect(accounts, transactions, rows, policy, db).transactions
  {
    SavedShape(accounts, transactions, rows, policy, db);
    assert NotUploaded(rows)(t);
    assert t in Kept(transactions, rows, policy);
  }

  /** The count is that of the rows written: all of them, except under Skip
      with some stored, and only Update removes stored rows. */
  lemma SavedCount(accounts: seq<Account>, transactions: seq<Txn>, rows: seq<Txn>,
                   policy: DuplicatePolicy, db: DbStatus)
    requires SaveEffect(accounts, transactions, rows, policy, db).outcome.Saved?
    ensures var r := SaveEffect(accounts, transactions, rows, policy, db);
            0 < r.outcome.count <= |rows|
            && (r.outcome.count == |rows| || (policy == SkipExisting && AnyStored(transactions, rows)))
            && (policy != UpdateExisting ==> |r.transactions| == |transactions| + r.outcome.count)
  {
    SavedShape(accounts, transactions, rows, policy, db);
  }

  /** Under Update every uploaded row replaces the stored row with its id:
      afterwards the row stored under an uploaded id is the uploaded row. */
  lemma UpdateReplaces(accounts: seq<Account>, transactions: seq<Txn>, rows: seq<Txn>, i: nat, j: nat)
    requires SaveEffect(accounts, transactions, rows, UpdateExisting, Works).outcome.Saved?
    requires i < |rows| && j < |SaveEffect(accounts, transactions, rows, UpdateExisting, Works).transactions|
    requires SaveEffect(accounts, transactions, rows, UpdateExisting, Works).transactions[j].transactionId == rows[i].transactionId
    ensures SaveEffect(accounts, transactions, rows, UpdateExisting, Works).transactions[j] == rows[i]
  {
    var r := SaveEffect(accounts, transactions, rows, UpdateExisting, Works);
    SavedShape(accounts, transactions, rows, UpdateExisting, Works);
    ReplacedRow(r.accounts, transactions, rows, i, j);
  }

  /** When no row of the upload fails against the rows kept by Update, the
      row under an uploaded id is the uploaded row. */
  lemma ReplacedRow(accounts: seq<Account>, transactions: seq<Txn>, rows: seq<Txn>, i: nat, j: nat)
    requires FirstFailing(accounts, Kept(transactions, rows, UpdateExisting), rows, 0).None?
    requires i < |rows| && j < |Kept(transactions, rows, UpdateExisting) + rows|
    requires (Kept(transactions, rows, UpdateExisting) + rows)[j].transactionId == rows[i].transactionId
    ensures (Kept(transactions, rows, UpdateExisting) + rows)[j] == rows[i]
  {
    var kept := Kept(transactions, rows, UpdateExisting);
    var ts := kept + rows;
    forall x, y | 0 <= x < y < |rows| ensures rows[x].transactionId != rows[y].transactionId {
      assert !Fails(accounts, kept, rows, y);
      assert rows[..y][x] == rows[x];
    }
    if j >= |kept| {
      assert ts[j] == rows[j - |kept|];
    }
  }

  /** Under Update the deletion is committed before the insert: when the
      insert then fails, the stored rows with uploaded ids are gone. */
  lemma FailedUpdateLosesRows(accounts: seq<Account>, transactions: seq<Txn>, rows: seq<Txn>)
    requires AnyStored(transactions, rows)
    requires !SaveEffect(accounts, transactions, rows, UpdateExisting, Works).outcome.Saved?
    ensures var r := SaveEffect(accounts, transactions, rows, UpdateExisting, Works);
            r.transactions == Tables.Where(transactions, NotUploaded(rows))
            && exists t :: t in transactions && t !in r.transactions
  {
    var i :| 0 <= i < |rows| && Tables.HasKey(transactions, IdOf, rows[i].transactionId);
    var j :| 0 <= j < |transactions| && IdOf(transactions[j]) == rows[i].transactionId;
    assert !NotUploaded(rows)(transactions[j]);
    assert transactions[j] !in Tables.Where(transactions, NotUploaded(rows));
  }

  /** The account frame goes in whole or not at all: once one uploaded
      account is stored, no new account is added, and a row on a new account
      makes the whole insert fail. */
  lemma KnownAccountBlocksNewOnes(accounts: seq<Account>, transactions: seq<Txn>, rows: seq<Txn>,
                                  policy: DuplicatePolicy, i: nat, j: nat)
    requires !AnyStored(transactions, rows)
    requires i < |rows| && Tables.HasKey(accounts, MultipleAccountsPage.AccountKey, rows[i].accountId)
    requires j < |rows| && !Tables.HasKey(accounts, MultipleAccountsPage.AccountKey, rows[j].accountId)
    ensures var r := SaveEffect(accounts, transactions, rows, policy, Works);
            r.accounts == accounts && !r.outcome.Saved?
  {
    var frame := MultipleAccountsPage.AccountsFrame(rows);
    var k :| 0 <= k < |frame| && frame[k] == MultipleAccountsPage.AccountRow(rows[i]);
    assert Tables.HasKey(accounts, MultipleAccountsPage.AccountKey, frame[k].accountId);
    assert !AccountsFit(accounts, frame);
    assert Fails(accounts, transactions, rows, j);
  }

  /** Saving an upload again after it was saved, with Skip, finds nothing
      new and changes nothing. */
  lemma SaveTwiceNothingNew(accounts: seq<Account>, transactions: seq<Txn>, rows: seq<Txn>, policy: DuplicatePolicy)
    requires SaveEffect(accounts, transactions, rows, policy, Works).outcome.Saved?
    ensures var r := SaveEffect(accounts, transactions, rows, policy, Works);
            SaveEffect(r.accounts, r.transactions, rows, SkipExisting, Works) == SaveResult(r.accounts, r.transactions, NothingNew)
  {
    var r := SaveEffect(accounts, transactions, rows, policy, Works);
    forall i | 0 <= i < |rows| ensures Tables.HasKey(r.transactions, IdOf, rows[i].transactionId) {
      SavedStoresEveryId(accounts, transactions, rows, policy, Works, i);
    }
    SavedCount(accounts, transactions, rows, policy, Works);
    NoneFresh(r.transactions, rows);
  }

  /** When every uploaded id is stored, Skip leaves nothing to insert. */
  lemma NoneFresh(transactions: seq<Txn>, rows: seq<Txn>)
    requires rows != []
    requires forall i :: 0 <= i < |rows| ==> Tables.HasKey(transactions, IdOf, rows[i].transactionId)
    ensures AnyStored(transactions, rows)
    ensures Batch(transactions, rows, SkipExisting) == []
  {
    assert Tables.HasKey(transactions, IdOf, rows[0].transactionId);
    Tables.WhereNone(rows, Fresh(transactions));
  }
}
