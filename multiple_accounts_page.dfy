/** The multiple accounts page under `pages/`: upload validation, the
    insert-if-absent store of accounts and transactions, and the queries over
    the stored transactions, where a multi-account holder is an individual
    banking with more than one distinct bank. */
module MultipleAccountsPage {
  import opened Wrappers
  import opened Records
  import Grouping
  import Sorting
  import Paging
  import Tables
  import Text

  const PageSize: nat := 50

  /** Why `validate_dataframe` said False, in the order it checks. */
  datatype ValidationError = MissingColumns(missing: set<string>) | EmptyData | BadTimestamps | BadAmounts

  /** `validate_dataframe`: the converted frame, or the first failing check. */
  function ValidateDataframe(columns: set<string>, raw: seq<RawTxn>): (r: Result<seq<Txn>, ValidationError>)
    ensures r.Ok? <==> RequiredColumns <= columns && raw != [] && forall i :: 0 <= i < |raw| ==> Convertible(raw[i])
    ensures r.Ok? ==> |r.value| == |raw| && forall i :: 0 <= i < |raw| ==> r.value[i] == Converted(raw[i])
    ensures !(RequiredColumns <= columns) <==> r.Err? && r.error.MissingColumns?
    ensures r.Err? && r.error.MissingColumns? ==> r.error.missing == RequiredColumns - columns && r.error.missing != {}
    ensures r == Err(EmptyData) <==> RequiredColumns <= columns && raw == []
    ensures r == Err(BadAmounts) ==> forall i :: 0 <= i < |raw| ==> raw[i].time.Some?
  {
    if !(RequiredColumns <= columns) then
      MissingColumnsNonEmpty(RequiredColumns, columns);
      Err(MissingColumns(RequiredColumns - columns))
    else if raw == [] then Err(EmptyData)
    else if exists i :: 0 <= i < |raw| && raw[i].time.None? then Err(BadTimestamps)
    else if exists i :: 0 <= i < |raw| && raw[i].amount.None? then Err(BadAmounts)
    else Ok(ConvertAll(raw).value)
  }

  /** A row of the `accounts` table. */
  datatype Account = Account(accountId: string, individualId: string, bankName: string)

  function AccountRow(t: Txn): Account { Account(t.accountId, t.individualId, t.bankName) }
  function AccountKey(a: Account): string { a.accountId }

  /** `df[['individual_id', 'account_id', 'bank_name']].drop_duplicates()`. */
  function AccountsFrame(rows: seq<Txn>): seq<Account> {
    Grouping.Keys(rows, AccountRow)
  }

  /** The `accounts` and `transactions` tables. */
  class TransactionStore {
    var accounts: seq<Account>
    var transactions: seq<Txn>

    /** Both tables keep their primary keys. */
    ghost predicate Valid()
      reads this
    {
      Tables.UniqueKeys(accounts, AccountKey) && Tables.UniqueKeys(transactions, IdOf)
    }

    constructor ()
      ensures accounts == [] && transactions == []
      ensures Valid()
    {
      accounts := [];
      transactions := [];
    }

    /** The account loop: look each account up, insert it when absent. */
    method InsertAccounts(xs: seq<Account>)
      modifies this
      ensures accounts == Tables.InsertAllIfAbsent(old(accounts), AccountKey, xs)
      ensures transactions == old(transactions)
    {
      var i := 0;
      while i < |xs|
        invariant i <= |xs|
        invariant accounts == Tables.InsertAllIfAbsent(old(accounts), AccountKey, xs[..i])
        invariant transactions == old(transactions)
      {
        assert xs[..i + 1][..i] == xs[..i];
        if !Tables.HasKey(accounts, AccountKey, xs[i].accountId) {
          accounts := accounts + [xs[i]];
        }
        i := i + 1;
      }
      assert xs[..i] == xs;
    }

    /** The transaction loop: look each id up, insert the row when absent. */
    method InsertTransactions(rows: seq<Txn>)
      modifies this
      ensures transactions == Tables.InsertAllIfAbsent(old(transactions), IdOf, rows)
      ensures accounts == old(accounts)
    {
      var i := 0;
      while i < |rows|
        invariant i <= |rows|
        invariant transactions == Tables.InsertAllIfAbsent(old(transactions), IdOf, rows[..i])
        invariant accounts == old(accounts)
      {
        assert rows[..i + 1][..i] == rows[..i];
        if !Tables.HasKey(transactions, IdOf, rows[i].transactionId) {
          transactions := transactions + [rows[i]];
        }
        i := i + 1;
      }
      assert rows[..i] == rows;
    }

    /** `save_to_database`: accounts first, then transactions, each only when
        its id is not stored yet; without a connection nothing happens, and a
        failing statement rolls both tables back. True exactly on success. */
    method SaveToDatabase(rows: seq<Txn>, db: DbStatus) returns (ok: bool)
      requires Valid()
      modifies this
      ensures Valid()
      ensures ok <==> db == Works
      ensures db == Works ==> accounts == Tables.InsertAllIfAbsent(old(accounts), AccountKey, AccountsFrame(rows))
      ensures db == Works ==> transactions == Tables.InsertAllIfAbsent(old(transactions), IdOf, rows)
      ensures db != Works ==> accounts == old(accounts) && transactions == old(transactions)
    {
      if db == NoConnection {
        return false;
      }
      var savedAccounts, savedTransactions := accounts, transactions;
      InsertAccounts(AccountsFrame(rows));
      InsertTransactions(rows);
      if db == StatementFails {
        accounts, transactions := savedAccounts, savedTransactions;
        return false;
      }
      Tables.InsertAllUnique(savedAccounts, AccountKey, AccountsFrame(rows));
      Tables.InsertAllUnique(savedTransactions, IdOf, rows);
      return true;
    }
  }

  /** Saving the same frame twice adds nothing the second time, to either table. */
  lemma SaveTwiceAddsNothing(accounts: seq<Account>, transactions: seq<Txn>, rows: seq<Txn>)
    ensures var accs := Tables.InsertAllIfAbsent(accounts, AccountKey, AccountsFrame(rows));
            Tables.InsertAllIfAbsent(accs, AccountKey, AccountsFrame(rows)) == accs
    ensures var ts := Tables.InsertAllIfAbsent(transactions, IdOf, rows);
            Tables.InsertAllIfAbsent(ts, IdOf, rows) == ts
  {
    Tables.InsertAllIdempotent(accounts, AccountKey, AccountsFrame(rows));
    Tables.InsertAllIdempotent(transactions, IdOf, rows);
  }

  /** After a save every transaction id of the frame is stored, stored
      transactions are kept as they were, and only ids of the frame are new. */
  lemma SaveStoresEveryId(transactions: seq<Txn>, rows: seq<Txn>, id: string)
    ensures var ts := Tables.InsertAllIfAbsent(transactions, IdOf, rows);
            |transactions| <= |ts| && ts[..|transactions|] == transactions
            && (Tables.HasKey(ts, IdOf, id) <==>
                  Tables.HasKey(transactions, IdOf, id) || exists i :: 0 <= i < |rows| && rows[i].transactionId == id)
  {
    Tables.InsertAllKeepsRows(transactions, IdOf, rows);
    Tables.InsertAllKeys(transactions, IdOf, rows, id);
  }

  /** The transactions of one individual. */
  function RowsOf(table: seq<Txn>, id: string): seq<Txn> {
    Grouping.Members(table, IndividualOf, id)
  }

  /** `COUNT(DISTINCT bank_name)` of one individual. */
  function BankCount(table: seq<Txn>, id: string): nat {
    |Grouping.Keys(RowsOf(table, id), BankOf)|
  }

  /** The bank count is the number of distinct bank names among the
      individual's transactions. */
  lemma BankCountIsDistinct(table: seq<Txn>, id: string)
    ensures BankCount(table, id) == |Grouping.Distinct(RowsOf(table, id), BankOf)|
  {
    Grouping.KeysCount(RowsOf(table, id), BankOf);
  }

  function Instant(t: Txn): int { t.time.instant }

  /** `MIN(timestamp)` of a non-empty group (0 for an empty one). */
  function FirstInstant(ms: seq<Txn>): (m: int)
    ensures ms != [] ==> (forall i :: 0 <= i < |ms| ==> m <= ms[i].time.instant)
                         && exists i :: 0 <= i < |ms| && m == ms[i].time.instant
  {
    if ms == [] then 0
    else if |ms| == 1 then ms[0].time.instant
    else
      var m := FirstInstant(ms[..|ms| - 1]);
      assert forall i :: 0 <= i < |ms| - 1 ==> ms[..|ms| - 1][i] == ms[i];
      if ms[|ms| - 1].time.instant < m then ms[|ms| - 1].time.instant else m
  }

  /** `MAX(timestamp)` of a non-empty group (0 for an empty one). */
  function LastInstant(ms: seq<Txn>): (m: int)
    ensures ms != [] ==> (forall i :: 0 <= i < |ms| ==> ms[i].time.instant <= m)
                         && exists i :: 0 <= i < |ms| && m == ms[i].time.instant
  {
    if ms == [] then 0
    else if |ms| == 1 then ms[0].time.instant
    else
      var m := LastInstant(ms[..|ms| - 1]);
      assert forall i :: 0 <= i < |ms| - 1 ==> ms[..|ms| - 1][i] == ms[i];
      if ms[|ms| - 1].time.instant > m then ms[|ms| - 1].time.instant else m
  }

  /** One row of the `individual_banks` query. */
  datatype Holder = Holder(individualId: string, bankCount: nat, accountCount: nat, totalAmount: real,
                           banks: seq<string>, accounts: seq<string>, first: int, last: int,
                           transactionCount: nat)

  function HolderOf(table: seq<Txn>, id: string): Holder {
    var ms := RowsOf(table, id);
    Holder(id, |Grouping.Keys(ms, BankOf)|, |Grouping.Keys(ms, AccountOf)|, Grouping.Sum(ms, AmountOf),
           Grouping.Keys(ms, BankOf), Grouping.Keys(ms, AccountOf), FirstInstant(ms), LastInstant(ms), |ms|)
  }

  /** The individuals of `ids` with at least `n` distinct banks, in order. */
  function WithBanks(table: seq<Txn>, ids: seq<string>, n: int): (r: seq<string>)
    ensures |r| <= |ids|
    ensures forall id :: id in r <==> id in ids && BankCount(table, id) >= n
    ensures Grouping.NoDup(ids) ==> Grouping.NoDup(r)
  {
    if ids == [] then []
    else
      var init := ids[..|ids| - 1];
      var last := ids[|ids| - 1];
      assert ids == init + [last];
      assert Grouping.NoDup(ids) ==> Grouping.NoDup(init) && last !in init;
      WithBanks(table, init, n) + (if BankCount(table, last) >= n then [last] else [])
  }

  /** `SELECT individual_id FROM transactions GROUP BY individual_id
      HAVING COUNT(DISTINCT bank_name) >= n`, by first appearance. */
  function BankedIds(table: seq<Txn>, n: int): seq<string> {
    WithBanks(table, Grouping.Keys(table, IndividualOf), n)
  }

  /** The multi-account holders: more than one distinct bank. */
  function MultiBankIds(table: seq<Txn>): seq<string> {
    BankedIds(table, 2)
  }

  /** `ORDER BY bank_count DESC, total_amount DESC`. */
  predicate HolderBefore(a: Holder, b: Holder) {
    a.bankCount > b.bankCount || (a.bankCount == b.bankCount && a.totalAmount >= b.totalAmount)
  }

  lemma HolderOrderTotal()
    ensures Sorting.TotalPreorder(HolderBefore)
  {
  }

  /** The holder rows of `ids`, in order. */
  function HoldersOf(table: seq<Txn>, ids: seq<string>): (hs: seq<Holder>)
    ensures |hs| == |ids|
  {
    if ids == [] then [] else HoldersOf(table, ids[..|ids| - 1]) + [HolderOf(table, ids[|ids| - 1])]
  }

  lemma {:induction false} HoldersOfAt(table: seq<Txn>, ids: seq<string>, j: nat)
    requires j < |ids|
    ensures HoldersOf(table, ids)[j] == HolderOf(table, ids[j])
    ensures HoldersOf(table, ids)[j].individualId == ids[j]
  {
    var init := ids[..|ids| - 1];
    assert HoldersOf(table, ids) == HoldersOf(table, init) + [HolderOf(table, ids[|ids| - 1])];
    if j < |ids| - 1 {
      HoldersOfAt(table, init, j);
      assert init[j] == ids[j];
    }
    HolderOfId(table, ids[j]);
  }

  lemma HolderOfId(table: seq<Txn>, id: string)
    ensures HolderOf(table, id).individualId == id
  {
  }

  /** `get_multiple_accounts_data`; None when the query fails. */
  function MultipleAccountsData(table: Option<seq<Txn>>): Option<seq<Holder>> {
    match table
    case None => None
    case Some(t) => Some(Sorting.SortBy(HoldersOf(t, MultiBankIds(t)), HolderBefore))
  }

  /** An individual is a multi-account holder exactly when it has
      transactions with more than one distinct bank. */
  lemma MultiBankIdsExactly(table: seq<Txn>, id: string)
    ensures id in MultiBankIds(table) <==> HasTransactions(table, id) && BankCount(table, id) > 1
  {
    if HasTransactions(table, id) {
      var i :| 0 <= i < |table| && table[i].individualId == id;
      assert IndividualOf(table[i]) in Grouping.Keys(table, IndividualOf);
    }
  }

  /** Some transaction of `table` belongs to `id`. */
  predicate HasTransactions(table: seq<Txn>, id: string) {
    exists i :: 0 <= i < |table| && table[i].individualId == id
  }

  /** Some row of `hs` is about `id`. */
  predicate Lists(hs: seq<Holder>, id: string) {
    exists k :: 0 <= k < |hs| && hs[k].individualId == id
  }

  /** Every holder row aggregates the transactions of an individual with more
      than one distinct bank. */
  lemma HoldersAreMultiBank(table: seq<Txn>)
    ensures var hs := MultipleAccountsData(Some(table)).value;
            forall k :: 0 <= k < |hs| ==> hs[k] == HolderOf(table, hs[k].individualId) && BankCount(table, hs[k].individualId) > 1
  {
    var ids := MultiBankIds(table);
    var pre := HoldersOf(table, ids);
    var hs := Sorting.SortBy(pre, HolderBefore);
    forall k | 0 <= k < |hs| ensures hs[k] == HolderOf(table, hs[k].individualId) && BankCount(table, hs[k].individualId) > 1 {
      var j := Grouping.PermutedIndex(pre, hs, k);
      HoldersOfAt(table, ids, j);
      assert ids[j] in ids;
    }
  }

  /** An individual has a holder row exactly when it has transactions with
      more than one distinct bank. */
  lemma HoldersCoverMultiBank(table: seq<Txn>, id: string)
    ensures Lists(MultipleAccountsData(Some(table)).value, id) <==> HasTransactions(table, id) && BankCount(table, id) > 1
  {
    var ids := MultiBankIds(table);
    MultiBankIdsExactly(table, id);
    HoldersIds(table, ids);
    SortedIds(HoldersOf(table, ids), ids, id);
  }

  /** `HoldersOf` gives the rows for `ids`, in that order. */
  lemma HoldersIds(table: seq<Txn>, ids: seq<string>)
    ensures forall j :: 0 <= j < |ids| ==> HoldersOf(table, ids)[j].individualId == ids[j]
  {
    forall j | 0 <= j < |ids| ensures HoldersOf(table, ids)[j].individualId == ids[j] {
      HoldersOfAt(table, ids, j);
    }
  }

  /** After sorting rows for `ids`, there is a row for an individual exactly
      when it is one of `ids`. */
  lemma SortedIds(pre: seq<Holder>, ids: seq<string>, id: string)
    requires |pre| == |ids|
    requires forall j :: 0 <= j < |ids| ==> pre[j].individualId == ids[j]
    ensures Lists(Sorting.SortBy(pre, HolderBefore), id) <==> id in ids
  {
    PermutedIds(pre, Sorting.SortBy(pre, HolderBefore), id);
    if id in ids {
      var j :| 0 <= j < |ids| && ids[j] == id;
      assert pre[j].individualId == id;
    }
  }

  /** Reordering holder rows keeps the set of individuals they are about. */
  lemma PermutedIds(a: seq<Holder>, b: seq<Holder>, id: string)
    requires multiset(a) == multiset(b)
    ensures Lists(b, id) <==> Lists(a, id)
  {
    if Lists(b, id) {
      var k :| 0 <= k < |b| && b[k].individualId == id;
      var j := Grouping.PermutedIndex(a, b, k);
    }
    if Lists(a, id) {
      var j :| 0 <= j < |a| && a[j].individualId == id;
      var k := Grouping.PermutedIndex(b, a, j);
    }
  }

  /** No individual has two holder rows. */
  lemma HoldersUnique(table: seq<Txn>)
    ensures var hs := MultipleAccountsData(Some(table)).value;
            forall k, l :: 0 <= k < l < |hs| ==> hs[k].individualId != hs[l].individualId
  {
    var ids := MultiBankIds(table);
    var pre := HoldersOf(table, ids);
    var hs := Sorting.SortBy(pre, HolderBefore);
    forall k, l | 0 <= k < l < |pre| ensures pre[k] != pre[l] {
      HoldersOfAt(table, ids, k);
      HoldersOfAt(table, ids, l);
    }
    Grouping.NoDupPermutation(pre, hs);
    forall k, l | 0 <= k < l < |hs| ensures hs[k].individualId != hs[l].individualId {
      var j1 := Grouping.PermutedIndex(pre, hs, k);
      var j2 := Grouping.PermutedIndex(pre, hs, l);
      HoldersOfAt(table, ids, j1);
      HoldersOfAt(table, ids, j2);
    }
  }

  /** The holder rows are ordered by bank count and then total amount, both
      descending. */
  lemma HoldersOrdered(table: seq<Txn>)
    ensures Sorting.SortedBy(MultipleAccountsData(Some(table)).value, HolderBefore)
  {
    HolderOrderTotal();
    Sorting.SortBySorted(HoldersOf(table, MultiBankIds(table)), HolderBefore);
  }

  /** The counters of `get_db_stats`. */
  datatype DbStats = DbStats(totalRecords: nat, uniqueIndividuals: nat, totalAmount: real,
                             multipleAccountsCount: nat)

  /** `get_db_stats`; None when a query fails.  A `SUM` over no rows is NULL and
      shown as 0, which the empty sum already is. */
  function GetDbStats(table: Option<seq<Txn>>): Option<DbStats> {
    match table
    case None => None
    case Some(t) =>
      Some(DbStats(|t|, |Grouping.Keys(t, IndividualOf)|, Grouping.Sum(t, AmountOf), |MultiBankIds(t)|))
  }

  /** The headline count is the number of rows of the holder listing, no more
      than the number of distinct individuals. */
  lemma StatsCountHolders(table: seq<Txn>)
    ensures GetDbStats(Some(table)).value.multipleAccountsCount == |MultipleAccountsData(Some(table)).value|
    ensures GetDbStats(Some(table)).value.multipleAccountsCount <= GetDbStats(Some(table)).value.uniqueIndividuals
    ensures GetDbStats(Some(table)).value.uniqueIndividuals == |Grouping.Distinct(table, IndividualOf)|
  {
    Grouping.KeysCount(table, IndividualOf);
  }

  /** The filters of the data browser; a bank of "" counts as none. */
  datatype DataFilters = DataFilters(dateRange: Option<(Date, Date)>, bank: Option<string>, minAccounts: int)

  /** `timestamp BETWEEN ? AND ?` as written: the stored text against the bare
      date texts of the range. */
  predicate InDateRangeAsWritten(range: (Date, Date), t: Txn) {
    Text.StrLe(DateText(range.0), StampText(t.time)) && Text.StrLe(StampText(t.time), DateText(range.1))
  }

  /** Every transaction on the last day of the range sorts after the bare date
      text and is dropped. */
  lemma AsWrittenRangeDropsEndDate(range: (Date, Date), t: Txn)
    requires t.time.date == range.1
    ensures !InDateRangeAsWritten(range, t)
  {
    var rest := " " + Text.PadNat(t.time.hour, 2) + ":" + Text.PadNat(t.time.instant % 3600 / 60, 2)
                + ":" + Text.PadNat(t.time.instant % 60, 2);
    assert StampText(t.time) == DateText(range.1) + rest;
    Text.ExtensionNotLe(DateText(range.1), rest);
  }

  /** The range the date picker means: both end dates included. */
  predicate InDateRange(range: (Date, Date), t: Txn) {
    DateLe(range.0, t.time.date) && DateLe(t.time.date, range.1)
  }

  /** The WHERE clauses; `banked` is the result of the `individual_id IN (...)`
      subquery. */
  predicate Keeps(banked: seq<string>, f: DataFilters, t: Txn) {
    (f.dateRange.None? || InDateRange(f.dateRange.value, t))
    && (f.bank.None? || f.bank.value == "" || t.bankName == f.bank.value)
    && (f.minAccounts <= 1 || t.individualId in banked)
  }

  /** The rows of `rows` the filters keep, in order. */
  function Selected(banked: seq<string>, rows: seq<Txn>, f: DataFilters): (r: seq<Txn>)
    ensures |r| <= |rows|
    ensures forall x :: x in r <==> x in rows && Keeps(banked, f, x)
  {
    if rows == [] then []
    else
      var init := rows[..|rows| - 1];
      assert rows == init + [rows[|rows| - 1]];
      Selected(banked, init, f) + (if Keeps(banked, f, rows[|rows| - 1]) then [rows[|rows| - 1]] else [])
  }

  /** The filtered rows, newest first (`ORDER BY timestamp DESC`). */
  function Listing(table: seq<Txn>, f: DataFilters): seq<Txn> {
    Sorting.SortBy(Selected(BankedIds(table, f.minAccounts), table, f), Sorting.IntDesc(Instant))
  }

  /** `get_paginated_data`: the page, the page count and the filtered count;
      a failing query, or a page size of 0 (the page count divides by it),
      gives an empty page and zero counts. */
  function PaginatedData(table: Option<seq<Txn>>, page: nat, pageSize: nat, f: DataFilters): (seq<Txn>, nat, nat) {
    if table.None? || pageSize == 0 then ([], 0, 0)
    else
      var m := Listing(table.value, f);
      (Paging.Page(m, page, pageSize), Paging.TotalPages(|m|, pageSize), |m|)
  }

  /** The listing holds every stored row the filters keep, once per
      selection, newest first. */
  lemma ListingCorrect(table: seq<Txn>, f: DataFilters)
    ensures var m := Listing(table, f);
            |m| == |Selected(BankedIds(table, f.minAccounts), table, f)|
            && (forall k :: 0 <= k < |m| ==> m[k] in table && Keeps(BankedIds(table, f.minAccounts), f, m[k]))
            && (forall k, l :: 0 <= k < l < |m| ==> Instant(m[k]) >= Instant(m[l]))
  {
    var m := Listing(table, f);
    Sorting.IntDescTotal(Instant);
    Sorting.SortBySorted(Selected(BankedIds(table, f.minAccounts), table, f), Sorting.IntDesc(Instant));
    forall k | 0 <= k < |m| ensures m[k] in table && Keeps(BankedIds(table, f.minAccounts), f, m[k]) {
      assert m[k] in multiset(Selected(BankedIds(table, f.minAccounts), table, f));
    }
    forall k, l | 0 <= k < l < |m| ensures Instant(m[k]) >= Instant(m[l]) {
      assert Sorting.IntDesc(Instant)(m[k], m[l]);
    }
  }

  /** A page holds at most `pageSize` stored rows, each passing every filter. */
  lemma PaginatedDataRows(table: seq<Txn>, page: nat, pageSize: nat, f: DataFilters)
    requires pageSize > 0
    ensures var rows := PaginatedData(Some(table), page, pageSize, f).0;
            |rows| <= pageSize
            && forall k :: 0 <= k < |rows| ==> rows[k] in table && Keeps(BankedIds(table, f.minAccounts), f, rows[k])
  {
    var m := Listing(table, f);
    ListingCorrect(table, f);
    var rows := Paging.Page(m, page, pageSize);
    var lo := Paging.PageSlice(m, page, pageSize);
    forall k | 0 <= k < |rows| ensures rows[k] in table && Keeps(BankedIds(table, f.minAccounts), f, rows[k]) {
      assert rows[k] == m[lo + k];
    }
  }

  /** A page lists its rows newest first. */
  lemma PaginatedDataNewestFirst(table: seq<Txn>, page: nat, pageSize: nat, f: DataFilters)
    requires pageSize > 0
    ensures var rows := PaginatedData(Some(table), page, pageSize, f).0;
            forall k, l :: 0 <= k < l < |rows| ==> Instant(rows[k]) >= Instant(rows[l])
  {
    ListingCorrect(table, f);
    Paging.PageOrdered(Listing(table, f), page, pageSize, Instant);
  }

  /** With `min_accounts` above 1, a row passes only if its individual banks
      with at least that many distinct banks. */
  lemma MinBanksFilter(table: seq<Txn>, f: DataFilters, t: Txn)
    requires f.minAccounts > 1
    requires Keeps(BankedIds(table, f.minAccounts), f, t)
    ensures BankCount(table, t.individualId) >= f.minAccounts
  {
  }

  /** The count is that of all matching rows, and the page count the
      ceiling of it over the page size (`Paging.TotalPagesIsCeiling`). */
  lemma PaginatedDataCounts(table: seq<Txn>, page: nat, pageSize: nat, f: DataFilters)
    requires pageSize > 0
    ensures var r := PaginatedData(Some(table), page, pageSize, f);
            r.2 == |Selected(BankedIds(table, f.minAccounts), table, f)|
            && r.1 == Paging.TotalPages(r.2, pageSize)
  {
  }

  /** With both ends included, a transaction dated on the last day of a
      proper range is listed whenever the other filters keep it. */
  lemma EndDateIsListed(table: seq<Txn>, f: DataFilters, t: Txn)
    requires t in table
    requires f.dateRange.Some? && DateLe(f.dateRange.value.0, f.dateRange.value.1) && t.time.date == f.dateRange.value.1
    requires f.bank.None? || f.bank.value == "" || t.bankName == f.bank.value
    requires f.minAccounts <= 1 || BankCount(table, t.individualId) >= f.minAccounts
    ensures t in Selected(BankedIds(table, f.minAccounts), table, f)
  {
  }
}
