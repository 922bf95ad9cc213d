/** The transaction record shared by every page, with timestamps given as records
    whose calendar fields are already extracted. */
module Records {
  import opened Wrappers
  import Text

  /** A calendar date (year, month 1..12, day of month). */
  datatype Date = Date(year: nat, month: nat, day: nat)

  /** A timestamp: `instant` orders timestamps and measures time windows
      (seconds since an epoch); the other fields are what pandas and SQLite
      derive from it (calendar date, hour, weekday, ISO year and ISO week). */
  datatype Stamp = Stamp(instant: int, date: Date, hour: nat, weekday: nat, isoYear: nat, isoWeek: nat)

  /** Seconds in a day. */
  const Day: int := 86400

  /** The Monday-to-Sunday week an instant falls in, counted from the week of
      1970-01-01 (a Thursday): day number plus three, divided by seven. */
  function AbsoluteWeek(s: Stamp): int {
    (s.instant / Day + 3) / 7
  }

  /** The ISO labels of the stamps are those of a real calendar: two stamps carry
      the same (ISO year, ISO week) exactly when they fall in the same
      Monday-to-Sunday week. */
  ghost predicate IsoLabelsFaithful(stamps: seq<Stamp>) {
    forall i, j :: 0 <= i < |stamps| && 0 <= j < |stamps| ==>
      ((stamps[i].isoYear == stamps[j].isoYear && stamps[i].isoWeek == stamps[j].isoWeek)
        <==> AbsoluteWeek(stamps[i]) == AbsoluteWeek(stamps[j]))
  }

  /** One row of an uploaded or stored transaction batch. */
  datatype Txn = Txn(transactionId: string, individualId: string, accountId: string,
                     bankName: string, amount: real, time: Stamp)

  /** Calendar order on dates, as SQLite compares `date(...)` strings. */
  predicate DateLe(a: Date, b: Date) {
    a.year < b.year || (a.year == b.year && (a.month < b.month || (a.month == b.month && a.day <= b.day)))
  }

  /** `str(date)` and SQLite's date text: `YYYY-MM-DD`. */
  function DateText(d: Date): string {
    Text.PadNat(d.year, 4) + "-" + Text.PadNat(d.month, 2) + "-" + Text.PadNat(d.day, 2)
  }

  /** A timestamp as the stores write it, `strftime('%Y-%m-%d %H:%M:%S')`:
      the date text, a space, then the time of day. */
  function StampText(s: Stamp): string {
    DateText(s.date) + " " + Text.PadNat(s.hour, 2) + ":" + Text.PadNat(s.instant % 3600 / 60, 2)
      + ":" + Text.PadNat(s.instant % 60, 2)
  }

  /** The six columns every upload must carry. */
  const RequiredColumns: set<string> :=
    {"transaction_id", "individual_id", "account_id", "bank_name", "amount", "timestamp"}

  function AmountOf(t: Txn): real { t.amount }
  function IndividualOf(t: Txn): string { t.individualId }
  function AccountOf(t: Txn): string { t.accountId }
  function BankOf(t: Txn): string { t.bankName }
  function IdOf(t: Txn): string { t.transactionId }

  /** An uploaded CSV row before conversion: `amount` and `timestamp` are None
      where `pd.to_numeric` or `pd.to_datetime` would raise. */
  datatype RawTxn = RawTxn(transactionId: string, individualId: string, accountId: string,
                           bankName: string, amount: Option<real>, time: Option<Stamp>)

  predicate Convertible(r: RawTxn) {
    r.amount.Some? && r.time.Some?
  }

  function Converted(r: RawTxn): Txn
    requires Convertible(r)
  {
    Txn(r.transactionId, r.individualId, r.accountId, r.bankName, r.amount.value, r.time.value)
  }

  function ConvertAll(raw: seq<RawTxn>): (r: Option<seq<Txn>>)
    ensures r.Some? <==> forall i :: 0 <= i < |raw| ==> Convertible(raw[i])
    ensures r.Some? ==> |r.value| == |raw| && forall i :: 0 <= i < |raw| ==> r.value[i] == Converted(raw[i])
  {
    if raw == [] then Some([])
    else
      var init := raw[..|raw| - 1];
      assert forall i :: 0 <= i < |init| ==> init[i] == raw[i];
      var last := raw[|raw| - 1];
      match ConvertAll(init)
      case None => None
      case Some(ts) => if Convertible(last) then Some(ts + [Converted(last)]) else None
  }

  /** Columns a frame lacks: some required column is not among its own. */
  lemma MissingColumnsNonEmpty(required: set<string>, columns: set<string>)
    requires !(required <= columns)
    ensures required - columns != {}
  {
    var c :| c in required && c !in columns;
    assert c in required - columns;
  }

  /** How the database behaves during one write: it works, there is no
      connection, or a statement fails and the write is rolled back. */
  datatype DbStatus = Works | NoConnection | StatementFails
}
