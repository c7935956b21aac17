/**
 * The ledger sheet as the bot changes it: appending a transaction (with the
 * header written first into an empty sheet), deleting the last row, and the
 * /cancel command built on it. The spreadsheet client is replaced by a
 * sequence of rows held in a field.
 */
module Ledger {
  import opened Wrappers
  import opened Sheet
  import opened Budget

  /** The sheet after `handle_transaction` appends `row`: an empty sheet gets the header first. */
  function Admitted(rows: seq<Row>, row: Row): (r: seq<Row>)
    ensures |r| >= 2 && r[|r| - 1] == row
    ensures rows != [] ==> r[..|r| - 1] == rows
    ensures rows == [] ==> r == [Header, row]
  {
    (if rows == [] then [Header] else rows) + [row]
  }

  /** The sheet after `delete_last_row`: unchanged below two rows, else without its last row. */
  function WithoutLast(rows: seq<Row>): (r: seq<Row>)
    ensures |rows| < 2 ==> r == rows
    ensures |rows| >= 2 ==> r + [rows[|rows| - 1]] == rows
  {
    if |rows| < 2 then rows else rows[..|rows| - 1]
  }

  /** What /cancel reports. */
  datatype CancelOutcome =
    | NothingToCancel                          // fewer than two rows
    | Cancelled(description: Cell, kopecks: int)
    | Aborted                                  // reading the last row raised before anything was deleted

  class TransactionSheet {
    var rows: seq<Row>

    constructor (initial: seq<Row>)
      ensures rows == initial
    {
      rows := initial;
    }

    /** `append_row`: the row goes after the last one. */
    method AppendRow(row: Row)
      modifies this
      ensures rows == old(rows) + [row]
    {
      rows := rows + [row];
    }

    /** `delete_last_row`: clears the last row unless the sheet has fewer than two rows. */
    method DeleteLastRow()
      modifies this
      ensures rows == WithoutLast(old(rows))
    {
      if |rows| < 2 {
        return;
      }
      rows := rows[..|rows| - 1];
    }

    /**
     * `handle_transaction`: append the debit row (after the header, into an
     * empty sheet) and report the statistics including it. The id, the two
     * timestamps and today's date come from outside.
     */
    method HandleTransaction(msgId: string, utcDay: Day, mskDay: Day, kopecks: int,
                             description: string, sourceMsg: string, today: Day)
      returns (stats: BudgetStats)
      modifies this
      ensures rows == Admitted(old(rows), TransactionRow(msgId, utcDay, mskDay, kopecks, description, sourceMsg))
      ensures stats == Stats(rows, today)
    {
      var allRows := rows;
      if allRows == [] {
        AppendRow(Header);
      }
      var newRow := TransactionRow(msgId, utcDay, mskDay, kopecks, description, sourceMsg);
      AppendRow(newRow);
      assert rows == Admitted(allRows, newRow);
      ReportCoversSheet(allRows, newRow, today);
      stats := CalculateBudgetStats(allRows + [newRow], today);
    }

    /**
     * The /cancel command: with at least two rows, read the last row's
     * description and amount, then delete it. Reading a short row or an
     * amount that does not parse raises before the deletion.
     */
    method Cancel() returns (outcome: CancelOutcome)
      modifies this
      ensures outcome == NothingToCancel <==> |old(rows)| < 2
      ensures outcome.Cancelled? <==>
                |old(rows)| >= 2 && |old(rows)[|old(rows)| - 1]| > 6 && old(rows)[|old(rows)| - 1][AmountColumn].Money?
      ensures outcome.Cancelled? ==>
                var last := old(rows)[|old(rows)| - 1];
                outcome == Cancelled(last[6], last[AmountColumn].kopecks) && rows == old(rows)[..|old(rows)| - 1]
      ensures outcome == Aborted <==> |old(rows)| >= 2 && !outcome.Cancelled?
      ensures !outcome.Cancelled? ==> rows == old(rows)
    {
      var allRows := rows;
      if |allRows| < 2 {
        return NothingToCancel;
      }
      var lastTransaction := allRows[|allRows| - 1];
      if |lastTransaction| <= 6 {
        return Aborted;
      }
      var description := lastTransaction[6];
      var amountToRevert := AmountOf(lastTransaction[AmountColumn]);
      if amountToRevert.None? {
        return Aborted;
      }
      DeleteLastRow();
      outcome := Cancelled(description, amountToRevert.value);
    }
  }

  /** The statistics `handle_transaction` computes from the rows it read plus the new row are those of the new sheet. */
  lemma ReportCoversSheet(rows: seq<Row>, row: Row, today: Day)
    requires row != Header
    ensures Stats(rows + [row], today) == Stats(Admitted(rows, row), today)
  {
    if rows == [] {
      assert DataRows([Header, row]) == [row];
      assert DataRows([row]) == [row];
    }
  }

  /** The debit entries of the sheet after an admission are those before, plus the new row's. */
  lemma AdmittedEntries(rows: seq<Row>, row: Row)
    ensures Entries(Admitted(rows, row)) == Entries(rows) + Entries([row])
  {
    var base := if rows == [] then [Header] else rows;
    EntriesConcat(base, [row]);
    if rows == [] {
      assert Entries([Header]) == [] by {
        assert [Header][..0] == [];
      }
    }
  }

  /** A transaction row is counted by the engine as a debit on its Moscow date. */
  lemma TransactionRowIsDebit(msgId: string, utcDay: Day, mskDay: Day, kopecks: int, description: string, sourceMsg: string)
    ensures DebitEntry(TransactionRow(msgId, utcDay, mskDay, kopecks, description, sourceMsg)) == Some(Entry(mskDay, kopecks))
  {
  }

  /** Deleting the last row after an admission restores the sheet (an empty one keeps its header) and its statistics. */
  lemma AdmitThenDeleteKeepsStats(rows: seq<Row>, row: Row, today: Day)
    ensures WithoutLast(Admitted(rows, row)) == (if rows == [] then [Header] else rows)
    ensures Stats(WithoutLast(Admitted(rows, row)), today) == Stats(rows, today)
  {
    var base := if rows == [] then [Header] else rows;
    assert Admitted(rows, row)[..|base|] == base;
    if rows == [] {
      EmptyLedgerStats(today);
    }
  }

  /**
   * A debit row dated today raises today's spend by its amount, lowers what is
   * left of the limit by as much, and leaves savings and overspend unchanged.
   */
  lemma AdmitTodayDebit(rows: seq<Row>, row: Row, today: Day, kopecks: int)
    requires DebitEntry(row) == Some(Entry(today, kopecks))
    ensures Stats(Admitted(rows, row), today).spentToday == Stats(rows, today).spentToday + kopecks
    ensures Stats(Admitted(rows, row), today).dailyLimitLeft == Stats(rows, today).dailyLimitLeft - kopecks
    ensures Stats(Admitted(rows, row), today).savings == Stats(rows, today).savings
    ensures Stats(Admitted(rows, row), today).overspentMonthly == Stats(rows, today).overspentMonthly
  {
    var e := Entry(today, kopecks);
    var es := Entries(rows);
    AdmittedEntries(rows, row);
    assert Entries([row]) == [e] by {
      assert [row][..0] == [];
    }
    AppendEntry(es, e);
    LaterEntryKeepsCumulative(es, e, today);
    SameCumulativeSameBalance(Admitted(rows, row), rows, today);
  }

  /** Two sheets with the same cumulative result report the same savings and overspend. */
  lemma SameCumulativeSameBalance(a: seq<Row>, b: seq<Row>, today: Day)
    requires Cumulative(Entries(a), today) == Cumulative(Entries(b), today)
    ensures Stats(a, today).savings == Stats(b, today).savings
    ensures Stats(a, today).overspentMonthly == Stats(b, today).overspentMonthly
  {
    HeaderNeverCounts(a);
    HeaderNeverCounts(b);
  }
}
