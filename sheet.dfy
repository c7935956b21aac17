/**
 * The spreadsheet that serves as the ledger: a sequence of rows of cells.
 *
 * A cell is modelled by what the budget engine can make of it. The engine
 * reads three cells of a row: it parses the Moscow timestamp with
 * `datetime.fromisoformat`, the amount with `float`, and compares the type
 * with the literal "debit". So a cell is either a timestamp string (carrying
 * the calendar date of its own offset, as a day number), an amount (a whole
 * number of kopecks), Python's None (which only a row built in memory holds;
 * an empty cell read back from the sheet is the text ""), or any other text.
 */
module Sheet {
  import opened Wrappers

  /** A calendar date, as a day number; later days are larger. */
  type Day = int

  datatype Cell =
    | Text(s: string)          // a string neither parser accepts
    | Stamp(day: Day)          // an ISO-8601 timestamp; `day` is its date part
    | Money(kopecks: int)      // a number, in kopecks
    | Blank                    // None, as in the balance column of a freshly built row

  type Row = seq<Cell>

  /** The schema row written at the top of an empty sheet. */
  const Header: Row := [Text("id"), Text("ts_utc"), Text("ts_msk"), Text("amount"), Text("currency"),
                        Text("type"), Text("description"), Text("balance_after"), Text("source_msg")]

  /** Column positions the engine reads. */
  const TsMskColumn := 2
  const AmountColumn := 3
  const TypeColumn := 5

  /** `datetime.fromisoformat(cell).date()`, or None where it raises. */
  function StampDay(c: Cell): Option<Day>
  {
    if c.Stamp? then Some(c.day) else None
  }

  /** `float(cell)` in kopecks, or None where it raises. */
  function AmountOf(c: Cell): Option<int>
  {
    if c.Money? then Some(c.kopecks) else None
  }

  /**
   * The row `handle_transaction` writes: id, UTC timestamp, Moscow timestamp,
   * amount, currency, type, description, balance (None) and source message.
   */
  function TransactionRow(msgId: string, utcDay: Day, mskDay: Day, kopecks: int,
                          description: string, sourceMsg: string): (r: Row)
    ensures |r| == |Header| && r != Header
  {
    [Text(msgId), Stamp(utcDay), Stamp(mskDay), Money(kopecks), Text("RUB"),
     Text("debit"), Text(description), Blank, Text(sourceMsg)]
  }
}
