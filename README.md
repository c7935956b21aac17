# Personal finance bot: budget engine, ledger and message parsing

This project models the core of a small personal-finance bot (`main.py`).
The bot reads bank SMS messages, stores each debit as a row of a spreadsheet
ledger, and reports a daily spending budget:

- today's spend;
- what is left of the daily limit;
- the savings or the overspend accumulated over earlier days.

The model covers four parts.

- **Budget engine** (`budget.dfy`, module `Budget`). `CalculateBudgetStats`
  runs the source's two loops. The first builds the per-date debit totals,
  keeping the dictionary's insertion order. The second adds
  `DailySpendLimit - total` over the dates before today. It is proved equal
  to the function `Stats`, which states the result directly. Lemmas then state what `Stats`
  means:
  - the cumulative result in closed form;
  - the header row never matters;
  - rows the engine skips (too short, not a debit, or with a timestamp or amount that does not parse) change nothing;
  - entries dated today or later do not touch savings or overspend;
  - an empty ledger reports the full limit.
- **Ledger** (`ledger.dfy`, module `Ledger`). The class `TransactionSheet`
  holds the sheet as a sequence of rows and has these operations:
  - `append_row`;
  - `delete_last_row`;
  - `handle_transaction`, which writes the header into an empty sheet, then
    the row, and reports the new statistics;
  - the `/cancel` command.

  Lemmas relate these operations to `Stats`.
- **Amount parsing** (`amount.dfy`, module `Amount`). `parse_amount` is
  modelled as `re.search`: the leftmost start position at which the pattern
  matches. The model proves these facts:
  - the end of the group is unique at each start;
  - `float` always accepts the normalised group;
  - reading back the bank's own format (`1 234,56 ₽`) gives the amount;
  - an ungrouped number such as `12345 ₽` is read as 345.
- **Message parsing** (`message.dfy`, module `Message`, with string helpers
  in `chars.dfy`). It covers the type keywords, the currency, the amount,
  the cleaning of a captured description and the first-line fallback.

Money is held as integer kopecks, and a date is a day number. A sheet cell
is modelled by what the engine can make of it (`Sheet.Cell`):

- `Stamp(day)` is a string `datetime.fromisoformat` accepts, with its date
  part;
- `Money(kopecks)` is a value `float` accepts;
- `Blank` is Python's `None`, as in the balance column of a freshly built row (an empty cell read back from the sheet is `Text("")`);
- `Text(s)` is any other string.

The wall clock, the message id hash and the spreadsheet client are replaced
by parameters and a field.

Some behaviours of `main.py` are easy to misread, and the model keeps them as written:

- The daily limit is `round(49600 / 30.4375, 2)` = 1629.57 roubles, or 162957 kopecks (main.py:37).
- The engine does not round the figures it returns (main.py:136-141). Rounding to two places happens only in the report's format strings (main.py:159-160, 199-202).
- The id built at main.py:147 is never compared with the ids already in the sheet, so nothing suppresses a duplicate transaction.
- Delete-last and `/cancel` do nothing when the sheet has fewer than two rows, not only when it is empty (main.py:68, 216).

## Model

| member | source | states |
|---|---|---|
| `Budget.RoundedQuotient` | main.py:37 | the result is the integer nearest to n / d (within one half) |
| `Budget.DailySpendLimitDerivation` | main.py:33-37 | the daily limit of 162957 kopecks is (69600 − 20000) roubles over 30.4375 days, rounded to the kopeck |
| `Budget.DataRows` | main.py:110 | the data rows are the sheet itself or the sheet without its first row, and the first row is dropped exactly when it equals the header |
| `Budget.DebitEntry` | main.py:113-120 | a row counts exactly when it has more than five cells, its type cell is "debit", its Moscow timestamp parses and its amount parses; it then counts as its amount on the timestamp's date |
| `Budget.Stats` | main.py:106-141 | spent today is the day's debit total; the limit left is the limit minus it (possibly negative); savings and overspend are both non-negative, at most one is positive, and their difference is the cumulative result |
| `Budget.CalculateBudgetStats` | main.py:106-141 | the imperative engine returns exactly `Stats` of the rows and today's date |
| `Budget.DailySpends` | main.py:110-120 | the dictionary's keys are exactly the dates carrying a debit entry, in first-appearance order, and each maps to that date's debit total; short, non-debit and unparsable rows are skipped |
| `Budget.CumulativeResult` | main.py:122-126 | the loop over the dictionary adds `limit − total` for exactly the dates before today |
| `Budget.CumulativeClosedForm` | main.py:122-126 | the cumulative result equals the limit times the number of distinct past dates with debits, minus everything spent before today |
| `Budget.HeaderNeverCounts` | main.py:110 | dropping the first row when it equals the header never changes the debit entries |
| `Budget.EmptyLedgerStats` | main.py:110-141 | an empty or header-only sheet reports spent 0, the full limit left, savings 0 and overspend 0 |
| `Budget.SkippedRowKeepsStats` | main.py:113-120 | a row with fewer than six cells, a type other than "debit", or a bad timestamp or amount can be inserted anywhere without changing the statistics |
| `Budget.LaterEntryKeepsCumulative` | main.py:123-126 | a debit dated today or later leaves the cumulative result unchanged |
| `Budget.DayTotalAbsent` | main.py:128 | a date with no debit rows has total 0 (the `.get(today, 0.0)` default) |
| `Budget.DaysInOrderMembers` | main.py:112-119 | a date is a key of `daily_spends` exactly when some debit entry carries it |
| `Budget.DaysInOrderDistinct` | main.py:112-119 | no date is a key twice |
| `Budget.EntriesStep` | main.py:113-120 | one more row adds its debit entry, if it has one, at the end |
| `Budget.AppendEntry` | main.py:119 | one more entry adds its date to the keys if new, and its amount to that date's total only |
| `Sheet.TransactionRow` | main.py:151 | the written row has the header's nine columns and is never equal to the header |
| `Ledger.Admitted` | main.py:150-152 | the sheet after a transaction ends with the new row; an empty sheet becomes the header and the row, any other sheet keeps its rows before the new one |
| `Ledger.WithoutLast` | main.py:68-70 | below two rows the sheet is unchanged; otherwise the result with the old last row put back is the old sheet |
| `Ledger.TransactionSheet.AppendRow` | main.py:61-63 | the new row goes after the last row |
| `Ledger.TransactionSheet.DeleteLastRow` | main.py:65-70 | below two rows the sheet is unchanged; otherwise exactly the last row is removed |
| `Ledger.TransactionSheet.HandleTransaction` | main.py:144-155 | an empty sheet gets the header and then the row, any other sheet just the row; the reported statistics are `Stats` of the new sheet |
| `Ledger.TransactionSheet.Cancel` | main.py:214-224 | "nothing to cancel" exactly when there are fewer than two rows; otherwise the last row is reported and removed exactly when it has a description cell and a numeric amount, and in every other case the command aborts with the sheet unchanged |
| `Ledger.ReportCoversSheet` | main.py:149-155 | statistics computed from the rows read plus the new row equal those of the sheet after the append, header included |
| `Ledger.AdmittedEntries` | main.py:149-152 | after an append, the debit entries are the old ones plus the new row's |
| `Ledger.TransactionRowIsDebit` | main.py:151 | the row `handle_transaction` writes counts as a debit of its amount on its Moscow date |
| `Ledger.AdmitThenDeleteKeepsStats` | main.py:65-70 | append followed by delete-last restores the sheet (an empty sheet keeps its header) and its statistics |
| `Ledger.AdmitTodayDebit` | main.py:149-155 | a debit dated today raises today's spend by its amount, lowers the limit left by as much, and leaves savings and overspend unchanged |
| `Amount.FindEnd` | main.py:80 | finds an end of the group that is followed by `\s*₽`, or shows that none exists |
| `Amount.FirstMatchFrom` | main.py:80 | returns the leftmost start with a match, and no start before it has one; None only when no start matches |
| `Amount.Normalise` | main.py:82 | the normalised group is no longer than the group and holds no space, no no-break space and no comma |
| `Amount.DecimalKopecks` | main.py:83 | the model reads only non-empty strings of digits with at most one point, followed by at most two digits; a string of digits alone reads as that many roubles |
| `Amount.ParseAmount` | main.py:79-84 | returns a value exactly when the pattern matches somewhere in the text |
| `Amount.MatchEndUnique` | main.py:80 | at a given start at most one group end is followed by the rouble sign, so the group backtracking settles on is determined |
| `Amount.NormalisedAmountParses` | main.py:82-84 | every matched group, with separators removed and the comma read as a point, is accepted by `float`, so the `except` branch never runs |
| `Amount.FormatRublesRoundTrip` | main.py:79-84 | an amount written in the bank's format (groups of three digits with no-break spaces, a comma and two kopeck digits, then " ₽") is read back as that amount |
| `Amount.UngroupedNumberReadFromItsLastDigits` | main.py:80 | "12345 ₽" is read as 345 roubles, because the search starts at the first position where a match exists |
| `Amount.DecimalKopecksWithFraction` | main.py:82-83 | digits, a point and one or two digits are read as the kopecks they spell |
| `Message.CreditKeywordFrom` | main.py:92 | true exactly when one of the four keywords occurs at some position, each letter in lower or upper case |
| `Message.CleanCapture` | main.py:90 | the cleaned description has no whitespace at either end |
| `Message.CapturedDescription` | main.py:88-90 | when no description pattern matched the captured description is empty |
| `Message.CapturedDescriptionIsFirst` | main.py:88-90 | when some pattern matched, the description is the cleaned capture of the first pattern that matched |
| `Message.ParseMessage` | main.py:85-95 | the currency is always RUB and the amount is `parse_amount` of the text; the type is credit exactly when a keyword occurs; the description is the first pattern's cleaned capture, or else the text's first line; an empty text that needs the fallback raises |
| `Chars.FirstLine` | main.py:91 | the result is a prefix of the text with no line break, ending at the text's end or at a line break |
| `Chars.RStripChar` | main.py:90 | removes exactly the trailing run of the given character |
| `Chars.RStrip` | main.py:90 | removes exactly the trailing whitespace |
| `Chars.LStrip` | main.py:90 | removes exactly the leading whitespace |

## Left out

- Network and platform calls are not modelled: FastAPI routing, the request models, the webhook chat-id filter, `/status`, `/start` and `/help`, `send_telegram` and the report texts (main.py:72-76, 157-162, 176-205, 225-229).
- `process_sms` (main.py:167-174) is not modelled. It composes `ParseMessage` and `HandleTransaction`: it rejects a message without an amount and stores only debits.
- `/add` (main.py:206-212) is not modelled. It parses its amount with `float` and rejects values ≤ 0.
- Google Sheets credentials and client calls (main.py:41-63) are modelled only as the `rows` field. `read_all_rows` returning `[]` on an HTTP error is not modelled. Neither is a cleared row being omitted on the next read.
- `make_id` (main.py:103) is a SHA-256 hash. The id is a parameter of `HandleTransaction`.
- `parse_flexible_time` and `datetime.now` (main.py:96-102, 107, 145-146) depend on the clock and on time-zone data. Today's date and the two timestamps are parameters.
- Floating point is not modelled: amounts are exact kopecks. Float rounding in the sums, `nan`/`inf`, exponents and signs in `float()` are left out, as is the iteration order of float additions.
- `Sheet.Cell`: a cell's content is abstracted to whether `fromisoformat` or `float` accepts it. The string syntax those functions accept is not modelled. A `Text` cell stands for a string neither accepts.
- `Budget.DebitEntry`: a "debit" row with a `None` cell in the timestamp or amount column is skipped by the model. In the source, `fromisoformat(None)` or `float(None)` raises TypeError, which `except (ValueError, IndexError)` at main.py:120 does not catch, so `calculate_budget_stats` aborts. This cannot come from rows the bot writes: cells read back from the sheet are strings, and the only `None` written is the balance column (main.py:151). The same holds for `Budget.SkippedRowKeepsStats` and `Budget.Stats` on such rows.
- `Ledger.TransactionSheet.Cancel`: the row's amount must be a `Money` cell. A `float` of any other cell is treated as raising.
- `Amount.DecimalKopecks`: reads only digits with at most one point and at most two fraction digits. Python's `float` accepts more: three or more fraction digits ("1.234"), surrounding whitespace (" 7 "), exponents ("1e3"), signs ("-5"), underscores ("1_000"), and "inf" and "nan". The model gives None for these. `parse_amount` never passes such a string: by `Amount.NormalisedAmountParses`, every normalised capture group is within what the model reads.
- `Amount.ParseAmount`: `\d` is restricted to ASCII digits. Python also matches other Unicode decimal digits.
- `Message.CreditKeywordFrom`: case folding covers only the Russian letters а–я and their capitals. Python's extra case equivalences (such as the historic letter forms U+1C80–U+1C88) are not modelled.
- `Message.ParseMessage`: the three description regexes with look-aheads (main.py:87) are not modelled. Their captures are an input. `balance_after` (main.py:93-94) is not modelled either: `process_sms` never uses it, and `handle_transaction` stores `None`.
