/**
 * The budget engine: from the ledger rows and the current Moscow date it
 * computes today's spend, what is left of the daily limit, and the savings or
 * overspend accumulated over the earlier days that have debit rows.
 * Amounts are integer kopecks; dates are day numbers.
 */
module Budget {
  import opened Wrappers
  import opened Sheet

  /** Monthly income, savings goal and the resulting spend budget, in kopecks. */
  const MonthlyIncome: int := 6960000
  const MonthlySavingsGoal: int := 2000000
  const MonthlySpendBudget: int := MonthlyIncome - MonthlySavingsGoal
  /** The average month length, 30.4375 days, as the fraction 304375 / 10000. */
  const AvgDaysNumerator: int := 304375
  const AvgDaysDenominator: int := 10000

  /**
   * The integer nearest to n / d. A tie is rounded up, where Python's `round`
   * rounds it to the even neighbour; the one quotient rounded here, the daily
   * limit, is not a tie, so both give the same result for it.
   */
  function RoundedQuotient(n: nat, d: nat): (r: nat)
    requires d > 0
    ensures 2 * r * d <= 2 * n + d < 2 * r * d + 2 * d
  {
    (2 * n + d) / (2 * d)
  }

  /** The daily limit in kopecks: 1629.57 roubles. */
  const DailySpendLimit: int := 162957

  /** The daily limit is the monthly spend budget over the average month, rounded to the kopeck. */
  lemma DailySpendLimitDerivation()
    ensures DailySpendLimit == RoundedQuotient(MonthlySpendBudget * AvgDaysDenominator, AvgDaysNumerator)
  {
  }

  /** One debit the engine counts: its Moscow date and its amount. */
  datatype Entry = Entry(day: Day, amount: int)

  datatype BudgetStats = BudgetStats(dailyLimitLeft: int, overspentMonthly: int, savings: int, spentToday: int)

  /** The rows after the header, which is dropped only when the first row is exactly `Header`. */
  function DataRows(rows: seq<Row>): (r: seq<Row>)
    ensures |rows| - 1 <= |r| <= |rows| && r == rows[|rows| - |r|..]
    ensures |r| < |rows| <==> |rows| > 0 && rows[0] == Header
  {
    if |rows| > 0 && rows[0] == Header then rows[1..] else rows
  }

  /**
   * What one row contributes: nothing when it has fewer than six cells, is not
   * of type "debit", or its timestamp or amount does not parse.
   */
  function DebitEntry(row: Row): (e: Option<Entry>)
    ensures e.Some? <==> |row| > TypeColumn && row[TypeColumn] == Text("debit")
                           && row[TsMskColumn].Stamp? && row[AmountColumn].Money?
    ensures e.Some? ==> e.value == Entry(row[TsMskColumn].day, row[AmountColumn].kopecks)
  {
    if |row| <= TypeColumn then None
    else if row[TypeColumn] != Text("debit") then None
    else match (StampDay(row[TsMskColumn]), AmountOf(row[AmountColumn]))
      case (Some(day), Some(amount)) => Some(Entry(day, amount))
      case _ => None
  }

  /** The debit entries of the rows, in row order. */
  function Entries(rows: seq<Row>): seq<Entry>
  {
    if rows == [] then []
    else
      var e := DebitEntry(rows[|rows| - 1]);
      Entries(rows[..|rows| - 1]) + (if e.Some? then [e.value] else [])
  }

  /** The sum of the debit amounts dated `d`. */
  function DayTotal(es: seq<Entry>, d: Day): int
  {
    if es == [] then 0
    else DayTotal(es[..|es| - 1], d) + (if es[|es| - 1].day == d then es[|es| - 1].amount else 0)
  }

  /** The dates of the entries, each once, in order of first appearance (the keys of `daily_spends`). */
  function DaysInOrder(es: seq<Entry>): seq<Day>
  {
    if es == [] then []
    else
      var o := DaysInOrder(es[..|es| - 1]);
      if es[|es| - 1].day in o then o else o + [es[|es| - 1].day]
  }

  /** The sum of `DailySpendLimit - DayTotal(es, d)` over the days `d` of `days` before `today`. */
  function CumulativeOver(days: seq<Day>, es: seq<Entry>, today: Day): int
  {
    if days == [] then 0
    else
      var d := days[|days| - 1];
      CumulativeOver(days[..|days| - 1], es, today) + (if d < today then DailySpendLimit - DayTotal(es, d) else 0)
  }

  /** The savings (positive) or overspend (negative) accumulated over the days before today. */
  function Cumulative(es: seq<Entry>, today: Day): int
  {
    CumulativeOver(DaysInOrder(es), es, today)
  }

  function Max(a: int, b: int): int
  {
    if a < b then b else a
  }

  /** The statistics `calculate_budget_stats` reports for the rows on the date `today`. */
  function Stats(rows: seq<Row>, today: Day): (s: BudgetStats)
    ensures s.spentToday == DayTotal(Entries(rows), today)
    ensures s.dailyLimitLeft == DailySpendLimit - s.spentToday
    ensures s.savings >= 0 && s.overspentMonthly >= 0
    ensures s.savings == 0 || s.overspentMonthly == 0
    ensures s.savings - s.overspentMonthly == Cumulative(Entries(rows), today)
  {
    HeaderNeverCounts(rows);
    var es := Entries(DataRows(rows));
    var cumulative := Cumulative(es, today);
    var spent := DayTotal(es, today);
    BudgetStats(DailySpendLimit - spent, Max(0, -cumulative), Max(0, cumulative), spent)
  }

  // ---------------------------------------------------------------------------
  // The engine as the source runs it: two loops over a dictionary.
  // ---------------------------------------------------------------------------

  method CalculateBudgetStats(allRows: seq<Row>, today: Day) returns (stats: BudgetStats)
    ensures stats == Stats(allRows, today)
  {
    var dataRows := DataRows(allRows);
    var dailySpends, order := DailySpends(dataRows);
    ghost var es := Entries(dataRows);
    var cumulative := CumulativeResult(dailySpends, order, today, es);
    assert cumulative == Cumulative(es, today);
    var spentToday := if today in dailySpends then dailySpends[today] else 0;
    if today !in dailySpends {
      DayTotalAbsent(es, today);
    }
    assert spentToday == DayTotal(es, today);
    var dailyLimitLeft := DailySpendLimit - spentToday;
    var overspentMonthly := Max(0, -cumulative);
    var savings := Max(0, cumulative);
    stats := BudgetStats(dailyLimitLeft, overspentMonthly, savings, spentToday);
  }

  /**
   * The first loop: `daily_spends`, the debit total of every date that has a
   * debit row, with `order` listing its keys in insertion order.
   */
  method DailySpends(dataRows: seq<Row>) returns (dailySpends: map<Day, int>, order: seq<Day>)
    ensures order == DaysInOrder(Entries(dataRows))
    ensures forall d :: d in dailySpends <==> d in order
    ensures forall d :: d in dailySpends ==> dailySpends[d] == DayTotal(Entries(dataRows), d)
  {
    dailySpends, order := map[], [];
    var i := 0;
    while i < |dataRows|
      invariant 0 <= i <= |dataRows|
      invariant order == DaysInOrder(Entries(dataRows[..i]))
      invariant forall d :: d in dailySpends <==> d in order
      invariant forall d :: d in dailySpends ==> dailySpends[d] == DayTotal(Entries(dataRows[..i]), d)
    {
      var row := dataRows[i];
      EntriesStep(dataRows, i);
      if |row| <= TypeColumn {
        // IndexError: the row is skipped
      } else if row[TypeColumn] != Text("debit") {
        // not a debit
      } else {
        var ts, amount := StampDay(row[TsMskColumn]), AmountOf(row[AmountColumn]);
        if ts.Some? && amount.Some? {
          var day := ts.value;
          ghost var spends0, order0 := dailySpends, order;
          if day !in dailySpends {
            dailySpends := dailySpends[day := 0];
            order := order + [day];
          }
          dailySpends := dailySpends[day := dailySpends[day] + amount.value];
          DailySpendsStep(Entries(dataRows[..i]), Entry(day, amount.value), spends0, order0, dailySpends, order);
        }
      }
      i := i + 1;
    }
    assert dataRows[..i] == dataRows;
  }

  /**
   * The second loop: over the dates in insertion order, add up
   * `DailySpendLimit - total` for the dates before today.
   */
  method CumulativeResult(dailySpends: map<Day, int>, order: seq<Day>, today: Day, ghost es: seq<Entry>)
    returns (cumulative: int)
    requires forall d :: d in order ==> d in dailySpends && dailySpends[d] == DayTotal(es, d)
    ensures cumulative == CumulativeOver(order, es, today)
  {
    cumulative := 0;
    var j := 0;
    while j < |order|
      invariant 0 <= j <= |order|
      invariant cumulative == CumulativeOver(order[..j], es, today)
    {
      var day := order[j];
      assert order[..j + 1][..j] == order[..j];
      if day < today {
        cumulative := cumulative + (DailySpendLimit - dailySpends[day]);
      }
      j := j + 1;
    }
    assert order[..j] == order;
  }

  // ---------------------------------------------------------------------------
  // Lemmas about `Stats` and the functions it is built from.
  // ---------------------------------------------------------------------------

  /** One more row adds its debit entry, if it has one, at the end. */
  lemma EntriesStep(rows: seq<Row>, i: int)
    requires 0 <= i < |rows|
    ensures DebitEntry(rows[i]).Some? ==> Entries(rows[..i + 1]) == Entries(rows[..i]) + [DebitEntry(rows[i]).value]
    ensures DebitEntry(rows[i]).None? ==> Entries(rows[..i + 1]) == Entries(rows[..i])
  {
    assert rows[..i + 1][..i] == rows[..i];
    assert Entries(rows[..i]) + [] == Entries(rows[..i]);
  }

  /** One more entry adds its date to the listed dates if it is new, and its amount to that date's total. */
  lemma AppendEntry(es: seq<Entry>, e: Entry)
    ensures DaysInOrder(es + [e]) == if e.day in DaysInOrder(es) then DaysInOrder(es) else DaysInOrder(es) + [e.day]
    ensures forall d :: DayTotal(es + [e], d) == DayTotal(es, d) + (if d == e.day then e.amount else 0)
  {
    assert (es + [e])[..|es|] == es;
  }

  /** One pass of the first loop's body keeps its invariant for one more entry. */
  lemma DailySpendsStep(es: seq<Entry>, e: Entry, m0: map<Day, int>, o0: seq<Day>, m: map<Day, int>, o: seq<Day>)
    requires o0 == DaysInOrder(es)
    requires forall d :: d in m0 <==> d in o0
    requires forall d :: d in m0 ==> m0[d] == DayTotal(es, d)
    requires o == if e.day in m0 then o0 else o0 + [e.day]
    requires m == m0[e.day := (if e.day in m0 then m0[e.day] else 0) + e.amount]
    ensures o == DaysInOrder(es + [e])
    ensures forall d :: d in m <==> d in o
    ensures forall d :: d in m ==> m[d] == DayTotal(es + [e], d)
  {
    AppendEntry(es, e);
    if e.day !in m0 {
      DayTotalAbsent(es, e.day);
    }
  }

  /** A date that is not among the entries' dates has no spend. */
  lemma {:induction false} DayTotalAbsent(es: seq<Entry>, d: Day)
    requires d !in DaysInOrder(es)
    ensures DayTotal(es, d) == 0
  {
    if es != [] {
      DayTotalAbsent(es[..|es| - 1], d);
    }
  }

  /** A date is listed exactly when some entry carries it. */
  lemma {:induction false} DaysInOrderMembers(es: seq<Entry>, d: Day)
    ensures d in DaysInOrder(es) <==> exists k :: 0 <= k < |es| && es[k].day == d
  {
    if es != [] {
      var init := es[..|es| - 1];
      DaysInOrderMembers(init, d);
      if d in DaysInOrder(init) {
        var k :| 0 <= k < |init| && init[k].day == d;
        assert es[k].day == d;
      }
      if exists k :: 0 <= k < |es| && es[k].day == d {
        var k :| 0 <= k < |es| && es[k].day == d;
        if k < |init| {
          assert init[k].day == d;
        }
      }
    }
  }

  ghost predicate Distinct(days: seq<Day>)
  {
    forall i, j :: 0 <= i < j < |days| ==> days[i] != days[j]
  }

  /** No date is listed twice, as no dictionary key is. */
  lemma {:induction false} DaysInOrderDistinct(es: seq<Entry>)
    ensures Distinct(DaysInOrder(es))
  {
    if es != [] {
      DaysInOrderDistinct(es[..|es| - 1]);
    }
  }

  /** The header row is never a debit row, so dropping it or not never changes the entries. */
  lemma HeaderNeverCounts(rows: seq<Row>)
    ensures Entries(DataRows(rows)) == Entries(rows)
  {
    if |rows| > 0 && rows[0] == Header {
      assert DebitEntry(Header) == None;
      EntriesConcat([Header], rows[1..]);
      assert [Header] + rows[1..] == rows;
    }
  }

  /** Entries of a concatenation are the concatenation of the entries. */
  lemma {:induction false} EntriesConcat(a: seq<Row>, b: seq<Row>)
    ensures Entries(a + b) == Entries(a) + Entries(b)
  {
    if b == [] {
      assert a + b == a;
    } else {
      var init := b[..|b| - 1];
      EntriesConcat(a, init);
      assert (a + b)[..|a + b| - 1] == a + init;
      assert (a + b)[|a + b| - 1] == b[|b| - 1];
      var e := DebitEntry(b[|b| - 1]);
      var last := if e.Some? then [e.value] else [];
      assert Entries(a + b) == (Entries(a) + Entries(init)) + last;
    }
  }

  /** The number of listed dates before `today`. */
  function PastDayCount(days: seq<Day>, today: Day): nat
  {
    if days == [] then 0
    else PastDayCount(days[..|days| - 1], today) + (if days[|days| - 1] < today then 1 else 0)
  }

  /** The sum of the debit amounts dated before `today`. */
  function SpentBefore(es: seq<Entry>, today: Day): int
  {
    if es == [] then 0
    else SpentBefore(es[..|es| - 1], today) + (if es[|es| - 1].day < today then es[|es| - 1].amount else 0)
  }

  /** The days before `today` that carry at least one debit row. */
  ghost function PastDays(es: seq<Entry>, today: Day): set<Day>
  {
    set d | d in DaysInOrder(es) && d < today
  }

  /** Adding an entry changes the running sum only for its own date, if that date is listed and past. */
  lemma {:induction false} CumulativeOverAppend(days: seq<Day>, es: seq<Entry>, e: Entry, today: Day)
    requires Distinct(days)
    ensures CumulativeOver(days, es + [e], today)
         == CumulativeOver(days, es, today) - (if e.day in days && e.day < today then e.amount else 0)
  {
    if days != [] {
      var init := days[..|days| - 1];
      assert Distinct(init);
      CumulativeOverAppend(init, es, e, today);
      assert (es + [e])[..|es + [e]| - 1] == es;
      var last := days[|days| - 1];
      if last == e.day {
        assert e.day !in init;
      }
      assert e.day in days <==> e.day in init || e.day == last;
    }
  }

  lemma {:induction false} PastDayCountIsCardinality(days: seq<Day>, today: Day)
    requires Distinct(days)
    ensures PastDayCount(days, today) == |set d | d in days && d < today|
  {
    if days == [] {
      assert (set d | d in days && d < today) == {};
    } else {
      var init := days[..|days| - 1];
      var last := days[|days| - 1];
      assert Distinct(init);
      PastDayCountIsCardinality(init, today);
      var before := set d | d in init && d < today;
      var after := set d | d in days && d < today;
      assert last !in init;
      if last < today {
        assert after == before + {last};
      } else {
        assert after == before;
      }
    }
  }

  /**
   * The running sum in closed form: the limit once for every past day that has
   * debit rows, less everything spent before today.
   */
  lemma {:induction false} CumulativeClosedForm(es: seq<Entry>, today: Day)
    ensures Cumulative(es, today) == DailySpendLimit * |PastDays(es, today)| - SpentBefore(es, today)
  {
    DaysInOrderDistinct(es);
    PastDayCountIsCardinality(DaysInOrder(es), today);
    CumulativeCount(es, today);
  }

  lemma {:induction false} CumulativeCount(es: seq<Entry>, today: Day)
    ensures Cumulative(es, today) == DailySpendLimit * PastDayCount(DaysInOrder(es), today) - SpentBefore(es, today)
  {
    if es != [] {
      var init := es[..|es| - 1];
      var e := es[|es| - 1];
      assert es == init + [e];
      CumulativeCount(init, today);
      var o := DaysInOrder(init);
      DaysInOrderDistinct(init);
      CumulativeOverAppend(o, init, e, today);
      assert SpentBefore(es, today) == SpentBefore(init, today) + (if e.day < today then e.amount else 0);
      if e.day in o {
        assert DaysInOrder(es) == o;
      } else {
        DayTotalAbsent(init, e.day);
        NewDayStep(o, es, e, today);
      }
    }
  }

  lemma NewDayStep(o: seq<Day>, es: seq<Entry>, e: Entry, today: Day)
    requires es != [] && e == es[|es| - 1] && o == DaysInOrder(es[..|es| - 1]) && e.day !in o
    requires DayTotal(es[..|es| - 1], e.day) == 0
    ensures CumulativeOver(o + [e.day], es, today) == CumulativeOver(o, es, today) + (if e.day < today then DailySpendLimit - e.amount else 0)
    ensures PastDayCount(o + [e.day], today) == PastDayCount(o, today) + (if e.day < today then 1 else 0)
  {
    assert (o + [e.day])[..|o|] == o;
  }

  /** An entry dated today or later leaves the accumulated result as it was. */
  lemma {:induction false} LaterEntryKeepsCumulative(es: seq<Entry>, e: Entry, today: Day)
    requires e.day >= today
    ensures Cumulative(es + [e], today) == Cumulative(es, today)
  {
    var o := DaysInOrder(es);
    assert (es + [e])[..|es + [e]| - 1] == es;
    DaysInOrderDistinct(es);
    CumulativeOverAppend(o, es, e, today);
    if e.day !in o {
      assert (o + [e.day])[..|o|] == o;
    }
  }

  /** An empty ledger, or one holding only the header, reports the full limit and nothing accumulated. */
  lemma EmptyLedgerStats(today: Day)
    ensures Stats([], today) == Stats([Header], today) == BudgetStats(DailySpendLimit, 0, 0, 0)
  {
    assert DataRows([Header]) == [];
  }

  /** A row the engine skips can be inserted anywhere without changing the statistics. */
  lemma SkippedRowKeepsStats(a: seq<Row>, r: Row, b: seq<Row>, today: Day)
    requires DebitEntry(r) == None
    ensures Stats(a + [r] + b, today) == Stats(a + b, today)
  {
    SkippedRowKeepsEntries(a, r, b);
    HeaderNeverCounts(a + [r] + b);
    HeaderNeverCounts(a + b);
  }

  lemma SkippedRowKeepsEntries(a: seq<Row>, r: Row, b: seq<Row>)
    requires DebitEntry(r) == None
    ensures Entries(a + [r] + b) == Entries(a + b)
  {
    EntriesConcat(a + [r], b);
    EntriesConcat(a, [r]);
    EntriesConcat(a, b);
    assert Entries([r]) == [] by {
      assert [r][..0] == [];
    }
  }
}
