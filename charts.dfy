/**
 * The charts grid of `ChartsGrid.tsx` over the filtered movements: the balance
 * per month without carry-forward, the expense donut and its centre total,
 * the uncut monthly income and expenses, the daily heat map and the year the
 * calendar opens on. The top-10 category chart is `Expenses.CategoryBars(ts, 10)`.
 */
module Charts {
  import opened Seqs
  import opened Dates
  import opened Transactions
  import opened Grouping
  import opened Timeline
  import opened Kpis
  import Overview
  import Expenses

  // ---------------------------------------------------------------------------
  // Balance per month, without carry-forward

  /** `lastTransaction ? Math.round(lastTransaction.saldo) : 0` over a month's movements. */
  function LastSaldo(rows: seq<Transaction>): int {
    if |rows| == 0 then 0 else Round(rows[|rows| - 1].saldo)
  }

  function SaldoPoints(sorted: seq<Transaction>, months: seq<Month>): (r: seq<(Month, int)>)
    requires WellDated(sorted) && forall i :: 0 <= i < |months| ==> ValidMonth(months[i])
    ensures |r| == |months|
    ensures forall i :: 0 <= i < |months| ==> r[i] == (months[i], LastSaldo(MonthRows(sorted, months[i])))
  {
    seq(|months|, i requires 0 <= i < |months| => (months[i], LastSaldo(MonthRows(sorted, months[i]))))
  }

  /** `balanceEvolutionData`: one point per month of the span, read off the movements by date. */
  function SaldoByMonth(ts: seq<Transaction>): seq<(Month, int)>
    requires WellDated(ts)
  {
    if |ts| == 0 then [] else SaldoPoints(Ascending(ts), Span(ts))
  }

  /** `t` is a movement of month `m` posted no earlier than any other of that month. */
  predicate LastOfMonth(ts: seq<Transaction>, m: Month, t: Transaction) {
    t in ts && InMonth(t.fechaContable, m)
    && forall u | u in ts && InMonth(u.fechaContable, m) :: Key(u) <= Key(t)
  }

  predicate KeyAscending(s: seq<Transaction>) {
    forall i, j :: 0 <= i < j < |s| ==> Key(s[i]) <= Key(s[j])
  }

  /** Filtering keeps the order by posted date. */
  lemma {:induction false} FilterAscending(s: seq<Transaction>, p: Transaction -> bool)
    requires KeyAscending(s)
    ensures KeyAscending(Filter(s, p))
  {
    if s != [] {
      var init, x := s[..|s| - 1], s[|s| - 1];
      FilterAscending(init, p);
      var fi := Filter(init, p);
      if p(x) {
        forall i | 0 <= i < |fi| ensures Key(fi[i]) <= Key(x) {
          assert fi[i] in init;
          var k :| 0 <= k < |init| && init[k] == fi[i];
          assert s[k] == fi[i];
        }
        assert Filter(s, p) == fi + [x];
      }
    }
  }

  /** The chart has one point per month from the first to the last movement, and none without movements. */
  lemma SaldoByMonthShape(ts: seq<Transaction>)
    requires WellDated(ts)
    ensures |ts| == 0 ==> SaldoByMonth(ts) == []
    ensures |ts| > 0 ==> |SaldoByMonth(ts)| == MonthIndex(LastMonth(ts)) - MonthIndex(FirstMonth(ts)) + 1
    ensures |ts| > 0 ==> forall i :: 0 <= i < |SaldoByMonth(ts)| ==> SaldoByMonth(ts)[i].0 == Span(ts)[i]
  {
  }

  /** Of a month's movements sorted by date, the last is the latest of that month. */
  lemma LastRowIsLatest(ts: seq<Transaction>, m: Month)
    requires WellDated(ts) && ValidMonth(m)
    requires |MonthRows(Ascending(ts), m)| > 0
    ensures var rows := MonthRows(Ascending(ts), m); LastOfMonth(ts, m, rows[|rows| - 1])
  {
    var sorted := Ascending(ts);
    var rows := MonthRows(sorted, m);
    FilterAscending(sorted, MonthTest(m));
    var last := rows[|rows| - 1];
    assert last in rows;
    forall u | u in ts && InMonth(u.fechaContable, m) ensures Key(u) <= Key(last) {
      assert u in sorted;
      assert u in rows;
      var k :| 0 <= k < |rows| && rows[k] == u;
    }
  }

  /** A month with movements shows the rounded balance after its last movement by date. */
  lemma SaldoBusyMonth(ts: seq<Transaction>, i: nat)
    requires WellDated(ts) && 0 < |ts| && i < |Span(ts)|
    requires exists t :: t in ts && InMonth(t.fechaContable, Span(ts)[i])
    ensures exists t :: LastOfMonth(ts, Span(ts)[i], t) && SaldoByMonth(ts)[i].1 == Round(t.saldo)
  {
    var m := Span(ts)[i];
    var rows := MonthRows(Ascending(ts), m);
    var t :| t in ts && InMonth(t.fechaContable, m);
    assert t in Ascending(ts);
    assert t in rows;
    LastRowIsLatest(ts, m);
    var points := SaldoPoints(Ascending(ts), Span(ts));
    assert SaldoByMonth(ts) == points;
    assert points[i].1 == LastSaldo(rows);
  }

  /** A month without movements shows 0: nothing is carried over from earlier months. */
  lemma SaldoQuietMonth(ts: seq<Transaction>, i: nat)
    requires WellDated(ts) && 0 < |ts| && i < |Span(ts)|
    requires forall t | t in ts :: !InMonth(t.fechaContable, Span(ts)[i])
    ensures SaldoByMonth(ts)[i].1 == 0
  {
  }

  // ---------------------------------------------------------------------------
  // Expense donut

  /** One slice: the category, its rounded total and its share of all expenses, in percent. */
  datatype Slice = Slice(id: string, value: int, percentage: real)

  function SlicesOf(entries: seq<(string, real)>, total: real): (r: seq<Slice>)
    requires total != 0.0 || entries == []
    ensures |r| == |entries|
    ensures forall i :: 0 <= i < |entries| ==> r[i] == Slice(entries[i].0, Round(entries[i].1), entries[i].1 / total * 100.0)
  {
    seq(|entries|, i requires 0 <= i < |entries| => Slice(entries[i].0, Round(entries[i].1), entries[i].1 / total * 100.0))
  }

  function SliceDesc(s: Slice): real {
    -(s.value as real)
  }

  /** The category totals the donut is cut from. */
  function DonutTotals(ts: seq<Transaction>): seq<(string, real)> {
    Grouped(Expenses.CategoryItems(ts))
  }

  /** The donut's keyed values add up to the total of all expenses. */
  lemma {:induction false} KeyedValues<K>(rows: seq<Transaction>, key: Transaction -> K)
    ensures Values(Expenses.Keyed(rows, key)) == Sum(rows, Magnitude)
  {
    if rows != [] {
      var n := |rows|;
      assert Expenses.Keyed(rows, key)[..n - 1] == Expenses.Keyed(rows[..n - 1], key);
      KeyedValues(rows[..n - 1], key);
    }
  }

  lemma {:induction false} SumPositive(s: seq<Transaction>, f: Transaction -> real)
    requires |s| > 0 && forall i :: 0 <= i < |s| ==> f(s[i]) > 0.0
    ensures Sum(s, f) > 0.0
  {
    if |s| > 1 {
      SumPositive(s[..|s| - 1], f);
    }
  }

  /**
   * The sum of all category totals is the total of all expenses, and it is
   * positive exactly when there is a category at all.
   */
  lemma DonutTotal(ts: seq<Transaction>)
    ensures Values(DonutTotals(ts)) == TotalExpenses(ts)
    ensures DonutTotals(ts) != [] <==> TotalExpenses(ts) > 0.0
  {
    var rows := Expenses.ExpenseRows(ts);
    var items := Expenses.CategoryItems(ts);
    GroupedSum(items);
    assert Values(items) == Sum(items, (e: (string, real)) => e.1);
    KeyedValues(rows, CategoryKey);
    if |rows| > 0 {
      forall i | 0 <= i < |rows| ensures Magnitude(rows[i]) > 0.0 {
        assert rows[i] in rows;
      }
      SumPositive(rows, Magnitude);
      assert items[0].0 in GroupKeys(items);
    } else {
      assert |GroupKeys(items)| <= |KeysOf(items)| == 0;
    }
  }

  /** `expensesDonutData`: a slice per category, largest first, at most 8. */
  function Donut(ts: seq<Transaction>): seq<Slice> {
    var totals := DonutTotals(ts);
    DonutTotal(ts);
    Take(SortBy(SlicesOf(totals, Values(totals)), SliceDesc), 8)
  }

  /** The reduction into a dictionary, the sum of its values, then the slices, the sort and the cut. */
  method DonutData(ts: seq<Transaction>) returns (slices: seq<Slice>)
    ensures slices == Donut(ts)
  {
    var totals := Tally(Expenses.CategoryItems(ts));
    DonutTotal(ts);
    slices := Take(SortBy(SlicesOf(totals, Values(totals)), SliceDesc), 8);
  }

  /** At most 8 slices, largest first. */
  lemma DonutOrdered(ts: seq<Transaction>)
    ensures var r := Donut(ts);
      |r| <= 8 && forall i, j :: 0 <= i < j < |r| ==> r[i].value >= r[j].value
  {
    var r := Donut(ts);
    var totals := DonutTotals(ts);
    DonutTotal(ts);
    var sorted := SortBy(SlicesOf(totals, Values(totals)), SliceDesc);
    forall i, j | 0 <= i < j < |r| ensures r[i].value >= r[j].value {
      assert SliceDesc(sorted[i]) <= SliceDesc(sorted[j]);
    }
  }

  /**
   * Each slice is an expense category with its rounded total, and its share is
   * that category's total against the total of all expenses, categories cut
   * from the donut included.
   */
  lemma DonutShares(ts: seq<Transaction>)
    ensures forall s | s in Donut(ts) ::
      && Expenses.SpentOn(ts, s.id)
      && TotalExpenses(ts) > 0.0
      && var total := KeyTotal(Expenses.CategoryItems(ts), s.id);
        s.value == Round(total) && s.percentage == total / TotalExpenses(ts) * 100.0
  {
    var items := Expenses.CategoryItems(ts);
    var totals := DonutTotals(ts);
    DonutTotal(ts);
    var slices := SlicesOf(totals, Values(totals));
    var sorted := SortBy(slices, SliceDesc);
    GroupedKeys(items);
    forall s | s in Donut(ts)
      ensures Expenses.SpentOn(ts, s.id) && TotalExpenses(ts) > 0.0
      ensures s.value == Round(KeyTotal(items, s.id))
      ensures s.percentage == KeyTotal(items, s.id) / TotalExpenses(ts) * 100.0
    {
      assert s in sorted;
      assert s in multiset(slices);
      var i :| 0 <= i < |slices| && slices[i] == s;
      Expenses.CategoryKeys(ts, s.id);
    }
  }

  // ---------------------------------------------------------------------------
  // Centre total

  /** `totalExpenses`: the rounded sum of the magnitudes of the expenses. */
  function CentreTotal(ts: seq<Transaction>): int {
    Round(Sum(Filter(ts, IsExpense), Magnitude))
  }

  /** The centre shows the rounded sum of every category total, the slices cut from the donut included. */
  lemma CentreTotalIsDonutTotal(ts: seq<Transaction>)
    ensures CentreTotal(ts) == Round(Values(DonutTotals(ts)))
    ensures CentreTotal(ts) >= 0
  {
    DonutTotal(ts);
    Expenses.RoundNonNegative(TotalExpenses(ts));
  }

  // ---------------------------------------------------------------------------
  // Monthly income and expenses, uncut

  /** The chart's bars: every month of the span, with no cut to the most recent months. */
  function MonthlyBars(ts: seq<Transaction>): seq<Overview.MonthBar>
    requires WellDated(ts)
  {
    if |ts| == 0 then [] else Overview.Bars(Ascending(ts), Span(ts))
  }

  /**
   * This chart has one bar per month of the whole span, the overview's cut to
   * 36 months left out, each the month's bar of the sorted movements.
   */
  lemma MonthlyBarsPerMonth(ts: seq<Transaction>, i: int)
    requires WellDated(ts) && |ts| > 0 && 0 <= i < |Span(ts)|
    ensures |MonthlyBars(ts)| == |Span(ts)|
    ensures MonthlyBars(ts)[i].month == Span(ts)[i] && MonthlyBars(ts)[i] == Overview.Bar(Ascending(ts), Span(ts)[i])
  {
  }

  // ---------------------------------------------------------------------------
  // Daily heat map

  /** `calendarHeatmapData`: per day with expenses, the rounded sum spent that day. */
  function Heatmap(ts: seq<Transaction>): seq<(Date, int)> {
    if |ts| == 0 then [] else Expenses.DayTotals(Expenses.ExpenseRows(ts))
  }

  /** The reduction by day into a dictionary. */
  method HeatmapData(ts: seq<Transaction>) returns (days: seq<(Date, int)>)
    ensures days == Heatmap(ts)
  {
    if |ts| == 0 {
      return [];
    }
    var totals := Tally(Expenses.Keyed(Expenses.ExpenseRows(ts), Expenses.DayKey));
    days := Expenses.RoundValues(totals);
  }

  /**
   * One entry per distinct expense day, each the posted date of some expense
   * with the rounded sum of that day's expenses; every expense's day is listed.
   */
  lemma HeatmapSpec(ts: seq<Transaction>)
    ensures var days := Heatmap(ts);
      && (forall i, j :: 0 <= i < j < |days| ==> days[i].0 != days[j].0)
      && (forall i :: 0 <= i < |days| ==>
            && Expenses.RoundedTotal(Expenses.Keyed(Expenses.ExpenseRows(ts), Expenses.DayKey), days[i])
            && exists t :: t in ts && IsExpense(t) && t.fechaContable == days[i].0)
      && (forall t | t in ts && IsExpense(t) :: exists i :: 0 <= i < |days| && days[i].0 == t.fechaContable)
  {
    if |ts| > 0 {
      var rows := Expenses.ExpenseRows(ts);
      Expenses.DayTotalsEntries(rows);
      Expenses.DayTotalsComplete(rows);
    }
  }

  /** When the calendar's range is not cut, the heat map and the expense tab's calendar agree. */
  lemma HeatmapIsUncutCalendar(ts: seq<Transaction>, currentYear: int)
    requires WellDated(ts) && |Expenses.ExpenseRows(ts)| > 0
    requires !Expenses.Range(ts, currentYear).isLimitedRange
    ensures Heatmap(ts) == Expenses.CalendarDays(ts, Expenses.Range(ts, currentYear))
  {
    var r := Expenses.Range(ts, currentYear);
    Expenses.CalendarCoverage(ts, currentYear);
    forall i | 0 <= i < |ts| ensures Expenses.CalendarTest(r)(ts[i]) == IsExpense(ts[i]) {
      assert ts[i] in ts;
    }
    FilterExtIn(ts, Expenses.CalendarTest(r), IsExpense);
  }

  // ---------------------------------------------------------------------------
  // The calendar's year

  /** `currentYear`: the latest posted year, or the year passed in as `today` without movements. */
  function CurrentYear(ts: seq<Transaction>, today: int): (r: int)
    ensures |ts| == 0 ==> r == today
    ensures |ts| > 0 ==> (exists t :: t in ts && Year(t) == r) && forall t | t in ts :: Year(t) <= r
  {
    if |ts| == 0 then today
    else
      var latest := Latest(ts, Year);
      assert forall t | t in ts :: Year(t) <= Year(latest) by {
        forall t | t in ts ensures Year(t) <= Year(latest) {
          var i :| 0 <= i < |ts| && ts[i] == t;
        }
      }
      Year(latest)
  }
}
