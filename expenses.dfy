/**
 * The expense analysis of `ExpensesAnalysisTab.tsx`: totals per category, the
 * category/subcategory sunburst, the calendar's date range and its daily
 * totals, and the per-category monthly trend.
 */
module Expenses {
  import opened Seqs
  import opened Dates
  import opened Transactions
  import opened Grouping
  import opened Timeline

  // ---------------------------------------------------------------------------
  // Shared pieces

  /** Each movement keyed by `key`, with the magnitude of its amount. */
  function Keyed<K>(ts: seq<Transaction>, key: Transaction -> K): (items: seq<(K, real)>)
    ensures |items| == |ts|
    ensures forall i :: 0 <= i < |ts| ==> items[i] == (key(ts[i]), Abs(ts[i].importe))
  {
    seq(|ts|, i requires 0 <= i < |ts| => (key(ts[i]), Abs(ts[i].importe)))
  }

  /** A key occurs among the keyed movements exactly when some movement has it. */
  lemma KeyedKeys<K>(ts: seq<Transaction>, key: Transaction -> K, k: K)
    ensures k in KeysOf(Keyed(ts, key)) <==> exists t :: t in ts && key(t) == k
  {
    var items := Keyed(ts, key);
    var ks := KeysOf(items);
    if k in ks {
      var i :| 0 <= i < |ks| && ks[i] == k;
      assert ts[i] in ts;
    }
    if exists t :: t in ts && key(t) == k {
      var t :| t in ts && key(t) == k;
      var i :| 0 <= i < |ts| && ts[i] == t;
      assert ks[i] == k;
    }
  }

  /** Every keyed value of expenses is positive. */
  lemma ExpenseValuesPositive<K>(ts: seq<Transaction>, key: Transaction -> K)
    requires forall t | t in ts :: IsExpense(t)
    ensures forall i :: 0 <= i < |Keyed(ts, key)| ==> Keyed(ts, key)[i].1 > 0.0
  {
    forall i | 0 <= i < |ts| ensures Abs(ts[i].importe) > 0.0 {
      assert ts[i] in ts;
    }
  }

  /** `Math.round` on every value. */
  function RoundValues<K>(es: seq<(K, real)>): (r: seq<(K, int)>)
    ensures |r| == |es|
    ensures forall i :: 0 <= i < |es| ==> r[i] == (es[i].0, Round(es[i].1))
  {
    seq(|es|, i requires 0 <= i < |es| => (es[i].0, Round(es[i].1)))
  }

  /** `(a, b) => b.valor - a.valor`: larger values first. */
  function ValueDesc<K>(e: (K, int)): real {
    -(e.1 as real)
  }

  lemma NonIncreasing<K>(s: seq<(K, int)>)
    requires SortedBy(s, ValueDesc)
    ensures forall i, j :: 0 <= i < j < |s| ==> s[i].1 >= s[j].1
  {
    forall i, j | 0 <= i < j < |s| ensures s[i].1 >= s[j].1 {
      assert ValueDesc(s[i]) <= ValueDesc(s[j]);
    }
  }

  lemma RoundNonNegative(x: real)
    requires x >= 0.0
    ensures Round(x) >= 0
  {
  }

  /** The expenses among the movements. */
  function ExpenseRows(ts: seq<Transaction>): (r: seq<Transaction>)
    ensures forall t | t in r :: t in ts && IsExpense(t)
    ensures forall t | t in ts && IsExpense(t) :: t in r
  {
    Filter(ts, IsExpense)
  }

  // ---------------------------------------------------------------------------
  // Expenses by category

  /** `(expense, |importe|)` keyed by `categoria || 'Sin categoría'`. */
  function CategoryItems(ts: seq<Transaction>): seq<(string, real)> {
    Keyed(ExpenseRows(ts), CategoryKey)
  }

  /** A category chart: rounded category totals, largest first, at most `n` (15 here, 10 on the charts grid). */
  function CategoryBars(ts: seq<Transaction>, n: nat): seq<(string, int)> {
    Take(SortBy(RoundValues(Grouped(CategoryItems(ts))), ValueDesc), n)
  }

  /** `expensesByCategoryData`: the reduction into a dictionary, then the sort and the cut. */
  method ExpensesByCategory(ts: seq<Transaction>, n: nat) returns (bars: seq<(string, int)>)
    ensures bars == CategoryBars(ts, n)
  {
    var totals := Tally(CategoryItems(ts));
    bars := Take(SortBy(RoundValues(totals), ValueDesc), n);
  }

  /** An entry is a key of the items with its rounded total. */
  predicate RoundedTotal<K(==)>(items: seq<(K, real)>, e: (K, int)) {
    e.0 in KeysOf(items) && e.1 == Round(KeyTotal(items, e.0))
  }

  /** Every entry of the rounded reduction, in whatever order, is a key with its rounded total. */
  lemma RoundedGroupedEntries<K>(items: seq<(K, real)>, r: seq<(K, int)>)
    requires multiset(r) == multiset(RoundValues(Grouped(items)))
    ensures forall e | e in r :: RoundedTotal(items, e)
    ensures forall k | k in KeysOf(items) :: exists e :: e in r && e.0 == k
  {
    var g := Grouped(items);
    var rv := RoundValues(g);
    GroupedKeys(items);
    forall e | e in r ensures RoundedTotal(items, e) {
      assert e in multiset(rv);
      var i :| 0 <= i < |rv| && rv[i] == e;
    }
    forall k | k in KeysOf(items) ensures exists e :: e in r && e.0 == k {
      var ks := KeysOf(items);
      var j :| 0 <= j < |ks| && ks[j] == k;
      assert items[j].0 == k;
      var i :| 0 <= i < |GroupKeys(items)| && GroupKeys(items)[i] == k;
      assert rv[i] in multiset(rv);
      assert rv[i] in r;
    }
  }

  /** Some expense has category `k`. */
  predicate SpentOn(ts: seq<Transaction>, k: string) {
    exists t :: t in ts && IsExpense(t) && CategoryKey(t) == k
  }

  lemma CategoryKeys(ts: seq<Transaction>, k: string)
    ensures k in KeysOf(CategoryItems(ts)) <==> SpentOn(ts, k)
  {
    KeyedKeys(ExpenseRows(ts), CategoryKey, k);
  }

  /** The bars are at most `n`, largest first. */
  lemma CategoryBarsOrdered(ts: seq<Transaction>, n: nat)
    ensures var r := CategoryBars(ts, n);
      |r| <= n && forall i, j :: 0 <= i < j < |r| ==> r[i].1 >= r[j].1
  {
    var sorted := SortBy(RoundValues(Grouped(CategoryItems(ts))), ValueDesc);
    NonIncreasing(sorted);
  }

  /** Each bar names the category of some expense and holds its rounded total, never negative. */
  lemma CategoryBarsEntries(ts: seq<Transaction>, n: nat)
    ensures var r := CategoryBars(ts, n);
      forall i :: 0 <= i < |r| ==> r[i].1 >= 0 && RoundedTotal(CategoryItems(ts), r[i]) && SpentOn(ts, r[i].0)
  {
    var items := CategoryItems(ts);
    var sorted := SortBy(RoundValues(Grouped(items)), ValueDesc);
    var r := CategoryBars(ts, n);
    RoundedGroupedEntries(items, sorted);
    ExpenseValuesPositive(ExpenseRows(ts), CategoryKey);
    forall i | 0 <= i < |r| ensures r[i].1 >= 0 && RoundedTotal(items, r[i]) && SpentOn(ts, r[i].0) {
      assert r[i] == sorted[i] && sorted[i] in sorted;
      KeyTotalNonNegative(items, r[i].0);
      CategoryKeys(ts, r[i].0);
    }
  }

  /** With at most `n` categories every expense's category has a bar. */
  lemma CategoryBarsComplete(ts: seq<Transaction>, n: nat)
    requires |GroupKeys(CategoryItems(ts))| <= n
    ensures forall t | t in ts && IsExpense(t) :: exists i :: 0 <= i < |CategoryBars(ts, n)| && CategoryBars(ts, n)[i].0 == CategoryKey(t)
  {
    var items := CategoryItems(ts);
    var sorted := SortBy(RoundValues(Grouped(items)), ValueDesc);
    var r := CategoryBars(ts, n);
    RoundedGroupedEntries(items, sorted);
    assert |sorted| == |GroupKeys(items)|;
    assert r == sorted;
    forall t | t in ts && IsExpense(t) ensures exists i :: 0 <= i < |r| && r[i].0 == CategoryKey(t) {
      CategoryKeys(ts, CategoryKey(t));
      var e :| e in r && e.0 == CategoryKey(t);
    }
  }

  // ---------------------------------------------------------------------------
  // Sunburst

  /** `transaction.subcategoria || 'General'`. */
  function SubcategoryKey(t: Transaction): (k: string)
    ensures k != ""
    ensures t.subcategoria != "" ==> k == t.subcategoria
    ensures t.subcategoria == "" ==> k == "General"
  {
    if t.subcategoria == "" then "General" else t.subcategoria
  }

  function PairKey(t: Transaction): (string, string) {
    (CategoryKey(t), SubcategoryKey(t))
  }

  /** `(expense, |importe|)` keyed by category and subcategory. */
  function SunburstItems(ts: seq<Transaction>): seq<((string, string), real)> {
    Keyed(ExpenseRows(ts), PairKey)
  }

  /** One ring segment: a category, its rounded total and its rounded subcategories. */
  datatype Segment = Segment(name: string, value: int, children: seq<(string, int)>)

  function SegmentOf(e: NestedEntry<string, string>): Segment {
    Segment(e.key, Round(e.total), SortBy(RoundValues(e.children), ValueDesc))
  }

  function SegmentDesc(s: Segment): real {
    -(s.value as real)
  }

  function Segments(es: seq<NestedEntry<string, string>>): (r: seq<Segment>)
    ensures |r| == |es|
    ensures forall i :: 0 <= i < |es| ==> r[i] == SegmentOf(es[i])
  {
    seq(|es|, i requires 0 <= i < |es| => SegmentOf(es[i]))
  }

  /** `sunburstChildren`: the segments, largest first, at most 8. */
  function Sunburst(ts: seq<Transaction>): seq<Segment> {
    Take(SortBy(Segments(NestedGrouped(SunburstItems(ts))), SegmentDesc), 8)
  }

  /** `sunburstData`: the two-level reduction into a dictionary, then the sorts and the cut. */
  method SunburstData(ts: seq<Transaction>) returns (segments: seq<Segment>)
    ensures segments == Sunburst(ts)
  {
    var entries := NestedTally(SunburstItems(ts));
    segments := Take(SortBy(Segments(entries), SegmentDesc), 8);
  }

  /** At most 8 segments, largest first. */
  lemma SunburstOrdered(ts: seq<Transaction>)
    ensures var r := Sunburst(ts);
      |r| <= 8 && forall i, j :: 0 <= i < j < |r| ==> r[i].value >= r[j].value
  {
    var sorted := SortBy(Segments(NestedGrouped(SunburstItems(ts))), SegmentDesc);
    var r := Sunburst(ts);
    forall i, j | 0 <= i < j < |r| ensures r[i].value >= r[j].value {
      assert SegmentDesc(sorted[i]) <= SegmentDesc(sorted[j]);
    }
  }

  /** The segment of a category whose total, before rounding, is the sum of its subcategories. */
  predicate SegmentOfCategory(es: seq<NestedEntry<string, string>>, s: Segment) {
    exists e :: e in es && s == SegmentOf(e) && Values(e.children) == e.total
  }

  /**
   * Each segment comes from one category of the reduction whose total, before
   * rounding, is the sum of its subcategories; its subcategories are listed
   * largest first.
   */
  lemma SunburstSegments(ts: seq<Transaction>)
    ensures var r := Sunburst(ts);
      forall i :: 0 <= i < |r| ==>
        && SegmentOfCategory(NestedGrouped(SunburstItems(ts)), r[i])
        && forall a, b :: 0 <= a < b < |r[i].children| ==> r[i].children[a].1 >= r[i].children[b].1
  {
    var es := NestedGrouped(SunburstItems(ts));
    var segs := Segments(es);
    var sorted := SortBy(segs, SegmentDesc);
    var r := Sunburst(ts);
    forall i | 0 <= i < |r|
      ensures SegmentOfCategory(es, r[i])
      ensures forall a, b :: 0 <= a < b < |r[i].children| ==> r[i].children[a].1 >= r[i].children[b].1
    {
      assert r[i] == sorted[i] && sorted[i] in multiset(segs);
      var k :| 0 <= k < |segs| && segs[k] == r[i];
      NestedChildrenSum(SunburstItems(ts), k);
      assert es[k] in es;
      NonIncreasing(r[i].children);
    }
  }

  // ---------------------------------------------------------------------------
  // Calendar range

  /** The calendar's first and last day, and whether the start was moved up. */
  datatype CalendarRange = CalendarRange(minDate: Date, maxDate: Date, isLimitedRange: bool)

  /** The whole of the given year. */
  function WholeYear(year: int): CalendarRange {
    CalendarRange(Date(year, 1, 1), Date(year, 12, 31), false)
  }

  /**
   * The range over the expense dates, from the earliest to the latest; when the
   * years of the two ends differ by more than 3, the start moves up to
   * 1 January of two years before the latest. Without any expense it is the
   * whole current year, passed in as `currentYear`.
   */
  function Range(ts: seq<Transaction>, currentYear: int): (r: CalendarRange)
    ensures (|ts| == 0 || |ExpenseRows(ts)| == 0) ==> r == WholeYear(currentYear)
  {
    if |ts| == 0 then WholeYear(currentYear)
    else
      var expenses := ExpenseRows(ts);
      if |expenses| == 0 then WholeYear(currentYear)
      else
        var min := Earliest(expenses, Key).fechaContable;
        var max := Latest(expenses, Key).fechaContable;
        if max.year - min.year > 3 then CalendarRange(Date(max.year - 2, 1, 1), max, true)
        else CalendarRange(min, max, false)
  }

  /**
   * With some expense the range ends on the latest expense date; it is cut
   * exactly when the years of the ends differ by more than 3, and then starts on
   * 1 January two years before the end; otherwise it starts on the earliest
   * expense date. Every expense date is on or before the end, and, when the
   * range is not cut, on or after the start.
   */
  lemma RangeSpec(ts: seq<Transaction>, currentYear: int)
    requires WellDated(ts) && |ExpenseRows(ts)| > 0
    ensures var r := Range(ts, currentYear);
      && (exists t :: t in ts && IsExpense(t) && t.fechaContable == r.maxDate)
      && (forall t | t in ts && IsExpense(t) :: Key(t) <= DateKey(r.maxDate))
      && (r.isLimitedRange <==> exists t :: t in ts && IsExpense(t) && r.maxDate.year - t.fechaContable.year > 3)
      && (r.isLimitedRange ==> r.minDate == Date(r.maxDate.year - 2, 1, 1))
      && (!r.isLimitedRange ==> exists t :: t in ts && IsExpense(t) && t.fechaContable == r.minDate)
      && (!r.isLimitedRange ==> forall t | t in ts && IsExpense(t) :: DateKey(r.minDate) <= Key(t))
  {
    var expenses := ExpenseRows(ts);
    assert |ts| > 0;
    var lo, hi := Earliest(expenses, Key), Latest(expenses, Key);
    forall t | t in ts && IsExpense(t) ensures Key(lo) <= Key(t) <= Key(hi) {
      assert t in expenses;
      var i :| 0 <= i < |expenses| && expenses[i] == t;
    }
    forall t | t in ts && IsExpense(t) ensures t.fechaContable.year >= lo.fechaContable.year {
      YearOfKey(lo.fechaContable, t.fechaContable);
    }
  }

  /** An earlier calendar date is in the same or an earlier year. */
  lemma YearOfKey(a: Date, b: Date)
    requires ValidDate(a) && ValidDate(b)
    requires DateKey(a) <= DateKey(b)
    ensures a.year <= b.year
  {
    assert DateKey(b) - DateKey(a) >= (b.year - a.year) * 372 - 371;
  }

  /** 1 January of year `y` is on or before a date exactly when the date is in year `y` or later. */
  lemma NewYearBefore(y: int, d: Date)
    requires ValidDate(d)
    ensures DateKey(Date(y, 1, 1)) <= DateKey(d) <==> y <= d.year
  {
  }

  // ---------------------------------------------------------------------------
  // Calendar heat map

  /** An expense posted within the calendar's range, both ends included. */
  predicate InCalendar(r: CalendarRange, t: Transaction) {
    IsExpense(t) && DateKey(r.minDate) <= Key(t) <= DateKey(r.maxDate)
  }

  function CalendarTest(r: CalendarRange): Transaction -> bool {
    t => InCalendar(r, t)
  }

  /** `format(fechaContable, 'yyyy-MM-dd')`, one key per calendar day. */
  function DayKey(t: Transaction): Date {
    t.fechaContable
  }

  /** `(day, |importe|)` of the expenses within the range. */
  function DayItems(ts: seq<Transaction>, r: CalendarRange): seq<(Date, real)> {
    Keyed(Filter(ts, CalendarTest(r)), DayKey)
  }

  /** Per day of the given movements, the rounded sum of their magnitudes, days in order of first occurrence. */
  function DayTotals(rows: seq<Transaction>): seq<(Date, int)> {
    RoundValues(Grouped(Keyed(rows, DayKey)))
  }

  /** The heat map: one entry per day with expenses in the range, its rounded total spent. */
  function CalendarDays(ts: seq<Transaction>, r: CalendarRange): seq<(Date, int)> {
    DayTotals(Filter(ts, CalendarTest(r)))
  }

  /** `calendarData`: the range, then the reduction by day into a dictionary. */
  method CalendarData(ts: seq<Transaction>, currentYear: int) returns (days: seq<(Date, int)>)
    ensures days == CalendarDays(ts, Range(ts, currentYear))
  {
    var range := Range(ts, currentYear);
    var totals := Tally(Keyed(Filter(ts, CalendarTest(range)), DayKey));
    days := RoundValues(totals);
  }

  lemma DayKeys(rows: seq<Transaction>, d: Date)
    ensures d in KeysOf(Keyed(rows, DayKey)) <==> exists t :: t in rows && t.fechaContable == d
  {
    KeyedKeys(rows, DayKey, d);
  }

  /**
   * For expenses, each day appears once, is the posted date of one of them, and
   * carries the rounded sum of that day's magnitudes, never negative.
   */
  lemma DayTotalsEntries(rows: seq<Transaction>)
    requires forall t | t in rows :: IsExpense(t)
    ensures var days := DayTotals(rows);
      && (forall i, j :: 0 <= i < j < |days| ==> days[i].0 != days[j].0)
      && (forall i :: 0 <= i < |days| ==>
            && RoundedTotal(Keyed(rows, DayKey), days[i]) && days[i].1 >= 0
            && exists t :: t in rows && t.fechaContable == days[i].0)
  {
    var items := Keyed(rows, DayKey);
    var days := DayTotals(rows);
    GroupedKeys(items);
    RoundedGroupedEntries(items, days);
    ExpenseValuesPositive(rows, DayKey);
    forall i, j | 0 <= i < j < |days| ensures days[i].0 != days[j].0 {
      assert days[i].0 == GroupKeys(items)[i] && days[j].0 == GroupKeys(items)[j];
    }
    forall i | 0 <= i < |days|
      ensures RoundedTotal(items, days[i]) && days[i].1 >= 0
      ensures exists t :: t in rows && t.fechaContable == days[i].0
    {
      assert days[i] in days;
      KeyTotalNonNegative(items, days[i].0);
      DayKeys(rows, days[i].0);
    }
  }

  /** Every movement has its day listed. */
  lemma DayTotalsComplete(rows: seq<Transaction>)
    ensures var days := DayTotals(rows);
      forall t | t in rows :: exists i :: 0 <= i < |days| && days[i].0 == t.fechaContable
  {
    var items := Keyed(rows, DayKey);
    var days := DayTotals(rows);
    RoundedGroupedEntries(items, days);
    forall t | t in rows ensures exists i :: 0 <= i < |days| && days[i].0 == t.fechaContable {
      DayKeys(rows, t.fechaContable);
      var e :| e in days && e.0 == t.fechaContable;
    }
  }

  /**
   * Each calendar day appears once, is the posted date of some expense in the
   * range, and carries the rounded sum of that day's expenses in the range.
   */
  lemma CalendarDaysEntries(ts: seq<Transaction>, r: CalendarRange)
    ensures var days := CalendarDays(ts, r);
      && (forall i, j :: 0 <= i < j < |days| ==> days[i].0 != days[j].0)
      && (forall i :: 0 <= i < |days| ==>
            && RoundedTotal(DayItems(ts, r), days[i]) && days[i].1 >= 0
            && exists t :: t in ts && InCalendar(r, t) && t.fechaContable == days[i].0)
  {
    DayTotalsEntries(Filter(ts, CalendarTest(r)));
  }

  /** Every expense in the range has its day on the map; none outside it counts. */
  lemma CalendarDaysComplete(ts: seq<Transaction>, r: CalendarRange)
    ensures var days := CalendarDays(ts, r);
      forall t | t in ts && InCalendar(r, t) :: exists i :: 0 <= i < |days| && days[i].0 == t.fechaContable
  {
    var rows := Filter(ts, CalendarTest(r));
    var days := DayTotals(rows);
    assert CalendarDays(ts, r) == days;
    DayTotalsComplete(rows);
    forall t | t in ts && InCalendar(r, t) ensures exists i :: 0 <= i < |days| && days[i].0 == t.fechaContable {
      assert CalendarTest(r)(t);
      assert t in rows;
    }
  }

  /**
   * Over the range of `Range`, an expense is on the map unless the range was
   * cut, and then exactly when it is in one of the last three years.
   */
  lemma CalendarCoverage(ts: seq<Transaction>, currentYear: int)
    requires WellDated(ts) && |ExpenseRows(ts)| > 0
    ensures var r := Range(ts, currentYear);
      forall t | t in ts && IsExpense(t) ::
        InCalendar(r, t) <==> (!r.isLimitedRange || t.fechaContable.year >= r.maxDate.year - 2)
  {
    var r := Range(ts, currentYear);
    RangeSpec(ts, currentYear);
    forall t | t in ts && IsExpense(t)
      ensures InCalendar(r, t) <==> (!r.isLimitedRange || t.fechaContable.year >= r.maxDate.year - 2)
    {
      NewYearBefore(r.maxDate.year - 2, t.fechaContable);
    }
  }

  // ---------------------------------------------------------------------------
  // Monthly trend per category

  /** `(a, b) => b.total - a.total`: larger totals first. */
  function TotalDesc<K>(e: (K, real)): real {
    -e.1
  }

  /** `categoriesList`: every expense category with its total, largest first. */
  function TrendCategories(sorted: seq<Transaction>): seq<(string, real)> {
    SortBy(Grouped(Keyed(sorted, CategoryKey)), TotalDesc)
  }

  /**
   * `categoriesToShow`: the selection when there is one, else the names of the
   * first `n` entries of the list (5 on the trend, 6 on the chart by year).
   */
  function ToShow<V>(list: seq<(string, V)>, selection: seq<string>, n: nat): (r: seq<string>)
    ensures |selection| > 0 ==> r == selection
    ensures |selection| == 0 ==> |r| == (if |list| < n then |list| else n)
    ensures |selection| == 0 ==> forall i :: 0 <= i < |r| ==> r[i] == list[i].0
  {
    if |selection| > 0 then selection
    else
      var top := Take(list, n);
      seq(|top|, i requires 0 <= i < |top| => top[i].0)
  }

  /** The reduction of one month's expenses by category. */
  function MonthTotals(sorted: seq<Transaction>, m: Month): seq<(string, real)>
    requires ValidMonth(m) && WellDated(sorted)
  {
    Grouped(Keyed(MonthRows(sorted, m), CategoryKey))
  }

  /** `monthlyDataByCategory`: one reduction per shown month. */
  function Table(sorted: seq<Transaction>, months: seq<Month>): (r: seq<seq<(string, real)>>)
    requires WellDated(sorted) && forall i :: 0 <= i < |months| ==> ValidMonth(months[i])
    ensures |r| == |months|
    ensures forall i :: 0 <= i < |months| ==> r[i] == MonthTotals(sorted, months[i])
  {
    seq(|months|, i requires 0 <= i < |months| => MonthTotals(sorted, months[i]))
  }

  /** One line: the category, and per month `Math.round(monthData[category] || 0)`. */
  datatype TrendLine = TrendLine(id: string, data: seq<int>)

  function Line(table: seq<seq<(string, real)>>, c: string): (r: TrendLine)
    ensures r.id == c && |r.data| == |table|
    ensures forall j :: 0 <= j < |table| ==> r.data[j] == Round(Lookup(table[j], c))
  {
    TrendLine(c, seq(|table|, j requires 0 <= j < |table| => Round(Lookup(table[j], c))))
  }

  function Lines(table: seq<seq<(string, real)>>, show: seq<string>): (r: seq<TrendLine>)
    ensures |r| == |show|
    ensures forall i :: 0 <= i < |show| ==> r[i] == Line(table, show[i])
  {
    seq(|show|, i requires 0 <= i < |show| => Line(table, show[i]))
  }

  /** The categories offered for selection, and the lines drawn. */
  datatype Trend = Trend(categories: seq<(string, real)>, lines: seq<TrendLine>)

  /** The expenses in ascending order of posted date. */
  function SortedExpenses(ts: seq<Transaction>): (r: seq<Transaction>)
    requires WellDated(ts)
    ensures WellDated(r)
    ensures forall t | t in r :: t in ts && IsExpense(t)
    ensures forall t | t in ts && IsExpense(t) :: t in r
  {
    Ascending(ExpenseRows(ts))
  }

  /** The categories by total and, for each category to show, its rounded spending in each month. */
  function TrendFrom(sorted: seq<Transaction>, months: seq<Month>, selection: seq<string>): Trend
    requires WellDated(sorted) && forall i :: 0 <= i < |months| ==> ValidMonth(months[i])
  {
    var list := TrendCategories(sorted);
    Trend(list, Lines(Table(sorted, months), ToShow(list, selection, 5)))
  }

  /**
   * The trend: nothing without movements or without expenses; otherwise drawn
   * from the expenses by date over the last 36 months of their span.
   */
  function TrendOf(ts: seq<Transaction>, selection: seq<string>): (r: Trend)
    requires WellDated(ts)
    ensures |ExpenseRows(ts)| == 0 ==> r == Trend([], [])
    ensures |ExpenseRows(ts)| > 0 ==> |SortedExpenses(ts)| > 0
    ensures |ExpenseRows(ts)| > 0 ==> r == TrendFrom(SortedExpenses(ts), Shown(SortedExpenses(ts), 36).0, selection)
  {
    if |ts| == 0 then Trend([], [])
    else
      var sorted := SortedExpenses(ts);
      assert |ExpenseRows(ts)| > 0 ==> ExpenseRows(ts)[0] in sorted;
      if |sorted| == 0 then Trend([], [])
      else TrendFrom(sorted, Shown(sorted, 36).0, selection)
  }

  /** The reduction of one month's expenses by category, run as the loop. */
  method MonthReduction(sorted: seq<Transaction>, m: Month) returns (entries: seq<(string, real)>)
    requires ValidMonth(m) && WellDated(sorted)
    ensures entries == MonthTotals(sorted, m)
  {
    entries := Tally(Keyed(MonthRows(sorted, m), CategoryKey));
  }

  /** `monthsToShow.map(...)`: the reduction loop once per month. */
  method MonthlyTotals(sorted: seq<Transaction>, months: seq<Month>) returns (table: seq<seq<(string, real)>>)
    requires WellDated(sorted) && forall i :: 0 <= i < |months| ==> ValidMonth(months[i])
    ensures table == Table(sorted, months)
  {
    table := [];
    var i := 0;
    while i < |months|
      invariant 0 <= i <= |months| && |table| == i
      invariant forall j :: 0 <= j < i ==> table[j] == MonthTotals(sorted, months[j])
    {
      var monthly := MonthReduction(sorted, months[i]);
      ghost var done := table;
      table := table + [monthly];
      forall j | 0 <= j < i + 1 ensures table[j] == MonthTotals(sorted, months[j]) {
        if j < i {
          assert table[j] == done[j];
        }
      }
      i := i + 1;
    }
  }

  /** The hook's body: the category reduction, its sort, and the monthly reductions. */
  method TrendData(ts: seq<Transaction>, selection: seq<string>) returns (r: Trend)
    requires WellDated(ts)
    ensures r == TrendOf(ts, selection)
  {
    if |ts| == 0 {
      return Trend([], []);
    }
    var sorted := SortedExpenses(ts);
    if |sorted| == 0 {
      return Trend([], []);
    }
    var totals := Tally(Keyed(sorted, CategoryKey));
    var list := SortBy(totals, TotalDesc);
    var table := MonthlyTotals(sorted, Shown(sorted, 36).0);
    r := Trend(list, Lines(table, ToShow(list, selection, 5)));
    assert |ExpenseRows(ts)| > 0 by {
      assert sorted[0] in sorted;
    }
  }

  /** What a movement adds to category `c`'s spending: its magnitude when it is of that category. */
  function SpentIn(c: string): Transaction -> real {
    t => if CategoryKey(t) == c then Abs(t.importe) else 0.0
  }

  /** A category's total in the reduction is the sum of the magnitudes of its movements. */
  lemma {:induction false} KeyedTotal(rows: seq<Transaction>, c: string)
    ensures KeyTotal(Keyed(rows, CategoryKey), c) == Sum(rows, SpentIn(c))
  {
    if rows != [] {
      var n := |rows|;
      assert Keyed(rows, CategoryKey)[..n - 1] == Keyed(rows[..n - 1], CategoryKey);
      KeyedTotal(rows[..n - 1], c);
    }
  }

  /** Entries of a reduction, in whatever order: each key with its total, and every key present. */
  lemma GroupedEntries<K>(items: seq<(K, real)>, r: seq<(K, real)>)
    requires multiset(r) == multiset(Grouped(items))
    ensures forall e | e in r :: e.0 in KeysOf(items) && e.1 == KeyTotal(items, e.0)
    ensures forall k | k in KeysOf(items) :: exists e :: e in r && e.0 == k
  {
    var g := Grouped(items);
    GroupedKeys(items);
    forall e | e in r ensures e.0 in KeysOf(items) && e.1 == KeyTotal(items, e.0) {
      assert e in multiset(g);
      var i :| 0 <= i < |g| && g[i] == e;
    }
    forall k | k in KeysOf(items) ensures exists e :: e in r && e.0 == k {
      var ks := KeysOf(items);
      var j :| 0 <= j < |ks| && ks[j] == k;
      assert items[j].0 == k;
      var i :| 0 <= i < |GroupKeys(items)| && GroupKeys(items)[i] == k;
      assert g[i] in multiset(g);
    }
  }

  /**
   * The categories offered are those of the expenses, each with the sum of the
   * magnitudes of its expenses, largest total first.
   */
  lemma TrendCategoriesSpec(sorted: seq<Transaction>, months: seq<Month>, selection: seq<string>)
    requires WellDated(sorted) && forall i :: 0 <= i < |months| ==> ValidMonth(months[i])
    ensures var list := TrendFrom(sorted, months, selection).categories;
      && (forall i, j :: 0 <= i < j < |list| ==> list[i].1 >= list[j].1)
      && (forall e | e in list :: (exists t :: t in sorted && CategoryKey(t) == e.0) && e.1 == Sum(sorted, SpentIn(e.0)))
      && (forall t | t in sorted :: exists e :: e in list && e.0 == CategoryKey(t))
  {
    var items := Keyed(sorted, CategoryKey);
    var list := TrendCategories(sorted);
    GroupedEntries(items, list);
    forall i, j | 0 <= i < j < |list| ensures list[i].1 >= list[j].1 {
      assert TotalDesc(list[i]) <= TotalDesc(list[j]);
    }
    forall e | e in list ensures (exists t :: t in sorted && CategoryKey(t) == e.0) && e.1 == Sum(sorted, SpentIn(e.0)) {
      KeyedKeys(sorted, CategoryKey, e.0);
      KeyedTotal(sorted, e.0);
    }
    forall t | t in sorted ensures exists e :: e in list && e.0 == CategoryKey(t) {
      KeyedKeys(sorted, CategoryKey, CategoryKey(t));
    }
  }

  /**
   * One line per category shown, each with one point per month: the rounded
   * sum spent on that category in that month.
   */
  lemma TrendPoints(sorted: seq<Transaction>, months: seq<Month>, selection: seq<string>)
    requires WellDated(sorted) && forall i :: 0 <= i < |months| ==> ValidMonth(months[i])
    ensures var r := TrendFrom(sorted, months, selection);
      && |r.lines| == |ToShow(r.categories, selection, 5)|
      && (forall i :: 0 <= i < |r.lines| ==> r.lines[i].id == ToShow(r.categories, selection, 5)[i] && |r.lines[i].data| == |months|)
      && forall i, j :: 0 <= i < |r.lines| && 0 <= j < |months| ==>
        r.lines[i].data[j] == Round(Sum(MonthRows(sorted, months[j]), SpentIn(r.lines[i].id)))
  {
    var r := TrendFrom(sorted, months, selection);
    forall i, j | 0 <= i < |r.lines| && 0 <= j < |months|
      ensures r.lines[i].data[j] == Round(Sum(MonthRows(sorted, months[j]), SpentIn(r.lines[i].id)))
    {
      var c := r.lines[i].id;
      LookupGrouped(Keyed(MonthRows(sorted, months[j]), CategoryKey), c);
      KeyedTotal(MonthRows(sorted, months[j]), c);
    }
  }

  /** A category with no expense in a month is drawn at 0 there. */
  lemma TrendQuietMonth(sorted: seq<Transaction>, months: seq<Month>, selection: seq<string>, i: nat, j: nat)
    requires WellDated(sorted) && forall k :: 0 <= k < |months| ==> ValidMonth(months[k])
    requires i < |TrendFrom(sorted, months, selection).lines| && j < |months|
    requires forall t | t in sorted && InMonth(t.fechaContable, months[j]) ::
      CategoryKey(t) != TrendFrom(sorted, months, selection).lines[i].id
    ensures TrendFrom(sorted, months, selection).lines[i].data[j] == 0
  {
    var c := TrendFrom(sorted, months, selection).lines[i].id;
    var rows := MonthRows(sorted, months[j]);
    KeyedKeys(rows, CategoryKey, c);
    KeyTotalAbsent(Keyed(rows, CategoryKey), c);
    LookupGrouped(Keyed(rows, CategoryKey), c);
  }

  /**
   * Without a selection the lines are the first categories of the list, at most
   * five, and no category left out has a larger total than one shown.
   */
  lemma TrendTopFive(sorted: seq<Transaction>, months: seq<Month>)
    requires WellDated(sorted) && forall k :: 0 <= k < |months| ==> ValidMonth(months[k])
    ensures var r := TrendFrom(sorted, months, []);
      && |r.lines| == (if |r.categories| < 5 then |r.categories| else 5)
      && forall i, j :: 0 <= i < |r.lines| <= j < |r.categories| ==>
        r.lines[i].id == r.categories[i].0 && r.categories[i].1 >= r.categories[j].1
  {
    var list := TrendCategories(sorted);
    var r := TrendFrom(sorted, months, []);
    forall i, j | 0 <= i < |r.lines| <= j < |r.categories|
      ensures r.lines[i].id == r.categories[i].0 && r.categories[i].1 >= r.categories[j].1
    {
      assert TotalDesc(list[i]) <= TotalDesc(list[j]);
    }
  }
}
