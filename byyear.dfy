/**
 * Expenses by category and year: every expense of the whole data set (the
 * filters do not apply), reduced by year and then by category; the categories
 * ranked by their total over all years; and one row per year with the rounded
 * expense of each category shown.
 */
module ByYear {
  import opened Seqs
  import opened Transactions
  import opened Grouping
  import Expenses

  /** The two keys of the reduction: the posted year, then the category. */
  function YearCategory(t: Transaction): (int, string) {
    (Year(t), CategoryKey(t))
  }

  /** What the reduction adds up: each expense under its year and category, by magnitude. */
  function YearItems(ts: seq<Transaction>): seq<((int, string), real)> {
    Expenses.Keyed(Expenses.ExpenseRows(ts), YearCategory)
  }

  function EntryYear(e: NestedEntry<int, string>): real {
    e.key as real
  }

  function EntryKey(e: NestedEntry<int, string>): int {
    e.key
  }

  /**
   * `yearlyExpenses` as `Object.values` and `Object.entries` enumerate it: a year
   * is an integer-like key, and such keys come in ascending numeric order.
   */
  function YearEntries(ts: seq<Transaction>): seq<NestedEntry<int, string>> {
    SortBy(NestedGrouped(YearItems(ts)), EntryYear)
  }

  /** `allCategories`: a `Set` fed with each year's category keys, year by year. */
  function AllCategories(years: seq<NestedEntry<int, string>>): seq<string> {
    if years == [] then [] else AllCategories(years[..|years| - 1]) + KeysOf(years[|years| - 1].children)
  }

  /** `yearData[category] || 0`. */
  function ChildValue(c: string): NestedEntry<int, string> -> real {
    (e: NestedEntry<int, string>) => Lookup(e.children, c)
  }

  /** Each category with `Math.round` of its amounts added up over the years. */
  function CategoryTotals(years: seq<NestedEntry<int, string>>, cats: seq<string>): seq<(string, int)> {
    seq(|cats|, i requires 0 <= i < |cats| => (cats[i], Round(Sum(years, ChildValue(cats[i])))))
  }

  /** `categoriesList`: the categories by descending rounded total, ties in first-seen order. */
  function CategoryList(years: seq<NestedEntry<int, string>>): seq<(string, int)> {
    SortBy(CategoryTotals(years, Distinct(AllCategories(years))), Expenses.ValueDesc)
  }

  /** One row of the chart: the year and, per category shown, its rounded expense. */
  datatype YearRow = YearRow(year: int, values: seq<int>)

  function RowOf(e: NestedEntry<int, string>, show: seq<string>): YearRow {
    YearRow(e.key, seq(|show|, k requires 0 <= k < |show| => Round(Lookup(e.children, show[k]))))
  }

  function Rows(years: seq<NestedEntry<int, string>>, show: seq<string>): seq<YearRow> {
    seq(|years|, i requires 0 <= i < |years| => RowOf(years[i], show))
  }

  function RowYear(r: YearRow): real {
    r.year as real
  }

  function RowKey(r: YearRow): int {
    r.year
  }

  /** Each row's year is later than the one before. */
  predicate YearsAscending(rows: seq<YearRow>) {
    forall i, j :: 0 <= i < j < |rows| ==> rows[i].year < rows[j].year
  }

  /** The categories offered for selection and the rows drawn. */
  datatype YearChart = YearChart(categories: seq<(string, int)>, rows: seq<YearRow>)

  /**
   * The hook's result: the ranked categories; the six first of them unless some
   * are selected; and the rows sorted by year.
   */
  function ExpensesByYear(ts: seq<Transaction>, selection: seq<string>): YearChart {
    var years := YearEntries(ts);
    var list := CategoryList(years);
    YearChart(list, SortBy(Rows(years, Expenses.ToShow(list, selection, 6)), RowYear))
  }

  // ---------------------------------------------------------------------------
  // The loops
  // ---------------------------------------------------------------------------

  lemma DistinctPush<T>(s: seq<T>, x: T)
    ensures Distinct(s + [x]) == if x in Distinct(s) then Distinct(s) else Distinct(s) + [x]
  {
    assert (s + [x])[..|s|] == s;
  }

  /** The two nested `forEach` loops that fill the `Set` of categories. */
  method CollectCategories(years: seq<NestedEntry<int, string>>) returns (cats: seq<string>)
    ensures cats == Distinct(AllCategories(years))
  {
    cats := [];
    var i := 0;
    while i < |years|
      invariant 0 <= i <= |years|
      invariant cats == Distinct(AllCategories(years[..i]))
    {
      var children := years[i].children;
      var j := 0;
      assert AllCategories(years[..i]) + KeysOf(children[..0]) == AllCategories(years[..i]);
      while j < |children|
        invariant 0 <= j <= |children|
        invariant cats == Distinct(AllCategories(years[..i]) + KeysOf(children[..j]))
      {
        var c := children[j].0;
        assert children[..j + 1][..j] == children[..j];
        assert AllCategories(years[..i]) + KeysOf(children[..j + 1])
            == (AllCategories(years[..i]) + KeysOf(children[..j])) + [c];
        DistinctPush(AllCategories(years[..i]) + KeysOf(children[..j]), c);
        if c !in cats {
          cats := cats + [c];
        }
        j := j + 1;
      }
      assert children[..j] == children;
      assert years[..i + 1][..i] == years[..i];
      i := i + 1;
    }
    assert years[..i] == years;
  }

  /** `categoriesToShow.forEach(category => result[category] = ...)` for one year. */
  method FillRow(e: NestedEntry<int, string>, show: seq<string>) returns (row: YearRow)
    ensures row == RowOf(e, show)
  {
    var values: seq<int> := [];
    var k := 0;
    while k < |show|
      invariant 0 <= k <= |show| && |values| == k
      invariant forall j :: 0 <= j < k ==> values[j] == Round(Lookup(e.children, show[j]))
    {
      values := values + [Round(Lookup(e.children, show[k]))];
      k := k + 1;
    }
    row := YearRow(e.key, values);
  }

  /** The hook's body: the two-level reduction, the category loops and the row loop. */
  method ByYearData(ts: seq<Transaction>, selection: seq<string>) returns (r: YearChart)
    ensures r == ExpensesByYear(ts, selection)
  {
    var entries := NestedTally(YearItems(ts));
    var years := SortBy(entries, EntryYear);
    var cats := CollectCategories(years);
    var list := SortBy(CategoryTotals(years, cats), Expenses.ValueDesc);
    var show := Expenses.ToShow(list, selection, 6);
    var rows: seq<YearRow> := [];
    var i := 0;
    while i < |years|
      invariant 0 <= i <= |years| && |rows| == i
      invariant forall j :: 0 <= j < i ==> rows[j] == RowOf(years[j], show)
    {
      var row := FillRow(years[i], show);
      ghost var done := rows;
      rows := rows + [row];
      forall j | 0 <= j < i + 1 ensures rows[j] == RowOf(years[j], show) {
        if j < i {
          assert rows[j] == done[j];
        }
      }
      i := i + 1;
    }
    assert rows == Rows(years, show);
    r := YearChart(list, SortBy(rows, RowYear));
  }

  // ---------------------------------------------------------------------------
  // The years
  // ---------------------------------------------------------------------------

  /** A permutation of a list whose keys are distinct has distinct keys. */
  lemma PermutedKeysDistinct<T, K>(r: seq<T>, s: seq<T>, key: T -> K)
    requires multiset(r) == multiset(s)
    requires forall i, j :: 0 <= i < j < |s| ==> key(s[i]) != key(s[j])
    ensures forall i, j :: 0 <= i < j < |r| ==> key(r[i]) != key(r[j])
  {
    PermutationNoDups(r, s);
    forall i, j | 0 <= i < j < |r| ensures key(r[i]) != key(r[j]) {
      assert r[i] in multiset(s) && r[j] in multiset(s);
      var a :| 0 <= a < |s| && s[a] == r[i];
      var b :| 0 <= b < |s| && s[b] == r[j];
      assert a != b;
    }
  }

  /** What an entry of the reduction is: a year that occurs, with its categories' reduction. */
  lemma YearEntryFacts(ts: seq<Transaction>, e: NestedEntry<int, string>)
    requires e in YearEntries(ts)
    ensures e.key in GroupKeys(Outer(YearItems(ts)))
    ensures e.children == Grouped(Inner(YearItems(ts), e.key))
  {
    assert e in multiset(NestedGrouped(YearItems(ts)));
  }

  lemma YearEntryFor(ts: seq<Transaction>, k: int)
    requires k in GroupKeys(Outer(YearItems(ts)))
    ensures exists e :: e in YearEntries(ts) && e.key == k
  {
    var g := NestedGrouped(YearItems(ts));
    var ks := GroupKeys(Outer(YearItems(ts)));
    var b :| 0 <= b < |ks| && ks[b] == k;
    assert g[b] in multiset(YearEntries(ts));
  }

  /** A year is an outer key of the reduction exactly when some expense is posted in it. */
  lemma OuterYears(ts: seq<Transaction>, y: int)
    ensures y in GroupKeys(Outer(YearItems(ts))) <==> exists t :: t in ts && IsExpense(t) && Year(t) == y
  {
    var rows := Expenses.ExpenseRows(ts);
    assert Outer(YearItems(ts)) == Expenses.Keyed(rows, Year);
    Expenses.KeyedKeys(rows, Year, y);
  }

  /** The entries list the years in strictly ascending order. */
  lemma YearEntriesAscending(ts: seq<Transaction>)
    ensures var years := YearEntries(ts);
      forall i, j :: 0 <= i < j < |years| ==> years[i].key < years[j].key
  {
    var g := NestedGrouped(YearItems(ts));
    var years := YearEntries(ts);
    assert forall i, j :: 0 <= i < j < |g| ==> EntryKey(g[i]) != EntryKey(g[j]);
    PermutedKeysDistinct(years, g, EntryKey);
    forall i, j | 0 <= i < j < |years| ensures years[i].key < years[j].key {
      assert EntryYear(years[i]) <= EntryYear(years[j]);
      assert EntryKey(years[i]) != EntryKey(years[j]);
    }
  }

  /** The sorted rows are the rows of the entries, no more and no fewer. */
  lemma SortedRows(years: seq<NestedEntry<int, string>>, show: seq<string>, row: YearRow)
    ensures row in SortBy(Rows(years, show), RowYear) <==> exists i :: 0 <= i < |years| && row == RowOf(years[i], show)
  {
    var unsorted := Rows(years, show);
    var rows := SortBy(unsorted, RowYear);
    if row in rows {
      assert row in multiset(unsorted);
      var a :| 0 <= a < |unsorted| && unsorted[a] == row;
    }
    if exists i :: 0 <= i < |years| && row == RowOf(years[i], show) {
      var i :| 0 <= i < |years| && row == RowOf(years[i], show);
      assert unsorted[i] in multiset(rows);
    }
  }

  lemma RowsAscending(years: seq<NestedEntry<int, string>>, show: seq<string>)
    requires forall i, j :: 0 <= i < j < |years| ==> years[i].key < years[j].key
    ensures YearsAscending(SortBy(Rows(years, show), RowYear))
  {
    var unsorted := Rows(years, show);
    var rows := SortBy(unsorted, RowYear);
    assert forall i, j :: 0 <= i < j < |unsorted| ==> RowKey(unsorted[i]) != RowKey(unsorted[j]);
    PermutedKeysDistinct(rows, unsorted, RowKey);
    forall i, j | 0 <= i < j < |rows| ensures rows[i].year < rows[j].year {
      assert RowYear(rows[i]) <= RowYear(rows[j]);
      assert RowKey(rows[i]) != RowKey(rows[j]);
    }
  }

  /** The rows are in strictly ascending order of year. */
  lemma ByYearRowsAscending(ts: seq<Transaction>, selection: seq<string>)
    ensures YearsAscending(ExpensesByYear(ts, selection).rows)
  {
    var years := YearEntries(ts);
    var show := Expenses.ToShow(CategoryList(years), selection, 6);
    YearEntriesAscending(ts);
    RowsAscending(years, show);
  }

  /** An entry has year `y` exactly when some expense is posted in `y`. */
  lemma EntryYears(ts: seq<Transaction>, y: int)
    ensures (exists i :: 0 <= i < |YearEntries(ts)| && YearEntries(ts)[i].key == y)
        <==> exists t :: t in ts && IsExpense(t) && Year(t) == y
  {
    var years := YearEntries(ts);
    OuterYears(ts, y);
    if exists i :: 0 <= i < |years| && years[i].key == y {
      var i :| 0 <= i < |years| && years[i].key == y;
      YearEntryFacts(ts, years[i]);
    }
    if exists t :: t in ts && IsExpense(t) && Year(t) == y {
      YearEntryFor(ts, y);
    }
  }

  /** There is a row for a year exactly when some expense is posted in that year. */
  lemma ByYearRowYears(ts: seq<Transaction>, selection: seq<string>, y: int)
    ensures (exists row :: row in ExpensesByYear(ts, selection).rows && row.year == y)
        <==> exists t :: t in ts && IsExpense(t) && Year(t) == y
  {
    var years := YearEntries(ts);
    var show := Expenses.ToShow(CategoryList(years), selection, 6);
    var rows := ExpensesByYear(ts, selection).rows;
    assert rows == SortBy(Rows(years, show), RowYear);
    EntryYears(ts, y);
    if exists row :: row in rows && row.year == y {
      var row :| row in rows && row.year == y;
      SortedRows(years, show, row);
    }
    if exists i :: 0 <= i < |years| && years[i].key == y {
      var i :| 0 <= i < |years| && years[i].key == y;
      SortedRows(years, show, RowOf(years[i], show));
    }
  }

  // ---------------------------------------------------------------------------
  // The values of a row
  // ---------------------------------------------------------------------------

  /** What a movement adds to category `c` in year `y`. */
  function SpentInYear(y: int, c: string): Transaction -> real {
    t => if Year(t) == y && CategoryKey(t) == c then Abs(t.importe) else 0.0
  }

  /** The reduction under year `y` holds, for category `c`, the magnitudes of its expenses in that year. */
  lemma {:induction false} InnerTotal(rows: seq<Transaction>, y: int, c: string)
    ensures KeyTotal(Inner(Expenses.Keyed(rows, YearCategory), y), c) == Sum(rows, SpentInYear(y, c))
  {
    if rows != [] {
      var init := rows[..|rows| - 1];
      var items := Expenses.Keyed(rows, YearCategory);
      var before := Expenses.Keyed(init, YearCategory);
      var x := items[|items| - 1];
      assert items == before + [x];
      InnerTotal(init, y, c);
      InnerStep(before, x, y);
      if x.0.0 == y {
        KeyTotalStep(Inner(before, y), (x.0.1, x.1), c);
      } else {
        assert Inner(before, y) + [] == Inner(before, y);
      }
    }
  }

  lemma SumZero<T>(s: seq<T>, f: T -> real)
    requires forall i :: 0 <= i < |s| ==> f(s[i]) == 0.0
    ensures Sum(s, f) == 0.0
  {
    if s != [] {
      SumZero(s[..|s| - 1], f);
    }
  }

  /** What the chart should show for category `c` in year `y`: the rounded sum of its expenses there. */
  function YearSpending(ts: seq<Transaction>, y: int, c: string): int {
    Round(Sum(Expenses.ExpenseRows(ts), SpentInYear(y, c)))
  }

  /** A row holds, for each category shown, what was spent on it in the row's year. */
  predicate RowShows(ts: seq<Transaction>, show: seq<string>, row: YearRow) {
    |row.values| == |show| && forall k :: 0 <= k < |show| ==> row.values[k] == YearSpending(ts, row.year, show[k])
  }

  /** Reading a category back from a year's entry gives what was spent on it in that year. */
  lemma EntryValue(ts: seq<Transaction>, e: NestedEntry<int, string>, c: string)
    requires e in YearEntries(ts)
    ensures Round(Lookup(e.children, c)) == YearSpending(ts, e.key, c)
  {
    YearEntryFacts(ts, e);
    LookupGrouped(Inner(YearItems(ts), e.key), c);
    InnerTotal(Expenses.ExpenseRows(ts), e.key, c);
  }

  /**
   * Each row has one value per category shown: the rounded sum of the magnitudes
   * of that year's expenses in that category.
   */
  lemma ByYearValues(ts: seq<Transaction>, selection: seq<string>, row: YearRow)
    requires row in ExpensesByYear(ts, selection).rows
    ensures RowShows(ts, Expenses.ToShow(ExpensesByYear(ts, selection).categories, selection, 6), row)
  {
    var years := YearEntries(ts);
    var show := Expenses.ToShow(CategoryList(years), selection, 6);
    SortedRows(years, show, row);
    var i :| 0 <= i < |years| && row == RowOf(years[i], show);
    forall k | 0 <= k < |show| ensures row.values[k] == YearSpending(ts, row.year, show[k]) {
      EntryValue(ts, years[i], show[k]);
    }
  }

  /** A category with no expense in a row's year shows 0 there (`expenses[category] || 0`). */
  lemma ByYearMissing(ts: seq<Transaction>, selection: seq<string>, row: YearRow, k: nat)
    requires row in ExpensesByYear(ts, selection).rows
    requires k < |Expenses.ToShow(ExpensesByYear(ts, selection).categories, selection, 6)|
    requires forall t | t in ts && IsExpense(t) ::
      Year(t) != row.year || CategoryKey(t) != Expenses.ToShow(ExpensesByYear(ts, selection).categories, selection, 6)[k]
    ensures k < |row.values| && row.values[k] == 0
  {
    var show := Expenses.ToShow(ExpensesByYear(ts, selection).categories, selection, 6);
    var rows := Expenses.ExpenseRows(ts);
    ByYearValues(ts, selection, row);
    forall i | 0 <= i < |rows| ensures SpentInYear(row.year, show[k])(rows[i]) == 0.0 {
      assert rows[i] in rows;
    }
    SumZero(rows, SpentInYear(row.year, show[k]));
  }

  // ---------------------------------------------------------------------------
  // The categories
  // ---------------------------------------------------------------------------

  lemma {:induction false} AllCategoriesMembers(years: seq<NestedEntry<int, string>>, c: string)
    ensures c in AllCategories(years) <==> exists i :: 0 <= i < |years| && c in KeysOf(years[i].children)
  {
    if years != [] {
      var n := |years| - 1;
      var init := years[..n];
      var here := AllCategories(init);
      var last := KeysOf(years[n].children);
      assert AllCategories(years) == here + last;
      AllCategoriesMembers(init, c);
      if c in here {
        var i :| 0 <= i < |init| && c in KeysOf(init[i].children);
        assert years[i] == init[i];
      } else if c in last {
        assert c in KeysOf(years[n].children);
      }
      if exists i :: 0 <= i < |years| && c in KeysOf(years[i].children) {
        var i :| 0 <= i < |years| && c in KeysOf(years[i].children);
        if i < n {
          assert years[i] == init[i];
          assert c in here;
        } else {
          assert c in last;
        }
      }
    }
  }

  /** A category occurs under year `y` exactly when some item has that year and category. */
  lemma {:induction false} InnerCategories(items: seq<((int, string), real)>, y: int, c: string)
    ensures c in KeysOf(Inner(items, y)) <==> exists i :: 0 <= i < |items| && items[i].0 == (y, c)
  {
    if items != [] {
      var init, x := items[..|items| - 1], items[|items| - 1];
      InnerCategories(init, y, c);
      InnerKeyStep(init, x, y, c);
      assert init + [x] == items;
      if exists i :: 0 <= i < |init| && init[i].0 == (y, c) {
        var i :| 0 <= i < |init| && init[i].0 == (y, c);
        assert items[i] == init[i];
      }
      if exists i :: 0 <= i < |items| && items[i].0 == (y, c) {
        var i :| 0 <= i < |items| && items[i].0 == (y, c);
        if i < |init| {
          assert init[i] == items[i];
        }
      }
    }
  }

  lemma InnerKeyStep(init: seq<((int, string), real)>, x: ((int, string), real), y: int, c: string)
    ensures c in KeysOf(Inner(init + [x], y)) <==> c in KeysOf(Inner(init, y)) || x.0 == (y, c)
  {
    InnerStep(init, x, y);
    var part: seq<(string, real)> := if x.0.0 == y then [(x.0.1, x.1)] else [];
    assert KeysOf(Inner(init, y) + part) == KeysOf(Inner(init, y)) + KeysOf(part);
  }

  /** A category is among a year's reduced categories exactly when some item has that year and category. */
  lemma ChildCategories(items: seq<((int, string), real)>, y: int, c: string)
    ensures c in KeysOf(Grouped(Inner(items, y))) <==> exists i :: 0 <= i < |items| && items[i].0 == (y, c)
  {
    var inner := Inner(items, y);
    var g := Grouped(inner);
    GroupedKeys(inner);
    InnerCategories(items, y, c);
    if c in KeysOf(g) {
      var j :| 0 <= j < |g| && KeysOf(g)[j] == c;
      assert g[j].0 == c;
    }
    if c in KeysOf(inner) {
      var ks := GroupKeys(inner);
      var a :| 0 <= a < |inner| && KeysOf(inner)[a] == c;
      assert c in ks;
      var b :| 0 <= b < |ks| && ks[b] == c;
      assert KeysOf(g)[b] == c;
    }
  }

  lemma CategoryOfEntry(ts: seq<Transaction>, e: NestedEntry<int, string>, c: string)
    requires e in YearEntries(ts) && c in KeysOf(e.children)
    ensures exists t :: t in ts && IsExpense(t) && CategoryKey(t) == c
  {
    var items := YearItems(ts);
    var rows := Expenses.ExpenseRows(ts);
    YearEntryFacts(ts, e);
    ChildCategories(items, e.key, c);
    var a :| 0 <= a < |items| && items[a].0 == (e.key, c);
    assert rows[a] in rows;
  }

  /** Each item's category is among the reduced categories of its year's entry. */
  lemma ItemEntry(items: seq<((int, string), real)>, a: nat)
    requires a < |items|
    ensures exists e :: e in NestedGrouped(items) && e.key == items[a].0.0 && items[a].0.1 in KeysOf(e.children)
  {
    var outer := Outer(items);
    var ks := GroupKeys(outer);
    var g := NestedGrouped(items);
    GroupedKeys(outer);
    assert outer[a].0 in ks;
    var b :| 0 <= b < |ks| && ks[b] == items[a].0.0;
    ChildCategories(items, items[a].0.0, items[a].0.1);
    assert g[b] in g;
  }

  /** A reduced entry is among the sorted entries. */
  lemma EntryListed(ts: seq<Transaction>, e: NestedEntry<int, string>)
    requires e in NestedGrouped(YearItems(ts))
    ensures exists i :: 0 <= i < |YearEntries(ts)| && YearEntries(ts)[i] == e
  {
    assert e in multiset(YearEntries(ts));
  }

  /** The item of an expense row carries its year and its category. */
  lemma ExpenseItem(ts: seq<Transaction>, t: Transaction)
    requires t in ts && IsExpense(t)
    ensures exists a :: 0 <= a < |YearItems(ts)| && YearItems(ts)[a].0 == (Year(t), CategoryKey(t))
  {
    var rows := Expenses.ExpenseRows(ts);
    var a :| 0 <= a < |rows| && rows[a] == t;
    assert YearItems(ts)[a].0 == (Year(t), CategoryKey(t));
  }

  lemma EntryOfCategory(ts: seq<Transaction>, t: Transaction)
    requires t in ts && IsExpense(t)
    ensures exists i :: 0 <= i < |YearEntries(ts)| && CategoryKey(t) in KeysOf(YearEntries(ts)[i].children)
  {
    var items := YearItems(ts);
    ExpenseItem(ts, t);
    var a :| 0 <= a < |items| && items[a].0 == (Year(t), CategoryKey(t));
    ItemEntry(items, a);
    var e :| e in NestedGrouped(items) && e.key == Year(t) && CategoryKey(t) in KeysOf(e.children);
    EntryListed(ts, e);
  }

  /** The categories collected are exactly the categories of the expenses. */
  lemma CategoriesOfExpenses(ts: seq<Transaction>, c: string)
    ensures c in AllCategories(YearEntries(ts)) <==> exists t :: t in ts && IsExpense(t) && CategoryKey(t) == c
  {
    var years := YearEntries(ts);
    AllCategoriesMembers(years, c);
    if c in AllCategories(years) {
      var i :| 0 <= i < |years| && c in KeysOf(years[i].children);
      CategoryOfEntry(ts, years[i], c);
    }
    if exists t :: t in ts && IsExpense(t) && CategoryKey(t) == c {
      var t :| t in ts && IsExpense(t) && CategoryKey(t) == c;
      EntryOfCategory(ts, t);
    }
  }

  // The total of a category over the years.

  /** A reduced item's value when its category is `c`. */
  function CategoryPart(c: string): (((int, string), real)) -> real {
    (x: ((int, string), real)) => if x.0.1 == c then x.1 else 0.0
  }

  /** Category `c`'s amounts under each of the years `ks`, added up. */
  function YearsTotal(items: seq<((int, string), real)>, ks: seq<int>, c: string): real {
    if ks == [] then 0.0 else YearsTotal(items, ks[..|ks| - 1], c) + KeyTotal(Inner(items, ks[|ks| - 1]), c)
  }

  /** Entries whose values match the years' totals one by one add up to the same total. */
  lemma {:induction false} EntriesTotal(g: seq<NestedEntry<int, string>>, items: seq<((int, string), real)>, ks: seq<int>, c: string, n: nat)
    requires n <= |g| && n <= |ks|
    requires forall i | 0 <= i < n :: ChildValue(c)(g[i]) == KeyTotal(Inner(items, ks[i]), c)
    ensures Sum(g[..n], ChildValue(c)) == YearsTotal(items, ks[..n], c)
  {
    if n > 0 {
      EntriesTotal(g, items, ks, c, n - 1);
      SumPrefixStep(g, ChildValue(c), n);
      YearsTotalPrefixStep(items, ks, c, n);
    }
  }

  lemma YearsTotalPrefixStep(items: seq<((int, string), real)>, ks: seq<int>, c: string, n: nat)
    requires 0 < n <= |ks|
    ensures YearsTotal(items, ks[..n], c) == YearsTotal(items, ks[..n - 1], c) + KeyTotal(Inner(items, ks[n - 1]), c)
  {
    assert ks[..n][..n - 1] == ks[..n - 1];
  }

  lemma EntryValueAt(items: seq<((int, string), real)>, c: string, i: nat)
    requires i < |GroupKeys(Outer(items))|
    ensures ChildValue(c)(NestedGrouped(items)[i]) == KeyTotal(Inner(items, GroupKeys(Outer(items))[i]), c)
  {
    LookupGrouped(Inner(items, GroupKeys(Outer(items))[i]), c);
  }

  lemma YearsTotalStep(items: seq<((int, string), real)>, x: ((int, string), real), ks: seq<int>, c: string)
    requires NoDups(ks)
    ensures YearsTotal(items + [x], ks, c) == YearsTotal(items, ks, c) + (if x.0.0 in ks then CategoryPart(c)(x) else 0.0)
  {
    if ks != [] {
      var init, k := ks[..|ks| - 1], ks[|ks| - 1];
      assert NoDups(init);
      YearsTotalStep(items, x, init, c);
      InnerStep(items, x, k);
      if x.0.0 == k {
        KeyTotalStep(Inner(items, k), (x.0.1, x.1), c);
        assert x.0.0 !in init;
      } else {
        assert Inner(items, k) + [] == Inner(items, k);
        assert x.0.0 in ks <==> x.0.0 in init;
      }
    }
  }

  lemma YearsTotalPush(items: seq<((int, string), real)>, ks: seq<int>, k: int, c: string)
    ensures YearsTotal(items, ks + [k], c) == YearsTotal(items, ks, c) + KeyTotal(Inner(items, k), c)
  {
    assert (ks + [k])[..|ks|] == ks;
  }

  /** The amount a fresh year contributes: just the new item's, when it is of category `c`. */
  lemma FreshYearTotal(init: seq<((int, string), real)>, x: ((int, string), real), c: string)
    requires x.0.0 !in KeysOf(Outer(init))
    ensures KeyTotal(Inner(init + [x], x.0.0), c) == CategoryPart(c)(x)
  {
    InnerAbsent(init, x.0.0);
    InnerStep(init, x, x.0.0);
    KeyTotalStep([], (x.0.1, x.1), c);
    assert [] + [(x.0.1, x.1)] == [(x.0.1, x.1)];
  }

  lemma {:induction false} YearsTotalAll(items: seq<((int, string), real)>, c: string)
    ensures YearsTotal(items, GroupKeys(Outer(items)), c) == Sum(items, CategoryPart(c))
  {
    if items != [] {
      var init, x := items[..|items| - 1], items[|items| - 1];
      assert init + [x] == items;
      assert Sum(items, CategoryPart(c)) == Sum(init, CategoryPart(c)) + CategoryPart(c)(x);
      YearsTotalAll(init, c);
      var ks := GroupKeys(Outer(init));
      OuterKeysStep(init, x);
      YearsTotalStep(init, x, ks, c);
      if x.0.0 !in ks {
        assert GroupKeys(Outer(items)) == ks + [x.0.0];
        YearsTotalPush(items, ks, x.0.0, c);
        FreshYearTotal(init, x, c);
      } else {
        assert GroupKeys(Outer(items)) == ks;
      }
    }
  }

  lemma {:induction false} CategoryPartKeyed(rows: seq<Transaction>, c: string)
    ensures Sum(Expenses.Keyed(rows, YearCategory), CategoryPart(c)) == Sum(rows, Expenses.SpentIn(c))
  {
    if rows != [] {
      var init := rows[..|rows| - 1];
      assert Expenses.Keyed(rows, YearCategory)[..|rows| - 1] == Expenses.Keyed(init, YearCategory);
      CategoryPartKeyed(init, c);
    }
  }

  lemma NestedTotal(items: seq<((int, string), real)>, c: string)
    ensures Sum(NestedGrouped(items), ChildValue(c)) == Sum(items, CategoryPart(c))
  {
    var g := NestedGrouped(items);
    var ks := GroupKeys(Outer(items));
    forall i | 0 <= i < |ks| ensures ChildValue(c)(g[i]) == KeyTotal(Inner(items, ks[i]), c) {
      EntryValueAt(items, c, i);
    }
    EntriesTotal(g, items, ks, c, |ks|);
    assert g[..|ks|] == g;
    assert ks[..|ks|] == ks;
    YearsTotalAll(items, c);
  }

  /** A category's amounts under every year add up to everything spent on it. */
  lemma CategoryTotal(ts: seq<Transaction>, c: string)
    ensures Sum(YearEntries(ts), ChildValue(c)) == Sum(Expenses.ExpenseRows(ts), Expenses.SpentIn(c))
  {
    SortBySum(NestedGrouped(YearItems(ts)), EntryYear, ChildValue(c));
    NestedTotal(YearItems(ts), c);
    CategoryPartKeyed(Expenses.ExpenseRows(ts), c);
  }

  /** Totals never increase along the list. */
  predicate TotalsDescending(list: seq<(string, int)>) {
    forall i, j :: 0 <= i < j < |list| ==> list[i].1 >= list[j].1
  }

  /** No category is listed twice. */
  predicate NamesDistinct(list: seq<(string, int)>) {
    forall i, j :: 0 <= i < j < |list| ==> list[i].0 != list[j].0
  }

  function Name(e: (string, int)): string {
    e.0
  }

  lemma CategoryListOrder(years: seq<NestedEntry<int, string>>)
    ensures TotalsDescending(CategoryList(years)) && NamesDistinct(CategoryList(years))
  {
    var totals := CategoryTotals(years, Distinct(AllCategories(years)));
    var list := CategoryList(years);
    Expenses.NonIncreasing(list);
    assert forall i, j :: 0 <= i < j < |totals| ==> Name(totals[i]) != Name(totals[j]);
    PermutedKeysDistinct(list, totals, Name);
    assert forall i, j :: 0 <= i < j < |list| ==> Name(list[i]) != Name(list[j]);
  }

  /** The categories come by descending total, each once. */
  lemma ByYearCategoryOrder(ts: seq<Transaction>, selection: seq<string>)
    ensures TotalsDescending(ExpensesByYear(ts, selection).categories)
    ensures NamesDistinct(ExpensesByYear(ts, selection).categories)
  {
    CategoryListOrder(YearEntries(ts));
  }

  /** An entry of the list is a collected category with its rounded total over the years. */
  lemma CategoryListEntries(years: seq<NestedEntry<int, string>>, e: (string, int))
    ensures e in CategoryList(years) <==> e.0 in Distinct(AllCategories(years)) && e.1 == Round(Sum(years, ChildValue(e.0)))
  {
    var cats := Distinct(AllCategories(years));
    var totals := CategoryTotals(years, cats);
    var list := CategoryList(years);
    if e in list {
      assert e in multiset(totals);
      var i :| 0 <= i < |totals| && totals[i] == e;
    }
    if e.0 in cats && e.1 == Round(Sum(years, ChildValue(e.0))) {
      var i :| 0 <= i < |cats| && cats[i] == e.0;
      assert totals[i] == e;
      assert totals[i] in multiset(list);
    }
  }

  /** Each category listed is that of some expense, with the rounded sum of all its expenses. */
  lemma ByYearCategoryTotal(ts: seq<Transaction>, selection: seq<string>, e: (string, int))
    requires e in ExpensesByYear(ts, selection).categories
    ensures exists t :: t in ts && IsExpense(t) && CategoryKey(t) == e.0
    ensures e.1 == Round(Sum(Expenses.ExpenseRows(ts), Expenses.SpentIn(e.0)))
  {
    CategoryListEntries(YearEntries(ts), e);
    CategoriesOfExpenses(ts, e.0);
    CategoryTotal(ts, e.0);
  }

  /** The category of every expense is listed. */
  lemma ByYearCategoryListed(ts: seq<Transaction>, selection: seq<string>, t: Transaction)
    requires t in ts && IsExpense(t)
    ensures exists e :: e in ExpensesByYear(ts, selection).categories && e.0 == CategoryKey(t)
  {
    var years := YearEntries(ts);
    var c := CategoryKey(t);
    CategoriesOfExpenses(ts, c);
    CategoryListEntries(years, (c, Round(Sum(years, ChildValue(c)))));
  }
}
