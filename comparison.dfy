/**
 * The yearly comparison: over all the movements (the filters do not apply),
 * one line per year, each with twelve points, the rounded expense of each month.
 *
 * The years are listed by `[...new Set(years)].sort()`. Without a comparator,
 * `sort` compares the elements as strings, so the years come in the order of
 * their decimal text. That is numeric order only while every year has the
 * same number of digits. The model keeps that order as written
 * (`YearsAsWritten`), shows where it differs from the evidently intended
 * ascending order (`TextSortMisordersYears`) and where it agrees
 * (`FourDigitYearsAgree`), and draws the chart in ascending order (`YearsAscending`).
 */
module YearComparison {
  import opened Seqs
  import opened Dates
  import opened Transactions
  import opened Timeline
  import opened Kpis

  // ---------------------------------------------------------------------------
  // Years as text
  // ---------------------------------------------------------------------------

  function DigitChar(d: int): char
    requires 0 <= d < 10
  {
    ('0' as int + d) as char
  }

  /** The decimal digits of `n`, most significant first. */
  function Digits(n: nat): (s: string)
    ensures |s| >= 1
    ensures forall i :: 0 <= i < |s| ==> '0' <= s[i] <= '9'
  {
    if n < 10 then [DigitChar(n)] else Digits(n / 10) + [DigitChar(n % 10)]
  }

  predicate NumeralChars(s: string) {
    forall i :: 0 <= i < |s| ==> s[i] == '-' || '0' <= s[i] <= '9'
  }

  /** `String(y)`: what the default comparison of `sort` turns a year into. */
  function YearText(y: int): (s: string)
    ensures NumeralChars(s)
  {
    if y < 0 then "-" + Digits(-y) else Digits(y)
  }

  /** `a < b` on strings: by code units, a proper prefix first. */
  predicate TextBefore(a: string, b: string) {
    if a == [] then b != []
    else b != [] && (a[0] < b[0] || (a[0] == b[0] && TextBefore(a[1..], b[1..])))
  }

  /** A weight in [0, 1) that orders numerals as `TextBefore` does. */
  function Weight(s: string): real
    requires NumeralChars(s)
  {
    if s == [] then 0.0 else ((s[0] as int - 44) as real + Weight(s[1..])) / 14.0
  }

  lemma WeightBounds(s: string)
    requires NumeralChars(s)
    ensures 0.0 <= Weight(s) < 1.0
  {
    if s != [] {
      WeightBounds(s[1..]);
    }
  }

  lemma {:induction false} WeightOrder(a: string, b: string)
    requires NumeralChars(a) && NumeralChars(b) && TextBefore(a, b)
    ensures Weight(a) < Weight(b)
  {
    assert b != [];
    assert b[0] == '-' || '0' <= b[0] <= '9';
    var cb := (b[0] as int - 44) as real;
    WeightBounds(b[1..]);
    assert Weight(b) == (cb + Weight(b[1..])) / 14.0;
    if a == [] {
      assert Weight(a) == 0.0;
    } else {
      var ca := (a[0] as int - 44) as real;
      WeightBounds(a[1..]);
      assert Weight(a) == (ca + Weight(a[1..])) / 14.0;
      if a[0] < b[0] {
        assert ca + 1.0 <= cb;
      } else {
        WeightOrder(a[1..], b[1..]);
      }
    }
  }

  /** The sort key the default comparison amounts to. */
  function TextKey(y: int): real {
    Weight(YearText(y))
  }

  function YearValue(y: int): real {
    y as real
  }

  /** `transactions.map(t => getYear(t.fechaContable))`. */
  function YearsOf(ts: seq<Transaction>): (r: seq<int>)
    ensures |r| == |ts|
    ensures forall i :: 0 <= i < |ts| ==> r[i] == Year(ts[i])
  {
    seq(|ts|, i requires 0 <= i < |ts| => Year(ts[i]))
  }

  /** `[...new Set(years)].sort()` as written: the years ordered as text. */
  function YearsAsWritten(ts: seq<Transaction>): seq<int> {
    SortBy(Distinct(YearsOf(ts)), TextKey)
  }

  /** The years in ascending numeric order, as the chart evidently intends. */
  function YearsAscending(ts: seq<Transaction>): seq<int> {
    SortBy(Distinct(YearsOf(ts)), YearValue)
  }

  /** A year is listed exactly when some movement is posted in it. */
  lemma DistinctYears(ts: seq<Transaction>, y: int)
    ensures y in Distinct(YearsOf(ts)) <==> exists t :: t in ts && Year(t) == y
  {
    var ys := YearsOf(ts);
    if y in ys {
      var i :| 0 <= i < |ys| && ys[i] == y;
      assert ts[i] in ts;
    }
    if exists t :: t in ts && Year(t) == y {
      var t :| t in ts && Year(t) == y;
      var i :| 0 <= i < |ts| && ts[i] == t;
      assert ys[i] == y;
    }
  }

  /** As written, each year's text comes no later than the next one's: the default `sort` order. */
  lemma YearsAsWrittenOrder(ts: seq<Transaction>)
    ensures NoDups(YearsAsWritten(ts))
    ensures forall i, j :: 0 <= i < j < |YearsAsWritten(ts)| ==>
      !TextBefore(YearText(YearsAsWritten(ts)[j]), YearText(YearsAsWritten(ts)[i]))
  {
    var r := YearsAsWritten(ts);
    PermutationNoDups(r, Distinct(YearsOf(ts)));
    forall i, j | 0 <= i < j < |r| ensures !TextBefore(YearText(r[j]), YearText(r[i])) {
      assert TextKey(r[i]) <= TextKey(r[j]);
      if TextBefore(YearText(r[j]), YearText(r[i])) {
        WeightOrder(YearText(r[j]), YearText(r[i]));
      }
    }
  }

  /** Each year is strictly later than the one before. */
  predicate StrictlyAscending(ys: seq<int>) {
    forall i, j :: 0 <= i < j < |ys| ==> ys[i] < ys[j]
  }

  /** The intended order lists each year of a movement once, in strictly ascending order. */
  lemma YearsAscendingSpec(ts: seq<Transaction>, y: int)
    ensures StrictlyAscending(YearsAscending(ts))
    ensures y in YearsAscending(ts) <==> exists t :: t in ts && Year(t) == y
  {
    var d := Distinct(YearsOf(ts));
    var r := YearsAscending(ts);
    PermutationNoDups(r, d);
    forall i, j | 0 <= i < j < |r| ensures r[i] < r[j] {
      assert YearValue(r[i]) <= YearValue(r[j]);
    }
    DistinctYears(ts, y);
    assert y in r <==> y in multiset(d);
  }

  // The finding: the text order and the numeric order part for a year below 1000.

  lemma TextBeforeByHead(a: string, b: string)
    requires a != [] && b != [] && a[0] < b[0]
    ensures TextBefore(a, b)
  {
  }

  lemma TextKeyMisorder()
    ensures TextKey(2020) < TextKey(999)
  {
    assert Digits(2) == ['2'];
    assert Digits(20)[0] == '2';
    assert Digits(202)[0] == '2';
    assert Digits(2020)[0] == '2';
    assert Digits(9) == ['9'];
    assert Digits(99)[0] == '9';
    assert Digits(999)[0] == '9';
    TextBeforeByHead(YearText(2020), YearText(999));
    WeightOrder(YearText(2020), YearText(999));
  }

  lemma SortTwo<T>(x: T, y: T, key: T -> real)
    ensures key(x) <= key(y) ==> SortBy([x, y], key) == [x, y]
    ensures key(y) < key(x) ==> SortBy([x, y], key) == [y, x]
  {
    assert [x, y][1..] == [y];
    assert SortBy([y], key) == [y] by {
      assert [y][1..] == [];
    }
  }

  /** Two movements, of the years 999 and 2020: as written, 2020 is listed before 999. */
  lemma TextSortMisordersYears(ts: seq<Transaction>)
    requires |ts| == 2 && Year(ts[0]) == 999 && Year(ts[1]) == 2020
    ensures YearsAsWritten(ts) == [2020, 999]
    ensures YearsAscending(ts) == [999, 2020]
  {
    var ys: seq<int> := [999, 2020];
    assert YearsOf(ts) == ys;
    assert ys[..1] == [999];
    assert Distinct([999]) == [999];
    assert Distinct(ys) == ys;
    TextKeyMisorder();
    SortTwo(999, 2020, TextKey);
    SortTwo(999, 2020, YearValue);
  }

  // Where the two orders agree: years of four digits.

  lemma DigitsLength(n: nat)
    ensures n < 10 <==> |Digits(n)| == 1
  {
  }

  lemma FourDigits(n: nat)
    requires 1000 <= n <= 9999
    ensures |Digits(n)| == 4
  {
    assert 1 <= n / 10 / 10 / 10 < 10;
    assert |Digits(n / 10 / 10)| == 2;
    assert |Digits(n / 10)| == 3;
  }

  lemma {:induction false} TextBeforeExtend(a: string, b: string, x: char, y: char)
    requires |a| == |b| && TextBefore(a, b)
    ensures TextBefore(a + [x], b + [y])
  {
    assert (a + [x])[0] == a[0] && (b + [y])[0] == b[0];
    assert (a + [x])[1..] == a[1..] + [x];
    assert (b + [y])[1..] == b[1..] + [y];
    if a[0] == b[0] && TextBefore(a[1..], b[1..]) {
      TextBeforeExtend(a[1..], b[1..], x, y);
    }
  }

  lemma {:induction false} TextBeforeSamePrefix(p: string, x: char, y: char)
    requires x < y
    ensures TextBefore(p + [x], p + [y])
  {
    if p == [] {
      assert [] + [x] == [x] && [] + [y] == [y];
      assert [x][1..] == [];
    } else {
      assert (p + [x])[1..] == p[1..] + [x];
      assert (p + [y])[1..] == p[1..] + [y];
      TextBeforeSamePrefix(p[1..], x, y);
    }
  }

  /** Between numerals of equal length, the text order is the numeric order. */
  lemma {:induction false} DigitsOrder(n: nat, m: nat)
    requires n < m && |Digits(n)| == |Digits(m)|
    ensures TextBefore(Digits(n), Digits(m))
    decreases m
  {
    DigitsLength(n);
    DigitsLength(m);
    if m < 10 {
      assert [DigitChar(n)][1..] == [];
    } else {
      assert n >= 10;
      if n / 10 < m / 10 {
        DigitsOrder(n / 10, m / 10);
        TextBeforeExtend(Digits(n / 10), Digits(m / 10), DigitChar(n % 10), DigitChar(m % 10));
      } else {
        TextBeforeSamePrefix(Digits(n / 10), DigitChar(n % 10), DigitChar(m % 10));
      }
    }
  }

  lemma FourDigitKeys(a: int, b: int)
    requires 1000 <= a <= 9999 && 1000 <= b <= 9999
    ensures TextKey(a) <= TextKey(b) <==> YearValue(a) <= YearValue(b)
  {
    FourDigits(a);
    FourDigits(b);
    if a < b {
      DigitsOrder(a, b);
      WeightOrder(Digits(a), Digits(b));
    } else if b < a {
      DigitsOrder(b, a);
      WeightOrder(Digits(b), Digits(a));
    }
  }

  lemma {:induction false} InsertAgree<T>(x: T, s: seq<T>, k1: T -> real, k2: T -> real)
    requires forall a, b | a in [x] + s && b in [x] + s :: k1(a) <= k1(b) <==> k2(a) <= k2(b)
    ensures Insert(x, s, k1) == Insert(x, s, k2)
  {
    if s != [] {
      assert x in [x] + s && s[0] in [x] + s;
      if k1(x) > k1(s[0]) {
        forall a, b | a in [x] + s[1..] && b in [x] + s[1..] ensures k1(a) <= k1(b) <==> k2(a) <= k2(b) {
          assert a in [x] + s && b in [x] + s;
        }
        InsertAgree(x, s[1..], k1, k2);
      }
    }
  }

  /** Two sort keys that order the elements alike give the same stable sort. */
  lemma {:induction false} SortByAgree<T>(s: seq<T>, k1: T -> real, k2: T -> real)
    requires forall a, b | a in s && b in s :: k1(a) <= k1(b) <==> k2(a) <= k2(b)
    ensures SortBy(s, k1) == SortBy(s, k2)
  {
    if s != [] {
      var rest := s[1..];
      assert s == [s[0]] + rest;
      AgreeOnPart(s, rest, k1, k2);
      SortByAgree(rest, k1, k2);
      var r := SortBy(rest, k1);
      assert multiset([s[0]] + r) == multiset(s);
      AgreeOnPart(s, [s[0]] + r, k1, k2);
      InsertAgree(s[0], r, k1, k2);
    }
  }

  lemma AgreeOnPart<T>(s: seq<T>, part: seq<T>, k1: T -> real, k2: T -> real)
    requires forall a, b | a in s && b in s :: k1(a) <= k1(b) <==> k2(a) <= k2(b)
    requires multiset(part) <= multiset(s)
    ensures forall a, b | a in part && b in part :: k1(a) <= k1(b) <==> k2(a) <= k2(b)
  {
    forall a, b | a in part && b in part ensures k1(a) <= k1(b) <==> k2(a) <= k2(b) {
      assert a in multiset(part) && b in multiset(part);
      assert a in multiset(s) && b in multiset(s);
    }
  }

  /** While every year has four digits, the text order is the ascending order. */
  lemma FourDigitYearsAgree(ts: seq<Transaction>)
    requires forall t | t in ts :: 1000 <= Year(t) <= 9999
    ensures YearsAsWritten(ts) == YearsAscending(ts)
  {
    var d := Distinct(YearsOf(ts));
    forall a, b | a in d && b in d ensures TextKey(a) <= TextKey(b) <==> YearValue(a) <= YearValue(b) {
      DistinctYears(ts, a);
      DistinctYears(ts, b);
      FourDigitKeys(a, b);
    }
    SortByAgree(d, TextKey, YearValue);
  }

  // ---------------------------------------------------------------------------
  // The lines
  // ---------------------------------------------------------------------------

  /** `yearTransactions`: the expenses posted in year `y`. */
  function YearExpense(y: int): Transaction -> bool {
    t => Year(t) == y && IsExpense(t)
  }

  /** `t.fechaContable.getMonth() === monthIndex`: months counted from 0. */
  function MonthIndexIs(m: int): Transaction -> bool {
    (t: Transaction) => t.fechaContable.month - 1 == m
  }

  /** The expense of month `m` (from 0) of year `y`, before rounding. */
  function MonthSpent(ts: seq<Transaction>, y: int, m: int): real {
    Sum(Filter(Filter(ts, YearExpense(y)), MonthIndexIs(m)), Magnitude)
  }

  /** One line: the year (`${year}`) and twelve rounded monthly expenses. */
  datatype YearLine = YearLine(id: int, data: seq<int>)

  function LineOf(ts: seq<Transaction>, y: int): YearLine {
    YearLine(y, seq(12, m requires 0 <= m < 12 => Round(MonthSpent(ts, y, m))))
  }

  function LinesOf(ts: seq<Transaction>, years: seq<int>): seq<YearLine> {
    seq(|years|, i requires 0 <= i < |years| => LineOf(ts, years[i]))
  }

  /** The chart as written: nothing without movements, else one line per year in text order. */
  function ComparisonAsWritten(ts: seq<Transaction>): seq<YearLine> {
    if |ts| == 0 then [] else LinesOf(ts, YearsAsWritten(ts))
  }

  /** The chart with the years in ascending order. */
  function YearlyComparison(ts: seq<Transaction>): seq<YearLine> {
    if |ts| == 0 then [] else LinesOf(ts, YearsAscending(ts))
  }

  lemma LinesSameMembers(ts: seq<Transaction>, a: seq<int>, b: seq<int>, line: YearLine)
    requires multiset(a) == multiset(b)
    ensures line in LinesOf(ts, a) ==> line in LinesOf(ts, b)
  {
    if line in LinesOf(ts, a) {
      var i :| 0 <= i < |a| && LinesOf(ts, a)[i] == line;
      assert a[i] in multiset(b);
      var j :| 0 <= j < |b| && b[j] == a[i];
      assert LinesOf(ts, b)[j] == line;
    }
  }

  /** The two charts hold the same lines, in another order. */
  lemma ComparisonReordered(ts: seq<Transaction>, line: YearLine)
    ensures |ComparisonAsWritten(ts)| == |YearlyComparison(ts)|
    ensures line in ComparisonAsWritten(ts) <==> line in YearlyComparison(ts)
  {
    if |ts| > 0 {
      var a, b := YearsAsWritten(ts), YearsAscending(ts);
      LinesSameMembers(ts, a, b, line);
      LinesSameMembers(ts, b, a, line);
    }
  }

  /** The ids of the lines. */
  function Ids(lines: seq<YearLine>): seq<int> {
    seq(|lines|, i requires 0 <= i < |lines| => lines[i].id)
  }

  /**
   * One line per year in which some movement (income or expense) is posted, in
   * strictly ascending order of year, each of twelve points; none without movements.
   */
  lemma YearlyComparisonLines(ts: seq<Transaction>, y: int)
    ensures |ts| == 0 ==> YearlyComparison(ts) == []
    ensures StrictlyAscending(Ids(YearlyComparison(ts)))
    ensures y in Ids(YearlyComparison(ts)) <==> exists t :: t in ts && Year(t) == y
    ensures forall line | line in YearlyComparison(ts) :: |line.data| == 12
  {
    YearsAscendingSpec(ts, y);
    if |ts| > 0 {
      assert Ids(YearlyComparison(ts)) == YearsAscending(ts);
    } else {
      assert YearsOf(ts) == [];
    }
  }

  /** What a movement adds to month `m` (from 0) of year `y`. */
  function MonthPart(y: int, m: int): Transaction -> real {
    t => if Year(t) == y && IsExpense(t) && t.fechaContable.month - 1 == m then Magnitude(t) else 0.0
  }

  function YearPart(y: int): Transaction -> real {
    t => if Year(t) == y && IsExpense(t) then Magnitude(t) else 0.0
  }

  /** Filtering twice is masking once: a month's expense is a sum over all the movements. */
  lemma MonthSpentMasked(ts: seq<Transaction>, y: int, m: int)
    ensures MonthSpent(ts, y, m) == Sum(ts, MonthPart(y, m))
  {
    var both := (t: Transaction) => YearExpense(y)(t) && MonthIndexIs(m)(t);
    FilterFilter(ts, YearExpense(y), MonthIndexIs(m), both);
    SumFilter(ts, both, Magnitude, MonthPart(y, m));
  }

  /** Point `m` of the line of year `y` is the rounded expense of that month of that year. */
  lemma YearlyComparisonPoints(ts: seq<Transaction>, line: YearLine, m: nat)
    requires line in YearlyComparison(ts) && m < 12
    ensures line.data[m] == Round(Sum(ts, MonthPart(line.id, m)))
  {
    MonthSpentMasked(ts, line.id, m);
  }

  // The twelve months add up to the year.

  function Masked(p: Transaction -> bool): Transaction -> real {
    t => if p(t) then Magnitude(t) else 0.0
  }

  /** The months numbered (from 0) below `k`. */
  function MonthBelow(k: int): Transaction -> bool {
    (t: Transaction) => 0 <= t.fechaContable.month - 1 < k
  }

  function MonthsSum(rows: seq<Transaction>, k: nat): real {
    if k == 0 then 0.0 else MonthsSum(rows, k - 1) + Sum(Filter(rows, MonthIndexIs(k - 1)), Magnitude)
  }

  lemma {:induction false} MonthsPartition(rows: seq<Transaction>, k: nat)
    ensures MonthsSum(rows, k) == Sum(Filter(rows, MonthBelow(k)), Magnitude)
  {
    if k == 0 {
      FilterNone(rows, MonthBelow(0));
    } else {
      MonthsPartition(rows, k - 1);
      SumFilter(rows, MonthBelow(k), Magnitude, Masked(MonthBelow(k)));
      SumFilter(rows, MonthBelow(k - 1), Magnitude, Masked(MonthBelow(k - 1)));
      SumFilter(rows, MonthIndexIs(k - 1), Magnitude, Masked(MonthIndexIs(k - 1)));
      SumLinear(rows, Masked(MonthBelow(k)), Masked(MonthIndexIs(k - 1)), Masked(MonthBelow(k - 1)));
    }
  }

  /** Over movements with calendar dates, the twelve months of a year add up to the year's expense. */
  lemma TwelveMonthsAddUp(ts: seq<Transaction>, y: int)
    requires WellDated(ts)
    ensures MonthsSum(Filter(ts, YearExpense(y)), 12) == Sum(ts, YearPart(y))
  {
    var rows := Filter(ts, YearExpense(y));
    MonthsPartition(rows, 12);
    forall i | 0 <= i < |rows| ensures MonthBelow(12)(rows[i]) {
      assert rows[i] in ts;
    }
    FilterAll(rows, MonthBelow(12));
    SumFilter(ts, YearExpense(y), Magnitude, YearPart(y));
  }
}
