/**
 * Calendar dates and months, replacing the `Date` objects and the date-fns
 * helpers (`getYear`, `startOfMonth`, `endOfMonth`, `eachMonthOfInterval`).
 * Every date the parser produces is local midnight, so comparing two `Date`
 * objects by `getTime()` is comparing their (year, month, day) triples.
 */
module Dates {

  datatype Date = Date(year: int, month: int, day: int)

  datatype Month = Month(year: int, month: int)

  predicate IsLeapYear(y: int) {
    (y % 4 == 0 && y % 100 != 0) || y % 400 == 0
  }

  function DaysInMonth(y: int, m: int): (n: int)
    requires 1 <= m <= 12
    ensures 28 <= n <= 31
    ensures n == 31 <==> m in {1, 3, 5, 7, 8, 10, 12}
    ensures n == 29 <==> m == 2 && IsLeapYear(y)
  {
    if m == 2 then (if IsLeapYear(y) then 29 else 28)
    else if m == 4 || m == 6 || m == 9 || m == 11 then 30
    else 31
  }

  /** A real calendar date (what `isNaN(date.getTime())` is false for). */
  predicate ValidDate(d: Date) {
    1 <= d.month <= 12 && 1 <= d.day <= DaysInMonth(d.year, d.month)
  }

  /** A linear key of a date: the numeric value `getTime()` is compared by. */
  function DateKey(d: Date): int {
    d.year * 372 + (d.month - 1) * 31 + (d.day - 1)
  }

  /** Lexicographic order on (year, month, day). */
  predicate LexBefore(a: Date, b: Date) {
    a.year < b.year
    || (a.year == b.year && a.month < b.month)
    || (a.year == b.year && a.month == b.month && a.day < b.day)
  }

  /** On valid dates the key order is the calendar order, and equal keys mean equal dates. */
  lemma DateKeyOrder(a: Date, b: Date)
    requires ValidDate(a) && ValidDate(b)
    ensures DateKey(a) < DateKey(b) <==> LexBefore(a, b)
    ensures DateKey(a) == DateKey(b) <==> a == b
  {
    if a.year < b.year {
      assert DateKey(a) < DateKey(b) by {
        assert (a.month - 1) * 31 + (a.day - 1) < 372;
        assert a.year * 372 + 372 <= b.year * 372;
      }
    } else if a.year > b.year {
      assert DateKey(b) < DateKey(a) by {
        assert (b.month - 1) * 31 + (b.day - 1) < 372;
        assert b.year * 372 + 372 <= a.year * 372;
      }
    }
  }

  function MonthOf(d: Date): Month {
    Month(d.year, d.month)
  }

  predicate ValidMonth(m: Month) {
    1 <= m.month <= 12
  }

  /** Months counted from year 0: consecutive months have consecutive indices. */
  function MonthIndex(m: Month): int {
    m.year * 12 + (m.month - 1)
  }

  lemma MonthIndexInjective(m1: Month, m2: Month)
    requires ValidMonth(m1) && ValidMonth(m2)
    ensures MonthIndex(m1) == MonthIndex(m2) <==> m1 == m2
  {
    if m1.year < m2.year {
      assert m1.year * 12 + 12 <= m2.year * 12;
    } else if m1.year > m2.year {
      assert m2.year * 12 + 12 <= m1.year * 12;
    }
  }

  /** The month after `m`. */
  function Succ(m: Month): (r: Month)
    requires ValidMonth(m)
    ensures ValidMonth(r)
    ensures MonthIndex(r) == MonthIndex(m) + 1
  {
    if m.month == 12 then Month(m.year + 1, 1) else Month(m.year, m.month + 1)
  }

  function MonthStart(m: Month): Date {
    Date(m.year, m.month, 1)
  }

  function MonthEnd(m: Month): Date
    requires ValidMonth(m)
  {
    Date(m.year, m.month, DaysInMonth(m.year, m.month))
  }

  /** A date lies in month `m`. */
  predicate InMonth(d: Date, m: Month) {
    d.year == m.year && d.month == m.month
  }

  /**
   * For a midnight date, `monthStart <= d && d <= monthEnd` with date-fns'
   * `startOfMonth`/`endOfMonth` is membership in the month.
   */
  lemma InMonthIsWithinBounds(d: Date, m: Month)
    requires ValidDate(d) && ValidMonth(m)
    ensures InMonth(d, m) <==> DateKey(MonthStart(m)) <= DateKey(d) <= DateKey(MonthEnd(m))
  {
    DateKeyOrder(MonthStart(m), d);
    DateKeyOrder(d, MonthEnd(m));
  }

  /** `d < startOfMonth(m)` holds exactly when d's month comes before m. */
  lemma BeforeMonthStart(d: Date, m: Month)
    requires ValidDate(d) && ValidMonth(m)
    ensures DateKey(d) < DateKey(MonthStart(m)) <==> MonthIndex(MonthOf(d)) < MonthIndex(m)
  {
    DateKeyOrder(d, MonthStart(m));
    if d.year < m.year {
      assert d.year * 12 + 12 <= m.year * 12;
    } else if d.year > m.year {
      assert m.year * 12 + 12 <= d.year * 12;
    }
  }

  /** Later dates are in the same or later months. */
  lemma MonthIndexMonotone(a: Date, b: Date)
    requires ValidDate(a) && ValidDate(b)
    requires DateKey(a) <= DateKey(b)
    ensures MonthIndex(MonthOf(a)) <= MonthIndex(MonthOf(b))
  {
    DateKeyOrder(a, b);
    if a.year < b.year {
      assert a.year * 12 + 12 <= b.year * 12;
    }
  }

  /**
   * `eachMonthOfInterval({start, end})`: every month from `first` to `last`,
   * both included, in calendar order; empty when `first` is after `last`.
   */
  function MonthRange(first: Month, last: Month): (ms: seq<Month>)
    requires ValidMonth(first)
    ensures |ms| == if MonthIndex(first) <= MonthIndex(last) then MonthIndex(last) - MonthIndex(first) + 1 else 0
    ensures forall i :: 0 <= i < |ms| ==> ValidMonth(ms[i]) && MonthIndex(ms[i]) == MonthIndex(first) + i
    decreases MonthIndex(last) - MonthIndex(first)
  {
    if MonthIndex(first) > MonthIndex(last) then []
    else [first] + MonthRange(Succ(first), last)
  }

  /** The month range has no gaps and no duplicates: it holds exactly the months between its ends. */
  lemma MonthRangeMembership(first: Month, last: Month, m: Month)
    requires ValidMonth(first) && ValidMonth(m)
    ensures m in MonthRange(first, last) <==> MonthIndex(first) <= MonthIndex(m) <= MonthIndex(last)
  {
    var ms := MonthRange(first, last);
    if MonthIndex(first) <= MonthIndex(m) <= MonthIndex(last) {
      var i := MonthIndex(m) - MonthIndex(first);
      MonthIndexInjective(ms[i], m);
    }
  }

  /** Consecutive entries of the month range are consecutive months, and none repeats. */
  lemma MonthRangeConsecutive(first: Month, last: Month)
    requires ValidMonth(first)
    ensures var ms := MonthRange(first, last);
      (forall i :: 0 <= i < |ms| - 1 ==> ms[i + 1] == Succ(ms[i]))
      && (forall i, j :: 0 <= i < j < |ms| ==> ms[i] != ms[j])
  {
    var ms := MonthRange(first, last);
    forall i | 0 <= i < |ms| - 1 ensures ms[i + 1] == Succ(ms[i]) {
      MonthIndexInjective(ms[i + 1], Succ(ms[i]));
    }
  }
}
