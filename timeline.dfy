/**
 * The month axis shared by the time series: movements sorted by posted date
 * (`[...ts].sort((a, b) => a.fechaContable.getTime() - b.fechaContable.getTime())`),
 * the months from the first to the last posted date (`eachMonthOfInterval`),
 * the movements of one month, and the cut to the most recent months.
 */
module Timeline {
  import opened Seqs
  import opened Dates
  import opened Transactions

  /** Every posted date is a calendar date, as the parser guarantees. */
  predicate WellDated(ts: seq<Transaction>) {
    forall t | t in ts :: ValidDate(t.fechaContable)
  }

  function KeyOrder(t: Transaction): real {
    Key(t) as real
  }

  /** The ascending, stable sort by posted date. */
  function Ascending(ts: seq<Transaction>): (r: seq<Transaction>)
    ensures |r| == |ts| && multiset(r) == multiset(ts)
    ensures forall i, j :: 0 <= i < j < |r| ==> Key(r[i]) <= Key(r[j])
    ensures forall t | t in r :: t in ts
    ensures forall t | t in ts :: t in r
  {
    var r := SortBy(ts, KeyOrder);
    assert forall t | t in r :: t in ts by {
      forall t | t in r ensures t in ts {
        assert t in multiset(r);
      }
    }
    assert forall t | t in ts :: t in r by {
      forall t | t in ts ensures t in r {
        assert t in multiset(ts);
      }
    }
    assert forall i, j :: 0 <= i < j < |r| ==> KeyOrder(r[i]) <= KeyOrder(r[j]);
    r
  }

  /** The month of the earliest posted date. */
  function FirstMonth(ts: seq<Transaction>): (m: Month)
    requires |ts| > 0 && WellDated(ts)
    ensures ValidMonth(m)
    ensures exists t :: t in ts && MonthOf(t.fechaContable) == m
    ensures forall t | t in ts :: MonthIndex(m) <= MonthIndex(MonthOf(t.fechaContable))
  {
    var s := Ascending(ts);
    var first := s[0];
    assert first in s;
    forall t | t in ts ensures MonthIndex(MonthOf(first.fechaContable)) <= MonthIndex(MonthOf(t.fechaContable)) {
      var j :| 0 <= j < |s| && s[j] == t;
      assert Key(first) <= Key(t);
      MonthIndexMonotone(first.fechaContable, t.fechaContable);
    }
    MonthOf(first.fechaContable)
  }

  /** The month of the latest posted date. */
  function LastMonth(ts: seq<Transaction>): (m: Month)
    requires |ts| > 0 && WellDated(ts)
    ensures ValidMonth(m)
    ensures exists t :: t in ts && MonthOf(t.fechaContable) == m
    ensures forall t | t in ts :: MonthIndex(MonthOf(t.fechaContable)) <= MonthIndex(m)
  {
    var s := Ascending(ts);
    var last := s[|s| - 1];
    assert last in s;
    forall t | t in ts ensures MonthIndex(MonthOf(t.fechaContable)) <= MonthIndex(MonthOf(last.fechaContable)) {
      var j :| 0 <= j < |s| && s[j] == t;
      assert Key(t) <= Key(last);
      MonthIndexMonotone(t.fechaContable, last.fechaContable);
    }
    MonthOf(last.fechaContable)
  }

  /**
   * `eachMonthOfInterval({start: firstDate, end: lastDate})`: the months from
   * the first to the last posted date, consecutive, each once, covering every
   * movement.
   */
  function Span(ts: seq<Transaction>): (ms: seq<Month>)
    requires |ts| > 0 && WellDated(ts)
    ensures |ms| == MonthIndex(LastMonth(ts)) - MonthIndex(FirstMonth(ts)) + 1
    ensures ms[0] == FirstMonth(ts) && ms[|ms| - 1] == LastMonth(ts)
    ensures forall i :: 0 <= i < |ms| ==> ValidMonth(ms[i]) && MonthIndex(ms[i]) == MonthIndex(FirstMonth(ts)) + i
    ensures NoDups(ms)
    ensures forall t | t in ts :: MonthOf(t.fechaContable) in ms
  {
    var first, last := FirstMonth(ts), LastMonth(ts);
    assert ts[0] in ts;
    var ms := MonthRange(first, last);
    MonthRangeConsecutive(first, last);
    MonthIndexInjective(ms[0], first);
    MonthIndexInjective(ms[|ms| - 1], last);
    forall t | t in ts ensures MonthOf(t.fechaContable) in ms {
      MonthRangeMembership(first, last, MonthOf(t.fechaContable));
    }
    ms
  }

  /** `t.fechaContable >= startOfMonth(month) && t.fechaContable <= endOfMonth(month)`. */
  predicate WithinMonth(m: Month, t: Transaction)
    requires ValidMonth(m)
  {
    DateKey(MonthStart(m)) <= Key(t) <= DateKey(MonthEnd(m))
  }

  function MonthTest(m: Month): Transaction -> bool
    requires ValidMonth(m)
  {
    t => WithinMonth(m, t)
  }

  /** The movements of month `m`, in their order. */
  function MonthRows(ts: seq<Transaction>, m: Month): (r: seq<Transaction>)
    requires ValidMonth(m) && WellDated(ts)
    ensures forall t | t in r :: t in ts && InMonth(t.fechaContable, m)
    ensures forall t | t in ts && InMonth(t.fechaContable, m) :: t in r
  {
    var r := Filter(ts, MonthTest(m));
    assert forall t | t in ts :: WithinMonth(m, t) <==> InMonth(t.fechaContable, m) by {
      forall t | t in ts ensures WithinMonth(m, t) <==> InMonth(t.fechaContable, m) {
        InMonthIsWithinBounds(t.fechaContable, m);
      }
    }
    r
  }

  /** The display metadata of a capped series. */
  datatype MonthsInfo = MonthsInfo(totalMonths: nat, displayedMonths: nat, isLimited: bool)

  /** `months.length > cap ? months.slice(-cap) : months`, with its metadata. */
  function Capped<T>(ms: seq<T>, cap: nat): (r: (seq<T>, MonthsInfo))
    requires cap > 0
    ensures |r.0| == if |ms| > cap then cap else |ms|
    ensures r.0 == ms[|ms| - |r.0|..]
    ensures r.1.totalMonths == |ms| && r.1.displayedMonths == |r.0|
    ensures r.1.isLimited <==> |ms| > cap
  {
    (TakeLast(ms, cap), MonthsInfo(|ms|, |TakeLast(ms, cap)|, |ms| > cap))
  }

  /**
   * The months a capped series shows: the last `cap` months of the span, in
   * order, ending with the month of the latest posted date; with the metadata.
   */
  function Shown(ts: seq<Transaction>, cap: nat): (r: (seq<Month>, MonthsInfo))
    requires |ts| > 0 && WellDated(ts) && cap > 0
    ensures r.1.totalMonths == |Span(ts)|
    ensures r.1.displayedMonths == |r.0| == (if |Span(ts)| > cap then cap else |Span(ts)|)
    ensures r.1.isLimited <==> |Span(ts)| > cap
    ensures forall i :: 0 <= i < |r.0| ==>
      ValidMonth(r.0[i]) && MonthIndex(r.0[i]) == MonthIndex(LastMonth(ts)) - (|r.0| - 1 - i)
    ensures forall t | t in ts ::
      MonthOf(t.fechaContable) in r.0 <==> MonthIndex(MonthOf(t.fechaContable)) > MonthIndex(LastMonth(ts)) - |r.0|
  {
    var months := Span(ts);
    var capped := Capped(months, cap);
    ShownMembers(ts, months, capped.0);
    capped
  }

  lemma ShownIndex(ts: seq<Transaction>, months: seq<Month>, shown: seq<Month>, i: int)
    requires |ts| > 0 && WellDated(ts) && months == Span(ts)
    requires 0 < |shown| <= |months| && shown == months[|months| - |shown|..]
    requires 0 <= i < |shown|
    ensures ValidMonth(shown[i]) && MonthIndex(shown[i]) == MonthIndex(LastMonth(ts)) - (|shown| - 1 - i)
  {
    assert shown[i] == months[|months| - |shown| + i];
  }

  lemma ShownHas(ts: seq<Transaction>, months: seq<Month>, shown: seq<Month>, t: Transaction)
    requires |ts| > 0 && WellDated(ts) && months == Span(ts)
    requires 0 < |shown| <= |months| && shown == months[|months| - |shown|..]
    requires t in ts
    ensures MonthOf(t.fechaContable) in shown <==> MonthIndex(MonthOf(t.fechaContable)) > MonthIndex(LastMonth(ts)) - |shown|
  {
    var k := |months| - |shown|;
    var m := MonthOf(t.fechaContable);
    var j :| 0 <= j < |months| && months[j] == m;
    SuffixHas(months, k, m, j);
    assert MonthIndex(m) == MonthIndex(FirstMonth(ts)) + j;
  }

  /** In a sequence without repeats, an element is in the suffix from `k` exactly when it sits at or after `k`. */
  lemma SuffixHas<T>(s: seq<T>, k: nat, x: T, j: nat)
    requires NoDups(s) && k <= |s| && j < |s| && s[j] == x
    ensures x in s[k..] <==> j >= k
  {
    if x in s[k..] {
      var i :| 0 <= i < |s[k..]| && s[k..][i] == x;
      assert s[k + i] == x;
    }
    if j >= k {
      assert s[k..][j - k] == x;
    }
  }

  lemma ShownMembers(ts: seq<Transaction>, months: seq<Month>, shown: seq<Month>)
    requires |ts| > 0 && WellDated(ts) && months == Span(ts)
    requires 0 < |shown| <= |months| && shown == months[|months| - |shown|..]
    ensures forall i :: 0 <= i < |shown| ==>
      ValidMonth(shown[i]) && MonthIndex(shown[i]) == MonthIndex(LastMonth(ts)) - (|shown| - 1 - i)
    ensures forall t | t in ts ::
      MonthOf(t.fechaContable) in shown <==> MonthIndex(MonthOf(t.fechaContable)) > MonthIndex(LastMonth(ts)) - |shown|
  {
    forall i | 0 <= i < |shown|
      ensures ValidMonth(shown[i]) && MonthIndex(shown[i]) == MonthIndex(LastMonth(ts)) - (|shown| - 1 - i)
    {
      ShownIndex(ts, months, shown, i);
    }
    forall t | t in ts
      ensures MonthOf(t.fechaContable) in shown <==> MonthIndex(MonthOf(t.fechaContable)) > MonthIndex(LastMonth(ts)) - |shown|
    {
      ShownHas(ts, months, shown, t);
    }
  }
}
