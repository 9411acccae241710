/**
 * The summary tab of `OverviewTab.tsx`: the final balance of each account,
 * the month-by-month balance evolution with carry-forward (the last 50 months),
 * and the monthly income, expense and savings bars (the last 36 months).
 */
module Overview {
  import opened Seqs
  import opened Dates
  import opened Transactions
  import opened Timeline
  import opened Kpis

  // ---------------------------------------------------------------------------
  // Final balance of each account

  /** Every account of the movements has at least one movement. */
  lemma AccountHasRows(ts: seq<Transaction>, a: string)
    requires a in Accounts(ts)
    ensures |AccountRows(ts, a)| > 0
  {
    var t :| t in ts && t.cuenta == a;
    assert t in AccountRows(ts, a);
  }

  /** `t` is a movement of account `a` and none of the account's movements is later. */
  predicate LatestOfAccount(ts: seq<Transaction>, a: string, t: Transaction) {
    t in ts && t.cuenta == a && forall u | u in ts && u.cuenta == a :: Key(u) <= Key(t)
  }

  /** The entry of one account: its name and the balance after its latest movement. */
  function AccountEntry(ts: seq<Transaction>, a: string): (e: (string, real))
    requires a in Accounts(ts)
    ensures e.0 == a
    ensures exists t :: LatestOfAccount(ts, a, t) && e.1 == t.saldo
    ensures e.1 == AccountBalance(ts, a)
  {
    AccountHasRows(ts, a);
    var t := LatestOf(ts, a);
    assert LatestOfAccount(ts, a, t);
    (a, t.saldo)
  }

  /**
   * `finalBalancesByAccount`: one entry per account in order of first
   * occurrence, holding the balance of that account's latest movement. The
   * `undefined` case of the source (an account without movements) cannot occur.
   */
  function FinalBalancesByAccount(ts: seq<Transaction>): (r: seq<(string, real)>)
    ensures |ts| == 0 ==> r == []
    ensures |ts| > 0 ==> |r| == |Accounts(ts)|
    ensures |ts| > 0 ==> forall i :: 0 <= i < |r| ==> r[i] == AccountEntry(ts, Accounts(ts)[i])
  {
    if |ts| == 0 then []
    else
      var acc := Accounts(ts);
      seq(|acc|, i requires 0 <= i < |acc| => AccountEntry(ts, acc[i]))
  }

  /** The entries come in the order in which their accounts first appear in the movements. */
  lemma BalancesInFirstOccurrenceOrder(ts: seq<Transaction>)
    ensures forall i | 0 <= i < |FinalBalancesByAccount(ts)| :: FinalBalancesByAccount(ts)[i].0 in Cuentas(ts)
    ensures forall i, j :: 0 <= i < j < |FinalBalancesByAccount(ts)| ==>
      IndexOf(Cuentas(ts), FinalBalancesByAccount(ts)[i].0) < IndexOf(Cuentas(ts), FinalBalancesByAccount(ts)[j].0)
  {
    if |ts| > 0 {
      var r := FinalBalancesByAccount(ts);
      var acc := Accounts(ts);
      AccountsFirstOccurrence(ts);
      EntryNames(ts, r, acc);
      NamesFollow(r, acc, Cuentas(ts));
    }
  }

  lemma EntryNames(ts: seq<Transaction>, r: seq<(string, real)>, acc: seq<string>)
    requires |ts| > 0 && r == FinalBalancesByAccount(ts) && acc == Accounts(ts)
    ensures |r| == |acc| && forall i | 0 <= i < |r| :: r[i].0 == acc[i]
  {
    forall i | 0 <= i < |r| ensures r[i].0 == acc[i] {
      assert r[i] == AccountEntry(ts, acc[i]);
    }
  }

  /** Entries named after an ordered list of accounts come in that order. */
  lemma NamesFollow(r: seq<(string, real)>, acc: seq<string>, c: seq<string>)
    requires |r| == |acc| && forall i | 0 <= i < |r| :: r[i].0 == acc[i]
    requires forall a | a in acc :: a in c
    requires forall i, j :: 0 <= i < j < |acc| ==> IndexOf(c, acc[i]) < IndexOf(c, acc[j])
    ensures forall i | 0 <= i < |r| :: r[i].0 in c
    ensures forall i, j :: 0 <= i < j < |r| ==> IndexOf(c, r[i].0) < IndexOf(c, r[j].0)
  {
    forall i | 0 <= i < |r| ensures r[i].0 in c {
      assert acc[i] in acc;
    }
  }

  /** No account has two entries. */
  lemma AccountsNamedOnce(ts: seq<Transaction>, i: int, j: int)
    requires 0 <= i < j < |FinalBalancesByAccount(ts)|
    ensures FinalBalancesByAccount(ts)[i].0 != FinalBalancesByAccount(ts)[j].0
  {
  }

  /** Every account of the movements has an entry. */
  lemma EveryAccountListed(ts: seq<Transaction>, t: Transaction)
    requires t in ts
    ensures exists i :: 0 <= i < |FinalBalancesByAccount(ts)| && FinalBalancesByAccount(ts)[i].0 == t.cuenta
  {
    var r := FinalBalancesByAccount(ts);
    var acc := Accounts(ts);
    var i :| 0 <= i < |acc| && acc[i] == t.cuenta;
    assert r[i].0 == t.cuenta;
  }

  /** Each entry holds the balance of its account's latest movement. */
  lemma EntryIsLatest(ts: seq<Transaction>, i: int)
    requires 0 <= i < |FinalBalancesByAccount(ts)|
    ensures exists t :: LatestOfAccount(ts, FinalBalancesByAccount(ts)[i].0, t) && FinalBalancesByAccount(ts)[i].1 == t.saldo
  {
  }

  /** The account balances add up to the final-balance figure of the summary cards. */
  lemma BalancesAddUpToFinalBalance(ts: seq<Transaction>)
    ensures Sum(FinalBalancesByAccount(ts), (e: (string, real)) => e.1) == FinalBalance(ts)
  {
    if |ts| > 0 {
      var acc := Accounts(ts);
      var r := FinalBalancesByAccount(ts);
      forall i | 0 <= i < |r| ensures r[i].1 == BalanceOf(ts)(acc[i]) {
        EntryBalance(ts, i);
      }
      SumPairs(r, acc, BalanceOf(ts), |acc|);
      assert r[..|acc|] == r && acc[..|acc|] == acc;
    }
  }

  lemma EntryBalance(ts: seq<Transaction>, i: int)
    requires |ts| > 0 && 0 <= i < |Accounts(ts)|
    ensures FinalBalancesByAccount(ts)[i].1 == AccountBalance(ts, Accounts(ts)[i])
  {
  }

  lemma SumPairs(r: seq<(string, real)>, keys: seq<string>, f: string -> real, n: nat)
    requires |r| == |keys| && n <= |r|
    requires forall i :: 0 <= i < |r| ==> r[i].1 == f(keys[i])
    ensures Sum(r[..n], (e: (string, real)) => e.1) == Sum(keys[..n], f)
  {
    if n > 0 {
      SumPairs(r, keys, f, n - 1);
      assert r[..n][..n - 1] == r[..n - 1];
      assert keys[..n][..n - 1] == keys[..n - 1];
    }
  }

  // ---------------------------------------------------------------------------
  // Balance evolution with carry-forward

  /** The movements of account `a` inside month `m`. */
  function InMonthTest(a: string, m: Month): Transaction -> bool
    requires ValidMonth(m)
  {
    (t: Transaction) => t.cuenta == a && WithinMonth(m, t)
  }

  /** The movements of account `a` strictly before the first day of `m`. */
  function BeforeTest(a: string, m: Month): Transaction -> bool {
    (t: Transaction) => t.cuenta == a && Key(t) < DateKey(MonthStart(m))
  }

  /**
   * What account `a` contributes to month `m`: the balance after its earliest
   * movement of the month; without one, the balance after its latest movement
   * before the month; without either, nothing.
   */
  function AccountMonthBalance(ts: seq<Transaction>, a: string, m: Month): real
    requires ValidMonth(m)
  {
    var inMonth := Filter(ts, InMonthTest(a, m));
    if |inMonth| > 0 then Earliest(inMonth, Key).saldo
    else
      var before := Filter(ts, BeforeTest(a, m));
      if |before| == 0 then 0.0 else Latest(before, Key).saldo
  }

  /** `saldoTotalMes`: the contributions of all the accounts. */
  function MonthBalance(ts: seq<Transaction>, m: Month): real
    requires ValidMonth(m)
  {
    Sum(Accounts(ts), a => AccountMonthBalance(ts, a, m))
  }

  /** One point per month: the month and its rounded balance. */
  function EvolutionPoints(ts: seq<Transaction>, months: seq<Month>): (r: seq<(Month, int)>)
    requires forall i :: 0 <= i < |months| ==> ValidMonth(months[i])
    ensures |r| == |months|
    ensures forall i :: 0 <= i < |r| ==> r[i].0 == months[i] && r[i].1 == Round(MonthBalance(ts, months[i]))
  {
    seq(|months|, i requires 0 <= i < |months| => (months[i], Round(MonthBalance(ts, months[i]))))
  }

  /**
   * The evolution data: one rounded total per month of `Shown(ts, 50)`, the
   * months' balances computed over the ascending sort, and the metadata.
   */
  function BalanceEvolution(ts: seq<Transaction>): (r: (seq<(Month, int)>, MonthsInfo))
    requires WellDated(ts)
    ensures |ts| == 0 ==> r == ([], MonthsInfo(0, 0, false))
    ensures |ts| > 0 ==> r == (EvolutionPoints(Ascending(ts), Shown(ts, 50).0), Shown(ts, 50).1)
  {
    if |ts| == 0 then ([], MonthsInfo(0, 0, false))
    else
      var shown := Shown(ts, 50);
      (EvolutionPoints(Ascending(ts), shown.0), shown.1)
  }

  /** `t` is the account's earliest movement of month `m`. */
  predicate EarliestInMonth(ts: seq<Transaction>, a: string, m: Month, t: Transaction) {
    && t in ts && t.cuenta == a && InMonth(t.fechaContable, m)
    && forall u | u in ts && u.cuenta == a && InMonth(u.fechaContable, m) :: Key(t) <= Key(u)
  }

  /** `t` is the account's latest movement of a month before `m`. */
  predicate LatestBeforeMonth(ts: seq<Transaction>, a: string, m: Month, t: Transaction) {
    && t in ts && t.cuenta == a && MonthIndex(MonthOf(t.fechaContable)) < MonthIndex(m)
    && forall u | u in ts && u.cuenta == a && MonthIndex(MonthOf(u.fechaContable)) < MonthIndex(m) :: Key(u) <= Key(t)
  }

  /** An account with movements in the month shows the balance after the earliest of them. */
  lemma MonthWithMovements(ts: seq<Transaction>, a: string, m: Month)
    requires ValidMonth(m) && WellDated(ts)
    requires exists t :: t in ts && t.cuenta == a && InMonth(t.fechaContable, m)
    ensures exists t :: EarliestInMonth(ts, a, m, t) && AccountMonthBalance(ts, a, m) == t.saldo
  {
    var inMonth := Filter(ts, InMonthTest(a, m));
    var w :| w in ts && w.cuenta == a && InMonth(w.fechaContable, m);
    InMonthIsWithinBounds(w.fechaContable, m);
    assert w in inMonth;
    var t := Earliest(inMonth, Key);
    InMonthIsWithinBounds(t.fechaContable, m);
    forall u | u in ts && u.cuenta == a && InMonth(u.fechaContable, m) ensures Key(t) <= Key(u) {
      InMonthIsWithinBounds(u.fechaContable, m);
      assert u in inMonth;
    }
  }

  /**
   * An account without movements in the month carries the balance of its
   * latest movement of an earlier month.
   */
  lemma MonthCarriesForward(ts: seq<Transaction>, a: string, m: Month)
    requires ValidMonth(m) && WellDated(ts)
    requires forall t | t in ts && t.cuenta == a :: !InMonth(t.fechaContable, m)
    requires exists t :: t in ts && t.cuenta == a && MonthIndex(MonthOf(t.fechaContable)) < MonthIndex(m)
    ensures exists t :: LatestBeforeMonth(ts, a, m, t) && AccountMonthBalance(ts, a, m) == t.saldo
  {
    NoMovementsInMonth(ts, a, m);
    var before := Filter(ts, BeforeTest(a, m));
    var w :| w in ts && w.cuenta == a && MonthIndex(MonthOf(w.fechaContable)) < MonthIndex(m);
    BeforeMonthStart(w.fechaContable, m);
    assert w in before;
    var t := Latest(before, Key);
    BeforeMonthStart(t.fechaContable, m);
    forall u | u in ts && u.cuenta == a && MonthIndex(MonthOf(u.fechaContable)) < MonthIndex(m) ensures Key(u) <= Key(t) {
      BeforeMonthStart(u.fechaContable, m);
      assert u in before;
    }
  }

  /** An account with no movement up to the end of the month contributes nothing. */
  lemma MonthBeforeFirstMovement(ts: seq<Transaction>, a: string, m: Month)
    requires ValidMonth(m) && WellDated(ts)
    requires forall t | t in ts && t.cuenta == a :: MonthIndex(MonthOf(t.fechaContable)) > MonthIndex(m)
    ensures AccountMonthBalance(ts, a, m) == 0.0
  {
    forall t | t in ts && t.cuenta == a ensures !InMonth(t.fechaContable, m) {
    }
    NoMovementsInMonth(ts, a, m);
    forall i | 0 <= i < |ts| ensures !BeforeTest(a, m)(ts[i]) {
      assert ts[i] in ts;
      BeforeMonthStart(ts[i].fechaContable, m);
    }
    FilterNone(ts, BeforeTest(a, m));
  }

  lemma NoMovementsInMonth(ts: seq<Transaction>, a: string, m: Month)
    requires ValidMonth(m) && WellDated(ts)
    requires forall t | t in ts && t.cuenta == a :: !InMonth(t.fechaContable, m)
    ensures Filter(ts, InMonthTest(a, m)) == []
  {
    forall i | 0 <= i < |ts| ensures !InMonthTest(a, m)(ts[i]) {
      assert ts[i] in ts;
      InMonthIsWithinBounds(ts[i].fechaContable, m);
    }
    FilterNone(ts, InMonthTest(a, m));
  }

  /** Two quiet months in a row show the same balance for the account. */
  lemma QuietMonthsRepeat(ts: seq<Transaction>, a: string, m: Month)
    requires ValidMonth(m) && WellDated(ts)
    requires forall t | t in ts && t.cuenta == a :: !InMonth(t.fechaContable, m) && !InMonth(t.fechaContable, Succ(m))
    ensures AccountMonthBalance(ts, a, Succ(m)) == AccountMonthBalance(ts, a, m)
  {
    NoMovementsInMonth(ts, a, m);
    NoMovementsInMonth(ts, a, Succ(m));
    forall i | 0 <= i < |ts| ensures BeforeTest(a, m)(ts[i]) == BeforeTest(a, Succ(m))(ts[i]) {
      var t := ts[i];
      assert t in ts;
      BeforeMonthStart(t.fechaContable, m);
      BeforeMonthStart(t.fechaContable, Succ(m));
      if t.cuenta == a {
        assert MonthIndex(MonthOf(t.fechaContable)) != MonthIndex(m) by {
          if MonthIndex(MonthOf(t.fechaContable)) == MonthIndex(m) {
            MonthIndexInjective(MonthOf(t.fechaContable), m);
          }
        }
      }
    }
    FilterExtIn(ts, BeforeTest(a, m), BeforeTest(a, Succ(m)));
  }

  // ---------------------------------------------------------------------------
  // Monthly income, expenses and savings

  /** One bar group: the rounded income, expenses and savings of a month. */
  datatype MonthBar = MonthBar(month: Month, ingresos: int, gastos: int, ahorro: int)

  /** The income of a month's movements. */
  function Income(rows: seq<Transaction>): real {
    Sum(Filter(rows, IsIncome), Amount)
  }

  /** `Math.abs` of the sum of the negative amounts. */
  function Expenses(rows: seq<Transaction>): real {
    Abs(Sum(Filter(rows, IsExpense), Amount))
  }

  function Bar(ts: seq<Transaction>, m: Month): MonthBar
    requires ValidMonth(m) && WellDated(ts)
  {
    var rows := MonthRows(ts, m);
    MonthBar(m, Round(Income(rows)), Round(Expenses(rows)), Round(Income(rows) - Expenses(rows)))
  }

  function Bars(ts: seq<Transaction>, months: seq<Month>): (r: seq<MonthBar>)
    requires WellDated(ts) && forall i :: 0 <= i < |months| ==> ValidMonth(months[i])
    ensures |r| == |months|
    ensures forall i :: 0 <= i < |r| ==> r[i].month == months[i] && r[i] == Bar(ts, months[i])
  {
    seq(|months|, i requires 0 <= i < |months| => Bar(ts, months[i]))
  }

  /** The bar data of `Shown(ts, 36)` and its metadata; the savings line reads `ahorro` off the same bars. */
  function IncomeExpense(ts: seq<Transaction>): (r: (seq<MonthBar>, MonthsInfo))
    requires WellDated(ts)
    ensures |ts| == 0 ==> r == ([], MonthsInfo(0, 0, false))
    ensures |ts| > 0 ==> r == (Bars(Ascending(ts), Shown(ts, 36).0), Shown(ts, 36).1)
  {
    if |ts| == 0 then ([], MonthsInfo(0, 0, false))
    else
      var shown := Shown(ts, 36);
      (Bars(Ascending(ts), shown.0), shown.1)
  }

  /** The savings line: `ahorro` of each bar. */
  function SavingsLine(bars: seq<MonthBar>): (r: seq<(Month, int)>)
    ensures |r| == |bars|
    ensures forall i :: 0 <= i < |r| ==> r[i] == (bars[i].month, bars[i].ahorro)
  {
    seq(|bars|, i requires 0 <= i < |bars| => (bars[i].month, bars[i].ahorro))
  }

  lemma {:induction false} NegativeSum(s: seq<Transaction>)
    requires forall i :: 0 <= i < |s| ==> IsExpense(s[i])
    ensures Sum(s, Magnitude) == -Sum(s, Amount)
  {
    if s != [] {
      NegativeSum(s[..|s| - 1]);
    }
  }

  /**
   * Before rounding, a month's income and expenses are the summary-card totals
   * of its movements, and its savings are the signed sum of its amounts.
   */
  lemma MonthFigures(rows: seq<Transaction>)
    ensures Income(rows) == TotalIncome(rows)
    ensures Expenses(rows) == TotalExpenses(rows)
    ensures Income(rows) - Expenses(rows) == Sum(rows, Amount)
  {
    var neg := Filter(rows, IsExpense);
    forall i | 0 <= i < |neg| ensures IsExpense(neg[i]) {
      assert neg[i] in neg;
    }
    NegativeSum(neg);
    SumNonNegative(neg, Magnitude);
    NetIsSignedSum(rows);
  }

  /** Summing `f` over each month's movements, month by month. */
  function MonthlySum(ts: seq<Transaction>, ms: seq<Month>, f: Transaction -> real): real
    requires WellDated(ts) && forall i :: 0 <= i < |ms| ==> ValidMonth(ms[i])
  {
    if ms == [] then 0.0 else MonthlySum(ts, ms[..|ms| - 1], f) + Sum(MonthRows(ts, ms[|ms| - 1]), f)
  }

  /** The months of `ms` that `t` falls in, counted with weight `f(t)`. */
  function Hits(t: Transaction, ms: seq<Month>, f: Transaction -> real): real
    requires forall i :: 0 <= i < |ms| ==> ValidMonth(ms[i])
  {
    if ms == [] then 0.0
    else Hits(t, ms[..|ms| - 1], f) + (if WithinMonth(ms[|ms| - 1], t) then f(t) else 0.0)
  }

  lemma {:induction false} MonthlySumStep(ts: seq<Transaction>, t: Transaction, ms: seq<Month>, f: Transaction -> real)
    requires WellDated(ts + [t]) && forall i :: 0 <= i < |ms| ==> ValidMonth(ms[i])
    ensures WellDated(ts)
    ensures MonthlySum(ts + [t], ms, f) == MonthlySum(ts, ms, f) + Hits(t, ms, f)
  {
    assert forall u | u in ts :: u in ts + [t];
    if ms != [] {
      var init, m := ms[..|ms| - 1], ms[|ms| - 1];
      MonthlySumStep(ts, t, init, f);
      assert (ts + [t])[..|ts|] == ts;
      var rows := Filter(ts, MonthTest(m));
      assert Filter(ts + [t], MonthTest(m)) == rows + (if WithinMonth(m, t) then [t] else []);
      SumAppend(rows, if WithinMonth(m, t) then [t] else [], f);
      assert Sum([t], f) == f(t) by { assert [t][..0] == []; }
    }
  }

  /** A movement lies in exactly one month of a list holding its month once. */
  lemma {:induction false} HitsOnce(t: Transaction, ms: seq<Month>, f: Transaction -> real)
    requires ValidDate(t.fechaContable)
    requires forall i :: 0 <= i < |ms| ==> ValidMonth(ms[i])
    requires NoDups(ms)
    ensures Hits(t, ms, f) == if MonthOf(t.fechaContable) in ms then f(t) else 0.0
  {
    if ms != [] {
      var init, m := ms[..|ms| - 1], ms[|ms| - 1];
      assert NoDups(init);
      HitsOnce(t, init, f);
      InMonthIsWithinBounds(t.fechaContable, m);
      assert ms == init + [m];
      assert m !in init;
    }
  }

  /**
   * When the months hold each movement's month exactly once, the month-by-month
   * sums add up to the sum over all the movements: every movement is counted
   * in one month and no movement is counted twice.
   */
  lemma {:induction false} MonthsPartition(ts: seq<Transaction>, ms: seq<Month>, f: Transaction -> real)
    requires WellDated(ts) && forall i :: 0 <= i < |ms| ==> ValidMonth(ms[i])
    requires NoDups(ms) && forall t | t in ts :: MonthOf(t.fechaContable) in ms
    ensures MonthlySum(ts, ms, f) == Sum(ts, f)
  {
    if ts == [] {
      MonthlySumEmpty(ms, f);
    } else {
      var init, t := ts[..|ts| - 1], ts[|ts| - 1];
      assert ts == init + [t];
      assert t in ts;
      MonthlySumStep(init, t, ms, f);
      assert forall u | u in init :: u in ts;
      MonthsPartition(init, ms, f);
      HitsOnce(t, ms, f);
    }
  }

  lemma {:induction false} MonthlySumEmpty(ms: seq<Month>, f: Transaction -> real)
    requires forall i :: 0 <= i < |ms| ==> ValidMonth(ms[i])
    ensures MonthlySum([], ms, f) == 0.0
  {
    if ms != [] {
      MonthlySumEmpty(ms[..|ms| - 1], f);
    }
  }

  /**
   * Before the 36-month cut, the monthly income and expense bars add up to the
   * summary-card totals.
   */
  lemma MonthlyTotalsAddUp(ts: seq<Transaction>)
    requires |ts| > 0 && WellDated(ts)
    ensures MonthlySum(ts, Span(ts), IncomePart) == TotalIncome(ts)
    ensures MonthlySum(ts, Span(ts), ExpensePart) == TotalExpenses(ts)
  {
    MonthsPartition(ts, Span(ts), IncomePart);
    MonthsPartition(ts, Span(ts), ExpensePart);
    SumFilter(ts, IsIncome, Amount, IncomePart);
    SumFilter(ts, IsExpense, Magnitude, ExpensePart);
  }

  /** Each month's sum of `IncomePart` and `ExpensePart` is its bar's income and expenses. */
  lemma MonthParts(rows: seq<Transaction>)
    ensures Sum(rows, IncomePart) == Income(rows)
    ensures Sum(rows, ExpensePart) == Expenses(rows)
  {
    SumFilter(rows, IsIncome, Amount, IncomePart);
    SumFilter(rows, IsExpense, Magnitude, ExpensePart);
    MonthFigures(rows);
  }
}
