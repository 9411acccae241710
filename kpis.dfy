/**
 * The four figures of `KpiCards.tsx`: income, expenses, the final balance
 * summed over the accounts, and the savings rate with its colour.
 */
module Kpis {
  import opened Seqs
  import opened Transactions

  function Amount(t: Transaction): real {
    t.importe
  }

  function Magnitude(t: Transaction): real {
    Abs(t.importe)
  }

  /** The sum of the positive amounts. */
  function TotalIncome(ts: seq<Transaction>): (r: real)
    ensures r >= 0.0
  {
    var incomes := Filter(ts, IsIncome);
    assert forall i :: 0 <= i < |incomes| ==> Amount(incomes[i]) >= 0.0 by {
      forall i | 0 <= i < |incomes| ensures Amount(incomes[i]) >= 0.0 {
        assert incomes[i] in incomes;
      }
    }
    SumNonNegative(incomes, Amount);
    Sum(incomes, Amount)
  }

  /** The sum of the magnitudes of the negative amounts. */
  function TotalExpenses(ts: seq<Transaction>): (r: real)
    ensures r >= 0.0
  {
    var expenses := Filter(ts, IsExpense);
    SumNonNegative(expenses, Magnitude);
    Sum(expenses, Magnitude)
  }

  function IncomePart(t: Transaction): real {
    if IsIncome(t) then Amount(t) else 0.0
  }

  function ExpensePart(t: Transaction): real {
    if IsExpense(t) then Magnitude(t) else 0.0
  }

  /** Income minus expenses is the signed sum of all the amounts. */
  lemma NetIsSignedSum(ts: seq<Transaction>)
    ensures TotalIncome(ts) - TotalExpenses(ts) == Sum(ts, Amount)
  {
    SumFilter(ts, IsIncome, Amount, IncomePart);
    SumFilter(ts, IsExpense, Magnitude, ExpensePart);
    SumLinear(ts, IncomePart, ExpensePart, Amount);
  }

  /** A zero amount counts in neither total. */
  lemma ZeroCountsInNeither(ts: seq<Transaction>, t: Transaction)
    requires t.importe == 0.0
    ensures TotalIncome(ts + [t]) == TotalIncome(ts)
    ensures TotalExpenses(ts + [t]) == TotalExpenses(ts)
  {
    assert (ts + [t])[..|ts|] == ts;
    assert Filter(ts + [t], IsIncome) == Filter(ts, IsIncome);
    assert Filter(ts + [t], IsExpense) == Filter(ts, IsExpense);
  }

  // ---------------------------------------------------------------------------
  // Final balance

  /** The accounts of the movements, each once, in order of first occurrence. */
  function Accounts(ts: seq<Transaction>): (r: seq<string>)
    ensures NoDups(r)
    ensures forall a | a in r :: exists t :: t in ts && t.cuenta == a
    ensures forall t | t in ts :: t.cuenta in r
  {
    var cuentas := seq(|ts|, i requires 0 <= i < |ts| => ts[i].cuenta);
    assert forall t | t in ts :: t.cuenta in cuentas by {
      forall t | t in ts ensures t.cuenta in cuentas {
        var i :| 0 <= i < |ts| && ts[i] == t;
        assert cuentas[i] == t.cuenta;
      }
    }
    assert forall a | a in cuentas :: exists t :: t in ts && t.cuenta == a by {
      forall a | a in cuentas ensures exists t :: t in ts && t.cuenta == a {
        var i :| 0 <= i < |cuentas| && cuentas[i] == a;
        assert ts[i] in ts;
      }
    }
    Distinct(cuentas)
  }

  /** The account of each movement, in order. */
  function Cuentas(ts: seq<Transaction>): seq<string> {
    seq(|ts|, i requires 0 <= i < |ts| => ts[i].cuenta)
  }

  /**
   * `Array.from(new Set(cuentas))` keeps insertion order: the accounts come in
   * the order in which each first appears in the movements.
   */
  lemma AccountsFirstOccurrence(ts: seq<Transaction>)
    ensures forall a | a in Accounts(ts) :: a in Cuentas(ts)
    ensures forall i, j :: 0 <= i < j < |Accounts(ts)| ==>
      IndexOf(Cuentas(ts), Accounts(ts)[i]) < IndexOf(Cuentas(ts), Accounts(ts)[j])
  {
    assert Accounts(ts) == Distinct(Cuentas(ts));
    DistinctFirstOccurrence(Cuentas(ts));
  }

  function AccountIs(a: string): Transaction -> bool {
    (t: Transaction) => t.cuenta == a
  }

  /** `filteredTransactions.filter(t => t.cuenta === cuenta)`. */
  function AccountRows(ts: seq<Transaction>, a: string): (r: seq<Transaction>)
    ensures forall t | t in r :: t in ts && t.cuenta == a
    ensures forall t | t in ts && t.cuenta == a :: t in r
  {
    Filter(ts, AccountIs(a))
  }

  /** The latest movement of an account with at least one: no movement of the account is later. */
  function LatestOf(ts: seq<Transaction>, a: string): (r: Transaction)
    requires |AccountRows(ts, a)| > 0
    ensures r in ts && r.cuenta == a
    ensures forall t | t in ts && t.cuenta == a :: Key(t) <= Key(r)
  {
    var rows := AccountRows(ts, a);
    var r := Latest(rows, Key);
    assert forall t | t in rows :: Key(t) <= Key(r) by {
      forall t | t in rows ensures Key(t) <= Key(r) {
        var i :| 0 <= i < |rows| && rows[i] == t;
      }
    }
    r
  }

  /**
   * On equal dates the reduce keeps the earlier movement: every movement of the
   * account before the chosen one is strictly older.
   */
  lemma LatestOfFirstOnTies(ts: seq<Transaction>, a: string)
    requires |AccountRows(ts, a)| > 0
    ensures var rows := AccountRows(ts, a);
      exists i :: 0 <= i < |rows| && rows[i] == LatestOf(ts, a) && forall j :: 0 <= j < i ==> Key(rows[j]) < Key(rows[i])
  {
    var rows := AccountRows(ts, a);
    assert LatestOf(ts, a) == Latest(rows, Key);
  }

  /** What one account adds to the final balance (nothing when it has no movements). */
  function AccountBalance(ts: seq<Transaction>, a: string): real {
    if |AccountRows(ts, a)| == 0 then 0.0 else LatestOf(ts, a).saldo
  }

  function BalanceOf(ts: seq<Transaction>): string -> real {
    a => AccountBalance(ts, a)
  }

  /** `cuentas.reduce((total, cuenta) => total + latest.saldo, 0)`, and 0 for no movements. */
  function FinalBalance(ts: seq<Transaction>): real {
    if |ts| == 0 then 0.0 else Sum(Accounts(ts), BalanceOf(ts))
  }

  lemma SumExt<T>(s: seq<T>, f: T -> real, g: T -> real)
    requires forall i :: 0 <= i < |s| ==> f(s[i]) == g(s[i])
    ensures Sum(s, f) == Sum(s, g)
  {
    if s != [] {
      SumExt(s[..|s| - 1], f, g);
    }
  }

  lemma DistinctSnoc<T>(s: seq<T>, x: T)
    requires x !in s
    ensures Distinct(s + [x]) == Distinct(s) + [x]
  {
    assert (s + [x])[..|s|] == s;
  }

  lemma AccountsSnoc(ts: seq<Transaction>, t: Transaction)
    ensures Accounts(ts + [t]) == if t.cuenta in Accounts(ts) then Accounts(ts) else Accounts(ts) + [t.cuenta]
  {
    var ts' := ts + [t];
    var cuentas := seq(|ts|, i requires 0 <= i < |ts| => ts[i].cuenta);
    var cuentas' := seq(|ts'|, i requires 0 <= i < |ts'| => ts'[i].cuenta);
    assert cuentas'[..|ts|] == cuentas;
    assert cuentas' == cuentas + [t.cuenta];
  }

  /** Appending a movement of another account leaves an account's rows alone. */
  lemma OtherAccountRows(ts: seq<Transaction>, t: Transaction, a: string)
    requires a != t.cuenta
    ensures AccountRows(ts + [t], a) == AccountRows(ts, a)
  {
    assert (ts + [t])[..|ts|] == ts;
  }

  /** The rows of an account first seen in the appended movement. */
  lemma NewAccountRows(ts: seq<Transaction>, t: Transaction)
    requires forall u | u in ts :: u.cuenta != t.cuenta
    ensures AccountRows(ts + [t], t.cuenta) == [t]
  {
    assert (ts + [t])[..|ts|] == ts;
    forall i | 0 <= i < |ts| ensures !AccountIs(t.cuenta)(ts[i]) {
      assert ts[i] in ts;
    }
    FilterNone(ts, AccountIs(t.cuenta));
  }

  lemma OtherAccountBalance(ts: seq<Transaction>, t: Transaction, a: string)
    requires a != t.cuenta
    ensures AccountBalance(ts + [t], a) == AccountBalance(ts, a)
  {
    OtherAccountRows(ts, t, a);
  }

  /** A movement on an account not seen before adds exactly its own balance. */
  lemma FinalBalanceNewAccount(ts: seq<Transaction>, t: Transaction)
    requires forall u | u in ts :: u.cuenta != t.cuenta
    ensures FinalBalance(ts + [t]) == FinalBalance(ts) + t.saldo
  {
    var ts' := ts + [t];
    AccountsSnoc(ts, t);
    var prior := Accounts(ts);
    assert t.cuenta !in prior;
    forall i | 0 <= i < |prior| ensures AccountBalance(ts', prior[i]) == AccountBalance(ts, prior[i]) {
      OtherAccountBalance(ts, t, prior[i]);
    }
    SumExt(prior, BalanceOf(ts'), BalanceOf(ts));
    assert (prior + [t.cuenta])[..|prior|] == prior;
    NewAccountRows(ts, t);
    assert AccountBalance(ts', t.cuenta) == t.saldo;
  }

  /** Movements of a single account have that one account. */
  lemma {:induction false} OneAccount(ts: seq<Transaction>, a: string)
    requires |ts| > 0 && forall t | t in ts :: t.cuenta == a
    ensures Accounts(ts) == [a]
  {
    var init, t := ts[..|ts| - 1], ts[|ts| - 1];
    assert ts == init + [t];
    AccountsSnoc(init, t);
    assert t in ts;
    if init != [] {
      assert forall u | u in init :: u in ts;
      OneAccount(init, a);
    }
  }

  /** With a single account the final balance is the balance of its latest movement. */
  lemma FinalBalanceOneAccount(ts: seq<Transaction>, a: string)
    requires |ts| > 0 && forall t | t in ts :: t.cuenta == a
    ensures FinalBalance(ts) == Latest(ts, Key).saldo
  {
    OneAccount(ts, a);
    FilterAll(ts, AccountIs(a));
    assert AccountRows(ts, a) == ts;
    assert LatestOf(ts, a) == Latest(ts, Key);
    assert [a][..0] == [];
    assert Sum([a], BalanceOf(ts)) == AccountBalance(ts, a);
  }

  // ---------------------------------------------------------------------------
  // Savings rate

  /** `income > 0 ? ((income - expenses) / income) * 100 : 0`. */
  function SavingsRate(income: real, expenses: real): (r: real)
    ensures income <= 0.0 ==> r == 0.0
    ensures income > 0.0 && expenses >= 0.0 ==> r <= 100.0
    ensures income > 0.0 ==> (r >= 0.0 <==> expenses <= income)
    ensures income > 0.0 ==> (r == 100.0 <==> expenses == 0.0)
  {
    if income > 0.0 then ((income - expenses) / income) * 100.0 else 0.0
  }

  datatype Colour = Green | Yellow | Red

  function Rank(c: Colour): int {
    match c
    case Red => 0
    case Yellow => 1
    case Green => 2
  }

  /** The colour of the savings-rate card. */
  function RateColour(rate: real): (c: Colour)
    ensures c == Green <==> rate > 20.0
    ensures c == Yellow <==> 10.0 < rate <= 20.0
    ensures c == Red <==> rate <= 10.0
  {
    if rate > 20.0 then Green else if rate > 10.0 then Yellow else Red
  }

  /** A higher rate never gets a worse colour. */
  lemma ColourMonotone(r1: real, r2: real)
    requires r1 <= r2
    ensures Rank(RateColour(r1)) <= Rank(RateColour(r2))
  {
  }

  datatype Figures = Figures(finalBalance: real, totalIncome: real, totalExpenses: real, savingsRate: real)

  /** The `kpis` memo. */
  function ComputeKpis(ts: seq<Transaction>): (k: Figures)
    ensures k.totalIncome >= 0.0 && k.totalExpenses >= 0.0
    ensures k.totalIncome - k.totalExpenses == Sum(ts, Amount)
    ensures k.totalIncome > 0.0 ==> k.savingsRate <= 100.0
    ensures k.totalIncome == 0.0 ==> k.savingsRate == 0.0
    ensures |ts| == 0 ==> k == Figures(0.0, 0.0, 0.0, 0.0)
    ensures k == Figures(FinalBalance(ts), TotalIncome(ts), TotalExpenses(ts),
                         SavingsRate(TotalIncome(ts), TotalExpenses(ts)))
  {
    var income := TotalIncome(ts);
    var expenses := TotalExpenses(ts);
    NetIsSignedSum(ts);
    Figures(FinalBalance(ts), income, expenses, SavingsRate(income, expenses))
  }
}
