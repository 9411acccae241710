/**
 * The state container of `src/store/financialStore.ts`: the loaded
 * movements, the filter settings, and the filtered view every chart reads,
 * kept equal to the filter of the movements by every action.
 */
module Store {
  import opened Wrappers
  import opened Dates
  import opened Seqs
  import opened Transactions

  // ---------------------------------------------------------------------------
  // The filter engine

  /** `getYear(t.fechaContable) === selectedYear`, when a year is selected. */
  predicate InYear(f: FilterState, t: Transaction) {
    f.selectedYear.None? || Year(t) == f.selectedYear.value
  }

  /** `isWithinInterval`, applied only when both ends of the range are set. */
  predicate InRange(f: FilterState, t: Transaction) {
    f.dateRange.0.None? || f.dateRange.1.None?
    || (DateKey(f.dateRange.0.value) <= Key(t) && Key(t) <= DateKey(f.dateRange.1.value))
  }

  /** `selectedAccounts.includes(t.cuenta)`, when any account is selected. */
  predicate InAccounts(f: FilterState, t: Transaction) {
    |f.selectedAccounts| == 0 || t.cuenta in f.selectedAccounts
  }

  /** Income keeps positive amounts, expense negative ones, all keeps everything. */
  predicate OfType(f: FilterState, t: Transaction) {
    match f.transactionType
    case All => true
    case Income => IsIncome(t)
    case Expense => IsExpense(t)
  }

  /** The conjunction of the active predicates. */
  predicate Matches(f: FilterState, t: Transaction) {
    InYear(f, t) && InRange(f, t) && InAccounts(f, t) && OfType(f, t)
  }

  /** The predicates as the function values `filter` is given. */
  function YearTest(f: FilterState): Transaction -> bool { t => InYear(f, t) }
  function RangeTest(f: FilterState): Transaction -> bool { t => InRange(f, t) }
  function AccountTest(f: FilterState): Transaction -> bool { t => InAccounts(f, t) }
  function TypeTest(f: FilterState): Transaction -> bool { t => OfType(f, t) }
  function YearRangeTest(f: FilterState): Transaction -> bool { t => InYear(f, t) && InRange(f, t) }
  function FirstThreeTest(f: FilterState): Transaction -> bool {
    t => InYear(f, t) && InRange(f, t) && InAccounts(f, t)
  }
  function MatchTest(f: FilterState): Transaction -> bool { t => Matches(f, t) }

  /** What `applyFilters` stores as `filteredTransactions`. */
  function Filtered(ts: seq<Transaction>, f: FilterState): (r: seq<Transaction>)
    ensures |r| <= |ts|
    ensures forall t | t in r :: t in ts && Matches(f, t)
    ensures forall t | t in ts :: Matches(f, t) ==> t in r
  {
    Filter(ts, MatchTest(f))
  }

  /** The steps of `applyFilters`, each skipped when its setting is inactive. */
  function ByYear(ts: seq<Transaction>, f: FilterState): seq<Transaction> {
    if f.selectedYear.Some? then Filter(ts, YearTest(f)) else ts
  }

  function ByRange(ts: seq<Transaction>, f: FilterState): seq<Transaction> {
    if f.dateRange.0.Some? && f.dateRange.1.Some? then Filter(ts, RangeTest(f)) else ts
  }

  function ByAccounts(ts: seq<Transaction>, f: FilterState): seq<Transaction> {
    if |f.selectedAccounts| > 0 then Filter(ts, AccountTest(f)) else ts
  }

  function ByType(ts: seq<Transaction>, f: FilterState): seq<Transaction> {
    match f.transactionType
    case Income => Filter(ts, IsIncome)
    case Expense => Filter(ts, IsExpense)
    case All => ts
  }

  /** A skipped step is a filter by a predicate that always holds. */
  lemma StepsAreFilters(ts: seq<Transaction>, f: FilterState)
    ensures ByYear(ts, f) == Filter(ts, YearTest(f))
    ensures ByRange(ts, f) == Filter(ts, RangeTest(f))
    ensures ByAccounts(ts, f) == Filter(ts, AccountTest(f))
    ensures ByType(ts, f) == Filter(ts, TypeTest(f))
  {
    if f.selectedYear.None? {
      FilterAll(ts, YearTest(f));
    }
    if !(f.dateRange.0.Some? && f.dateRange.1.Some?) {
      FilterAll(ts, RangeTest(f));
    }
    if |f.selectedAccounts| == 0 {
      FilterAll(ts, AccountTest(f));
    }
    match f.transactionType
    case Income => FilterExt(ts, IsIncome, TypeTest(f));
    case Expense => FilterExt(ts, IsExpense, TypeTest(f));
    case All => FilterAll(ts, TypeTest(f));
  }

  /** The four steps in the order `applyFilters` takes them compute the conjunction. */
  lemma StepsCompose(ts: seq<Transaction>, f: FilterState)
    ensures ByType(ByAccounts(ByRange(ByYear(ts, f), f), f), f) == Filtered(ts, f)
  {
    var s1 := ByYear(ts, f);
    StepsAreFilters(ts, f);
    var s2 := ByRange(s1, f);
    StepsAreFilters(s1, f);
    FilterFilter(ts, YearTest(f), RangeTest(f), YearRangeTest(f));
    var s3 := ByAccounts(s2, f);
    StepsAreFilters(s2, f);
    FilterFilter(ts, YearRangeTest(f), AccountTest(f), FirstThreeTest(f));
    StepsAreFilters(s3, f);
    FilterFilter(ts, FirstThreeTest(f), TypeTest(f), MatchTest(f));
  }

  /** The filtered view keeps the order of the movements. */
  lemma FilteredIsSubseq(ts: seq<Transaction>, f: FilterState)
    ensures IsSubseq(Filtered(ts, f), ts)
  {
    FilterIsSubseq(ts, MatchTest(f));
  }

  /** Filtering the filtered view again changes nothing. */
  lemma FilteredIdempotent(ts: seq<Transaction>, f: FilterState)
    ensures Filtered(Filtered(ts, f), f) == Filtered(ts, f)
  {
    var r := Filtered(ts, f);
    assert forall i :: 0 <= i < |r| ==> MatchTest(f)(r[i]) by {
      forall i | 0 <= i < |r| ensures MatchTest(f)(r[i]) {
        assert r[i] in r;
      }
    }
    FilterAll(r, MatchTest(f));
  }

  /** With both ends set, the range keeps exactly the dates between them, both ends included. */
  lemma RangeInclusive(f: FilterState, t: Transaction)
    requires f.dateRange.0.Some? && f.dateRange.1.Some?
    ensures InRange(f, t) <==> DateKey(f.dateRange.0.value) <= Key(t) <= DateKey(f.dateRange.1.value)
  {
  }

  /** A range with a missing end filters nothing: it acts as no range at all. */
  lemma HalfOpenRangeInactive(ts: seq<Transaction>, f: FilterState)
    requires f.dateRange.0.None? || f.dateRange.1.None?
    ensures Filtered(ts, f) == Filtered(ts, f.(dateRange := (None, None)))
  {
    FilterExt(ts, MatchTest(f), MatchTest(f.(dateRange := (None, None))));
  }

  /** A zero amount passes the type filter only under `all`. */
  lemma ZeroOnlyUnderAll(f: FilterState, t: Transaction)
    requires t.importe == 0.0
    ensures OfType(f, t) <==> f.transactionType == All
  {
  }

  /** Moving to `income` or `expense` never adds a movement to the view. */
  lemma TypeNarrows(ts: seq<Transaction>, f: FilterState, ty: TxType)
    requires f.transactionType == All
    ensures |Filtered(ts, f.(transactionType := ty))| <= |Filtered(ts, f)|
  {
    var g := f.(transactionType := ty);
    FilterMonotone(ts, MatchTest(g), MatchTest(f));
  }

  // ---------------------------------------------------------------------------
  // Derived queries

  /** `Array.from(new Set(accounts)).filter(Boolean)`. */
  function UniqueAccounts(ts: seq<Transaction>): (r: seq<string>)
    ensures NoDups(r)
    ensures forall a | a in r :: a != "" && exists t :: t in ts && t.cuenta == a
    ensures forall t | t in ts :: t.cuenta != "" ==> t.cuenta in r
  {
    var accounts := seq(|ts|, i requires 0 <= i < |ts| => ts[i].cuenta);
    var d := Distinct(accounts);
    var r := Filter(d, (a: string) => a != "");
    FilterNoDups(d, (a: string) => a != "");
    forall a | a in r ensures exists t :: t in ts && t.cuenta == a {
      var i :| 0 <= i < |accounts| && accounts[i] == a;
      assert ts[i] in ts;
    }
    forall t | t in ts && t.cuenta != "" ensures t.cuenta in r {
      var i :| 0 <= i < |ts| && ts[i] == t;
      assert accounts[i] == t.cuenta;
    }
    r
  }

  /** Filtering keeps a sequence free of duplicates. */
  lemma FilterNoDups<T>(s: seq<T>, p: T -> bool)
    requires NoDups(s)
    ensures NoDups(Filter(s, p))
  {
    FilterIsSubseq(s, p);
    SubseqNoDups(Filter(s, p), s);
  }

  lemma {:induction false} SubseqNoDups<T>(r: seq<T>, s: seq<T>)
    requires IsSubseq(r, s) && NoDups(s)
    ensures NoDups(r)
    decreases |s|
  {
    if r != [] && s != [] {
      var s' := s[..|s| - 1];
      assert NoDups(s');
      if r[|r| - 1] == s[|s| - 1] {
        var r' := r[..|r| - 1];
        SubseqNoDups(r', s');
        forall i | 0 <= i < |r'| ensures r'[i] != r[|r| - 1] {
          assert r'[i] in r';
          SubseqMembers(r', s');
        }
      } else {
        SubseqNoDups(r, s');
      }
    }
  }

  lemma {:induction false} SubseqMembers<T>(r: seq<T>, s: seq<T>)
    requires IsSubseq(r, s)
    ensures forall x | x in r :: x in s
    decreases |s|
  {
    if r != [] && s != [] {
      if r[|r| - 1] == s[|s| - 1] {
        SubseqMembers(r[..|r| - 1], s[..|s| - 1]);
        assert r == r[..|r| - 1] + [r[|r| - 1]];
      } else {
        SubseqMembers(r, s[..|s| - 1]);
      }
    }
  }

  /** Newest year first. */
  function Descending(y: int): real {
    -(y as real)
  }

  /** `Array.from(new Set(years)).sort((a, b) => b - a)`. */
  function AvailableYears(ts: seq<Transaction>): (r: seq<int>)
    ensures forall i, j :: 0 <= i < j < |r| ==> r[i] > r[j]
    ensures forall y | y in r :: exists t :: t in ts && Year(t) == y
    ensures forall t | t in ts :: Year(t) in r
  {
    var years := seq(|ts|, i requires 0 <= i < |ts| => Year(ts[i]));
    var d := Distinct(years);
    var r := SortBy(d, Descending);
    StrictlyDescending(r, d);
    YearsMembers(ts, years, d, r);
    r
  }

  lemma StrictlyDescending(r: seq<int>, d: seq<int>)
    requires SortedBy(r, Descending) && multiset(r) == multiset(d) && NoDups(d)
    ensures forall i, j :: 0 <= i < j < |r| ==> r[i] > r[j]
  {
    PermutationNoDups(r, d);
    forall i, j | 0 <= i < j < |r| ensures r[i] > r[j] {
      assert Descending(r[i]) <= Descending(r[j]);
      assert r[i] != r[j];
    }
  }

  lemma YearsMembers(ts: seq<Transaction>, years: seq<int>, d: seq<int>, r: seq<int>)
    requires |years| == |ts| && forall i :: 0 <= i < |ts| ==> years[i] == Year(ts[i])
    requires (forall y | y in d :: y in years) && (forall y | y in years :: y in d)
    requires multiset(r) == multiset(d)
    ensures forall y | y in r :: exists t :: t in ts && Year(t) == y
    ensures forall t | t in ts :: Year(t) in r
  {
    forall y | y in r ensures exists t :: t in ts && Year(t) == y {
      assert y in multiset(r);
      assert y in d;
      var i :| 0 <= i < |years| && years[i] == y;
      assert ts[i] in ts;
    }
    forall t | t in ts ensures Year(t) in r {
      var i :| 0 <= i < |ts| && ts[i] == t;
      assert years[i] == Year(t) && Year(t) in d;
      assert Year(t) in multiset(d);
    }
  }

  // ---------------------------------------------------------------------------
  // The store

  /** The filters the store starts with and returns to: nothing selected. */
  function NoFilters(): (f: FilterState)
    ensures forall t :: Matches(f, t)
  {
    FilterState((None, None), [], All, None)
  }

  class FinancialStore {
    var transactions: seq<Transaction>
    var filteredTransactions: seq<Transaction>
    var isLoading: bool
    var error: Option<string>
    var filters: FilterState

    /** The view is always the filter of the movements under the current settings. */
    ghost predicate Valid()
      reads this
    {
      filteredTransactions == Filtered(transactions, filters)
    }

    /** The initial state: no data, not loading, no error, no filters. */
    ghost predicate Initial()
      reads this
    {
      transactions == [] && filteredTransactions == [] && !isLoading && error.None?
      && filters == NoFilters()
    }

    constructor()
      ensures Initial() && Valid()
    {
      transactions := [];
      filteredTransactions := [];
      isLoading := false;
      error := None;
      filters := NoFilters();
    }

    /**
     * `applyFilters`: year, then range, then accounts, then type, each step
     * only when its setting is active.
     */
    method ApplyFilters()
      modifies this
      ensures Valid()
      ensures transactions == old(transactions) && filters == old(filters)
      ensures isLoading == old(isLoading) && error == old(error)
    {
      var filtered := transactions;
      if filters.selectedYear.Some? {
        filtered := Filter(filtered, YearTest(filters));
      }
      if filters.dateRange.0.Some? && filters.dateRange.1.Some? {
        filtered := Filter(filtered, RangeTest(filters));
      }
      if |filters.selectedAccounts| > 0 {
        filtered := Filter(filtered, AccountTest(filters));
      }
      if filters.transactionType == Income {
        filtered := Filter(filtered, IsIncome);
      } else if filters.transactionType == Expense {
        filtered := Filter(filtered, IsExpense);
      }
      StepsCompose(transactions, filters);
      filteredTransactions := filtered;
    }

    /** `setTransactions`: new data, the year selection cleared, the view recomputed. */
    method SetTransactions(ts: seq<Transaction>)
      modifies this
      ensures transactions == ts
      ensures filters == old(filters).(selectedYear := None)
      ensures isLoading == old(isLoading) && error == old(error)
      ensures Valid()
    {
      transactions := ts;
      filters := filters.(selectedYear := None);
      ApplyFilters();
    }

    method SetLoading(loading: bool)
      modifies this
      ensures isLoading == loading
      ensures transactions == old(transactions) && filteredTransactions == old(filteredTransactions)
      ensures filters == old(filters) && error == old(error)
    {
      isLoading := loading;
    }

    method SetError(e: Option<string>)
      modifies this
      ensures error == e
      ensures transactions == old(transactions) && filteredTransactions == old(filteredTransactions)
      ensures filters == old(filters) && isLoading == old(isLoading)
    {
      error := e;
    }

    method SetDateRange(range: (Option<Date>, Option<Date>))
      modifies this
      ensures filters == old(filters).(dateRange := range)
      ensures transactions == old(transactions) && isLoading == old(isLoading) && error == old(error)
      ensures Valid()
    {
      filters := filters.(dateRange := range);
      ApplyFilters();
    }

    method SetSelectedAccounts(accounts: seq<string>)
      modifies this
      ensures filters == old(filters).(selectedAccounts := accounts)
      ensures transactions == old(transactions) && isLoading == old(isLoading) && error == old(error)
      ensures Valid()
    {
      filters := filters.(selectedAccounts := accounts);
      ApplyFilters();
    }

    method SetTransactionType(ty: TxType)
      modifies this
      ensures filters == old(filters).(transactionType := ty)
      ensures transactions == old(transactions) && isLoading == old(isLoading) && error == old(error)
      ensures Valid()
    {
      filters := filters.(transactionType := ty);
      ApplyFilters();
    }

    method SetSelectedYear(year: Option<int>)
      modifies this
      ensures filters == old(filters).(selectedYear := year)
      ensures transactions == old(transactions) && isLoading == old(isLoading) && error == old(error)
      ensures Valid()
    {
      filters := filters.(selectedYear := year);
      ApplyFilters();
    }

    /** `getUniqueAccounts`, over all movements whatever the filters. */
    function GetUniqueAccounts(): (r: seq<string>)
      reads this
      ensures r == UniqueAccounts(transactions)
      ensures NoDups(r)
      ensures forall a | a in r :: a != "" && exists t :: t in transactions && t.cuenta == a
      ensures forall t | t in transactions :: t.cuenta != "" ==> t.cuenta in r
    {
      UniqueAccounts(transactions)
    }

    /** `getAvailableYears`, over all movements whatever the filters. */
    function GetAvailableYears(): (r: seq<int>)
      reads this
      ensures r == AvailableYears(transactions)
      ensures forall i, j :: 0 <= i < j < |r| ==> r[i] > r[j]
      ensures forall y | y in r :: exists t :: t in transactions && Year(t) == y
      ensures forall t | t in transactions :: Year(t) in r
    {
      AvailableYears(transactions)
    }

    /** `clearData`: back to the initial state. */
    method ClearData()
      modifies this
      ensures Initial() && Valid()
    {
      transactions := [];
      filteredTransactions := [];
      isLoading := false;
      error := None;
      filters := NoFilters();
    }
  }
}
