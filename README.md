# Bank-movements dashboard and categoriser, modelled in Dafny

The system has two parts.

* A web dashboard (TypeScript/React) that loads a bank's CSV export of
  movements. It parses the amounts and dates, keeps the movements in a state
  container with year, date-range, account and type filters, and computes
  from the filtered movements:
  * the summary figures: income, expenses, final balance and savings rate;
  * the per-account balances;
  * month-by-month balance and income/expense series, capped to the latest
    50 or 36 months;
  * category rankings, a donut, a sunburst, calendar heat maps and a
    category-by-month trend;
  * expenses by year, a year-against-year comparison;
  * a searchable, paginated table.
* A Go command-line categoriser (`Clasifica_movimientos_bancarios/main.go`).
  It reads a keyword→category worksheet and tags each movement of the CSV
  files with the category of the first keyword its concept contains. It then
  writes one combined sheet under a fixed nine-column header.

The model follows each source file's own form:

* Computations over the movements are pure functions over sequences. Their
  meaning is proved in lemmas.
* The loops the source runs are `method`s with invariants, proved equal to
  those functions. These are the dictionary reductions (`Grouping.Tally`,
  `Grouping.NestedTally`), the in-place sort of the parser
  (`CsvParser.SortNewestFirst`, on an `array`), the category loops of the
  chart by year, and the Go read and lookup loops.
* The two stateful components are classes whose methods update their fields:
  the store (`Store.FinancialStore`) and the table's UI state
  (`Table.TransactionsTable`).

Representation choices:

* Amounts are exact `real`s.
* `Math.round` is `floor(x + 0.5)`.
* Whitespace for `trim()` (`Text.IsSpace`) is ECMAScript's white-space and
  line-terminator characters: tab, LF, VT, FF, CR, space, NBSP, BOM, and the
  Unicode space separators, line separator and paragraph separator.
* A date is a `(year, month, day)` value. Dates compare by a linear key that
  is strictly monotone in the calendar order.
* JavaScript's stable `Array.prototype.sort` with a numeric comparator is a
  stable insertion sort by a real key (`Seqs.SortBy`).
* Objects used as dictionaries keep their keys in first-insertion order. The
  exception is year keys, which are integer-like and so are enumerated in
  ascending order.

Behaviours of the code worth noting:

* Dates are parsed only in the `dd-MM-yyyy` layout (`csvParser.ts:9`). Slash
  dates are rejected (`CsvParser.ParseDateRejectsOtherLayouts`).
* The charts grid's balance series shows 0 for a month without movements
  (`ChartsGrid.tsx:61-62`). Only the overview tab carries the previous
  balance forward.
* The search does not move the active page back (`TransactionsTable.tsx:83`).
  A narrowing search can therefore leave the table on an empty page with no
  pagination control (`Table.StrandedPage`).

## Model

| member | source | states |
|---|---|---|
| Transactions.Abs | src/components/Dashboard/KpiCards.tsx:16 | `Math.abs`: the result is non-negative and is the value or its negation |
| Transactions.CategoryKey | src/components/Dashboard/ExpensesAnalysisTab.tsx:32 | `categoria \|\| 'Sin categoría'` is never empty and is the movement's own category whenever that is not blank |
| Transactions.Round | src/components/Dashboard/ChartsGrid.tsx:66 | `Math.round` gives the integer within half of the value, halves rounded up |
| Text.TrimStart | src/utils/csvParser.ts:27 | the result is a suffix of the input, and what it drops is all whitespace and it starts with none |
| Text.TrimEnd | src/utils/csvParser.ts:27 | the result is a prefix of the input, and what it drops is all whitespace and it ends with none |
| Text.Trim | src/utils/csvParser.ts:27 | `trim()` returns the infix of its input left after dropping a blank prefix and a blank suffix, with no whitespace at either end |
| Text.TrimEmptyIffBlank | src/utils/csvParser.ts:16 | a text trims to "" exactly when it is blank |
| Text.TrimIdempotent | src/utils/csvParser.ts:47 | trimming a trimmed header changes nothing |
| Text.ToLower | src/components/Dashboard/TransactionsTable.tsx:24 | `toLowerCase()` keeps the length and lower-cases each character |
| Text.LowerChar | src/components/Dashboard/TransactionsTable.tsx:26 | `A`–`Z` become `a`–`z`, and every other character is left as it is |
| Text.ToLowerIdempotent | src/components/Dashboard/TransactionsTable.tsx:24-28 | lower-casing twice is lower-casing once |
| Text.EmptyContained | src/components/Dashboard/TransactionsTable.tsx:26 | `includes('')` holds for every text |
| Text.PaddedDigits | src/utils/csvParser.ts:9 | the zero-padded numeral has the requested width, only digits, and reads back as the number |
| Text.NatDigits | src/utils/csvParser.ts:9 | the numeral of a number has only digits and reads back as the number |
| Dates.DaysInMonth | src/utils/csvParser.ts:9 | months have 28 to 31 days: 31 exactly for the seven long months, 29 exactly for February of a leap year |
| Dates.DateKeyOrder | src/utils/csvParser.ts:66 | on calendar dates, comparing `getTime()` keys is the calendar order, and equal keys are equal dates |
| Dates.MonthIndexInjective | src/components/Dashboard/OverviewTab.tsx:54 | distinct months have distinct month indices |
| Dates.Succ | src/components/Dashboard/OverviewTab.tsx:54 | the next month is a month whose index is one more |
| Dates.InMonthIsWithinBounds | src/components/Dashboard/OverviewTab.tsx:61-62 | a date is between `startOfMonth` and `endOfMonth` of a month exactly when it lies in that month |
| Dates.BeforeMonthStart | src/components/Dashboard/OverviewTab.tsx:76 | a date is before `startOfMonth(m)` exactly when its month comes before `m` |
| Dates.MonthIndexMonotone | src/components/Dashboard/OverviewTab.tsx:51-54 | a later date is in the same or a later month |
| Dates.MonthRange | src/components/Dashboard/OverviewTab.tsx:54 | `eachMonthOfInterval` has one entry per month from the first to the last, consecutive indices, empty when the first is after the last |
| Dates.MonthRangeMembership | src/components/Dashboard/OverviewTab.tsx:54 | a month is in the range exactly when it lies between its ends |
| Dates.MonthRangeConsecutive | src/components/Dashboard/OverviewTab.tsx:54 | each entry of the range is the month after the one before, and none repeats |
| Seqs.Filter | src/store/financialStore.ts:100-102 | `filter` keeps exactly the elements satisfying the test, and never lengthens |
| Seqs.FilterIsSubseq | src/store/financialStore.ts:96-127 | filtering keeps the elements' order: the result is a subsequence of the input |
| Seqs.FilterFilter | src/store/financialStore.ts:99-127 | two filters in a row are one filter by the conjunction |
| Seqs.Distinct | src/store/financialStore.ts:135 | `Array.from(new Set(xs))` holds every element once and nothing else |
| Seqs.DistinctFirstOccurrence | src/store/financialStore.ts:135 | the distinct elements come in the order of their first occurrence in the input |
| Seqs.IndexOf | src/components/Dashboard/ExpensesAnalysisTab.tsx:220 | `indexOf` finds the first position of the element |
| Seqs.Take | src/components/Dashboard/ChartsGrid.tsx:90 | `slice(0, n)` is the first `n` elements, or all when there are fewer |
| Seqs.TakeLast | src/components/Dashboard/OverviewTab.tsx:57 | `slice(-n)` is the last `n` elements, or all when there are fewer |
| Seqs.SortBy | src/components/Dashboard/ChartsGrid.tsx:89 | the sort is a permutation of its input, ordered by the key |
| Seqs.SortByStable | src/components/Dashboard/ChartsGrid.tsx:89 | the sort is stable: the elements with any one key keep their relative order |
| Seqs.SortByKeyOrder | src/utils/csvParser.ts:66 | the sorted sequence agrees with its input key by key |
| Seqs.SwapKeyOrder | src/utils/csvParser.ts:66 | swapping two neighbours with different keys keeps the order within every key |
| Seqs.SortedUnique | src/utils/csvParser.ts:66 | two sequences sorted by a key that agree key by key are equal, so a stable sort has one result |
| Seqs.SortBySum | src/components/Dashboard/ChartsGrid.tsx:103-113 | sorting does not change the sum of a value over the elements |
| Seqs.Latest | src/components/Dashboard/KpiCards.tsx:27 | the `reduce` keeping the later element finds one with the largest key, the first such |
| Seqs.Earliest | src/components/Dashboard/OverviewTab.tsx:72 | the `reduce` keeping the earlier element finds one with the smallest key, the first such |
| Seqs.SumFilter | src/components/Dashboard/KpiCards.tsx:10-12 | summing over a filter is summing the value masked by the test |
| Grouping.Tally | src/components/Dashboard/ExpensesAnalysisTab.tsx:31-37 | the dictionary reduction loop returns `Object.entries` of the reduction: each key once in first-insertion order with the sum of its values |
| Grouping.AddTracks | src/components/Dashboard/ExpensesAnalysisTab.tsx:33 | one `acc[k] = (acc[k] \|\| 0) + v` step keeps the accumulator equal to the reduction of the items seen |
| Grouping.EntriesGrouped | src/components/Dashboard/ExpensesAnalysisTab.tsx:37 | reading back an accumulator that tracks the items gives the grouped entries |
| Grouping.GroupedKeys | src/components/Dashboard/ExpensesAnalysisTab.tsx:31-37 | every key of the grouping comes from an item, and every item's key is one of them |
| Grouping.GroupTotalsSum | src/components/Dashboard/ChartsGrid.tsx:103 | the totals of all groups add up to the sum of all the values |
| Grouping.GroupedSum | src/components/Dashboard/ChartsGrid.tsx:103 | `Object.values(acc)` adds up to the sum of all the values |
| Grouping.GroupedPositive | src/components/Dashboard/ChartsGrid.tsx:99 | when every value added is positive, so is every group's total |
| Grouping.KeyTotalNonNegative | src/components/Dashboard/ChartsGrid.tsx:99 | totals of non-negative values are non-negative |
| Grouping.LookupGrouped | src/components/Dashboard/ExpensesAnalysisTab.tsx:224 | `acc[k] \|\| 0` on the finished reduction is the key's total, 0 for a key never added |
| Grouping.LookupMissing | src/components/Dashboard/ChartsGrid.tsx:159 | a key absent from the entries reads as 0 |
| Grouping.NestedAddSeen | src/components/Dashboard/ExpensesAnalysisTab.tsx:61-63 | an item under an outer key already seen updates that key's total and inner dictionary and keeps the accumulator tracking |
| Grouping.NestedAddNew | src/components/Dashboard/ExpensesAnalysisTab.tsx:54-63 | an item under a new outer key opens an empty bucket for it after the others, then absorbs the item |
| Grouping.NestedTally | src/components/Dashboard/ExpensesAnalysisTab.tsx:48-68 | the two-level reduction loop returns the two-level grouping: each outer key with its total and the reduction of its inner keys |
| Grouping.InnerSum | src/components/Dashboard/ExpensesAnalysisTab.tsx:61-63 | the values under one outer key add up to that key's total |
| Grouping.NestedChildrenSum | src/components/Dashboard/ExpensesAnalysisTab.tsx:61-63 | each outer entry's total is the sum of its children's values |
| CsvParser.TrimHeaders | src/utils/csvParser.ts:47 | `transformHeader: trim` trims every header name and keeps their order |
| CsvParser.ZipField | src/utils/csvParser.ts:44 | a cell is found under the first header name equal to its own |
| CsvParser.ZipAbsent | src/utils/csvParser.ts:44 | a name that no header with a cell has is absent from the row |
| CsvParser.RowOfLookup | src/utils/csvParser.ts:44-47 | a cell is found under the trimmed text of its header |
| CsvParser.RowOfMissing | src/utils/csvParser.ts:44-47 | a name that no header with a cell trims to is `undefined` in the row |
| CsvParser.ReplaceFirst | src/utils/csvParser.ts:17 | `replace(',', '.')` keeps the length and changes characters only into the point |
| CsvParser.ReplaceFirstSpec | src/utils/csvParser.ts:17 | only the first comma, if any, becomes a point, and every other character is unchanged |
| CsvParser.TrimReplaceFirst | src/utils/csvParser.ts:16-17 | replacing the comma does not change where trimming cuts |
| CsvParser.ReplaceSeparator | src/utils/csvParser.ts:17 | a comma number with its comma turned into a point reads as the same exact value |
| CsvParser.ParseNumber | src/utils/csvParser.ts:15-18 | `parseNumber`: 0 for an absent or blank cell, else the exact value of the comma number |
| CsvParser.ParseCommaNumber | src/utils/csvParser.ts:15-18 | a comma number is read as its sign, units and fraction say |
| CsvParser.ParseAmountText | src/utils/csvParser.ts:15-18 | reading back an amount in cents written as the bank writes it gives exactly that amount |
| CsvParser.ParseDate | src/utils/csvParser.ts:8-10 | `parse(s, 'dd-MM-yyyy')` yields only calendar dates with a year from 1 to 9999 |
| CsvParser.ParseDateFields | src/utils/csvParser.ts:8-10 | day, month and year fields separated by dashes are read field by field and checked against the calendar |
| CsvParser.ParseFormatDate | src/utils/csvParser.ts:8-10 | a zero-padded `dd-MM-yyyy` text parses back to its date exactly when the date exists |
| CsvParser.ParseDateRejectsOtherLayouts | src/utils/csvParser.ts:9 | a year-first or slash-separated date is an Invalid Date |
| CsvParser.TextField | src/utils/csvParser.ts:27-34 | `raw[name]?.trim() \|\| dflt` is the trimmed cell when that is not empty, else the default |
| CsvParser.MapRaw | src/utils/csvParser.ts:23-36 | `mapRawToTransaction`: a movement exactly when the posted date parses. The movement has that calendar date, and the value date if it parses. The category is the trimmed cell, or `Sin categoría` when it is empty. The other text fields are the trimmed cells, or "" when absent. The amount and balance are read by `parseNumber` |
| CsvParser.MapRows | src/utils/csvParser.ts:55-59 | the rows with a posted date and an `Importe` key, mapped, one result per such row |
| CsvParser.Somes | src/utils/csvParser.ts:60-63 | the filter on `isNaN(getTime())` never yields more movements than there were rows, and when every row parsed it keeps them all, in order |
| CsvParser.SomesAppend | src/utils/csvParser.ts:60-63 | filtering a concatenation is the concatenation of the filtered parts |
| CsvParser.SomesMembership | src/utils/csvParser.ts:60-63 | a movement is kept exactly when it is a parsed result |
| CsvParser.KeptAllRows | src/utils/csvParser.ts:54-63 | when every row is complete, has a posted date that parses and readable amounts, each row gives exactly one movement, in row order |
| CsvParser.KeptAllCount | src/utils/csvParser.ts:54-63 | rows that are all complete with a parsable posted date give as many movements as there are rows |
| CsvParser.KeptSpec | src/utils/csvParser.ts:54-63 | the movements kept are exactly the mapped complete rows whose date parsed, each with a calendar date, no more than the rows |
| CsvParser.InsertNewest | src/utils/csvParser.ts:66 | one insertion step leaves the array's first `i + 1` elements newest first, permutes the array, and keeps the order of movements posted on the same day |
| CsvParser.NewestFirstSorted | src/utils/csvParser.ts:66 | most recent first is ascending order of the comparator's key |
| CsvParser.SortNewestFirst | src/utils/csvParser.ts:66 | the in-place sort leaves the array most recent first, a permutation of what it held, with movements posted on the same day in their original order, so it is exactly the stable sort of the old contents |
| CsvParser.ParseCsvContent | src/utils/csvParser.ts:54-68 | `parseCSVContent` returns the kept movements stably sorted most recent first, so the result is determined by the rows: a permutation of the kept movements, as many as there are kept rows, and one per row when every row is well formed |
| Store.Filtered | src/store/financialStore.ts:93-130 | `filteredTransactions` holds exactly the movements that pass every active filter, never more than the movements |
| Store.StepsAreFilters | src/store/financialStore.ts:99-127 | each step of `applyFilters`, skipped when its setting is inactive, is a filter by a test that then always holds |
| Store.StepsCompose | src/store/financialStore.ts:96-129 | the four steps in their order compute the filter by the conjunction |
| Store.FilteredIsSubseq | src/store/financialStore.ts:96-129 | the filtered view keeps the movements' order |
| Store.FilteredIdempotent | src/store/financialStore.ts:93-130 | filtering the filtered view again changes nothing |
| Store.RangeInclusive | src/store/financialStore.ts:106-113 | with both ends set, the range keeps the dates between them, both ends included |
| Store.HalfOpenRangeInactive | src/store/financialStore.ts:106 | a range with a missing end filters nothing |
| Store.ZeroOnlyUnderAll | src/store/financialStore.ts:123-127 | a zero amount passes the type filter only under `all` |
| Store.TypeNarrows | src/store/financialStore.ts:123-127 | choosing `income` or `expense` never adds a movement to the view |
| Store.UniqueAccounts | src/store/financialStore.ts:132-136 | each non-empty account of some movement once, and every non-empty account listed |
| Store.AvailableYears | src/store/financialStore.ts:138-142 | the years of the movements, newest first, strictly decreasing, each once, and every movement's year listed |
| Store.NoFilters | src/store/financialStore.ts:40-45 | the initial filters let every movement through |
| Store.FinancialStore.constructor | src/store/financialStore.ts:35-45 | the store starts empty, not loading, without error, with no filters |
| Store.FinancialStore.ApplyFilters | src/store/financialStore.ts:93-130 | `applyFilters` sets the view to the filter of the movements and changes nothing else |
| Store.FinancialStore.SetTransactions | src/store/financialStore.ts:48-59 | new movements, the year selection cleared, the view recomputed |
| Store.FinancialStore.SetLoading | src/store/financialStore.ts:61 | only the loading flag changes |
| Store.FinancialStore.SetError | src/store/financialStore.ts:63 | only the error changes |
| Store.FinancialStore.SetDateRange | src/store/financialStore.ts:65-70 | only the range changes, and the view is recomputed |
| Store.FinancialStore.SetSelectedAccounts | src/store/financialStore.ts:72-77 | only the accounts change, and the view is recomputed |
| Store.FinancialStore.SetTransactionType | src/store/financialStore.ts:79-84 | only the type changes, and the view is recomputed |
| Store.FinancialStore.SetSelectedYear | src/store/financialStore.ts:86-91 | only the year changes, and the view is recomputed |
| Store.FinancialStore.GetUniqueAccounts | src/store/financialStore.ts:132-136 | each non-empty account of any movement once, whatever the filters, and nothing else |
| Store.FinancialStore.GetAvailableYears | src/store/financialStore.ts:138-142 | the year of every movement and nothing else, whatever the filters, in strictly descending order |
| Store.FinancialStore.ClearData | src/store/financialStore.ts:144-155 | back to the initial state |
| Kpis.TotalIncome | src/components/Dashboard/KpiCards.tsx:10-12 | the sum of the positive amounts, never negative |
| Kpis.TotalExpenses | src/components/Dashboard/KpiCards.tsx:14-16 | the sum of the magnitudes of the negative amounts, never negative |
| Kpis.NetIsSignedSum | src/components/Dashboard/KpiCards.tsx:10-16 | income minus expenses is the signed sum of all amounts |
| Kpis.ZeroCountsInNeither | src/components/Dashboard/KpiCards.tsx:11-15 | adding a zero amount changes neither total |
| Kpis.Accounts | src/components/Dashboard/KpiCards.tsx:21 | each account of a movement once, and nothing else |
| Kpis.AccountsFirstOccurrence | src/components/Dashboard/KpiCards.tsx:21 | the accounts come in the order in which they first appear among the movements |
| Kpis.AccountRows | src/components/Dashboard/KpiCards.tsx:24 | exactly the movements of the account |
| Kpis.LatestOf | src/components/Dashboard/KpiCards.tsx:27 | a movement of the account that no movement of the account postdates |
| Kpis.LatestOfFirstOnTies | src/components/Dashboard/KpiCards.tsx:27 | on equal dates the reduce keeps the earlier movement |
| Kpis.FinalBalanceNewAccount | src/components/Dashboard/KpiCards.tsx:19-30 | a movement of a new account adds exactly its own balance to the final balance |
| Kpis.FinalBalanceOneAccount | src/components/Dashboard/KpiCards.tsx:19-30 | with a single account, the final balance is the balance after its latest movement |
| Kpis.SavingsRate | src/components/Dashboard/KpiCards.tsx:32 | 0 without income; with income, non-negative exactly when expenses do not exceed income, 100 exactly when there are none, and at most 100 for non-negative expenses |
| Kpis.RateColour | src/components/Dashboard/KpiCards.tsx:76 | green above 20, yellow above 10, red otherwise |
| Kpis.ColourMonotone | src/components/Dashboard/KpiCards.tsx:76 | a higher rate never gets a worse colour |
| Kpis.ComputeKpis | src/components/Dashboard/KpiCards.tsx:9-40 | the memo's figures are the final balance (`Kpis.FinalBalance`, the sum of each account's latest saldo), the income and expense totals (`Kpis.TotalIncome`, `Kpis.TotalExpenses`) and their savings rate (`Kpis.SavingsRate`): both totals non-negative, their difference the signed sum, the savings rate at most 100 with income and 0 without, all zero without movements |
| Timeline.Ascending | src/components/Dashboard/OverviewTab.tsx:47-49 | the ascending sort by posted date is a permutation in date order |
| Timeline.FirstMonth | src/components/Dashboard/OverviewTab.tsx:51 | the month of some movement, no later than any movement's month |
| Timeline.LastMonth | src/components/Dashboard/OverviewTab.tsx:52 | the month of some movement, no earlier than any movement's month |
| Timeline.Span | src/components/Dashboard/OverviewTab.tsx:51-54 | the consecutive months from the first to the last movement, each once, covering every movement |
| Timeline.MonthRows | src/components/Dashboard/OverviewTab.tsx:126-128 | exactly the movements posted within the month |
| Timeline.Capped | src/components/Dashboard/OverviewTab.tsx:57-58 | the last `cap` months, or all, with the total, displayed and limited metadata |
| Timeline.Shown | src/components/Dashboard/OverviewTab.tsx:54-58 | the shown months are the last `cap` months of the span, consecutive, ending with the latest movement's month |
| Timeline.ShownHas | src/components/Dashboard/OverviewTab.tsx:57 | one movement's month is shown exactly when it is among the last `cap` months |
| Timeline.SuffixHas | src/components/Dashboard/OverviewTab.tsx:57 | in a sequence without repeats, an element is in the suffix from `k` exactly when it sits at or after `k` |
| Timeline.ShownMembers | src/components/Dashboard/OverviewTab.tsx:57 | a movement's month is shown exactly when it is among the last `cap` months |
| Overview.AccountHasRows | src/components/Dashboard/OverviewTab.tsx:22-23 | every listed account has a movement, so the `undefined` branch is never taken |
| Overview.AccountEntry | src/components/Dashboard/OverviewTab.tsx:21-29 | an account's entry carries the balance of its latest movement |
| Overview.FinalBalancesByAccount | src/components/Dashboard/OverviewTab.tsx:16-31 | empty without movements, and otherwise one entry per account |
| Overview.BalancesInFirstOccurrenceOrder | src/components/Dashboard/OverviewTab.tsx:16-31 | the entries name accounts of the movements, in the order in which each account first appears |
| Overview.AccountsNamedOnce | src/components/Dashboard/OverviewTab.tsx:19 | no account has two entries |
| Overview.EveryAccountListed | src/components/Dashboard/OverviewTab.tsx:19-30 | every account of a movement has an entry |
| Overview.EntryIsLatest | src/components/Dashboard/OverviewTab.tsx:24-27 | each entry's balance is that of a movement of its account that no other postdates |
| Overview.BalancesAddUpToFinalBalance | src/components/Dashboard/OverviewTab.tsx:16-31 | the account balances add up to the final-balance card of the summary |
| Overview.EvolutionPoints | src/components/Dashboard/OverviewTab.tsx:60-87 | one point per month, the rounded total of the accounts' balances for that month |
| Overview.BalanceEvolution | src/components/Dashboard/OverviewTab.tsx:44-103 | nothing without movements; otherwise the points of the last 50 months of the sorted movements and their metadata |
| Overview.MonthWithMovements | src/components/Dashboard/OverviewTab.tsx:69-73 | an account with movements in the month counts the balance after the earliest of them |
| Overview.MonthCarriesForward | src/components/Dashboard/OverviewTab.tsx:74-79 | an account quiet in the month counts the balance after its latest earlier movement |
| Overview.MonthBeforeFirstMovement | src/components/Dashboard/OverviewTab.tsx:77 | an account with no movement up to the month's end counts nothing |
| Overview.QuietMonthsRepeat | src/components/Dashboard/OverviewTab.tsx:74-79 | two quiet months in a row show the same balance for the account |
| Overview.Bars | src/components/Dashboard/OverviewTab.tsx:122-147 | one bar group per month, with that month's income, expenses and savings |
| Overview.IncomeExpense | src/components/Dashboard/OverviewTab.tsx:106-175 | nothing without movements; otherwise the bars of the last 36 months and their metadata |
| Overview.SavingsLine | src/components/Dashboard/OverviewTab.tsx:157-164 | the savings line reads each bar's savings, month by month |
| Overview.MonthFigures | src/components/Dashboard/OverviewTab.tsx:130-138 | before rounding, a month's income and expenses are the summary-card totals of its movements and its savings their signed sum |
| Overview.MonthsPartition | src/components/Dashboard/OverviewTab.tsx:122-128 | over months holding each movement's month once, the monthly sums add up to the whole sum |
| Overview.MonthlyTotalsAddUp | src/components/Dashboard/OverviewTab.tsx:116-147 | over the whole span, the monthly income and expense figures add up to the summary-card totals |
| Charts.SaldoPoints | src/components/Dashboard/ChartsGrid.tsx:53-68 | one point per month: the rounded balance of the month's last movement, 0 when it has none |
| Charts.SaldoByMonthShape | src/components/Dashboard/ChartsGrid.tsx:41-75 | one point per month of the span; none without movements |
| Charts.LastRowIsLatest | src/components/Dashboard/ChartsGrid.tsx:57-61 | the last of a month's sorted movements is posted no earlier than any other of that month |
| Charts.SaldoBusyMonth | src/components/Dashboard/ChartsGrid.tsx:61-66 | a busy month shows the rounded balance after its latest movement |
| Charts.SaldoQuietMonth | src/components/Dashboard/ChartsGrid.tsx:62 | a quiet month shows 0, without carrying the previous balance forward |
| Charts.SlicesOf | src/components/Dashboard/ChartsGrid.tsx:105-111 | one slice per category with its rounded total and its share of the whole in percent |
| Charts.DonutTotal | src/components/Dashboard/ChartsGrid.tsx:103 | the category totals add up to all expenses, positive exactly when there is a category |
| Charts.DonutData | src/components/Dashboard/ChartsGrid.tsx:94-114 | the reduction loop, the sum of its values, the slices, the sort and the cut give the donut |
| Charts.DonutOrdered | src/components/Dashboard/ChartsGrid.tsx:112-113 | at most 8 slices, largest first |
| Charts.DonutShares | src/components/Dashboard/ChartsGrid.tsx:103-111 | each slice is an expense category with its rounded total, its share taken against all expenses, slices cut off included |
| Charts.CentreTotalIsDonutTotal | src/components/Dashboard/ChartsGrid.tsx:117-121 | the centre shows the rounded sum of all category totals |
| Charts.MonthlyBarsPerMonth | src/components/Dashboard/ChartsGrid.tsx:172-209 | one bar per month of the whole span, with no cut, each the overview's bar of that month |
| Charts.HeatmapData | src/components/Dashboard/ChartsGrid.tsx:235-252 | the reduction by day gives the heat map |
| Charts.HeatmapSpec | src/components/Dashboard/ChartsGrid.tsx:239-251 | one entry per distinct expense day, with the rounded sum spent that day, every expense day listed |
| Charts.HeatmapIsUncutCalendar | src/components/Dashboard/ChartsGrid.tsx:235-252 | when the expenses tab's calendar is not cut, both heat maps agree |
| Charts.CurrentYear | src/components/Dashboard/ChartsGrid.tsx:255-259 | the latest posted year, or today's year without movements |
| Expenses.Keyed | src/components/Dashboard/ExpensesAnalysisTab.tsx:31-33 | each movement keyed by the given key with the magnitude of its amount |
| Expenses.KeyedKeys | src/components/Dashboard/ExpensesAnalysisTab.tsx:31-33 | a key occurs exactly when some movement has it |
| Expenses.ExpenseValuesPositive | src/components/Dashboard/ExpensesAnalysisTab.tsx:30-33 | the magnitudes of expenses are positive |
| Expenses.RoundValues | src/components/Dashboard/ExpensesAnalysisTab.tsx:38-41 | `Math.round` of each value, keys kept |
| Expenses.ExpenseRows | src/components/Dashboard/ExpensesAnalysisTab.tsx:30 | exactly the movements with a negative amount |
| Expenses.ExpensesByCategory | src/components/Dashboard/ExpensesAnalysisTab.tsx:28-44 | the reduction loop, the rounding, the sort and the cut give the category bars |
| Expenses.RoundedGroupedEntries | src/components/Dashboard/ExpensesAnalysisTab.tsx:37-41 | every rounded entry, in any order, is a key with its rounded total |
| Expenses.CategoryBarsOrdered | src/components/Dashboard/ExpensesAnalysisTab.tsx:42-43 | at most 15 (or 10 on the grid) bars, largest first |
| Expenses.CategoryBarsEntries | src/components/Dashboard/ExpensesAnalysisTab.tsx:28-44 | each bar is the category of some expense with its rounded total, never negative |
| Expenses.CategoryBarsComplete | src/components/Dashboard/ExpensesAnalysisTab.tsx:43 | with no more categories than the cut, every expense's category has a bar |
| Expenses.SubcategoryKey | src/components/Dashboard/ExpensesAnalysisTab.tsx:52 | `subcategoria \|\| 'General'` is never empty and is the movement's own subcategory when that is not blank |
| Expenses.Segments | src/components/Dashboard/ExpensesAnalysisTab.tsx:68-78 | one segment per two-level entry, in order, each built from its own entry |
| Expenses.SunburstData | src/components/Dashboard/ExpensesAnalysisTab.tsx:47-86 | the two-level reduction loop, both sorts and the cut give the sunburst |
| Expenses.SunburstOrdered | src/components/Dashboard/ExpensesAnalysisTab.tsx:79-80 | at most 8 segments, largest first |
| Expenses.SunburstSegments | src/components/Dashboard/ExpensesAnalysisTab.tsx:61-77 | each segment's unrounded total is the sum of its subcategories, which are listed largest first |
| Expenses.Range | src/components/Dashboard/ExpensesAnalysisTab.tsx:89-130 | without movements or without expenses, the whole current year |
| Expenses.RangeSpec | src/components/Dashboard/ExpensesAnalysisTab.tsx:109-123 | ends on the latest expense; cut exactly when the years differ by more than 3, then from 1 January two years before; else from the earliest expense |
| Expenses.CalendarData | src/components/Dashboard/ExpensesAnalysisTab.tsx:133-153 | the range, then the reduction by day, give the calendar |
| Expenses.DayTotalsEntries | src/components/Dashboard/ExpensesAnalysisTab.tsx:143-152 | each day once, the date of one of the expenses, with the rounded sum spent that day |
| Expenses.DayTotalsComplete | src/components/Dashboard/ExpensesAnalysisTab.tsx:143-152 | every expense's day is listed |
| Expenses.CalendarDaysEntries | src/components/Dashboard/ExpensesAnalysisTab.tsx:137-152 | each day once, of some expense in range, with the rounded sum of that day's expenses in range |
| Expenses.CalendarDaysComplete | src/components/Dashboard/ExpensesAnalysisTab.tsx:137-142 | an expense is counted exactly when it is in range |
| Expenses.CalendarCoverage | src/components/Dashboard/ExpensesAnalysisTab.tsx:119-142 | every expense is shown unless the range was cut, and then exactly those of the last three years |
| Expenses.ToShow | src/components/Dashboard/ExpensesAnalysisTab.tsx:190-192 | the selection when there is one, else the names of the first 5 entries |
| Expenses.Table | src/components/Dashboard/ExpensesAnalysisTab.tsx:195-214 | one category reduction per shown month |
| Expenses.Line | src/components/Dashboard/ExpensesAnalysisTab.tsx:222-225 | one point per month: the rounded value under the category, 0 when absent |
| Expenses.Lines | src/components/Dashboard/ExpensesAnalysisTab.tsx:217-226 | one line per category shown |
| Expenses.SortedExpenses | src/components/Dashboard/ExpensesAnalysisTab.tsx:162-164 | the expenses sorted by date: exactly the movements with a negative amount, all with calendar dates |
| Expenses.TrendOf | src/components/Dashboard/ExpensesAnalysisTab.tsx:156-232 | nothing without movements or expenses; otherwise the trend of the sorted expenses over the last 36 months of their span |
| Expenses.MonthReduction | src/components/Dashboard/ExpensesAnalysisTab.tsx:199-208 | the reduction loop over one month's expenses |
| Expenses.MonthlyTotals | src/components/Dashboard/ExpensesAnalysisTab.tsx:195-214 | the reduction loop once per shown month gives the table |
| Expenses.TrendData | src/components/Dashboard/ExpensesAnalysisTab.tsx:156-232 | the hook's loops give the trend |
| Expenses.KeyedTotal | src/components/Dashboard/ExpensesAnalysisTab.tsx:179-183 | a category's total is the sum of the magnitudes of its movements |
| Expenses.GroupedEntries | src/components/Dashboard/ExpensesAnalysisTab.tsx:185-187 | the entries of a reduction, in any order, are each key with its total, every key present |
| Expenses.TrendCategoriesSpec | src/components/Dashboard/ExpensesAnalysisTab.tsx:179-187 | the categories offered are those of the expenses, each with its spending, largest first |
| Expenses.TrendPoints | src/components/Dashboard/ExpensesAnalysisTab.tsx:195-226 | each line has one point per month: the rounded spending on that category that month |
| Expenses.TrendQuietMonth | src/components/Dashboard/ExpensesAnalysisTab.tsx:224 | a category with no expense in a month is drawn at 0 there |
| Expenses.TrendTopFive | src/components/Dashboard/ExpensesAnalysisTab.tsx:190-192 | without a selection, at most five lines, and no category left out outranks one shown |
| ByYear.CollectCategories | src/components/Dashboard/ChartsGrid.tsx:137-140 | the nested `forEach` loops collect each year's categories once, in first-seen order |
| ByYear.FillRow | src/components/Dashboard/ChartsGrid.tsx:157-161 | one row: the year and, per category shown, its rounded value or 0 |
| ByYear.ByYearData | src/components/Dashboard/ChartsGrid.tsx:124-169 | the hook's loops give the categories list and the rows |
| ByYear.YearEntryFacts | src/components/Dashboard/ChartsGrid.tsx:125-134 | an entry of the reduction is a year of some expense with its categories' reduction |
| ByYear.OuterYears | src/components/Dashboard/ChartsGrid.tsx:128-131 | a year is a key exactly when some expense is posted in it |
| ByYear.YearEntriesAscending | src/components/Dashboard/ChartsGrid.tsx:155 | the entries come in strictly ascending year order |
| ByYear.ByYearRowsAscending | src/components/Dashboard/ChartsGrid.tsx:163 | the rows come in strictly ascending year order |
| ByYear.ByYearRowYears | src/components/Dashboard/ChartsGrid.tsx:155-163 | a row exists for a year exactly when some expense is posted in it |
| ByYear.InnerTotal | src/components/Dashboard/ChartsGrid.tsx:132 | the reduction under a year holds for each category the magnitudes of its expenses that year |
| ByYear.ByYearValues | src/components/Dashboard/ChartsGrid.tsx:158-160 | each row holds, per category shown, the rounded sum spent on it in the row's year |
| ByYear.ByYearMissing | src/components/Dashboard/ChartsGrid.tsx:159 | a category without an expense in a row's year shows 0 |
| ByYear.AllCategoriesMembers | src/components/Dashboard/ChartsGrid.tsx:137-140 | a category is collected exactly when it is a key of some year |
| ByYear.ChildCategories | src/components/Dashboard/ChartsGrid.tsx:132 | a category is among a year's keys exactly when some item has that year and category |
| ByYear.CategoriesOfExpenses | src/components/Dashboard/ChartsGrid.tsx:137-140 | the categories collected are exactly those of the expenses |
| ByYear.CategoryTotal | src/components/Dashboard/ChartsGrid.tsx:145-146 | a category summed over every year is everything spent on it |
| ByYear.ByYearCategoryOrder | src/components/Dashboard/ChartsGrid.tsx:148 | the categories come by descending rounded total, each once |
| ByYear.ByYearCategoryTotal | src/components/Dashboard/ChartsGrid.tsx:142-147 | each category listed is some expense's, with the rounded sum of all its expenses |
| ByYear.ByYearCategoryListed | src/components/Dashboard/ChartsGrid.tsx:142-148 | every expense's category is listed |
| YearComparison.YearsOf | src/components/Dashboard/ChartsGrid.tsx:266 | the year of each movement, in order |
| YearComparison.DistinctYears | src/components/Dashboard/ChartsGrid.tsx:266 | a year is listed exactly when some movement is posted in it |
| YearComparison.YearsAsWrittenOrder | src/components/Dashboard/ChartsGrid.tsx:266 | as written, `sort()` orders the years by their text, each once |
| YearComparison.WeightOrder | src/components/Dashboard/ChartsGrid.tsx:266 | the real key the text sort is modelled by orders numerals as string comparison does |
| YearComparison.YearsAscendingSpec | src/components/Dashboard/ChartsGrid.tsx:266 | the intended order lists each year of a movement once, strictly ascending |
| YearComparison.TextSortMisordersYears | src/components/Dashboard/ChartsGrid.tsx:266 | with years 999 and 2020, the text sort lists 2020 first, the numeric sort 999 first |
| YearComparison.DigitsOrder | src/components/Dashboard/ChartsGrid.tsx:266 | between numerals of equal length the text order is the numeric order |
| YearComparison.FourDigitYearsAgree | src/components/Dashboard/ChartsGrid.tsx:266 | while every year has four digits, the text sort and the numeric sort agree |
| YearComparison.SortByAgree | src/components/Dashboard/ChartsGrid.tsx:266 | two keys that order the elements alike give the same stable sort |
| YearComparison.ComparisonReordered | src/components/Dashboard/ChartsGrid.tsx:262-298 | the chart as written and the corrected chart hold the same lines |
| YearComparison.YearlyComparisonLines | src/components/Dashboard/ChartsGrid.tsx:262-298 | nothing without movements; one line per posted year, strictly ascending, twelve points each |
| YearComparison.MonthSpentMasked | src/components/Dashboard/ChartsGrid.tsx:276-284 | a month's expense of a year is the sum over all movements of the masked magnitude |
| YearComparison.YearlyComparisonPoints | src/components/Dashboard/ChartsGrid.tsx:281-289 | point `m` of a year's line is the rounded expense of that month (counted from 0) |
| YearComparison.TwelveMonthsAddUp | src/components/Dashboard/ChartsGrid.tsx:281-284 | over calendar dates, the twelve months add up to the year's expense |
| Table.SearchEmpty | src/components/Dashboard/TransactionsTable.tsx:22 | an empty search shows the movements as they are |
| Table.SearchIsFilter | src/components/Dashboard/TransactionsTable.tsx:21-30 | the empty-search shortcut agrees with filtering by the empty query |
| Table.SearchMembers | src/components/Dashboard/TransactionsTable.tsx:24-29 | a movement is shown exactly when its concept, category or account contains the lower-cased query |
| Table.SearchKeepsOrder | src/components/Dashboard/TransactionsTable.tsx:25-29 | the search keeps the movements' order |
| Table.SearchIgnoresCase | src/components/Dashboard/TransactionsTable.tsx:24 | the search ignores the case of the query |
| Table.TotalPages | src/components/Dashboard/TransactionsTable.tsx:33 | `Math.ceil(n / size)` is the fewest pages of that size holding the rows |
| Table.NoRowsNoPages | src/components/Dashboard/TransactionsTable.tsx:33 | no row means no page |
| Table.Slice | src/components/Dashboard/TransactionsTable.tsx:36 | `slice` never lengthens |
| Table.PageSlice | src/components/Dashboard/TransactionsTable.tsx:34-36 | a page is the rows from `(page-1)*size` up to `page*size` or the end |
| Table.PageBound | src/components/Dashboard/TransactionsTable.tsx:34-36 | a page holds at most the page size |
| Table.PageBeyondLast | src/components/Dashboard/TransactionsTable.tsx:33-36 | a page past the last is empty |
| Table.PagesPrefix | src/components/Dashboard/TransactionsTable.tsx:34-36 | the first `k` pages in order are the first `k*size` rows |
| Table.PagesCoverAll | src/components/Dashboard/TransactionsTable.tsx:33-36 | all pages in order are exactly the searched rows |
| Table.PaginationWhenOverflowing | src/components/Dashboard/TransactionsTable.tsx:119 | the control appears exactly when the rows do not fit on one page |
| Table.StrandedPage | src/components/Dashboard/TransactionsTable.tsx:83 | once the rows fit on one page, a later active page is empty and has no control |
| Table.TransactionsTable.constructor | src/components/Dashboard/TransactionsTable.tsx:9-11 | page 1, 50 rows a page, no search |
| Table.TransactionsTable.SetSearch | src/components/Dashboard/TransactionsTable.tsx:83 | only the query changes; the page is kept |
| Table.TransactionsTable.SetActivePage | src/components/Dashboard/TransactionsTable.tsx:123 | only the page changes |
| Table.TransactionsTable.SetPageSize | src/components/Dashboard/TransactionsTable.tsx:89-92 | the chosen size, 50 when cleared, and back to page 1 |
| Table.TransactionsTable.View | src/components/Dashboard/TransactionsTable.tsx:21-36 | the title count, the page's rows (each a matching movement, at most a page), the page count and the control (exactly when rows overflow one page) |
| Classifier.CategoryOf | Clasifica_movimientos_bancarios/main.go:123-134 | the scan stops at the first key contained in the lower-cased concept, and returns its category |
| Classifier.FirstMatchIsFirst | Clasifica_movimientos_bancarios/main.go:126-131 | the answer is the category of a matching key that no earlier key precedes in matching |
| Classifier.NoMatchIsEmpty | Clasifica_movimientos_bancarios/main.go:124 | no key matching means the empty category |
| Classifier.MatchHasKey | Clasifica_movimientos_bancarios/main.go:128-129 | a non-empty answer is the category of some matching key |
| Classifier.EmptyKeyMatches | Clasifica_movimientos_bancarios/main.go:128 | an empty keyword matches every concept |
| Classifier.LaterRowsIgnored | Clasifica_movimientos_bancarios/main.go:130 | rows after the first match are never consulted |
| Classifier.CaseOfConceptIgnored | Clasifica_movimientos_bancarios/main.go:125 | the lookup ignores the concept's case |
| Classifier.LoadKeyTable | Clasifica_movimientos_bancarios/main.go:91-102 | the row loop builds the key table |
| Classifier.KeyRowsMembers | Clasifica_movimientos_bancarios/main.go:96-101 | a key row comes exactly from a worksheet row of two or more cells: its keyword and its lower-cased category |
| Classifier.KeyTableMembers | Clasifica_movimientos_bancarios/main.go:91-101 | a key row comes exactly from a worksheet row after the first with two or more cells |
| Classifier.CategoriesLowerCase | Clasifica_movimientos_bancarios/main.go:100 | every category in the table is lower-case |
| Classifier.HeaderIgnored | Clasifica_movimientos_bancarios/main.go:92-94 | whatever the first row holds, the table is the same |
| Classifier.ProcessCSV | Clasifica_movimientos_bancarios/main.go:150-170 | the read loop keeps the well-formed movement records and appends the category of their concept |
| Classifier.ProcessedLength | Clasifica_movimientos_bancarios/main.go:155-169 | one output row per kept record |
| Classifier.ProcessedAt | Clasifica_movimientos_bancarios/main.go:167-169 | output row `i` is kept record `i` with its concept's category appended |
| Classifier.ProcessedRowsMembers | Clasifica_movimientos_bancarios/main.go:155-169 | a row is output exactly when it is some kept record, augmented |
| Classifier.ProcessedRowShape | Clasifica_movimientos_bancarios/main.go:158-168 | every output row has nine fields, the last the category of field 2 |
| Classifier.KeptInOrder | Clasifica_movimientos_bancarios/main.go:150-169 | the kept records keep the file's order |
| Classifier.BuildSheet | Clasifica_movimientos_bancarios/main.go:183-192 | the sheet is the header, then the rows of every file that did not fail, file after file |
| Classifier.HeaderWidth | Clasifica_movimientos_bancarios/main.go:184 | the header has nine columns |
| Classifier.ContentsInclude | Clasifica_movimientos_bancarios/main.go:191 | every row of a file that did not fail is in the sheet |
| Classifier.ContentsFrom | Clasifica_movimientos_bancarios/main.go:187-191 | every sheet row after the header comes from a file that did not fail |
| Classifier.SheetRowsWidth | Clasifica_movimientos_bancarios/main.go:183-192 | when every result came from the read loop, every row below the header has nine fields |

## Left out

- Papa Parse's tokeniser (quoting, the `;` delimiter, empty lines, renaming of duplicate headers) is not modelled. Rows start as header→cell maps, and of two equal headers the first keeps its cell.
- `parseFloat` on malformed text (NaN, trailing garbage, exponents) is not modelled. The amount cells are required to be blank, absent or comma numbers (`CsvParser.NumbersReadable`).
- CsvParser.ParseNumber: does not model IEEE 754 doubles. Amounts are exact reals, so results agree with the source only up to floating-point rounding.
- `toFixed(1)` on the donut's percentages and the `Intl.NumberFormat` currency texts are not modelled. Shares are exact reals.
- date-fns behaviour on invalid input (throwing on an Invalid Date) and time zones are not modelled. Parsed dates are local midnight, so `getTime()` order is calendar order.
- Charts.HeatmapIsUncutCalendar: does not model the expenses tab turning its `minDate`/`maxDate` strings back into dates with `new Date('yyyy-MM-dd')`, which reads them as UTC. The range ends are compared as calendar dates.
- Expenses.CalendarData: does not model the UTC reading of `new Date(minDate)` and `new Date(maxDate)` in the range filter (`ExpensesAnalysisTab.tsx:134-141`). The same holds for `Expenses.CalendarDays`, `Expenses.CalendarDaysEntries`, `Expenses.CalendarDaysComplete` and `Expenses.CalendarCoverage`. The model compares movements, which sit at local midnight, with the range ends as calendar dates. In the source the ends are midnight UTC. That is exact in UTC itself. East of UTC the start bound falls after local midnight, so the first day's movements are dropped. West of UTC the end bound falls before local midnight of the last day, so that day's movements are dropped.
- `format(..., 'yyyy-MM-dd')` day keys are modelled as dates, and `format(month, 'MMM yyyy')` labels as months. Month names and text formatting are left out.
- Text.ToLower: does not model Unicode case mapping. Only ASCII letters are lower-cased, and Go's `strings.ToLower` is modelled likewise.
- ByYear.YearEntries: does not model category names that collide with the row's `año` key. Dictionary keys are enumerated in first-insertion order, except year keys, which are integer-like and come in ascending order. Integer-like category names, which JavaScript would also enumerate first, are not distinguished.
- Grouping.Tally: does not model that JavaScript enumerates integer-like keys (a category named `2024`, say) first and in ascending order. The same holds for every grouping built on it (`Grouping.Grouped`, `Grouping.NestedGrouped`): keys are kept in first-insertion order.
- YearComparison.LineOf: line ids are years as integers rather than the `${year}` strings.
- Expenses.Segments: the segment total and its children are rounded separately, as in the source (`Expenses.SegmentOf`). No lemma relates the rounded total to the sum of the rounded children, which can differ from it.
- Table.TransactionsTable.SetPageSize: does not model page-size values that the selector does not offer.
- React rendering, colours, chart labels, memoisation and `useMemo` dependencies are not modelled. Each memo is modelled as the function of its inputs.
- `readFileContent`, `processCSVFile` (the FileReader) and the store's loading and error flows around them are I/O and are not modelled, apart from the store's flags.
- Go concurrency is not modelled. This covers the goroutines, the channel, the WaitGroup, and the results' arrival order: the sheet takes the results in the order given.
- Go I/O is not modelled. This covers listing `.csv` files, opening files, excelize reading and writing workbooks, the timestamped output name and error printing. `procesarCSV` does not return after a failed open (`main.go:140-146`). It sends the error result and then reads from a nil file. Every `Read` then fails with an error other than `io.EOF`, so the `continue` at `main.go:155-157` loops for ever. `wg.Done` never runs, the channel is never closed (`main.go:244-246`), and `escribirLibro` never returns, so no workbook is written. `Classifier.BuildSheet` instead skips a failed file and still builds the sheet; this is the evident intent, and the hang is left out with the rest of the I/O.
- The Go CSV reader's own rules (quotes, field counts) are not modelled. Each call's outcome is given as a record or a read error.
- `new Date()` (today's year) is a parameter.
- CsvParser.DateField: an absent `Fecha valor` cell is modelled as an Invalid Date. This is what date-fns v2 does with `parse(undefined, ...)`. Later versions throw instead, and the `catch` at `csvParser.ts:69-71` then rejects the whole file. That behaviour is not modelled.

## Findings

| source | as written | input that shows it | evidently intended | confidence | as-written member | corrected member |
|---|---|---|---|---|---|---|
| src/components/Dashboard/ChartsGrid.tsx:266 | `[...new Set(years)].sort()` with no comparator sorts the years as text | movements posted in the years 999 and 2020: the lines come out as 2020, then 999 | years in ascending numeric order | not executed | YearComparison.TextSortMisordersYears | YearComparison.YearsAscendingSpec |
