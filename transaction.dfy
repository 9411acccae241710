/**
 * The records the dashboard works on: a normalised bank movement, the filter
 * settings of the store, and the few scalar rules every view shares (the
 * fallback category, absolute value, `Math.round`).
 */
module Transactions {
  import opened Wrappers
  import opened Dates

  /**
   * One movement. `fechaValor` is `None` where the value date did not parse
   * (an Invalid Date in the source); `fechaContable` is always a real date.
   */
  datatype Transaction = Transaction(
    fechaContable: Date,
    fechaValor: Option<Date>,
    concepto: string,
    importe: real,
    moneda: string,
    saldo: real,
    conceptoAmpliado: string,
    categoria: string,
    subcategoria: string,
    cuenta: string)

  /** `'all' | 'income' | 'expense'`. */
  datatype TxType = All | Income | Expense

  /** `[Date | null, Date | null]` is a pair of optional dates. */
  datatype FilterState = FilterState(
    dateRange: (Option<Date>, Option<Date>),
    selectedAccounts: seq<string>,
    transactionType: TxType,
    selectedYear: Option<int>)

  /** The category given to a movement whose `Categoria` field is blank or absent. */
  const Uncategorized: string := "Sin categor\U{ED}a"

  predicate IsIncome(t: Transaction) {
    t.importe > 0.0
  }

  predicate IsExpense(t: Transaction) {
    t.importe < 0.0
  }

  function Abs(x: real): (r: real)
    ensures r >= 0.0
    ensures r == x || r == -x
  {
    if x < 0.0 then -x else x
  }

  /** `t.categoria || 'Sin categoría'`. */
  function CategoryKey(t: Transaction): (k: string)
    ensures k != ""
    ensures t.categoria != "" ==> k == t.categoria
  {
    if t.categoria == "" then Uncategorized else t.categoria
  }

  /** `Math.round`: the nearest integer, halves rounded up. */
  function Round(x: real): (r: int)
    ensures x - 0.5 < r as real <= x + 0.5
  {
    (x + 0.5).Floor
  }

  function Year(t: Transaction): int {
    t.fechaContable.year
  }

  /** The numeric value `fechaContable.getTime()` is compared by. */
  function Key(t: Transaction): int {
    DateKey(t.fechaContable)
  }
}
