/**
 * The record shapes of types/data.ts, as the store holds them and the screens
 * receive them.
 */
module Records {
  import opened Wrappers

  /**
   * A JavaScript number where the app can let NaN through: the result of
   * `parseFloat`, and the amounts the budget and income forms store without
   * checking it. Infinities are not modelled.
   */
  datatype JsNumber = Num(value: real) | NaN

  /** A budgeting period; `daily_limit` and `notes` may be absent. */
  datatype Period = Period(
    id: string,
    name: string,
    start_date: string,
    end_date: string,
    userId: string,
    daily_limit: Option<real>,
    notes: Option<string>)

  datatype Income = Income(id: string, periodId: string, source: string, amount: JsNumber, userId: string)

  /** A budget is either paid or not, nothing else. */
  datatype BudgetStatus = Paid | NotPaid

  datatype Budget = Budget(
    id: string,
    periodId: string,
    name: string,
    amount_allocated: JsNumber,
    status: BudgetStatus,
    userId: string)

  /** One day's spending; `date` is meant to be `YYYY-MM-DD` text. */
  datatype DailyCost = DailyCost(id: string, periodId: string, userId: string, date: string, spent: real)

  datatype MiscellaneousCost = MiscellaneousCost(id: string, periodId: string, userId: string, title: string, amount: real)

  /** The `{id, name, amount}` row the transaction lists render. */
  datatype TransactionItem = TransactionItem(id: string, name: string, amount: JsNumber)
}
