/** components/BudgetList.tsx: the rows the budget list shows. */
module BudgetList {
  import opened Records
  import DashboardData

  /** `{id: budget.id, name: budget.name, amount: budget.amount_allocated}`. */
  function Item(budget: Budget): TransactionItem {
    TransactionItem(budget.id, budget.name, budget.amount_allocated)
  }

  /** `budgets.map(...)`: one row per budget, in the same order. */
  function TransactionItems(budgets: seq<Budget>): (items: seq<TransactionItem>)
    ensures |items| == |budgets|
    ensures forall i :: 0 <= i < |budgets| ==>
      && items[i].id == budgets[i].id
      && items[i].name == budgets[i].name
      && items[i].amount == budgets[i].amount_allocated
  {
    if budgets == [] then [] else [Item(budgets[0])] + TransactionItems(budgets[1..])
  }

  /**
   * Deleting a budget from the dashboard's list and then listing it gives the
   * rows of the old list with that budget's row removed.
   */
  lemma {:induction false} ItemsWithout(budgets: seq<Budget>, id: string)
    ensures TransactionItems(DashboardData.Without(budgets, id, DashboardData.BudgetId))
      == DashboardData.Without(TransactionItems(budgets), id, (item: TransactionItem) => item.id)
  {
    if budgets != [] {
      ItemsWithout(budgets[1..], id);
      var rest := DashboardData.Without(budgets[1..], id, DashboardData.BudgetId);
      if budgets[0].id == id {
        assert DashboardData.Without(budgets, id, DashboardData.BudgetId) == rest;
      } else {
        assert DashboardData.Without(budgets, id, DashboardData.BudgetId) == [budgets[0]] + rest;
        assert ([budgets[0]] + rest)[1..] == rest;
      }
      assert TransactionItems(budgets)[1..] == TransactionItems(budgets[1..]);
    }
  }
}
