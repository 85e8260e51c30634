/** components/IncomeList.tsx: the rows the income list shows. */
module IncomeList {
  import opened Records
  import DashboardData

  /** `{id: income.id, name: income.source, amount: income.amount}`. */
  function Item(income: Income): TransactionItem {
    TransactionItem(income.id, income.source, income.amount)
  }

  /** `incomes.map(...)`: one row per income, in the same order. */
  function TransactionItems(incomes: seq<Income>): (items: seq<TransactionItem>)
    ensures |items| == |incomes|
    ensures forall i :: 0 <= i < |incomes| ==>
      && items[i].id == incomes[i].id
      && items[i].name == incomes[i].source
      && items[i].amount == incomes[i].amount
  {
    if incomes == [] then [] else [Item(incomes[0])] + TransactionItems(incomes[1..])
  }

  /**
   * Deleting an income from the dashboard's list and then listing it gives the
   * rows of the old list with that income's row removed.
   */
  lemma {:induction false} ItemsWithout(incomes: seq<Income>, id: string)
    ensures TransactionItems(DashboardData.Without(incomes, id, DashboardData.IncomeId))
      == DashboardData.Without(TransactionItems(incomes), id, (item: TransactionItem) => item.id)
  {
    if incomes != [] {
      ItemsWithout(incomes[1..], id);
      var rest := DashboardData.Without(incomes[1..], id, DashboardData.IncomeId);
      if incomes[0].id == id {
        assert DashboardData.Without(incomes, id, DashboardData.IncomeId) == rest;
      } else {
        assert DashboardData.Without(incomes, id, DashboardData.IncomeId) == [incomes[0]] + rest;
        assert ([incomes[0]] + rest)[1..] == rest;
      }
      assert TransactionItems(incomes)[1..] == TransactionItems(incomes[1..]);
    }
  }
}
