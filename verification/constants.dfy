/** The fixed data of the tracker (its `constants.ts`): the chart palette and
    the example ledger a fresh or reset store starts from. */
module Constants {
  import opened Calendar
  import opened Types

  /** Ten colours; a category's colour is picked by its first-seen index modulo ten. */
  const Colors: seq<string> := [
    "#0070F0", "#00B0FF", "#00F0FF", "#0040A0", "#0060C0",
    "#40C0FF", "#0080E0", "#003080", "#50D0FF", "#0050B0"]

  /** The example ledger. Its dates are computed once, when the module is
      loaded, from the UTC calendar date `loadDay` of that moment: today,
      today, 5 days ago, 10 days ago and 2 days ago. Amounts are in cents. */
  function InitialTransactions(loadDay: IsoDate): (r: seq<Transaction>)
    ensures |r| == 5
    ensures forall i, j :: 0 <= i < j < |r| ==> r[i].id != r[j].id
    ensures forall i :: 0 <= i < |r| ==> 0 < r[i].amount
    ensures forall i :: 0 <= i < |r| ==>
      Ordinal(loadDay) - 10 <= Ordinal(r[i].date) <= Ordinal(loadDay)
  {
    [ Transaction("1", "Salário Mensal", 500000, Income, "Salário", loadDay),
      Transaction("2", "Aluguel", 150000, Expense, "Moradia", loadDay),
      Transaction("3", "Conta de Luz", 18000, Expense, "Conta de Luz", DaysEarlier(loadDay, 5)),
      Transaction("4", "Internet Fibra", 10000, Expense, "Internet", DaysEarlier(loadDay, 10)),
      Transaction("5", "Supermercado", 60000, Expense, "Alimentação", DaysEarlier(loadDay, 2)) ]
  }
}
