/** The records of the finance tracker (its `types.ts`). Amounts are whole
    cents, so every sum is exact. The TypeScript field `type` of a
    transaction is called `kind` here, since `type` is a Dafny keyword. */
module Types {
  import opened Wrappers
  import opened Calendar

  datatype TransactionType = Income | Expense

  datatype Transaction = Transaction(
    id: string,
    description: string,
    amount: int,
    kind: TransactionType,
    category: string,
    date: IsoDate)

  /** A transaction as the entry form hands it over, before an id is attached. */
  datatype NewTransaction = NewTransaction(
    description: string,
    amount: int,
    kind: TransactionType,
    category: string,
    date: IsoDate)
  {
    function WithId(id: string): Transaction
    {
      Transaction(id, description, amount, kind, category, date)
    }
  }

  datatype SummaryData = SummaryData(totalIncome: int, totalExpense: int, balance: int)

  datatype CategoryData = CategoryData(name: string, value: int, color: string)

  datatype ChartDataPoint = ChartDataPoint(date: IsoDate, income: int, expense: int)

  datatype DateFilterType = CurrentMonth | Last30Days | CurrentYear | Custom

  /** A stored account. `password` is optional in the record type; accounts
      created by registration always carry one. */
  datatype User = User(name: string, email: string, password: Option<string>)

  predicate IsIncome(t: Transaction)
  {
    t.kind == Income
  }

  predicate IsExpense(t: Transaction)
  {
    t.kind == Expense
  }

  function Amount(t: Transaction): int
  {
    t.amount
  }

  function CategoryOf(t: Transaction): string
  {
    t.category
  }

  function DateOf(t: Transaction): IsoDate
  {
    t.date
  }
}
