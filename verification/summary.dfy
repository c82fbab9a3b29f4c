/** The summary cards of the dashboard (`App.tsx`, `summary`): income total,
    expense total and balance of the filtered transactions. */
module Summary {
  import opened Seqs
  import opened Types
  import opened Ledger

  /** Sum of the amounts of the income transactions. */
  function IncomeOf(txs: seq<Transaction>): int
  {
    Sum(Filter(txs, IsIncome), Amount)
  }

  /** Sum of the amounts of the expense transactions. */
  function ExpenseOf(txs: seq<Transaction>): int
  {
    Sum(Filter(txs, IsExpense), Amount)
  }

  lemma IncomeOfSnoc(txs: seq<Transaction>, t: Transaction)
    ensures IncomeOf(txs + [t]) == IncomeOf(txs) + (if IsIncome(t) then t.amount else 0)
  {
    var f := Filter(txs, IsIncome);
    FilterSnoc(txs, t, IsIncome);
    if IsIncome(t) {
      DropLastSnoc(f, t);
      assert Sum(f + [t], Amount) == Sum(f, Amount) + Amount(t);
    } else {
      assert Filter(txs + [t], IsIncome) == f + [];
      assert f + [] == f;
    }
  }

  lemma ExpenseOfSnoc(txs: seq<Transaction>, t: Transaction)
    ensures ExpenseOf(txs + [t]) == ExpenseOf(txs) + (if IsExpense(t) then t.amount else 0)
  {
    var f := Filter(txs, IsExpense);
    FilterSnoc(txs, t, IsExpense);
    if IsExpense(t) {
      DropLastSnoc(f, t);
      assert Sum(f + [t], Amount) == Sum(f, Amount) + Amount(t);
    } else {
      assert Filter(txs + [t], IsExpense) == f + [];
      assert f + [] == f;
    }
  }

  lemma IncomeOfConcat(a: seq<Transaction>, b: seq<Transaction>)
    ensures IncomeOf(a + b) == IncomeOf(a) + IncomeOf(b)
  {
    FilterConcat(a, b, IsIncome);
    SumConcat(Filter(a, IsIncome), Filter(b, IsIncome), Amount);
  }

  lemma ExpenseOfConcat(a: seq<Transaction>, b: seq<Transaction>)
    ensures ExpenseOf(a + b) == ExpenseOf(a) + ExpenseOf(b)
  {
    FilterConcat(a, b, IsExpense);
    SumConcat(Filter(a, IsExpense), Filter(b, IsExpense), Amount);
  }

  /** The summary: income and expense totals and their difference. */
  function ComputeSummary(txs: seq<Transaction>): (s: SummaryData)
    ensures s.balance == s.totalIncome - s.totalExpense
    ensures txs == [] ==> s == SummaryData(0, 0, 0)
    ensures s.totalIncome == IncomeOf(txs) && s.totalExpense == ExpenseOf(txs)
  {
    var totalIncome := IncomeOf(txs);
    var totalExpense := ExpenseOf(txs);
    SummaryData(totalIncome, totalExpense, totalIncome - totalExpense)
  }

  /** The summary of two ledgers joined is the field-wise sum of their summaries. */
  lemma SummaryAdditive(a: seq<Transaction>, b: seq<Transaction>)
    ensures ComputeSummary(a + b).totalIncome == ComputeSummary(a).totalIncome + ComputeSummary(b).totalIncome
    ensures ComputeSummary(a + b).totalExpense == ComputeSummary(a).totalExpense + ComputeSummary(b).totalExpense
    ensures ComputeSummary(a + b).balance == ComputeSummary(a).balance + ComputeSummary(b).balance
  {
    IncomeOfConcat(a, b);
    ExpenseOfConcat(a, b);
  }

  /** Adding a transaction moves exactly one total, by its amount. */
  lemma SummaryAfterAdd(ledger: seq<Transaction>, data: NewTransaction, id: string)
    ensures var before := ComputeSummary(ledger);
            var after := ComputeSummary(AddTransaction(ledger, data, id));
            && after.totalIncome == before.totalIncome + (if data.kind == Income then data.amount else 0)
            && after.totalExpense == before.totalExpense + (if data.kind == Expense then data.amount else 0)
  {
    var x := data.WithId(id);
    assert AddTransaction(ledger, data, id) == [x] + ledger;
    IncomeOfConcat([x], ledger);
    ExpenseOfConcat([x], ledger);
    IncomeOfSnoc([], x);
    ExpenseOfSnoc([], x);
    assert [] + [x] == [x];
  }

  /** With no negative amounts, neither total is negative. */
  lemma {:induction false} TotalsNonNegative(txs: seq<Transaction>)
    requires forall t :: t in txs ==> t.amount >= 0
    ensures ComputeSummary(txs).totalIncome >= 0 && ComputeSummary(txs).totalExpense >= 0
    decreases |txs|
  {
    if txs != [] {
      SplitLast(txs);
      TotalsNonNegative(DropLast(txs));
      IncomeOfSnoc(DropLast(txs), Last(txs));
      ExpenseOfSnoc(DropLast(txs), Last(txs));
    }
  }
}
