/** Worked examples: a salary and a rent entered in January 2024, and a
    family share granted and revoked. */
module Scenarios {
  import opened Wrappers
  import opened Seqs
  import opened Calendar
  import opened Types
  import opened Constants
  import opened Ledger
  import opened DateFilter
  import opened Summary
  import opened Grouping
  import opened Categories
  import opened Sharing

  function Salary(): NewTransaction
  {
    NewTransaction("Salary", 500000, Income, "Salário", Date(2024, 1, 1))
  }

  function Rent(): NewTransaction
  {
    NewTransaction("Rent", 150000, Expense, "Moradia", Date(2024, 1, 1))
  }

  /** The ledger after entering the salary, then the rent: newest first. */
  function JanuaryLedger(): (r: seq<Transaction>)
    ensures r == [Rent().WithId("b"), Salary().WithId("a")]
  {
    AddTransaction(AddTransaction([], Salary(), "a"), Rent(), "b")
  }

  /** Both entries are kept by the current-month filter in mid-January 2024. */
  lemma JanuaryFilter()
    ensures FilteredTransactions(JanuaryLedger(), FilterSettings(CurrentMonth, None, None), Date(2024, 1, 15))
      == JanuaryLedger()
  {
    var settings := FilterSettings(CurrentMonth, None, None);
    var ledger := JanuaryLedger();
    assert Keep(settings, Date(2024, 1, 15), ledger[0]) && Keep(settings, Date(2024, 1, 15), ledger[1]);
    FilterAll(ledger, Keeps(settings, Date(2024, 1, 15)));
  }

  /** The cards read 5000.00 in, 1500.00 out, 3500.00 balance. */
  lemma JanuarySummary()
    ensures ComputeSummary(JanuaryLedger()) == SummaryData(500000, 150000, 350000)
  {
    var ledger := JanuaryLedger();
    var rent, salary := ledger[0], ledger[1];
    assert DropLast(ledger) == [rent] && DropLast([rent]) == [];
    assert Filter(ledger, IsIncome) == [salary];
    assert Filter(ledger, IsExpense) == [rent];
    assert DropLast([salary]) == [];
    assert Sum([salary], Amount) == 500000;
    assert Sum([rent], Amount) == 150000;
  }

  /** The only expense category is housing, in the first palette colour. */
  lemma JanuaryBreakdown()
    ensures CategoryBreakdown(JanuaryLedger()) == [CategoryData("Moradia", 150000, Colors[0])]
  {
    var ledger := JanuaryLedger();
    var rent := ledger[0];
    assert DropLast(ledger) == [rent] && DropLast([rent]) == [];
    assert Expenses(ledger) == [rent];
    assert Map([rent], CategoryOf) == ["Moradia"];
    assert FirstSeen(ledger) == ["Moradia"];
    var r := CategoryBreakdown(ledger);
    assert r[0].name in FirstSeen(ledger);
    assert IndexOf(FirstSeen(ledger), "Moradia") == 0;
    assert Select(Expenses(ledger), CategoryOf, "Moradia") == [rent];
    assert Sum([rent], Amount) == 150000;
  }

  /** A guest granted access to an owner's ledger sees it; once revoked, the
      guest has no entry left. */
  lemma ShareThenRevoke()
    ensures var granted := Invite([], "o@x.com", "g@x.com", []);
            && granted.outcome == Granted
            && Lookup(granted.table, "g@x.com") == Some("o@x.com")
            && GuestsOf(granted.table, "o@x.com") == ["g@x.com"]
            && Lookup(Remove(granted.table, "g@x.com"), "g@x.com") == None
            && GuestsOf(Remove(granted.table, "g@x.com"), "o@x.com") == []
  {
    var granted := Invite([], "o@x.com", "g@x.com", []);
    assert "g@x.com" != "o@x.com";
    assert granted.table == [Entry("g@x.com", "o@x.com")];
    assert Remove(granted.table, "g@x.com") == [];
  }
}
