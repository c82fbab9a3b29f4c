/** The transaction list kept by the dashboard (`App.tsx`): add, delete by id
    and reset to the example data. The list is a value; persisting it is
    left to the caller. */
module Ledger {
  import opened Seqs
  import opened Calendar
  import opened Types
  import opened Constants

  /** Prepends the new transaction, as `handleAddTransaction` does. The id is
      a parameter: `handleAddTransaction` draws a random one and does not check it is fresh. */
  function AddTransaction(ledger: seq<Transaction>, data: NewTransaction, id: string): (r: seq<Transaction>)
    ensures |r| == |ledger| + 1
    ensures r[0].id == id && r[0].amount == data.amount && r[0].kind == data.kind
    ensures r[0].category == data.category && r[0].date == data.date
    ensures r[0].description == data.description
    ensures r[1..] == ledger
  {
    [data.WithId(id)] + ledger
  }

  function IdIsNot(id: string): Transaction -> bool
  {
    (t: Transaction) => t.id != id
  }

  /** Removes every transaction carrying `id` and keeps the rest in order. */
  function DeleteTransaction(ledger: seq<Transaction>, id: string): (r: seq<Transaction>)
    ensures IsSubsequence(r, ledger)
    ensures forall t :: t in r <==> t in ledger && t.id != id
    ensures forall t :: multiset(r)[t] == if t.id != id then multiset(ledger)[t] else 0
    ensures (forall t :: t in ledger ==> t.id != id) ==> r == ledger
  {
    var p := IdIsNot(id);
    FilterMembers(ledger, p);
    FilterMultiset(ledger, p);
    FilterSubsequence(ledger, p);
    if forall t :: t in ledger ==> p(t) then
      FilterAll(ledger, p);
      Filter(ledger, p)
    else
      Filter(ledger, p)
  }

  /** Replaces whatever the ledger holds with the example data. */
  function ResetData(ledger: seq<Transaction>, loadDay: IsoDate): (r: seq<Transaction>)
    ensures r == InitialTransactions(loadDay)
    ensures forall t :: t in r ==> Ordinal(loadDay) - 10 <= Ordinal(t.date) <= Ordinal(loadDay)
  {
    InitialTransactions(loadDay)
  }

  /** Deleting the id of a transaction just added undoes the addition, when
      that id was not in use before. */
  lemma DeleteUndoesAdd(ledger: seq<Transaction>, data: NewTransaction, id: string)
    requires forall t :: t in ledger ==> t.id != id
    ensures DeleteTransaction(AddTransaction(ledger, data, id), id) == ledger
  {
    var p := IdIsNot(id);
    var x := data.WithId(id);
    FilterConcat([x], ledger, p);
    FilterSnoc([], x, p);
    assert [] + [x] == [x];
    FilterAll(ledger, p);
  }

  /** A second delete of the same id changes nothing. */
  lemma DeleteIdempotent(ledger: seq<Transaction>, id: string)
    ensures DeleteTransaction(DeleteTransaction(ledger, id), id) == DeleteTransaction(ledger, id)
  {
  }

  /** Deletion commutes with addition of a transaction carrying another id. */
  lemma DeleteAfterAddOther(ledger: seq<Transaction>, data: NewTransaction, id: string, other: string)
    requires id != other
    ensures DeleteTransaction(AddTransaction(ledger, data, id), other)
         == AddTransaction(DeleteTransaction(ledger, other), data, id)
  {
    var p := IdIsNot(other);
    var x := data.WithId(id);
    FilterConcat([x], ledger, p);
    FilterSnoc([], x, p);
    assert [] + [x] == [x];
  }
}
