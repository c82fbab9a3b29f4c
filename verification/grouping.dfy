/** The group-by fold shared by the category breakdown and the cash-flow
    series (`App.tsx`, the two `reduce` calls into a keyed record): one
    bucket per key, in the order keys are first met, each holding the
    income and the expense total of its transactions. */
module Grouping {
  import opened Seqs
  import opened Types
  import opened Summary

  datatype Bucket<K> = Bucket(key: K, income: int, expense: int)

  function Keys<K>(bs: seq<Bucket<K>>): (ks: seq<K>)
    ensures |ks| == |bs|
    ensures forall i :: 0 <= i < |bs| ==> ks[i] == bs[i].key
  {
    Map(bs, (b: Bucket<K>) => b.key)
  }

  function BucketIncome<K>(b: Bucket<K>): int
  {
    b.income
  }

  function BucketExpense<K>(b: Bucket<K>): int
  {
    b.expense
  }

  /** Adds the transaction's amount to the income side when it is an income
      and to the expense side otherwise, as the `else` branch of `chartData`'s fold does. */
  function Credit<K>(b: Bucket<K>, t: Transaction): Bucket<K>
  {
    if t.kind == Income then b.(income := b.income + t.amount)
    else b.(expense := b.expense + t.amount)
  }

  /** One step of the fold: credit the bucket of `k`, or open a zero bucket
      for it at the end when `k` is new. */
  function Bump<K(==)>(bs: seq<Bucket<K>>, k: K, t: Transaction): seq<Bucket<K>>
  {
    var ks := Keys(bs);
    if k in ks then
      var i := IndexOf(ks, k);
      bs[i := Credit(bs[i], t)]
    else
      bs + [Credit(Bucket(k, 0, 0), t)]
  }

  function KeyMatches<K(==)>(key: Transaction -> K, k: K): Transaction -> bool
  {
    (t: Transaction) => key(t) == k
  }

  /** The transactions whose key is `k`, in order. */
  function Select<K(==)>(txs: seq<Transaction>, key: Transaction -> K, k: K): seq<Transaction>
  {
    Filter(txs, KeyMatches(key, k))
  }

  /** `bs` is the grouping of `txs` by `key`: its keys are the distinct keys
      of `txs` in first-seen order and every bucket holds its group's totals. */
  predicate Groups<K(==,!new)>(bs: seq<Bucket<K>>, txs: seq<Transaction>, key: Transaction -> K)
  {
    && Keys(bs) == Distinct(Map(txs, key))
    && forall i :: 0 <= i < |bs| ==>
         && bs[i].income == IncomeOf(Select(txs, key, bs[i].key))
         && bs[i].expense == ExpenseOf(Select(txs, key, bs[i].key))
  }

  lemma SelectSnoc<K>(txs: seq<Transaction>, t: Transaction, key: Transaction -> K, k: K)
    ensures Select(txs + [t], key, k) == Select(txs, key, k) + (if key(t) == k then [t] else [])
  {
    FilterSnoc(txs, t, KeyMatches(key, k));
  }

  lemma BumpKeys<K>(bs: seq<Bucket<K>>, k: K, t: Transaction)
    ensures Keys(Bump(bs, k, t)) == if k in Keys(bs) then Keys(bs) else Keys(bs) + [k]
  {
    var r := Bump(bs, k, t);
    if k in Keys(bs) {
      assert forall j :: 0 <= j < |r| ==> r[j].key == bs[j].key;
    } else {
      assert forall j :: 0 <= j < |bs| ==> r[j].key == bs[j].key;
    }
  }

  lemma DistinctKeysSnoc<K(!new)>(txs: seq<Transaction>, key: Transaction -> K)
    requires txs != []
    ensures var d := Distinct(Map(DropLast(txs), key));
            var k := key(Last(txs));
            Distinct(Map(txs, key)) == if k in d then d else d + [k]
  {
    SplitLast(txs);
    assert Map(txs, key) == Map(DropLast(txs), key) + [key(Last(txs))];
    DropLastSnoc(Map(DropLast(txs), key), key(Last(txs)));
  }

  /** No transaction of `txs` has a key outside the grouping's keys. */
  lemma SelectAbsent<K(!new)>(txs: seq<Transaction>, key: Transaction -> K, k: K)
    requires k !in Distinct(Map(txs, key))
    ensures Select(txs, key, k) == []
  {
    forall u | u in txs
      ensures !KeyMatches(key, k)(u)
    {
      var a :| 0 <= a < |txs| && txs[a] == u;
      assert Map(txs, key)[a] == key(u);
    }
    FilterNone(txs, KeyMatches(key, k));
  }

  /** An existing bucket after one step: credited when it holds the
      transaction's key, untouched otherwise. */
  lemma BumpExisting<K>(bs: seq<Bucket<K>>, k: K, t: Transaction, j: nat)
    requires NoDuplicates(Keys(bs)) && j < |bs|
    ensures j < |Bump(bs, k, t)|
    ensures Bump(bs, k, t)[j] == if bs[j].key == k then Credit(bs[j], t) else bs[j]
  {
    var ks := Keys(bs);
    if k in ks {
      var i := IndexOf(ks, k);
      if j != i {
        assert ks[j] != ks[i];
      }
    } else {
      assert ks[j] in ks;
    }
  }

  /** One transaction more: a bucket holding its group's totals still does
      once credited for a transaction of its key, or left alone otherwise. */
  lemma StepBucket<K>(pre: seq<Transaction>, t: Transaction, key: Transaction -> K, b: Bucket<K>)
    requires b.income == IncomeOf(Select(pre, key, b.key)) && b.expense == ExpenseOf(Select(pre, key, b.key))
    ensures var nb := if b.key == key(t) then Credit(b, t) else b;
            nb.income == IncomeOf(Select(pre + [t], key, b.key)) && nb.expense == ExpenseOf(Select(pre + [t], key, b.key))
  {
    var prior := Select(pre, key, b.key);
    SelectSnoc(pre, t, key, b.key);
    if b.key == key(t) {
      IncomeOfSnoc(prior, t);
      ExpenseOfSnoc(prior, t);
    } else {
      assert prior + [] == prior;
    }
  }

  /** The bucket opened for a key met for the first time. */
  lemma StepNew<K>(pre: seq<Transaction>, t: Transaction, key: Transaction -> K)
    requires Select(pre, key, key(t)) == []
    ensures var b := Credit(Bucket(key(t), 0, 0), t);
            b.income == IncomeOf(Select(pre + [t], key, key(t))) && b.expense == ExpenseOf(Select(pre + [t], key, key(t)))
  {
    SelectSnoc(pre, t, key, key(t));
    IncomeOfSnoc([], t);
    ExpenseOfSnoc([], t);
    assert [] + [t] == [t];
  }

  /** The bucket at position `j` after one step holds the totals of its key's group. */
  lemma BumpBucket<K(!new)>(txs: seq<Transaction>, key: Transaction -> K, bs: seq<Bucket<K>>, j: nat)
    requires txs != []
    requires Groups(bs, DropLast(txs), key)
    requires j < |Bump(bs, key(Last(txs)), Last(txs))|
    ensures var b := Bump(bs, key(Last(txs)), Last(txs))[j];
            b.income == IncomeOf(Select(txs, key, b.key)) && b.expense == ExpenseOf(Select(txs, key, b.key))
  {
    var pre, t := DropLast(txs), Last(txs);
    var k := key(t);
    SplitLast(txs);
    if j < |bs| {
      BumpExisting(bs, k, t, j);
      StepBucket(pre, t, key, bs[j]);
    } else {
      assert k !in Keys(bs) && j == |bs|;
      SelectAbsent(pre, key, k);
      StepNew(pre, t, key);
    }
  }

  lemma BumpGroups<K(!new)>(txs: seq<Transaction>, key: Transaction -> K, bs: seq<Bucket<K>>)
    requires txs != []
    requires Groups(bs, DropLast(txs), key)
    ensures Groups(Bump(bs, key(Last(txs)), Last(txs)), txs, key)
  {
    var r := Bump(bs, key(Last(txs)), Last(txs));
    BumpKeys(bs, key(Last(txs)), Last(txs));
    DistinctKeysSnoc(txs, key);
    forall j | 0 <= j < |r|
      ensures r[j].income == IncomeOf(Select(txs, key, r[j].key))
      ensures r[j].expense == ExpenseOf(Select(txs, key, r[j].key))
    {
      BumpBucket(txs, key, bs, j);
    }
  }

  /** One step of the fold adds the transaction's amount to exactly one total. */
  lemma BumpSums<K>(bs: seq<Bucket<K>>, k: K, t: Transaction)
    ensures Sum(Bump(bs, k, t), BucketIncome) == Sum(bs, BucketIncome) + (if IsIncome(t) then t.amount else 0)
    ensures Sum(Bump(bs, k, t), BucketExpense) == Sum(bs, BucketExpense) + (if IsExpense(t) then t.amount else 0)
  {
    var ks := Keys(bs);
    if k in ks {
      var i := IndexOf(ks, k);
      SumUpdate(bs, i, Credit(bs[i], t), BucketIncome);
      SumUpdate(bs, i, Credit(bs[i], t), BucketExpense);
    } else {
      var b := Credit(Bucket(k, 0, 0), t);
      DropLastSnoc(bs, b);
      assert Sum(bs + [b], BucketIncome) == Sum(bs, BucketIncome) + b.income;
      assert Sum(bs + [b], BucketExpense) == Sum(bs, BucketExpense) + b.expense;
    }
  }

  /** The fold over all transactions, in order (`reduce` from an empty record). */
  function GroupBy<K(==,!new)>(txs: seq<Transaction>, key: Transaction -> K): (bs: seq<Bucket<K>>)
    ensures Keys(bs) == Distinct(Map(txs, key))
    ensures forall i :: 0 <= i < |bs| ==>
      && bs[i].income == IncomeOf(Select(txs, key, bs[i].key))
      && bs[i].expense == ExpenseOf(Select(txs, key, bs[i].key))
  {
    if txs == [] then []
    else
      var bs := GroupBy(DropLast(txs), key);
      BumpGroups(txs, key, bs);
      Bump(bs, key(Last(txs)), Last(txs))
  }

  /** Grouping conserves the totals: the buckets' income and expense add up
      to the income and expense of all the transactions. */
  lemma {:induction false} GroupTotals<K(!new)>(txs: seq<Transaction>, key: Transaction -> K)
    ensures Sum(GroupBy(txs, key), BucketIncome) == IncomeOf(txs)
    ensures Sum(GroupBy(txs, key), BucketExpense) == ExpenseOf(txs)
    decreases |txs|
  {
    if txs != [] {
      var pre, t := DropLast(txs), Last(txs);
      GroupTotals(pre, key);
      SplitLast(txs);
      IncomeOfSnoc(pre, t);
      ExpenseOfSnoc(pre, t);
      BumpSums(GroupBy(pre, key), key(t), t);
    }
  }
}
