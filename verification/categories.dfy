/** The expense-by-category breakdown of the dashboard (`App.tsx`,
    `categoryData`): expense amounts summed per category, each category
    coloured from the palette by the position in which it was first met,
    then sorted by value, largest first, with a stable sort. */
module Categories {
  import opened Seqs
  import opened Sorting
  import opened Types
  import opened Constants
  import opened Summary
  import opened Grouping

  function Expenses(txs: seq<Transaction>): seq<Transaction>
  {
    Filter(txs, IsExpense)
  }

  /** The categories of the expense transactions, in the order first met. */
  function FirstSeen(txs: seq<Transaction>): seq<string>
  {
    Distinct(Map(Expenses(txs), CategoryOf))
  }

  /** The sum of the amounts of the expense transactions in category `c`. */
  function SpentOn(txs: seq<Transaction>, c: string): int
  {
    Sum(Select(Expenses(txs), CategoryOf, c), Amount)
  }

  function Value(c: CategoryData): int
  {
    c.value
  }

  function NameOf(c: CategoryData): string
  {
    c.name
  }

  /** The sort key: ascending in it is descending in value. */
  function NegValue(c: CategoryData): int
  {
    -c.value
  }

  /** A category is first seen exactly when some expense carries it. */
  lemma FirstSeenMembers(txs: seq<Transaction>)
    ensures forall c :: c in FirstSeen(txs) <==> exists t :: t in txs && IsExpense(t) && t.category == c
  {
    var ex := Expenses(txs);
    FilterMembers(txs, IsExpense);
    forall c | c in FirstSeen(txs)
      ensures exists t :: t in txs && IsExpense(t) && t.category == c
    {
      var a :| 0 <= a < |ex| && Map(ex, CategoryOf)[a] == c;
      assert ex[a] in ex;
    }
    forall t | t in txs && IsExpense(t)
      ensures t.category in FirstSeen(txs)
    {
      assert t in Filter(txs, IsExpense);
      var a :| 0 <= a < |ex| && ex[a] == t;
      assert Map(ex, CategoryOf)[a] == t.category;
    }
  }

  /** A bucket's expense total is the category's spending. */
  lemma BucketIsSpentOn(txs: seq<Transaction>, c: string)
    ensures ExpenseOf(Select(Expenses(txs), CategoryOf, c)) == SpentOn(txs, c)
  {
    var sel := Select(Expenses(txs), CategoryOf, c);
    FilterMembers(txs, IsExpense);
    FilterMembers(Expenses(txs), KeyMatches(CategoryOf, c));
    FilterAll(sel, IsExpense);
  }

  /** The record built by the grouping `reduce`, listed with
      `Object.entries` and coloured by list position (`index % COLORS.length`). */
  function Colorize(bs: seq<Bucket<string>>): (r: seq<CategoryData>)
    ensures |r| == |bs|
    ensures forall i :: 0 <= i < |bs| ==> r[i] == CategoryData(bs[i].key, bs[i].expense, Colors[i % |Colors|])
  {
    if bs == [] then []
    else Colorize(DropLast(bs)) + [CategoryData(Last(bs).key, Last(bs).expense, Colors[(|bs| - 1) % |Colors|])]
  }

  lemma {:induction false} ColorizeSum(bs: seq<Bucket<string>>)
    ensures Sum(Colorize(bs), Value) == Sum(bs, BucketExpense)
    decreases |bs|
  {
    if bs != [] {
      ColorizeSum(DropLast(bs));
      DropLastSnoc(Colorize(DropLast(bs)), Colorize(bs)[|bs| - 1]);
    }
  }

  /** The bucket of a grouping of the expenses by category, coloured by its position. */
  lemma UnsortedEntry(txs: seq<Transaction>, a: nat)
    requires a < |FirstSeen(txs)|
    ensures a < |GroupBy(Expenses(txs), CategoryOf)|
    ensures var bs := GroupBy(Expenses(txs), CategoryOf);
      Colorize(bs)[a] == CategoryData(FirstSeen(txs)[a], SpentOn(txs, FirstSeen(txs)[a]), Colors[a % |Colors|])
  {
    var bs := GroupBy(Expenses(txs), CategoryOf);
    assert |Keys(bs)| == |bs|;
    assert Keys(bs)[a] == bs[a].key;
    BucketIsSpentOn(txs, bs[a].key);
  }

  /** `u` lists the expense categories in first-seen order with their
      spending and positional colour. */
  predicate Listing(txs: seq<Transaction>, u: seq<CategoryData>)
  {
    && |u| == |FirstSeen(txs)|
    && (forall a :: 0 <= a < |u| ==> u[a].name == FirstSeen(txs)[a])
    && (forall a :: 0 <= a < |u| ==> u[a].value == SpentOn(txs, u[a].name))
    && (forall a :: 0 <= a < |u| ==> u[a].color == Colors[a % |Colors|])
  }

  /** The coloured grouping of the expenses is such a listing. */
  lemma ColorizedListing(txs: seq<Transaction>)
    ensures Listing(txs, Colorize(GroupBy(Expenses(txs), CategoryOf)))
  {
    var bs := GroupBy(Expenses(txs), CategoryOf);
    assert |Keys(bs)| == |FirstSeen(txs)|;
    forall a | 0 <= a < |FirstSeen(txs)|
      ensures Colorize(bs)[a] == CategoryData(FirstSeen(txs)[a], SpentOn(txs, FirstSeen(txs)[a]), Colors[a % |Colors|])
    {
      UnsortedEntry(txs, a);
    }
  }

  /** The entries before sorting: one per expense category, in first-seen
      order, valued at that category's spending and coloured by position. */
  function Unsorted(txs: seq<Transaction>): (u: seq<CategoryData>)
    ensures |u| == |FirstSeen(txs)|
    ensures forall a :: 0 <= a < |u| ==> u[a].name == FirstSeen(txs)[a]
    ensures forall a :: 0 <= a < |u| ==> u[a].value == SpentOn(txs, u[a].name)
    ensures forall a :: 0 <= a < |u| ==> u[a].color == Colors[a % |Colors|]
  {
    ColorizedListing(txs);
    Colorize(GroupBy(Expenses(txs), CategoryOf))
  }

  lemma ListingDistinct(txs: seq<Transaction>, u: seq<CategoryData>)
    requires Listing(txs, u)
    ensures forall a, b :: 0 <= a < b < |u| ==> u[a].name != u[b].name
    ensures NoDuplicates(u)
  {
    assert NoDuplicates(FirstSeen(txs));
    forall a, b | 0 <= a < b < |u|
      ensures u[a] != u[b]
    {
      assert u[a].name != u[b].name;
    }
  }

  /** The breakdown as the chart receives it. */
  function CategoryBreakdown(txs: seq<Transaction>): (r: seq<CategoryData>)
    ensures |r| == |FirstSeen(txs)|
    ensures forall i, j :: 0 <= i < j < |r| ==> r[i].name != r[j].name
    ensures forall i :: 0 <= i < |r| ==> r[i].name in FirstSeen(txs)
    ensures forall i :: 0 <= i < |r| ==> r[i].value == SpentOn(txs, r[i].name)
    ensures forall i :: 0 <= i < |r| ==>
      r[i].color == Colors[IndexOf(FirstSeen(txs), r[i].name) % |Colors|]
    ensures forall i, j :: 0 <= i < j < |r| ==> r[i].value >= r[j].value
    ensures forall i, j :: 0 <= i < j < |r| && r[i].value == r[j].value ==>
      IndexOf(FirstSeen(txs), r[i].name) < IndexOf(FirstSeen(txs), r[j].name)
  {
    var u := Unsorted(txs);
    assert Listing(txs, u);
    BreakdownFacts(txs, u, SortBy(u, NegValue));
    SortBy(u, NegValue)
  }

  /** Each sorted entry is the unsorted entry at its category's first-seen position. */
  lemma BreakdownEntry(txs: seq<Transaction>, u: seq<CategoryData>, r: seq<CategoryData>, i: nat)
    requires Listing(txs, u) && multiset(r) == multiset(u) && i < |r|
    ensures r[i] in u && r[i].name in FirstSeen(txs)
    ensures IndexOf(FirstSeen(txs), r[i].name) == IndexOf(u, r[i])
    ensures r[i].value == SpentOn(txs, r[i].name)
    ensures r[i].color == Colors[IndexOf(FirstSeen(txs), r[i].name) % |Colors|]
  {
    assert r[i] in multiset(u);
    var a := IndexOf(u, r[i]);
    assert NoDuplicates(FirstSeen(txs));
    IndexOfUnique(FirstSeen(txs), a);
  }

  lemma BreakdownFacts(txs: seq<Transaction>, u: seq<CategoryData>, r: seq<CategoryData>)
    requires Listing(txs, u) && r == SortBy(u, NegValue)
    ensures forall i, j :: 0 <= i < j < |r| ==> r[i].name != r[j].name
    ensures forall i :: 0 <= i < |r| ==> r[i].name in FirstSeen(txs)
    ensures forall i :: 0 <= i < |r| ==> r[i].value == SpentOn(txs, r[i].name)
    ensures forall i :: 0 <= i < |r| ==>
      r[i].color == Colors[IndexOf(FirstSeen(txs), r[i].name) % |Colors|]
    ensures forall i, j :: 0 <= i < j < |r| ==> r[i].value >= r[j].value
    ensures forall i, j :: 0 <= i < j < |r| && r[i].value == r[j].value ==>
      IndexOf(FirstSeen(txs), r[i].name) < IndexOf(FirstSeen(txs), r[j].name)
  {
    var fs := FirstSeen(txs);
    ListingDistinct(txs, u);
    assert NoDuplicates(r);
    PermutationKeepsDistinct(u, r, NameOf);
    SortStable(u, NegValue);
    forall i | 0 <= i < |r|
      ensures r[i].name in fs && r[i].value == SpentOn(txs, r[i].name)
      ensures r[i].color == Colors[IndexOf(fs, r[i].name) % |Colors|]
    {
      BreakdownEntry(txs, u, r, i);
    }
    forall i, j | 0 <= i < j < |r|
      ensures r[i].value >= r[j].value
      ensures r[i].value == r[j].value ==> IndexOf(fs, r[i].name) < IndexOf(fs, r[j].name)
    {
      assert NegValue(r[i]) <= NegValue(r[j]);
      BreakdownEntry(txs, u, r, i);
      BreakdownEntry(txs, u, r, j);
    }
  }

  /** The category values add up to the summary's expense total. */
  lemma BreakdownConservesExpense(txs: seq<Transaction>)
    ensures Sum(CategoryBreakdown(txs), Value) == ComputeSummary(txs).totalExpense
  {
    var bs := GroupBy(Expenses(txs), CategoryOf);
    SortSum(Colorize(bs), NegValue, Value);
    ColorizeSum(bs);
    GroupTotals(Expenses(txs), CategoryOf);
    FilterOfFilter(txs, IsExpense, IsExpense);
  }

  /** A reordering of the listing still names every first-seen category. */
  lemma PermutedCovers(fs: seq<string>, u: seq<CategoryData>, r: seq<CategoryData>, c: string)
    requires multiset(r) == multiset(u) && |u| == |fs| && c in fs
    requires forall a :: 0 <= a < |u| ==> u[a].name == fs[a]
    ensures exists i :: 0 <= i < |r| && r[i].name == c
  {
    var a := IndexOf(fs, c);
    assert u[a] in multiset(r);
    var i :| 0 <= i < |r| && r[i] == u[a];
  }

  /** Some expense is filed under category `c`. */
  predicate SpentIn(txs: seq<Transaction>, c: string)
  {
    exists t :: t in txs && IsExpense(t) && t.category == c
  }

  /** Some entry of `r` is named `c`. */
  predicate Named(r: seq<CategoryData>, c: string)
  {
    exists i :: 0 <= i < |r| && r[i].name == c
  }

  /** `r` names exactly the categories of the expenses. */
  predicate Covers(txs: seq<Transaction>, r: seq<CategoryData>)
  {
    && (forall t :: t in txs && IsExpense(t) ==> Named(r, t.category))
    && (forall i :: 0 <= i < |r| ==> SpentIn(txs, r[i].name))
  }

  /** A reordering of the listing that names only first-seen categories
      names exactly the categories of the expenses. */
  lemma ListingCovers(txs: seq<Transaction>, u: seq<CategoryData>, r: seq<CategoryData>)
    requires Listing(txs, u) && multiset(r) == multiset(u)
    requires forall i :: 0 <= i < |r| ==> r[i].name in FirstSeen(txs)
    ensures Covers(txs, r)
  {
    FirstSeenMembers(txs);
    forall t | t in txs && IsExpense(t)
      ensures Named(r, t.category)
    {
      PermutedCovers(FirstSeen(txs), u, r, t.category);
    }
    forall i | 0 <= i < |r|
      ensures SpentIn(txs, r[i].name)
    {
      assert r[i].name in FirstSeen(txs);
    }
  }

  /** The breakdown is a reordering of the unsorted entries. */
  lemma BreakdownPermutes(txs: seq<Transaction>)
    ensures multiset(CategoryBreakdown(txs)) == multiset(Unsorted(txs))
  {
    assert CategoryBreakdown(txs) == SortBy(Unsorted(txs), NegValue);
  }

  /** Every category of an expense appears in the breakdown, and no other. */
  lemma BreakdownCoversExpenses(txs: seq<Transaction>)
    ensures Covers(txs, CategoryBreakdown(txs))
  {
    BreakdownPermutes(txs);
    ListingCovers(txs, Unsorted(txs), CategoryBreakdown(txs));
  }
}
