/** The cash-flow series of the dashboard (`App.tsx`, `chartData`): income
    and expense per calendar day, days ascending, cut to the last 15. */
module CashFlow {
  import opened Seqs
  import opened Sorting
  import opened Calendar
  import opened Types
  import opened Summary
  import opened Grouping

  /** How many of the latest days the chart shows (`slice(-15)`). */
  const ChartWindow: nat := 15

  function ToPoint(b: Bucket<IsoDate>): ChartDataPoint
  {
    ChartDataPoint(b.key, b.income, b.expense)
  }

  function PointDate(p: ChartDataPoint): IsoDate
  {
    p.date
  }

  function PointOrdinal(p: ChartDataPoint): int
  {
    Ordinal(p.date)
  }

  function PointIncome(p: ChartDataPoint): int
  {
    p.income
  }

  function PointExpense(p: ChartDataPoint): int
  {
    p.expense
  }

  /** The days that carry transactions, in the order first met. */
  function DaysSeen(txs: seq<Transaction>): seq<IsoDate>
  {
    Distinct(Map(txs, DateOf))
  }

  /** The transactions of day `d`. */
  function OnDay(txs: seq<Transaction>, d: IsoDate): seq<Transaction>
  {
    Select(txs, DateOf, d)
  }

  /** A day is seen exactly when some transaction is dated on it. */
  lemma DaysSeenMembers(txs: seq<Transaction>)
    ensures forall d :: d in DaysSeen(txs) <==> exists t :: t in txs && t.date == d
  {
    forall d | d in DaysSeen(txs)
      ensures exists t :: t in txs && t.date == d
    {
      var a :| 0 <= a < |txs| && Map(txs, DateOf)[a] == d;
      assert txs[a] in txs;
    }
    forall t | t in txs
      ensures t.date in DaysSeen(txs)
    {
      var a :| 0 <= a < |txs| && txs[a] == t;
      assert Map(txs, DateOf)[a] == t.date;
    }
  }

  /** `p` is the point of one day that carries transactions, holding that
      day's income and expense totals. */
  predicate DayPoint(txs: seq<Transaction>, p: ChartDataPoint)
  {
    && p.date in DaysSeen(txs)
    && p.income == IncomeOf(OnDay(txs, p.date))
    && p.expense == ExpenseOf(OnDay(txs, p.date))
  }

  /** The bucket of a grouping by day, read as a chart point. */
  lemma BucketPoint(txs: seq<Transaction>, a: nat)
    requires a < |DaysSeen(txs)|
    ensures a < |GroupBy(txs, DateOf)|
    ensures ToPoint(GroupBy(txs, DateOf)[a]).date == DaysSeen(txs)[a]
    ensures DayPoint(txs, ToPoint(GroupBy(txs, DateOf)[a]))
  {
    var bs := GroupBy(txs, DateOf);
    assert |Keys(bs)| == |bs|;
    assert Keys(bs)[a] == bs[a].key;
  }

  /** The grouping `reduce` read back with `Object.values`: one point per
      day, in first-seen order, holding the day's income total and the total
      of its other (expense) amounts. */
  function DailyPoints(txs: seq<Transaction>): (ps: seq<ChartDataPoint>)
    ensures |ps| == |DaysSeen(txs)|
    ensures forall a :: 0 <= a < |ps| ==> ps[a].date == DaysSeen(txs)[a]
    ensures forall a :: 0 <= a < |ps| ==> DayPoint(txs, ps[a])
    ensures NoDuplicates(ps)
  {
    var bs := GroupBy(txs, DateOf);
    var ps := Map(bs, ToPoint);
    assert |Keys(bs)| == |DaysSeen(txs)|;
    forall a | 0 <= a < |ps|
      ensures ps[a].date == DaysSeen(txs)[a] && DayPoint(txs, ps[a])
    {
      BucketPoint(txs, a);
    }
    assert NoDuplicates(DaysSeen(txs));
    ps
  }

  /** Summing the daily points gives back the summary totals. */
  lemma {:induction false} DailyPointsConserve(txs: seq<Transaction>)
    ensures Sum(DailyPoints(txs), PointIncome) == ComputeSummary(txs).totalIncome
    ensures Sum(DailyPoints(txs), PointExpense) == ComputeSummary(txs).totalExpense
  {
    var bs := GroupBy(txs, DateOf);
    GroupTotals(txs, DateOf);
    MapSums(bs);
  }

  lemma {:induction false} MapSums(bs: seq<Bucket<IsoDate>>)
    ensures Sum(Map(bs, ToPoint), PointIncome) == Sum(bs, BucketIncome)
    ensures Sum(Map(bs, ToPoint), PointExpense) == Sum(bs, BucketExpense)
    decreases |bs|
  {
    if bs != [] {
      MapSums(DropLast(bs));
      DropLastSnoc(Map(DropLast(bs), ToPoint), ToPoint(Last(bs)));
    }
  }

  /** The daily points sorted by day, oldest first. Days are distinct, so
      the order is strict. */
  function SortedPoints(txs: seq<Transaction>): (s: seq<ChartDataPoint>)
    ensures multiset(s) == multiset(DailyPoints(txs))
    ensures |s| == |DaysSeen(txs)|
    ensures forall i, j :: 0 <= i < j < |s| ==> Ordinal(s[i].date) < Ordinal(s[j].date)
  {
    var ps := DailyPoints(txs);
    var s := SortBy(ps, PointOrdinal);
    PermutationKeepsDistinct(ps, s, PointDate);
    forall i, j | 0 <= i < j < |s|
      ensures Ordinal(s[i].date) < Ordinal(s[j].date)
    {
      OrdinalOrder(s[i].date, s[j].date);
    }
    s
  }

  /** Day `d` has a point in `ps`. */
  predicate Shows(ps: seq<ChartDataPoint>, d: IsoDate)
  {
    exists q :: 0 <= q < |ps| && ps[q].date == d
  }

  /** `s` lists one point per day seen, strictly by day, every day present. */
  predicate Series(txs: seq<Transaction>, s: seq<ChartDataPoint>)
  {
    && |s| == |DaysSeen(txs)|
    && (forall q :: 0 <= q < |s| ==> DayPoint(txs, s[q]))
    && (forall i, j :: 0 <= i < j < |s| ==> Ordinal(s[i].date) < Ordinal(s[j].date))
    && (forall t :: t in txs ==> Shows(s, t.date))
  }

  /** A reordering of day points still holds day points. */
  lemma PermutedPoint(txs: seq<Transaction>, ps: seq<ChartDataPoint>, s: seq<ChartDataPoint>, q: nat)
    requires multiset(s) == multiset(ps) && q < |s|
    requires forall a :: 0 <= a < |ps| ==> DayPoint(txs, ps[a])
    ensures DayPoint(txs, s[q])
  {
    assert s[q] in multiset(ps);
    var a :| 0 <= a < |ps| && ps[a] == s[q];
  }

  /** A reordering of the points of every day seen still shows every
      transaction's day. */
  lemma PermutedShows(txs: seq<Transaction>, ps: seq<ChartDataPoint>, s: seq<ChartDataPoint>, t: Transaction)
    requires multiset(s) == multiset(ps) && t in txs
    requires |ps| == |DaysSeen(txs)|
    requires forall a :: 0 <= a < |ps| ==> ps[a].date == DaysSeen(txs)[a]
    ensures Shows(s, t.date)
  {
    DaysSeenMembers(txs);
    var a := IndexOf(DaysSeen(txs), t.date);
    assert ps[a] in multiset(s);
    var q :| 0 <= q < |s| && s[q] == ps[a];
  }

  lemma SortedSeries(txs: seq<Transaction>)
    ensures Series(txs, SortedPoints(txs))
  {
    var ps := DailyPoints(txs);
    var s := SortedPoints(txs);
    forall q | 0 <= q < |s|
      ensures DayPoint(txs, s[q])
    {
      PermutedPoint(txs, ps, s, q);
    }
    forall t | t in txs
      ensures Shows(s, t.date)
    {
      PermutedShows(txs, ps, s, t);
    }
  }

  /** The kept points are a suffix of the sorted points. */
  predicate SuffixOf(r: seq<ChartDataPoint>, s: seq<ChartDataPoint>)
  {
    |r| <= |s| && forall i :: 0 <= i < |r| ==> r[i] == s[|s| - |r| + i]
  }

  /** The series as the chart receives it: one point per day, oldest first,
      each with its day's totals; only the latest `ChartWindow` days are
      kept, and every day left out is older than every day kept. */
  function ChartData(txs: seq<Transaction>): (r: seq<ChartDataPoint>)
    ensures |r| == Min(ChartWindow, |DaysSeen(txs)|)
    ensures forall i, j :: 0 <= i < j < |r| ==> Before(r[i].date, r[j].date)
    ensures forall i :: 0 <= i < |r| ==> DayPoint(txs, r[i])
    ensures forall t, i :: t in txs && 0 <= i < |r| && !Shows(r, t.date) ==> Before(t.date, r[i].date)
    ensures |DaysSeen(txs)| <= ChartWindow ==> forall t :: t in txs ==> Shows(r, t.date)
  {
    var r := TakeLast(SortedPoints(txs), ChartWindow);
    ChartWindowFacts(txs);
    assert ChartShape(txs, r);
    r
  }

  /** What the chart promises of the points `r` it draws. */
  predicate ChartShape(txs: seq<Transaction>, r: seq<ChartDataPoint>)
  {
    && |r| == Min(ChartWindow, |DaysSeen(txs)|)
    && (forall i, j :: 0 <= i < j < |r| ==> Before(r[i].date, r[j].date))
    && (forall i :: 0 <= i < |r| ==> DayPoint(txs, r[i]))
    && (forall t, i :: t in txs && 0 <= i < |r| && !Shows(r, t.date) ==> Before(t.date, r[i].date))
    && (|DaysSeen(txs)| <= ChartWindow ==> forall t :: t in txs ==> Shows(r, t.date))
  }

  lemma ChartWindowFacts(txs: seq<Transaction>)
    ensures ChartShape(txs, TakeLast(SortedPoints(txs), ChartWindow))
  {
    var s := SortedPoints(txs);
    var r := TakeLast(s, ChartWindow);
    SortedSeries(txs);
    KeptSuffix(s);
    ChartFacts(txs, s, r);
  }

  lemma KeptSuffix(s: seq<ChartDataPoint>)
    ensures SuffixOf(TakeLast(s, ChartWindow), s)
    ensures |TakeLast(s, ChartWindow)| == Min(ChartWindow, |s|)
  {
  }

  lemma ChartOrdered(s: seq<ChartDataPoint>, r: seq<ChartDataPoint>)
    requires SuffixOf(r, s)
    requires forall i, j :: 0 <= i < j < |s| ==> Ordinal(s[i].date) < Ordinal(s[j].date)
    ensures forall i, j :: 0 <= i < j < |r| ==> Before(r[i].date, r[j].date)
  {
    var off := |s| - |r|;
    forall i, j | 0 <= i < j < |r|
      ensures Before(r[i].date, r[j].date)
    {
      assert r[i] == s[off + i] && r[j] == s[off + j];
      OrdinalOrder(r[i].date, r[j].date);
    }
  }

  /** The day at position `q` of the sorted series is on the chart when `q`
      falls in the kept suffix, and older than every kept day otherwise. */
  lemma KeptOrOlder(s: seq<ChartDataPoint>, r: seq<ChartDataPoint>, q: nat)
    requires SuffixOf(r, s) && q < |s|
    requires forall i, j :: 0 <= i < j < |s| ==> Ordinal(s[i].date) < Ordinal(s[j].date)
    ensures Shows(r, s[q].date) || forall i :: 0 <= i < |r| ==> Before(s[q].date, r[i].date)
  {
    var off := |s| - |r|;
    if q >= off {
      assert r[q - off] == s[q];
    } else {
      forall i | 0 <= i < |r|
        ensures Before(s[q].date, r[i].date)
      {
        assert r[i] == s[off + i];
        OrdinalOrder(s[q].date, r[i].date);
      }
    }
  }

  /** Every transaction's day is on the chart or older than all of it. */
  lemma ChartLatest(txs: seq<Transaction>, s: seq<ChartDataPoint>, r: seq<ChartDataPoint>, t: Transaction)
    requires Series(txs, s) && SuffixOf(r, s) && t in txs
    ensures Shows(r, t.date) || forall i :: 0 <= i < |r| ==> Before(t.date, r[i].date)
  {
    var q :| 0 <= q < |s| && s[q].date == t.date;
    KeptOrOlder(s, r, q);
  }

  lemma ChartFacts(txs: seq<Transaction>, s: seq<ChartDataPoint>, r: seq<ChartDataPoint>)
    requires Series(txs, s) && SuffixOf(r, s) && |r| == Min(ChartWindow, |s|)
    ensures forall i, j :: 0 <= i < j < |r| ==> Before(r[i].date, r[j].date)
    ensures forall i :: 0 <= i < |r| ==> DayPoint(txs, r[i])
    ensures forall t, i :: t in txs && 0 <= i < |r| && !Shows(r, t.date) ==> Before(t.date, r[i].date)
    ensures |DaysSeen(txs)| <= ChartWindow ==> forall t :: t in txs ==> Shows(r, t.date)
  {
    ChartOrdered(s, r);
    forall i | 0 <= i < |r|
      ensures DayPoint(txs, r[i])
    {
      assert r[i] == s[|s| - |r| + i];
    }
    forall t | t in txs
      ensures Shows(r, t.date) || forall i :: 0 <= i < |r| ==> Before(t.date, r[i].date)
    {
      ChartLatest(txs, s, r, t);
    }
    if |DaysSeen(txs)| <= ChartWindow {
      assert r == s;
    }
  }
}
