/** The period filter of the dashboard (`App.tsx`, `filteredTransactions`):
    four variants checked against the calendar date of "now". */
module DateFilter {
  import opened Wrappers
  import opened Seqs
  import opened Calendar
  import opened Types

  /** The filter controls: the chosen variant and the two custom bounds,
      `None` standing for an empty date input. */
  datatype FilterSettings = FilterSettings(
    filterType: DateFilterType,
    customStart: Option<IsoDate>,
    customEnd: Option<IsoDate>)

  /** Whether the transaction passes the filter. Dates are compared as the
      day numbers of their local midnights; "30 days ago" and "tomorrow" are
      built by moving the day of the month, which rolls over month and year
      ends. */
  predicate Keep(settings: FilterSettings, now: IsoDate, t: Transaction)
  {
    var d := t.date;
    match settings.filterType
    case CurrentMonth => d.month == now.month && d.year == now.year
    case CurrentYear => d.year == now.year
    case Last30Days =>
      var thirtyDaysAgo := DayNumber(now.year, now.month, now.day - 30);
      var tomorrow := DayNumber(now.year, now.month, now.day + 1);
      thirtyDaysAgo <= Ordinal(d) && Ordinal(d) <= tomorrow
    case Custom =>
      if settings.customStart.None? || settings.customEnd.None? then true
      else Ordinal(settings.customStart.value) <= Ordinal(d) && Ordinal(d) <= Ordinal(settings.customEnd.value)
  }

  function Keeps(settings: FilterSettings, now: IsoDate): Transaction -> bool
  {
    (t: Transaction) => Keep(settings, now, t)
  }

  /** The transactions that pass the filter: an order-preserving
      subsequence of the input, holding exactly the passing ones; a custom
      filter missing either bound lets everything through. */
  function FilteredTransactions(txs: seq<Transaction>, settings: FilterSettings, now: IsoDate): (r: seq<Transaction>)
    ensures IsSubsequence(r, txs)
    ensures forall t :: t in r <==> t in txs && Keep(settings, now, t)
    ensures forall t :: multiset(r)[t] == if Keep(settings, now, t) then multiset(txs)[t] else 0
    ensures settings.filterType == Custom && (settings.customStart.None? || settings.customEnd.None?)
            ==> r == txs
  {
    var p := Keeps(settings, now);
    FilterMembers(txs, p);
    FilterMultiset(txs, p);
    FilterSubsequence(txs, p);
    if settings.filterType == Custom && (settings.customStart.None? || settings.customEnd.None?) then
      FilterAll(txs, p);
      Filter(txs, p)
    else
      Filter(txs, p)
  }

  /** "Current month" keeps exactly the transactions of now's month of now's year. */
  lemma CurrentMonthKeeps(txs: seq<Transaction>, settings: FilterSettings, now: IsoDate)
    requires settings.filterType == CurrentMonth
    ensures forall t :: t in FilteredTransactions(txs, settings, now) <==>
      t in txs && t.date.month == now.month && t.date.year == now.year
  {
  }

  /** "Current year" keeps exactly the transactions of now's year. */
  lemma CurrentYearKeeps(txs: seq<Transaction>, settings: FilterSettings, now: IsoDate)
    requires settings.filterType == CurrentYear
    ensures forall t :: t in FilteredTransactions(txs, settings, now) <==> t in txs && t.date.year == now.year
  {
  }

  /** "Last 30 days" keeps exactly the days from 30 days before today up to
      and including tomorrow. */
  lemma Last30DaysWindow(txs: seq<Transaction>, settings: FilterSettings, now: IsoDate)
    requires settings.filterType == Last30Days
    ensures forall t :: t in FilteredTransactions(txs, settings, now) <==>
      t in txs && !Before(t.date, DaysEarlier(now, 30)) && !Before(NextDay(now), t.date)
  {
    forall t | t in txs
      ensures Keep(settings, now, t) <==>
        !Before(t.date, DaysEarlier(now, 30)) && !Before(NextDay(now), t.date)
    {
      OrdinalOrder(t.date, DaysEarlier(now, 30));
      OrdinalOrder(NextDay(now), t.date);
    }
  }

  /** A transaction dated tomorrow passes "last 30 days"; one dated the day
      after does not, and neither does one dated 31 days ago. */
  lemma Last30DaysEdges(settings: FilterSettings, now: IsoDate, t: Transaction)
    requires settings.filterType == Last30Days
    ensures t.date == NextDay(now) ==> Keep(settings, now, t)
    ensures t.date == DaysEarlier(now, 30) ==> Keep(settings, now, t)
    ensures t.date == NextDay(NextDay(now)) ==> !Keep(settings, now, t)
    ensures t.date == DaysEarlier(now, 31) ==> !Keep(settings, now, t)
  {
  }

  /** With both bounds set, the custom filter keeps exactly the days from
      the start to the end, both included. */
  lemma CustomWindow(txs: seq<Transaction>, settings: FilterSettings, now: IsoDate)
    requires settings.filterType == Custom && settings.customStart.Some? && settings.customEnd.Some?
    ensures forall t :: t in FilteredTransactions(txs, settings, now) <==>
      t in txs && !Before(t.date, settings.customStart.value) && !Before(settings.customEnd.value, t.date)
  {
    forall t | t in txs
      ensures Keep(settings, now, t) <==>
        !Before(t.date, settings.customStart.value) && !Before(settings.customEnd.value, t.date)
    {
      OrdinalOrder(t.date, settings.customStart.value);
      OrdinalOrder(settings.customEnd.value, t.date);
    }
  }

  /** A custom range whose end is before its start keeps nothing. */
  lemma CustomReversedIsEmpty(txs: seq<Transaction>, settings: FilterSettings, now: IsoDate)
    requires settings.filterType == Custom && settings.customStart.Some? && settings.customEnd.Some?
    requires Before(settings.customEnd.value, settings.customStart.value)
    ensures FilteredTransactions(txs, settings, now) == []
  {
    OrdinalOrder(settings.customEnd.value, settings.customStart.value);
    FilterNone(txs, Keeps(settings, now));
  }

  /** The current month is carved out of the current year: filtering by
      year first and then by month is filtering by month. */
  lemma MonthWithinYear(txs: seq<Transaction>, now: IsoDate, start: Option<IsoDate>, end: Option<IsoDate>)
    ensures FilteredTransactions(FilteredTransactions(txs, FilterSettings(CurrentYear, start, end), now),
                                 FilterSettings(CurrentMonth, start, end), now)
         == FilteredTransactions(txs, FilterSettings(CurrentMonth, start, end), now)
  {
    FilterOfFilter(txs, Keeps(FilterSettings(CurrentYear, start, end), now),
                   Keeps(FilterSettings(CurrentMonth, start, end), now));
  }

  /** Applying the same filter twice is applying it once. */
  lemma FilterIdempotent(txs: seq<Transaction>, settings: FilterSettings, now: IsoDate)
    ensures FilteredTransactions(FilteredTransactions(txs, settings, now), settings, now)
         == FilteredTransactions(txs, settings, now)
  {
    FilterOfFilter(txs, Keeps(settings, now), Keeps(settings, now));
  }
}
