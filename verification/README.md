# Controle Financeiro — a Dafny model of its core

Controle Financeiro ("FinanSmart") is a browser finance tracker. A signed-in
user keeps a list of income and expense transactions. The dashboard shows
the list filtered by period, three summary cards, an expense-by-category
chart and a per-day cash-flow chart. An owner can grant other e-mail
addresses access to their data ("family account"). Accounts are a list of
users kept in the browser.

This project models that logic as pure functions over immutable values,
with the browser store replaced by values passed in and returned:

- `Ledger`: add, delete by id, and reset to the example data.
- `DateFilter`: the four period filters, checked against a reference
  calendar date "now".
- `Summary`: income total, expense total and balance.
- `Categories`: the expense breakdown per category, with palette colours
  by first-seen position, sorted by value (largest first, stable).
- `CashFlow`: the per-day series, sorted by day and cut to the latest 15 days.
- `Sharing`: the guest → owner permission table, with grant, revoke and
  the guest listing.
- `Accounts`: registration and sign-in against the user list.

Supporting modules:

- `Wrappers`: `Option` and `Result`.
- `Seqs`: sequence helpers.
- `Sorting`: a stable insertion sort on an integer key.
- `Grouping`: the group-by fold shared by the two charts.
- `Calendar`: proleptic Gregorian dates and day numbers.
- `Types`: the records of `types.ts`.
- `Constants`: the palette and the example ledger.
- `Scenarios`: worked examples.

Modelling choices:

- Amounts are integers in cents. For example, R$ 5000 is `500000`.
- A date is a validated (year, month, day). Its `Ordinal` is JavaScript's
  `MakeDay` day number shifted by a constant, so that 0001-01-01 is day 0.
  Differences and order agree with `MakeDay`. Comparing `Date` objects built at local
  midnight is comparing ordinals. The `YYYY-MM-DD` string order used by the
  chart's `localeCompare` is calendar order (`Calendar.OrdinalOrder`).
- "Today − 30" and "today + 1" are built with `setDate` and the `Date`
  constructor, which roll over month and year ends. They are day-number
  arithmetic.
- Grouping into a JavaScript object and reading it back with
  `Object.entries` or `Object.values` is a list of buckets in first-seen
  key order.
- The permission table is a JavaScript object. It is modelled as an
  association list in insertion order, so the guest listing comes out in
  the same order. The "already shared" test is JavaScript truthiness: an
  entry exists and its owner is not the empty string.
- `password.length` counts UTF-16 code units. A character outside the
  Basic Multilingual Plane counts twice.
- `Array.prototype.sort` is stable. It is modelled as an insertion sort,
  ascending on an integer key. The category breakdown sorts on minus the
  value.

## Model

| member | source | states |
|---|---|---|
| Ledger.AddTransaction | App.tsx:38-44 | the new transaction, with the given id and the form's fields, comes first, and the old list follows unchanged and in order |
| Ledger.DeleteTransaction | App.tsx:46-48 | the result is an order-preserving subsequence holding exactly the transactions whose id differs, each as many times as before; when no transaction carries the id, the list is unchanged |
| Ledger.ResetData | App.tsx:50-54 | whatever the list held, the result is the example ledger, every date within the ten days up to the load day |
| Ledger.DeleteUndoesAdd | App.tsx:38-48 | deleting the id just added, when no older transaction uses it, gives back the list before the add |
| Ledger.DeleteIdempotent | App.tsx:46-48 | deleting the same id twice is deleting it once |
| Ledger.DeleteAfterAddOther | App.tsx:38-48 | deleting one id after adding a transaction with another id is the same as adding it after the delete |
| Constants.InitialTransactions | constants.ts:21-27 | the example ledger has five transactions with distinct ids and positive amounts, dated from ten days before the load day up to that day |
| DateFilter.Keep | App.tsx:61-81 | the `filter` callback: same month and year as now; same year; a day number from 30 days before now up to the day after now, counted by rolling the day of the month; or, with both custom bounds set, between them inclusive, and everything without them |
| DateFilter.FilteredTransactions | App.tsx:57-82 | the result is an order-preserving subsequence holding exactly the transactions that pass, with their multiplicities; a custom filter missing either bound returns the input unchanged |
| DateFilter.CurrentMonthKeeps | App.tsx:65-66 | "current month" keeps exactly the transactions of now's month and year |
| DateFilter.CurrentYearKeeps | App.tsx:67-68 | "current year" keeps exactly the transactions of now's year |
| DateFilter.Last30DaysWindow | App.tsx:69-72 | "last 30 days" keeps exactly the days from 30 calendar days before now up to and including the next day |
| DateFilter.Last30DaysEdges | App.tsx:69-72 | a transaction dated tomorrow or exactly 30 days ago is kept; one dated two days ahead or 31 days ago is not |
| DateFilter.CustomWindow | App.tsx:73-77 | with both bounds set, the custom filter keeps exactly the days from start to end, both included |
| DateFilter.CustomReversedIsEmpty | App.tsx:75-77 | a custom range whose end comes before its start keeps nothing |
| DateFilter.MonthWithinYear | App.tsx:65-68 | filtering by the current year and then by the current month is filtering by the month |
| DateFilter.FilterIdempotent | App.tsx:61-81 | applying a filter twice is applying it once |
| Calendar.DayNumber | App.tsx:70-72 | the day number of a (year, month, day) whose day may fall outside the month, which rolls over into neighbouring months and years as `setDate` and `new Date(y, m, d + 1)` do |
| Calendar.OrdinalOrder | App.tsx:62 | calendar order of two dates agrees with the order of their day numbers, and equal day numbers mean the same date |
| Calendar.NextDay | App.tsx:72 | the day after `d` has the next day number, across month and year ends |
| Calendar.PrevDay | App.tsx:70-71 | the day before `d` has the previous day number, across month and year ends |
| Calendar.DaysEarlier | App.tsx:70-71 | the date `n` days earlier has a day number smaller by `n` |
| Summary.ComputeSummary | App.tsx:86-99 | the totals are the income and the expense amounts summed, the balance is their difference, and all three are zero for no transactions |
| Summary.SummaryAdditive | App.tsx:86-99 | the summary of two lists joined is the field-wise sum of their summaries |
| Summary.SummaryAfterAdd | App.tsx:38-44 | adding a transaction raises exactly the total of its kind, by its amount |
| Summary.TotalsNonNegative | App.tsx:86-92 | with no negative amounts neither total is negative |
| Grouping.GroupBy | App.tsx:103-106 | the buckets' keys are the distinct keys in first-seen order, and each bucket holds the income and expense totals of exactly the transactions with its key |
| Grouping.GroupTotals | App.tsx:103-106 | the buckets' totals add up to the totals of all the transactions |
| Sorting.SortBy | App.tsx:114 | the result is a permutation, sorted by the key, and elements with equal keys keep their relative order |
| Sorting.SortStable | App.tsx:114 | of two elements with equal keys, the one earlier in the input stays earlier in the output |
| Categories.FirstSeenMembers | App.tsx:101-106 | a category is listed exactly when some expense transaction carries it |
| Categories.Colorize | App.tsx:108-113 | each bucket becomes an entry with its key and expense total, coloured by its position modulo the palette size |
| Categories.Unsorted | App.tsx:101-113 | before sorting, there is one entry per expense category in first-seen order, valued at that category's spending and coloured by its position |
| Categories.CategoryBreakdown | App.tsx:101-115 | every name is an expense category, listed once; each value is that category's spending; each colour follows the category's first-seen index, not its sorted place; values descend, and ties keep first-seen order |
| Categories.BreakdownPermutes | App.tsx:108-114 | the breakdown is a reordering of the unsorted entries: sorting drops and adds nothing |
| Categories.BreakdownConservesExpense | App.tsx:101-115 | the category values add up to the summary's expense total |
| Categories.BreakdownCoversExpenses | App.tsx:101-115 | every expense's category appears in the breakdown, and every entry comes from some expense |
| CashFlow.DailyPoints | App.tsx:118-131 | there is one point per distinct day in first-seen order, holding that day's income total and the total of its other amounts |
| CashFlow.DailyPointsConserve | App.tsx:118-131 | the points' incomes and expenses add up to the summary totals |
| CashFlow.SortedPoints | App.tsx:131-132 | the points are reordered so that the days strictly ascend |
| CashFlow.SortedSeries | App.tsx:118-132 | the sorted series has one correct point per day seen and shows every transaction's day |
| CashFlow.ChartData | App.tsx:117-134 | at most 15 points, days strictly ascending, each with its day's totals; every day left out is older than every day kept, and with 15 days or fewer every day is kept |
| Sharing.Lookup | components/SharingModal.tsx:52 | the guest's owner is found exactly when an entry for the guest exists |
| Sharing.Taken | components/SharingModal.tsx:52 | the truthiness of `permissions[inviteEmail]`: the guest has an entry and its owner is not the empty string |
| Sharing.Assign | components/SharingModal.tsx:58 | a new guest's entry is appended at the end; an existing guest's first entry is rewritten in place to the new owner, and nothing else changes |
| Sharing.AssignLookup | components/SharingModal.tsx:58 | after assigning, the guest maps to the owner and every other guest maps as before |
| Sharing.Remove | components/SharingModal.tsx:68 | after removal the guest has no entry; removing an absent guest changes nothing |
| Sharing.RemoveLookup | components/SharingModal.tsx:66-69 | removal deletes only that guest, whichever owner it had, and every other guest maps as before |
| Sharing.RemoveUnique | components/SharingModal.tsx:68 | removal keeps each guest at most once in the table |
| Sharing.GuestsOf | components/SharingModal.tsx:17-29 | the listing holds exactly the guests mapped to the owner, without repeats when guests are unique |
| Sharing.ListingIsLookup | components/SharingModal.tsx:22-26 | a guest is listed for an owner exactly when the guest's lookup gives that owner |
| Sharing.Invite | components/SharingModal.tsx:31-64 | an empty e-mail is ignored, self-sharing is refused, and a guest already mapped is refused; each of these leaves the table unchanged; otherwise the guest is mapped to the current user |
| Sharing.InviteGrant | components/SharingModal.tsx:57-61 | a grant maps the guest to the current user, leaves every other guest as it was, keeps guests unique, and lists the guest |
| Sharing.InviteIgnoresRegistry | components/SharingModal.tsx:43-47 | whether the invited e-mail is a registered user does not change the outcome |
| Sharing.InviteKeepsOwners | components/SharingModal.tsx:57-59 | no entry ever maps to an empty owner |
| Sharing.GrantAppends | components/SharingModal.tsx:49-58 | a grant never overwrites: the guest had no entry, and the new entry is appended |
| Sharing.ListingAfterGrant | components/SharingModal.tsx:58-61 | right after a grant, the current user's listing is the old one with the guest appended |
| Sharing.ListingAfterRevoke | components/SharingModal.tsx:66-72 | after a revoke, the listing is the old one without that guest |
| Sharing.UniqueEntries | components/SharingModal.tsx:52-58 | with unique guests, a guest has one entry if mapped and none otherwise |
| Sharing.InviteTwice | components/SharingModal.tsx:52-58 | inviting the same guest again is refused as already shared, and the table keeps exactly one entry for the guest |
| Accounts.Utf16Length | components/Login.tsx:30 | the password length is at least the number of characters, at most twice that, and equal to it for Basic Multilingual Plane text |
| Accounts.Register | components/Login.tsx:30-44 | refuses exactly when a field is empty or the password is short, then exactly when the e-mail is registered; succeeds exactly when neither holds, and then appends the user, password included, after the unchanged old users |
| Accounts.FindByEmail | components/Login.tsx:36 | a user is found exactly when the e-mail is registered, and the one found has that e-mail |
| Accounts.FirstMatch | components/Login.tsx:53 | returns the first position whose user matches both e-mail and password, or none exactly when no user matches |
| Accounts.Login | components/Login.tsx:53-59 | succeeds exactly when some user matches both e-mail and password, returning the first match's name and e-mail without the password; otherwise the one error |
| Accounts.RegisterKeepsEmailsUnique | components/Login.tsx:36-44 | registration keeps the e-mails unique |
| Accounts.RegisterThenLogin | components/Login.tsx:43-56 | a fresh registration signs in at once with the same e-mail and password, as the user just registered |
| Accounts.LoginFailuresAlike | components/Login.tsx:57-59 | an unknown e-mail and a wrong password give the same error |
| Scenarios.JanuarySummary | App.tsx:86-99 | a R$ 5000 salary and a R$ 1500 rent give cards of 5000 in, 1500 out and 3500 balance |
| Scenarios.JanuaryBreakdown | App.tsx:101-115 | the same ledger breaks down into housing alone, in the first palette colour |
| Scenarios.ShareThenRevoke | components/SharingModal.tsx:31-72 | a guest granted access is listed for the owner, and after revoking has no entry and is no longer listed |

## Left out

- Reading and writing `localStorage` and the JSON (de)serialisation. The ledger, the permission table and the user list are values passed in and returned.
- Ledger.AddTransaction: the id is a parameter. The source draws a random one and does not check that it is fresh.
- `setTimeout`, the simulated network delay around sign-in, and the `window.confirm` before a reset. The model is the branch taken once they have run; a declined reset is simply not calling `ResetData`.
- The Gemini advisor and all rendering components, including the transaction form's input checks and `parseFloat`.
- Floating point: amounts are exact integers in cents, so no rounding of sums or of `b.value - a.value` is modelled.
- Time zones and daylight saving: "now" is the user's local calendar date, and transaction dates are read as local midnights.
- Constants.InitialTransactions: the example dates come from `toISOString`, so they are UTC calendar dates taken at module load. This is the `loadDay` parameter. The model does not relate `loadDay` to the local "now" of the filter.
- Malformed date strings (an `Invalid Date` compares false with everything) are not modelled. Every date is a valid calendar date.
- `localeCompare` is taken to order `YYYY-MM-DD` strings as calendar order. Years outside 0000–9999 and locale-specific collation are not modelled.
- JavaScript object key order puts integer-like keys (a category named "123") first in numeric order, and keys such as `__proto__` behave specially. The model keeps plain insertion order for every key.
- Accounts.Utf16Length: lone surrogate code units cannot occur in a Dafny string, so they are not counted.
- The sharing modal's `sharedUsers` display state, its messages, and the `userExists` lookup whose result is never used. `InviteIgnoresRegistry` states the last one.
- No idle-timeout session guard and no resolution of a guest to the owner's data exist in the code, so neither is modelled.
