# Finance tracker core, modelled in Dafny

This project models the core of a personal finance tracker. The app keeps a log of income, expense and
transfer records, a registry of accounts, income and expense categories with sub-categories, a monthly
budget, per-category budgets and user settings. Around that state it offers:

- the store's update operations (`context/AppContext.tsx`);
- the dashboard's monthly statistics (`pages/Dashboard.tsx`);
- the reports page's search, range filter, drill-down, chart data, period comparison, breakdown table and
  top categories (`pages/Reports.tsx`);
- the chart components' own data preparation: the budget overview, the spending heatmap and the calendar
  (`components/Charts.tsx`);
- the transaction entry form: its defaults, its field handlers and its submit with on-the-fly category
  and sub-category creation (`components/TransactionModal.tsx`);
- the record types (`types.ts`).

Modules:

| module | file | what it holds |
|---|---|---|
| `Types` | Types.dfy | the records of `types.ts` and the optional-value helpers |
| `Text` | Text.dfy | `toLowerCase`, `includes`, `String(n)`, `padStart`, `split`, and amounts as decimal text |
| `Calendar` | Calendar.dfy | the host `Date` on local time: day numbers, the civil view, `new Date(y, m, d, …)`, `setDate`, `setMonth` |
| `LocalDates` | LocalDates.dfy | the `YYYY-MM-DD` local day key and the date input |
| `Sorting` | Sorting.dfy | the stable sort newest first, and `filter` |
| `Tally` | Tally.dfy | a JS object used as a map: `m[k] = (m[k] \|\| 0) + v` loops and their totals |
| `AppContext` | AppContext.dfy | balances, the update functions, and the `Store` class whose methods change its fields |
| `Dashboard` | Dashboard.dfy | active accounts and the `stats` block |
| `ReportFilters` | ReportFilters.dfy | the base filter, the drill-down filter and the drill-down state |
| `ReportCharts` | ReportCharts.dfy | the pie and the per-day buckets of the reports chart |
| `ReportComparison` | ReportComparison.dfy | comparison ranges, period metrics, breakdown table, top categories |
| `Charts` | Charts.dfy | the budget overview slices, the spending heatmap and the calendar chart |
| `TransactionEntry` | Entry.dfy | the entry form and its submit |

Conventions of the model:

- Amounts are integers in minor units (hundredths).
- An instant is an integer number of milliseconds of local time. `Calendar` gives it the host `Date`
  meaning, with ECMAScript's month and day overflow: month 12 is January of the next year, and day 0 is
  the last day of the month before.
- A JS object filled in a loop is an association list in insertion order (`Tally.Entry`).
- The translation function `t` is a parameter of type `string -> string`. `AppContext.Store.T` is the
  store's own lookup.
- Ids drawn from `crypto.randomUUID()` and `Date.now()` are parameters (`uuid`, `nowMs`).
- Where the source loops with `forEach` or `for`, the model is a `method` with a loop, proved against a
  function. The functions' properties are lemmas.
- The store is a class whose methods state the whole new state.

The monthly comparison follows `pages/Reports.tsx:157-158` as written. Its previous period starts from a
copy of now moved back one month and only then set to the 1st, so on the 29th to the 31st after a shorter
month it starts on the 1st of the current month (see "## Findings"). It ends at 00:00 on the last day of
the month it starts in, not at the end of that day. `ReportComparison.MonthlyRanges` states both.

## Model

| member | source | states |
|---|---|---|
| Types.ParseTransactionType | types.ts:2 | exactly the three literals `income`, `expense`, `transfer` are transaction types, and each reads back to its own name |
| Types.TransactionTypeRoundTrip | types.ts:2 | printing a transaction type and reading it back gives the same type |
| Types.ParseAccountKey | types.ts:3 | exactly `cash`, `bank`, `wallet` are account keys, each reading back to its own name |
| Types.AccountKeyRoundTrip | types.ts:3 | printing an account key and reading it back gives the same key |
| Types.CategoryTransactionType | types.ts:14 | a category stands for income or expense, never a transfer, and maps back to its own category type |
| Types.CategoryTypeOf | types.ts:14 | a transaction type has a category type exactly when it is not a transfer |
| Types.OrElse | pages/Dashboard.tsx:75 | `o \|\| d`: a non-empty value wins, otherwise the default |
| Types.FindCategory | pages/Reports.tsx:83 | the first category with the id: it has the id and no category before it does; none exactly when no category has that id |
| Text.Lower | pages/Reports.tsx:82 | lower-casing keeps the length and lowers each character on its own |
| Text.LowerIdempotent | pages/Reports.tsx:82 | lower-casing twice is lower-casing once |
| Text.ContainsAt | pages/Reports.tsx:84-86 | `includes` holds exactly when the term occurs at some position |
| Text.NatToString | pages/Reports.tsx:85 | `String(n)` is a non-empty digit string with no leading zero, of one digit below 10 and two below 100 |
| Text.NatToStringValue | pages/Reports.tsx:85 | the digits of `String(n)` are worth `n` |
| Text.NatToStringInjective | context/AppContext.tsx:152 | different numbers print differently |
| Text.IntToString | context/AppContext.tsx:152 | `String(n)` for an integer starts with `-` exactly when it is negative |
| Text.IntToStringInjective | context/AppContext.tsx:152 | different integers print differently |
| Text.Pad2 | pages/Reports.tsx:115 | `padStart(2, '0')` gives a digit string of length 2 for a number below 100 |
| Text.Pad2Value | pages/Reports.tsx:115 | the padded digits are worth the number |
| Text.IndexOfDot | components/TransactionModal.tsx:114 | the position of the first dot, or the length when there is none |
| Text.WholePart | components/TransactionModal.tsx:114 | the whole part of an amount reads exactly when it is a non-empty digit string |
| Text.FractionPart | components/TransactionModal.tsx:114 | the fraction reads exactly when it is one or two digits |
| Text.AmountRoundTrip | components/TransactionModal.tsx:58 | the text `amount.toString()` reads back as the same amount, for every amount |
| Text.NegativeAmountRoundTrip | components/TransactionModal.tsx:58 | the round trip holds for negative amounts (the sign is read back) |
| Text.UnsignedRoundTrip | components/TransactionModal.tsx:58 | the unsigned printed text of `c` hundredths reads back as `c` |
| Text.Split | components/TransactionModal.tsx:131 | `split` gives at least one part |
| Text.SplitNoSep | components/TransactionModal.tsx:131 | text without the separator splits into itself alone |
| Text.SplitFirst | components/TransactionModal.tsx:131 | the first separator ends the first part |
| Calendar.DaysInMonth | pages/Dashboard.tsx:44 | months have 28 to 31 days, and 29 exactly for February of a leap year |
| Calendar.TimeWithinDay | pages/Dashboard.tsx:46 | an instant is its day number times a day plus a time of day in 0..86 399 999 |
| Calendar.YearLength | pages/Dashboard.tsx:37 | consecutive year starts are one year length apart |
| Calendar.YearUnique | pages/Dashboard.tsx:37 | a day number lies in exactly one year |
| Calendar.MonthLength | pages/Dashboard.tsx:37 | the month starts agree with the month lengths and end at the year length |
| Calendar.MonthUnique | pages/Dashboard.tsx:37 | a day of the year lies in exactly one month |
| Calendar.CivilOfDay | pages/Dashboard.tsx:38 | every day number has a valid calendar date that maps back to it |
| Calendar.CivilUnique | pages/Dashboard.tsx:38 | two valid dates with the same day number are the same date |
| Calendar.CivilRoundTrip | pages/Dashboard.tsx:38 | a valid date is the date of its own day number |
| Calendar.Month | pages/Dashboard.tsx:39 | `getMonth()` is in 0..11 |
| Calendar.DayOfMonth | pages/Dashboard.tsx:38 | `getDate()` is a valid day of the instant's month |
| Calendar.WeekDay | components/Charts.tsx:405 | `getDay()` is in 0..6 |
| Calendar.DayOfInstant | pages/Dashboard.tsx:38 | the civil view of an instant maps back to its day number |
| Calendar.SetDateShift | components/Charts.tsx:283 | moving the day of the month by `k` with `setDate` moves the instant by exactly `k` days |
| Calendar.SetDateCivil | pages/Reports.tsx:157 | `setDate(d)` with a day of the month goes to that day and keeps year, month and time of day |
| Calendar.SetMonthBackCivil | pages/Reports.tsx:157 | on the 1st, `setMonth(getMonth() - 1)` goes to the 1st of the previous month at the same time |
| Calendar.MidnightIsStartOfDay | pages/Reports.tsx:92 | the local midnight of an instant is the start of its day, and the instant lies in that day |
| Calendar.NewDateCivil | pages/Dashboard.tsx:46 | `new Date(y, m, d, h, min, s)` with in-range arguments is that date at that time |
| Calendar.FirstOfMonthCivil | pages/Dashboard.tsx:39 | `new Date(y, m, 1)` is 00:00 on the 1st of that month |
| Calendar.LastOfMonthCivil | pages/Reports.tsx:145 | `new Date(y, m + 1, 0, h, min, s)` is the last day of month `m` at that time |
| Calendar.DayZeroOfNextMonth | components/Charts.tsx:406 | day 0 of the next month is the last day of this month |
| Calendar.LastDayBeforeFirst | pages/Reports.tsx:158 | the last day of a month is the day before the 1st of the next one, across a year end too |
| Calendar.MakeDayBeforeJanuary | pages/Dashboard.tsx:42 | month -1 is December of the year before |
| Calendar.MakeDayAfterDecember | components/Charts.tsx:416 | month 12 is January of the year after |
| LocalDates.LocalYmd | components/TransactionModal.tsx:20-25 | the local day key is the printed year followed by six characters `-MM-DD` |
| LocalDates.YmdStringShape | components/TransactionModal.tsx:20-25 | a four-digit year gives the ten-character `YYYY-MM-DD` form with dashes at 4 and 7 |
| LocalDates.YmdStringInjective | pages/Reports.tsx:115 | the day key determines year, month and day |
| LocalDates.LocalYmdSameDay | pages/Reports.tsx:115 | two instants have the same key exactly when they fall on the same local day |
| LocalDates.YmdStringParse | components/TransactionModal.tsx:131-132 | reading a day key back as the date input gives 00:00 of that day |
| LocalDates.DateInputRoundTrip | components/TransactionModal.tsx:60 | the form's date text of an instant reads back as that day's local midnight |
| Sorting.Insert | pages/Reports.tsx:80 | inserting keeps every element and adds one |
| Sorting.SortDesc | pages/Reports.tsx:80 | the sort is a permutation of its input |
| Sorting.SortDescMember | pages/Reports.tsx:80 | the sort neither adds nor drops elements |
| Sorting.InsertSorted | pages/Reports.tsx:80 | inserting into a list sorted newest first keeps it sorted |
| Sorting.SortDescSorted | pages/Reports.tsx:80 | the result is sorted newest first |
| Sorting.SortDescOfSorted | pages/Reports.tsx:80 | a list already in order comes back unchanged |
| Sorting.SortDescStable | pages/Reports.tsx:80 | the sort is stable: records with equal dates keep their order |
| Sorting.Filter | pages/Reports.tsx:80-103 | `filter` keeps exactly the elements that pass, and never grows |
| Sorting.FilterCount | pages/Reports.tsx:80-103 | a passing element keeps all its copies and a failing one has none |
| Sorting.FilterCounts | pages/Reports.tsx:80-103 | the same for every element at once |
| Sorting.FilterPartition | context/AppContext.tsx:139-142 | filtering by a test and by its negation gives two parts that together hold every element of the input |
| Sorting.FilterSorted | pages/Reports.tsx:80-103 | filtering a sorted list keeps it sorted |
| Sorting.FilterIdempotent | pages/Reports.tsx:80-103 | filtering twice by the same test is filtering once |
| Sorting.FilterAppend | pages/Reports.tsx:80-103 | filtering a concatenation filters each part |
| Tally.FindKeys | pages/Dashboard.tsx:76 | a key is found exactly when it is one of the object's keys |
| Tally.PutKeys | pages/Dashboard.tsx:76 | writing a present key keeps the key order; a new key goes at the end |
| Tally.PutFind | pages/Dashboard.tsx:76 | after `m[k] = v`, `k` holds `v` and every other key is unchanged |
| Tally.PutPut | pages/Dashboard.tsx:76 | writing a key twice keeps only the second write |
| Tally.PutSame | pages/Dashboard.tsx:76 | writing back the value a key holds changes nothing |
| Tally.GetAbsent | pages/Dashboard.tsx:76 | `m[k] \|\| 0` reads 0 for a missing key |
| Tally.PutGet | pages/Dashboard.tsx:76 | after `m[k] = v`, `k` reads `v` and every other key reads as before |
| Tally.TallyGet | pages/Dashboard.tsx:71-77 | each key of a tally holds the sum of the values added under it; an unseen key reads 0 |
| Tally.TallyKeys | pages/Dashboard.tsx:71-77 | the tally's keys are the keys seen, each once |
| Tally.TallyTotal | pages/Dashboard.tsx:71-77 | the tally's values add up to the sum of everything added |
| Tally.PutTotal | pages/Dashboard.tsx:76 | replacing a key's value changes the total by the difference |
| Tally.DedupLaws | pages/Reports.tsx:206 | `new Set` keeps the same elements, each once |
| Tally.DedupOfDistinct | pages/Reports.tsx:206 | `new Set([...a, ...b])` for a distinct `a` starts with `a` unchanged |
| Tally.DedupFixed | pages/Reports.tsx:206 | a distinct list is its own set |
| AppContext.BalanceAppend | context/AppContext.tsx:163-173 | an account's balance is additive over any split of the log |
| AppContext.BalanceOfUnknown | context/AppContext.tsx:163-173 | an account no record names has balance 0 |
| AppContext.DeltaCases | context/AppContext.tsx:165-171 | income adds, expense subtracts, a transfer subtracts from its source and adds to its target, and other records add nothing |
| AppContext.SelfTransfer | context/AppContext.tsx:169-170 | a transfer from an account to itself only debits that account |
| AppContext.WithId | context/AppContext.tsx:132 | the added record is the entered data under the new id, nothing else changed |
| AppContext.PrependTransaction | context/AppContext.tsx:131-133 | the new record goes in front and the old log follows unchanged |
| AppContext.PrependKeepsIdsUnique | context/AppContext.tsx:131-133 | with a fresh id the record ids stay unique |
| AppContext.PrependBalance | context/AppContext.tsx:131-133 | adding a record moves every balance by exactly that record's contribution |
| AppContext.ReplaceTransaction | context/AppContext.tsx:135-137 | every record with the edited id becomes the new data, and every other record stays |
| AppContext.ReplaceTransactionLaws | context/AppContext.tsx:135-137 | the ids stay; replacing twice is replacing once; an unknown id changes nothing |
| AppContext.RemoveTransaction | context/AppContext.tsx:139-142 | the `filter` of the log: the records with another id, each as often as before, in their order; the other records are gone |
| AppContext.TransactionsWithId | context/AppContext.tsx:139-142 | the records a delete removes, as a `filter`, are exactly those with that id |
| AppContext.RemoveTransactionPartition | context/AppContext.tsx:139-142 | kept and removed records together are the old log, and their balances add up to the old balance |
| AppContext.AppendTransactions | context/AppContext.tsx:144-148 | imported records follow the old log unchanged |
| AppContext.ImportBalance | context/AppContext.tsx:144-148 | importing adds the imported records' balances to the old ones |
| AppContext.ClockId | context/AppContext.tsx:152 | a clock-made id (`acc_` for accounts, `cat_` for categories) starts with its prefix |
| AppContext.ClockIdInjective | context/AppContext.tsx:152 | ids made with one prefix at different instants are different |
| AppContext.RenameAccount | context/AppContext.tsx:155-157 | only the name of the matching account changes |
| AppContext.RemoveAccount | context/AppContext.tsx:159-161 | the `filter` of the registry: the other accounts, each as often as before, in their order |
| AppContext.AccountLaws | context/AppContext.tsx:155-161 | removing is idempotent; renaming an unknown id to any name changes nothing; the first account stays first unless it is the one removed |
| AppContext.AddCategoryTo | context/AppContext.tsx:176-184 | a same-name (ignoring case) same-type category leaves the registry unchanged; otherwise one category is appended with the given or fresh id |
| AppContext.AddCategoryLaws | context/AppContext.tsx:176-184 | after adding, the name is present; adding again changes nothing; same-type names stay distinct |
| AppContext.ReplaceCategory | context/AppContext.tsx:186-188 | every category with the id becomes the new one, the rest stay |
| AppContext.RemoveCategory | context/AppContext.tsx:190-199 | the `filter` of the registry: the categories with another id, each as often as before, in their order |
| AppContext.Uncategorized | context/AppContext.tsx:194 | a record of a deleted category loses category and sub-category, keeps every other field, and gets the note marked `(Uncategorized)` |
| AppContext.UncategorizeAll | context/AppContext.tsx:190-199 | exactly the records of the deleted category are uncategorized, the others stay |
| AppContext.UncategorizeLaws | context/AppContext.tsx:190-199 | after a category delete no record names it, ids stay, and no balance moves |
| AppContext.RemoveBudgets | context/AppContext.tsx:190-199 | the `filter` of the category budgets: those of other categories, each as often as before, in their order |
| AppContext.SetBudgetAmounts | context/AppContext.tsx:206-212 | every entry for the category gets the new amount, the others stay |
| AppContext.UpsertBudgetEntries | context/AppContext.tsx:206-212 | after the update the category has a budget entry, all its entries hold the amount, and other categories' entries are unchanged |
| AppContext.UpsertBudgetIdempotent | context/AppContext.tsx:206-212 | a second update with the same amount changes nothing |
| AppContext.UpsertBudgetUnique | context/AppContext.tsx:206-212 | one entry per category stays one entry per category |
| AppContext.MergeSettingsFields | context/AppContext.tsx:215-217 | each of the fourteen fields takes the patch's value when the patch carries it, and keeps the old one otherwise |
| AppContext.MergeSettingsIdentity | context/AppContext.tsx:215-217 | an empty patch keeps the settings and a full one replaces them |
| AppContext.MergeSettingsCompose | context/AppContext.tsx:215-217 | two updates in a row equal one update with the composed patch |
| AppContext.Translate | context/AppContext.tsx:228-232 | the language's text if present, else the English text, else the key itself; a non-empty key never translates to `''` |
| AppContext.TranslateFallback | context/AppContext.tsx:228-232 | a language without a table reads as English, and English falls back to the key |
| AppContext.Store.constructor | context/AppContext.tsx:70-75 | the store starts with the loaded log, registries, budgets and settings |
| AppContext.Store.AddTransaction | context/AppContext.tsx:131-133 | the log gets the record in front, and every balance moves by its contribution |
| AppContext.Store.UpdateTransaction | context/AppContext.tsx:135-137 | the log becomes the replaced log |
| AppContext.Store.DeleteTransaction | context/AppContext.tsx:139-142 | the log loses the records with the id, and the call reports success |
| AppContext.Store.ImportTransactions | context/AppContext.tsx:144-148 | the imported records are appended and the category registry is replaced |
| AppContext.Store.AddAccount | context/AppContext.tsx:151-153 | one account with the clock-made id is appended |
| AppContext.Store.UpdateAccountName | context/AppContext.tsx:155-157 | the matching account is renamed |
| AppContext.Store.DeleteAccount | context/AppContext.tsx:159-161 | the account leaves the registry and the log stays |
| AppContext.Store.AddCategory | context/AppContext.tsx:176-184 | the registry becomes the checked add, and same-type names stay distinct |
| AppContext.Store.UpdateCategory | context/AppContext.tsx:186-188 | the registry becomes the replaced registry |
| AppContext.Store.DeleteCategory | context/AppContext.tsx:190-199 | category, its records' categories and its budgets go, and no balance moves |
| AppContext.Store.UpdateBudget | context/AppContext.tsx:202-204 | the monthly budget becomes the amount |
| AppContext.Store.UpdateCategoryBudget | context/AppContext.tsx:206-212 | the budgets become the upsert, and one entry per category is kept |
| AppContext.Store.UpdateSettings | context/AppContext.tsx:215-217 | the settings become the merged settings |
| Dashboard.WithBalances | pages/Dashboard.tsx:32 | each account carries its balance, in the list's order |
| Dashboard.ActiveAccountsLaws | pages/Dashboard.tsx:30-34 | a row is shown exactly for a listed account with a non-zero balance, and it carries that balance |
| Dashboard.ActiveAccountsAppend | pages/Dashboard.tsx:30-34 | rows keep the account list's order |
| Dashboard.UnusedAccountHidden | pages/Dashboard.tsx:30-34 | an account no record names is not shown |
| Dashboard.MonthlySumIs | pages/Dashboard.tsx:48-54 | the monthly sum adds exactly the records of the kind dated at or after the start of the month |
| Dashboard.MonthlySumAfterAdd | pages/Dashboard.tsx:48-54 | an added record moves the monthly sum by its amount exactly when it counts |
| Dashboard.MonthBefore | pages/Dashboard.tsx:42 | month `m - 1` of the constructor is the month before now's, in whichever year it falls |
| Dashboard.DaysInLastMonthIs | pages/Dashboard.tsx:44 | `new Date(y, m, 0).getDate()` is the length of last month |
| Dashboard.LastMonthStartCivil | pages/Dashboard.tsx:42 | the window starts at 00:00 on the 1st of last month |
| Dashboard.LastMonthEndCivil | pages/Dashboard.tsx:45-46 | the window ends at 23:59:59 on the compare day, which lies in last month and is no later than today's day |
| Dashboard.LastMonthWindow | pages/Dashboard.tsx:42-46 | the window runs from 00:00 on the 1st of last month to 23:59:59 on min(today's day, last month's length) of last month, before this month starts |
| Dashboard.CombineIs | pages/Dashboard.tsx:65-69 | the reducer from any start adds all income and subtracts all expenses |
| Dashboard.CombinedTotalIs | pages/Dashboard.tsx:65-69 | the all-time net is income minus expenses; transfers do not move it |
| Dashboard.CombinedTotalAfterAdd | pages/Dashboard.tsx:65-69 | an added record moves the net by its signed amount, a transfer by nothing |
| Dashboard.NamedSlices | pages/Dashboard.tsx:109 | one slice per entry, named by the translated key, with its value |
| Dashboard.ChartData | pages/Dashboard.tsx:71-77 | the loop gives the slices of this month's expenses tallied under their category name, else `Other` |
| Dashboard.ChartDataTotal | pages/Dashboard.tsx:71-77 | the pie's slices add up to this month's expenses |
| Dashboard.ChartDataKeys | pages/Dashboard.tsx:71-77 | a name is in the pie exactly when some expense of this month has it, and its value is their sum |
| Dashboard.SpentByCategory | pages/Dashboard.tsx:79-86 | the loop gives the tally of this month's expenses by category id |
| Dashboard.SpentByCategoryLaws | pages/Dashboard.tsx:79-86 | an id is a key exactly when it is non-empty and some expense of this month has it, and it holds their sum |
| Dashboard.RecentLaws | pages/Dashboard.tsx:88-90 | the recent list holds min(15, n) records newest first, all from the log, and no left-out record is newer than a shown one |
| Dashboard.LeftOutNotNewer | pages/Dashboard.tsx:88-90 | after a sort newest first, nothing past the cut is newer than anything before it |
| Dashboard.RemainingForChart | pages/Dashboard.tsx:92-101 | with a budget, the budget minus the expenses; without one, income minus expenses but at least 0; negative exactly when the budget is exceeded |
| Dashboard.OverviewWhole | pages/Dashboard.tsx:92-101 | the overview chart's slices add up to the budget, or to the larger of income and expenses without one |
| Dashboard.RoundDiv | pages/Dashboard.tsx:111 | `Math.round(n / d)` is the nearest integer, halves rounded up |
| Dashboard.Health | pages/Dashboard.tsx:111 | 100 without a budget, 0 once it is spent, else the rounded remaining percentage, within 0..100 |
| Dashboard.HealthMonotone | pages/Dashboard.tsx:111 | spending more never raises the health score |
| Dashboard.ComputeStats | pages/Dashboard.tsx:36-115 | every field of `stats` is its specification: monthly sums, the last-month window sum, the net, the recent list, the pie as the named tally of the month's expenses by top category (adding up to the monthly expenses), the remaining amount, the health score, the per-category spend and today's day |
| ReportFilters.BaseFilteredLaws | pages/Reports.tsx:76-104 | the list is sorted newest first and holds each record as often as the log exactly when it passes search and range |
| ReportFilters.BaseFilteredIdempotent | pages/Reports.tsx:76-104 | filtering the filtered list again changes nothing |
| ReportFilters.TodayMeaning | pages/Reports.tsx:94 | `today` keeps exactly the records of today's local day |
| ReportFilters.WeekMeaning | pages/Reports.tsx:95 | `week` keeps every record from the local day seven days ago on, with no upper bound |
| ReportFilters.DisplayedLaws | pages/Reports.tsx:106-118 | the drill-down keeps exactly the matching records in order, and a date drill-down keeps exactly that local day |
| ReportFilters.UncategorizedSliceDrill | pages/Reports.tsx:111 | a record without category or sub-category matches the translated uncategorized slice only when that text is `Uncategorized` |
| ReportFilters.HeatmapToggle | pages/Reports.tsx:218-221 | the same date again clears the drill-down; any other click selects that date |
| ReportFilters.HeatmapTwice | pages/Reports.tsx:218-221 | clicking a date twice leaves no date drill-down, unless it was the drill-down before |
| ReportFilters.DrillDownControl.constructor | pages/Reports.tsx:44 | there is no drill-down at first |
| ReportFilters.DrillDownControl.HeatmapClick | pages/Reports.tsx:218-221 | the drill-down becomes the toggled one |
| ReportFilters.DrillDownControl.Select | pages/Reports.tsx:386-394 | a chart click sets the drill-down outright |
| ReportFilters.DrillDownControl.Clear | pages/Reports.tsx:402 | `Clear Filter` removes the drill-down |
| ReportCharts.PieData | pages/Reports.tsx:121-129 | the loop gives the tally of the non-transfers by translated category name, else the uncategorized label |
| ReportCharts.PieLaws | pages/Reports.tsx:121-129 | each label appears once, exactly when a non-transfer has it, holds their sum, and all slices add up to the non-transfers |
| ReportCharts.FileUnder | pages/Reports.tsx:135-137 | one loop step creates the day's bucket when missing and adds the income or expense |
| ReportCharts.DateBuckets | pages/Reports.tsx:131-139 | the buckets of the loop, sorted by date ascending, as a permutation |
| ReportCharts.DaysByAt | pages/Reports.tsx:131-138 | a day has a bucket exactly when some record falls on it, and the bucket holds that day's income, expenses and first record's date |
| ReportCharts.DaysByDistinct | pages/Reports.tsx:131-138 | each day has at most one bucket |
| ReportCharts.DateBucketsLaws | pages/Reports.tsx:131-139 | every bucket is the bucket of its own local day, and every day with a record has one |
| ReportCharts.TransferOnlyDay | pages/Reports.tsx:131-138 | a day with only transfers gets a bucket with 0 income and 0 expense |
| ReportComparison.ComparisonRanges | pages/Reports.tsx:142-165 | the weekly, monthly and custom presets give their ranges and labels, the monthly B side in the page's own order (back a month, then to the 1st) and equal to the corrected start when today's day exists in the previous month; `3month` and `6month` use the custom periods |
| ReportComparison.WeeklyRanges | pages/Reports.tsx:150-154 | this week ends now and starts six days back; the previous week ends seven days back and starts thirteen days back |
| ReportComparison.WeeklyRangesMeaning | pages/Reports.tsx:150-154 | the two weekly windows fall on days now-13..now-7 and now-6..now, in time order |
| ReportComparison.MonthlyRanges | pages/Reports.tsx:155-158 | A is this month so far; B starts at now moved back a month and then to the 1st, and ends at 00:00 on the last day of the month it lands in; B's start is the corrected one whenever today's day exists in the previous month |
| ReportComparison.PrevMonthStartCivil | pages/Reports.tsx:157 | the corrected previous-month start is the 1st of the previous month at now's time of day |
| ReportComparison.StartOfMonthCivil | pages/Reports.tsx:144 | `getStartOfMonth` is 00:00 on the 1st |
| ReportComparison.EndOfMonthCivil | pages/Reports.tsx:145 | `getEndOfMonth` is 23:59:59 on the last day |
| ReportComparison.LastDayOfMonthCivil | pages/Reports.tsx:158 | `new Date(y, m + 1, 0)` is 00:00 on the last day of the month |
| ReportComparison.MonthlyRangesIntended | pages/Reports.tsx:155-158 | with the corrected start, the previous period lies in the previous month, from its 1st to its last day, before this month begins |
| ReportComparison.CustomRangeMeaning | pages/Reports.tsx:159-163 | a custom period runs from 00:00 on the 1st to 23:59:59 on the last day of its month |
| ReportComparison.MonthlyStartBAsWrittenOverflows | pages/Reports.tsx:157 | on 31 March 2024 the start of the previous month as written is 1 March, not 1 February |
| ReportComparison.MonthlyStartBAsWrittenCivil | pages/Reports.tsx:157 | the as-written start is the 1st of the previous month when today's day exists there, else the 1st of the current month, at now's time of day |
| ReportComparison.OverflowIntoThisMonth | pages/Reports.tsx:157 | a day past the end of the previous month is day `d - len` of the current month, and that day exists |
| ReportComparison.AsWrittenAgrees | pages/Reports.tsx:157 | when today's day exists in the previous month, the as-written start equals the corrected one |
| ReportComparison.BackFromMarch31 | pages/Reports.tsx:157 | `setMonth(1)` on 31 March 2024 lands on 2 March |
| ReportComparison.FebruaryOverflow | pages/Reports.tsx:157 | day 31 of February 2024 is 2 March |
| ReportComparison.KindSumFilter | pages/Reports.tsx:177-178 | the sum over the filtered records is the sum over the records that pass |
| ReportComparison.PeriodMetricsLaws | pages/Reports.tsx:167-181 | the period's records are those in range that pass the category filters; income and expenses are their sums; savings is the difference |
| ReportComparison.PeriodMetricsAdditive | pages/Reports.tsx:167-181 | splitting a range in two splits income, expenses and savings in two |
| ReportComparison.IncomeExpenseCover | pages/Reports.tsx:177-178 | income, expense and transfer sums together are the total |
| ReportComparison.ExpenseTally | pages/Reports.tsx:190-201 | the loop gives the tally of the expenses by the key |
| ReportComparison.ExpenseTallyLaws | pages/Reports.tsx:190-201 | each key appears once, exactly when some expense has it, and holds their sum |
| ReportComparison.GroupData | pages/Reports.tsx:187-203 | the groups are the expense tally by sub-category or `General` under a category filter, else by translated category name or `Uncategorized` |
| ReportComparison.RowsOf | pages/Reports.tsx:208-213 | one row per key, with each side's amount or 0 and the difference |
| ReportComparison.BreakdownData | pages/Reports.tsx:186-216 | the table for the two periods' groups |
| ReportComparison.BreakdownLaws | pages/Reports.tsx:206-215 | rows sorted by A descending, one per key of either side, each with both amounts and their difference |
| ReportComparison.BreakdownKeyOrder | pages/Reports.tsx:206 | the key list starts with A's keys unchanged |
| ReportComparison.TopCategories | pages/Reports.tsx:231-241 | the first five of the category totals sorted largest first |
| ReportComparison.TopCategoriesLaws | pages/Reports.tsx:231-241 | at most five entries, largest first, each one's amount the sum of its expenses, and none left out larger than one shown |
| Charts.CeilDiv | components/Charts.tsx:291 | `Math.ceil(n / d)` is the least `q` with `n <= q * d` |
| Charts.CeilDivAtMostFour | components/Charts.tsx:291 | `ceil(4 * a / m)` is at most 4 when `a <= m` |
| Charts.OverviewSlices | components/Charts.tsx:92-109 | the data followed by a `reminding` slice for a surplus or an `extraExpense` slice of its size for an overspend; the slices add up to the data plus the gap |
| Charts.DailyNet | components/Charts.tsx:258-267 | the loop gives the tally of income minus expenses by local day |
| Charts.NetTallyStep | components/Charts.tsx:262-266 | income bumps its day by its amount, an expense by minus its amount, a transfer not at all |
| Charts.DailyNetLaws | components/Charts.tsx:258-267 | a day has an entry exactly when an income or expense falls on it, and holds that day's net |
| Charts.Scales | components/Charts.tsx:271-277 | both scales are at least 1 and bound every surplus and every deficit, and each is 1 or a value of the map |
| Charts.IsScalesUnique | components/Charts.tsx:271-277 | the scales the loop must deliver are determined by the values |
| Charts.HeatIntensity | components/Charts.tsx:287-296 | the shade is 0 exactly on a net of 0, and at most 4 within the scale |
| Charts.ToneOf | components/Charts.tsx:287-296 | neutral exactly on 0, surplus exactly above 0 |
| Charts.HeatmapCells | components/Charts.tsx:280-299 | 105 cells, one per day ending today, each with its day's key, net, shade and tone |
| Charts.CellShade | components/Charts.tsx:287-296 | with the scales of the map every cell's shade is in 0..4 and 0 exactly on a net of 0 |
| Charts.ChunkWeeks | components/Charts.tsx:302-310 | the weeks hold the cells in order, each of one to seven cells, all but the last full |
| Charts.FullWeeks | components/Charts.tsx:302-310 | 105 cells make exactly 15 full weeks |
| Charts.SpendingHeatmap | components/Charts.tsx:247-310 | 15 weeks of 7 cells for the last 105 days in order, each cell showing its day's net and the shade `HeatIntensity` gives it against the scales of all day nets, 0..4 and 0 exactly for a net of 0 |
| Charts.AddToRecord | components/Charts.tsx:391-397 | one loop step creates the day's record when missing and adds income, expense and balance |
| Charts.CalendarDays | components/Charts.tsx:379-403 | the loop gives the day records and the scale `maxBal \|\| 1` |
| Charts.CalTotalsAt | components/Charts.tsx:379-403 | a day has a record exactly when a bucket falls on it, and it holds that day's sums |
| Charts.CalPeakBound | components/Charts.tsx:399 | no record ends with a larger absolute balance than the scale |
| Charts.CalIntensity | components/Charts.tsx:449 | a shown day's shade is 1..4, and `ceil(4 * \|balance\| / max)` for a non-zero balance |
| Charts.CalendarShade | components/Charts.tsx:447-449 | the shade of a day with data is computed from that day's sums |
| Charts.DayGrid | components/Charts.tsx:408-413 | the grid holds `firstDayOfMonth` blanks, then the days 1 to `daysInMonth` |
| Charts.DayGridMeaning | components/Charts.tsx:405-413 | the grid has the month's length, and day `d` sits in the column of its weekday |
| Charts.GridKey | components/Charts.tsx:442 | the key the grid looks up for day `d` is the local day key of that day |
| Charts.InitialViewLaws | components/Charts.tsx:369-376 | the first view is the latest date of the data, or now without data |
| Charts.PrevViewCivil | components/Charts.tsx:415 | the previous button goes to 00:00 on the 1st of the month before, across a year end too |
| Charts.NextViewCivil | components/Charts.tsx:416 | the next button goes to 00:00 on the 1st of the month after, across a year end too |
| Charts.PrevNextRoundTrip | components/Charts.tsx:415-416 | previous then next, or next then previous, returns to the 1st of the view's month |
| Charts.CalendarView.constructor | components/Charts.tsx:369-376 | the view starts at the initial view |
| Charts.CalendarView.Prev | components/Charts.tsx:415 | the view moves to the previous month |
| Charts.CalendarView.Next | components/Charts.tsx:416 | the view moves to the next month |
| TransactionEntry.Trim | components/TransactionModal.tsx:124 | `trim` is empty exactly for all-space text; otherwise it neither starts nor ends with a space, and it sits in the text with only spaces around it |
| TransactionEntry.TrimIdempotent | components/TransactionModal.tsx:144-145 | trimming twice is trimming once |
| TransactionEntry.TrimOfTrimmed | components/TransactionModal.tsx:144-145 | text without space at either end is its own trim |
| TransactionEntry.AccountIdOr | components/TransactionModal.tsx:71-74 | `accounts[i]?.id \|\| fallback` |
| TransactionEntry.NewForm | components/TransactionModal.tsx:66-77 | a new entry starts with the given type or expense, no amount, today's date, no category, the first account as source and the second (else the first) as target |
| TransactionEntry.EditForm | components/TransactionModal.tsx:56-65 | editing loads the record's type and note, an amount text that reads back as its amount, and a date that reads back as its day's midnight |
| TransactionEntry.SwitchType | components/TransactionModal.tsx:226 | a type button sets the type and clears category, sub-category and both creation modes, and nothing else |
| TransactionEntry.SelectCategory | components/TransactionModal.tsx:83-95 | `__NEW__` opens an empty name field; any other choice selects it; either clears the sub-category |
| TransactionEntry.SelectSubCategory | components/TransactionModal.tsx:97-107 | `__NEW__` opens an empty sub-category name field; any other choice selects it |
| TransactionEntry.AvailableSubCategories | components/TransactionModal.tsx:43-46 | the sub-categories of the selected category, else none |
| TransactionEntry.FindNamed | components/TransactionModal.tsx:150 | none exactly when no same-type category has the name ignoring case; else such a category |
| TransactionEntry.ResolveCategory | components/TransactionModal.tsx:148-168 | the selection when not creating; an existing match when creating one that exists; a new clock-made id exactly when creating a name that does not exist |
| TransactionEntry.InitialSubs | components/TransactionModal.tsx:158 | a new category starts with the new sub-category name exactly when a non-blank one is entered |
| TransactionEntry.FinalSub | components/TransactionModal.tsx:173-199 | the record's sub-category is the trimmed new name when creating one, else the selection |
| TransactionEntry.Prepare | components/TransactionModal.tsx:109-204 | refused for a missing or non-positive amount; an accepted record has the parsed positive amount, the parsed in-range date, the form's type and note, its category or transfer accounts, and its account |
| TransactionEntry.Submit | components/TransactionModal.tsx:109-207 | a refused submit changes nothing and returns the reason; an accepted one leaves the registry as resolved and the log with the record saved |
| TransactionEntry.CategoryResolution | components/TransactionModal.tsx:119-168 | a saved non-transfer names a category of the registry with the right name and type, an existing one when there was one; same-type names stay distinct and no category is lost |
| TransactionEntry.RegistryLaws | components/TransactionModal.tsx:148-199 | the registry grows by at most one category, keeps every id and name, and a new category is appended with the trimmed name |
| TransactionEntry.SubCategoryRecorded | components/TransactionModal.tsx:173-199 | a non-blank new sub-category name is saved on the record and found in its category's sub-categories afterwards |
| TransactionEntry.SubRegistered | components/TransactionModal.tsx:173-199 | after the submit the resolved category holds the new sub-category name, ignoring case |
| TransactionEntry.EditRoundTrip | components/TransactionModal.tsx:56-65 | re-saving an opened record keeps its type, amount and note, moves the date to its day's midnight, and leaves the registry |
| TransactionEntry.SwitchTypeNeedsCategory | components/TransactionModal.tsx:119-122 | after switching to income or expense nothing can be saved until a category is chosen |
| TransactionEntry.TransferNeedsNoCategory | components/TransactionModal.tsx:136-138 | a transfer leaves the registry and saves no category or account; it is refused only for amount or date |
| TransactionEntry.NewCategoryNeedsName | components/TransactionModal.tsx:124-127 | creating a category with an empty name is refused |
| TransactionEntry.NewFormNeedsAmount | components/TransactionModal.tsx:114-117 | a freshly opened entry cannot be saved before an amount is typed |
| TransactionEntry.SaveIntoLaws | components/TransactionModal.tsx:203-204 | an edit keeps the log's length; a new record goes in front under the new id |

## Left out

- Sign-in, cloud sync, local-storage persistence and the timers around them are not modelled. The store's
  state is the loaded state, passed to the constructor.
- Locale and currency formatting, the AI service, the settings page, routing, the DOM, styling, colours
  and the Excel and PDF exports are not modelled.
- `resetPreferences`, `resetSettings` and `formatPrice` are not modelled. They are display and reset helpers
  outside the computations above.
- Transaction dates are stored as ISO strings. The model takes them as already-resolved local instants,
  because the host's date-string parser is not part of this model. Instants are local time with one fixed
  offset: time zones and daylight saving are not modelled.
- Floating point is not modelled. Amounts are exact minor units, so the `0.01` threshold of the active
  accounts becomes "balance is not 0". `Math.ceil` and `Math.round` work on exact quotients.
- Invalid dates and `NaN` are not modelled. The heatmap's `isNaN` guard is therefore always passed.
- `toLowerCase` lowers ASCII letters only; Unicode case mapping is not modelled.
- JS objects list integer-like keys first. The tally keeps every key in insertion order; day keys and
  names are not integer-like in practice.
- The amount text is read as decimal digits with at most two fraction digits and an optional sign. Any
  other text, including `parseFloat`'s reading of a prefix such as `12abc` and exponent notation, counts as
  unreadable and is refused like a missing amount.
- `async` flags, the notification toasts and `onClose` of the entry form are not modelled.
- The entry form reads the categories it was given. The model gives it the store's registry.
- TransactionEntry.CategoryResolution: stated for registries whose ids are unique. A registry with a
  repeated id can make `categories.find` name another category than the one just matched.
- TransactionEntry.SubCategoryRecorded: stated for unique ids, and for a clock-made id that no category
  already has.
- TransactionEntry.SubRegistered: same two hypotheses as SubCategoryRecorded.
- TransactionEntry.EditForm: the date round trip is stated for years from 100 on. The `Date` constructor
  maps years 0–99 to 1900–1999.
- TransactionEntry.EditRoundTrip: the optional `isFlagged` field is not carried over by the form, and the
  model states exactly that.

## Findings

| source | as written | input that shows it | evidently intended | confidence | as-written member | corrected member |
|---|---|---|---|---|---|---|
| pages/Reports.tsx:157 | the monthly preset's previous period starts from a copy of now, moves it back one month with `setMonth`, and only then sets the day to 1; on the 29th to 31st the month overflows | now = 31 March 2024: `setMonth(1)` gives 31 February = 2 March, and `setDate(1)` gives 1 March, so "Last Month" is March | the 1st of the previous month (set the day first, then the month) | not executed | ReportComparison.MonthlyStartBAsWrittenOverflows | ReportComparison.MonthlyRangesIntended |
