# A budgeting app's core, in Dafny

This project models the logic of a small React Native budgeting app that keeps
its data in Firebase. A user has **periods**, each with a start date, an end
date and an optional daily limit. Each period holds **incomes**, **budgets**,
**daily costs** (what was spent on one day) and **miscellaneous costs**. The model
covers:

- `formatAmount`: rounds to a whole number, then groups digits with commas.
  Modules `Formatters` and `JsText`.
- `getDaysInPeriod`: the inclusive day count between two `YYYY-MM-DD` dates.
  Modules `Helpers` and `Calendar`.
- The daily cost list. It sorts the costs by date, then runs the carry-over
  fold: each day starts with what the day before had left. Module `DailyCostList`.
- The dashboard's state. This covers:
  - the periods and which one is active;
  - the four lists of records of that period;
  - the two loading flags;
  - how fetches and deletions change the state.

  This is the class `DashboardData.Dashboard`.
- The six add/set forms:
  - their checks, in order, with the exact alert texts;
  - the exact record each one sends to the store;
  - their `loading` and date-picker state.

  One module per form, plus `FormSupport`.
- The budget and income lists: order-preserving projections into
  `{id, name, amount}` rows. Modules `BudgetList` and `IncomeList`.

The record shapes are in `Records`. `Wrappers` holds `Option` and `Result`.

Modelling choices:

- **Amounts** are exact reals. `Math.round(x)` is `floor(x + 0.5)`.
- **Numbers that can be NaN.** `parseFloat` is a function the callers pass in.
  It returns a `JsNumber`, which is either a number or NaN. Budget and income
  amounts keep this type, because their forms store whatever `parseFloat`
  returns.
- **Dates** are days of the proleptic Gregorian calendar. JavaScript time
  values are counted in milliseconds from 1970-01-01 UTC.
- **Remote calls** (the store, fetches, `onLimitSet`) are parameters. Each one
  says what came back: a result, or a failure.
- **Handlers** run as one atomic step each. A fetch is split into two steps:
  the part before its `await` and the part after.

`Math.round` rounds halves toward +∞, so -999.5 is written `"-999"`
(`Formatters.FormatAmountNegativeHalf`).

## Model

| member | source | states |
|---|---|---|
| Formatters.Round | utils/formatters.ts:3 | `Math.round`: the integer n with n ≤ x + 0.5 < n + 1, so halves go toward +∞ |
| Formatters.FormatAmount | utils/formatters.ts:1-6 | `formatAmount`: the regex replace applied to `Math.round(amount).toString()`; it carries no contract of its own, and its facts are the `FormatAmount*` rows below (shape, comma removal, sign, small values, examples) |
| Formatters.SeparatorInDigits | utils/formatters.ts:5 | in a digit string, `\B(?=(\d{3})+(?!\d))` matches exactly at the inner positions followed by a multiple of three digits |
| Formatters.StripInsert | utils/formatters.ts:5 | the replace only inserts commas: on a text without commas, removing them gives back that text |
| Formatters.InsertSeparatorsGrouped | utils/formatters.ts:5 | on a digit string the replace writes digit groups: a first group of 1–3 digits, then `,` and three digits each |
| Formatters.InsertAfterSign | utils/formatters.ts:5 | no comma is put between a leading `-` and the digits, because `\B` fails there |
| Formatters.FormatAmountNegative | utils/formatters.ts:3-5 | a negative rounded value is written `-`, then the comma-separated digits of its magnitude |
| Formatters.FormatAmountShape | utils/formatters.ts:1-6 | the output is `-` when the rounded value is negative, then the digits of its magnitude as digit groups; removing the commas gives `Math.round(amount).toString()` |
| Formatters.FormatAmountStrip | utils/formatters.ts:3-5 | removing every comma from the output gives exactly `Math.round(amount).toString()` |
| Formatters.FormatAmountSmall | utils/formatters.ts:5 | a rounded value between -1000 and 1000 (both excluded) gets no separator |
| Formatters.FormatAmountSign | utils/formatters.ts:3-5 | the output starts with `-` followed by a digit exactly when the rounded value is negative |
| Formatters.GroupedStartsWithDigit | utils/formatters.ts:5 | digit groups never start with a comma |
| Formatters.FormatAmountZero | utils/formatters.ts:1-6 | 0 is written `"0"` |
| Formatters.FormatAmountNegativeHalf | utils/formatters.ts:3 | -999.5 rounds to -999 and is written `"-999"` |
| Formatters.FormatAmountMillions | utils/formatters.ts:1-6 | 1234567.8 is written `"1,234,568"` |
| Formatters.FormatAmountNegativeThousands | utils/formatters.ts:1-6 | -1234 is written `"-1,234"` |
| JsText.DecimalDigits | utils/formatters.ts:3 | `toString` of a natural number: non-empty, digits only, no leading zero unless it is `"0"` |
| JsText.DecimalDigitsValue | utils/formatters.ts:3 | reading the decimal text back gives the number |
| JsText.DecimalDigitsLength | utils/formatters.ts:5 | the text has at most k digits exactly when the number is below 10^k |
| JsText.Trim | components/forms/AddPeriodForm.tsx:47 | `trim()`: drops white space at the start, then at the end; its facts are the `TrimStartSpec`, `TrimEndSpec`, `TrimSpec` and `TrimIdempotent` rows |
| JsText.TrimStartSpec | components/forms/AddPeriodForm.tsx:47 | trimming the start drops only white space, and keeps a suffix that does not start with white space |
| JsText.TrimEndSpec | components/forms/AddPeriodForm.tsx:47 | trimming the end drops only white space, and keeps a prefix that does not end with white space |
| JsText.TrimSpec | components/forms/AddPeriodForm.tsx:47 | `trim()`: the slice of the text between its leading and trailing white space, with no white space at either end; it is empty exactly when the text is all white space |
| JsText.TrimIdempotent | components/forms/AddPeriodForm.tsx:60 | trimming a trimmed text changes nothing |
| JsText.LexLessIrreflexive | components/forms/AddDailyCostForm.tsx:60 | string `<` is irreflexive |
| JsText.LexLessTransitive | components/forms/AddDailyCostForm.tsx:60 | string `<` is transitive |
| JsText.LexTrichotomy | components/forms/AddDailyCostForm.tsx:60 | of two strings one is less, or they are equal, or the other is less |
| JsText.LexLessEqTotal | components/DailyCostList.tsx:31 | any two dates compare one way or the other |
| JsText.LexLessEqAntisymmetric | components/DailyCostList.tsx:31 | strings that compare both ways are equal |
| JsText.LexLessAppend | components/forms/AddDailyCostForm.tsx:60 | comparing concatenations with equal-length heads compares the heads first, then the tails |
| JsText.PadStart | components/forms/AddDailyCostForm.tsx:25-26 | `padStart`: the text, preceded by as many pad characters as make up the target length |
| JsText.PadStartDigits | components/forms/AddDailyCostForm.tsx:25-26 | zero-padding the text of n < 10^k to length k gives its k-digit form |
| JsText.FourDigitText | components/forms/AddDailyCostForm.tsx:24-27 | a year from 1000 to 9999 is written with exactly four digits |
| JsText.FixedDigitsOrder | components/forms/AddDailyCostForm.tsx:60 | fixed-width digit strings compare as the numbers they denote, and are equal exactly when the numbers are |
| JsText.FixedDigitsValue | utils/helpers.ts:3-4 | a fixed-width digit field reads back as the number (below 10^k) |
| JsText.FixedDigitsOfValue | utils/helpers.ts:3-4 | a digit string is the fixed-width form of the number it denotes |
| Calendar.DaysInMonth | utils/helpers.ts:3-4 | every month has 28 to 31 days |
| Calendar.DayNumberOrder | utils/helpers.ts:7 | day numbers are ordered as the dates are (year, then month, then day) |
| Calendar.DayNumberInjective | utils/helpers.ts:7 | different dates have different day numbers |
| Calendar.NextDayNumber | utils/helpers.ts:7-8 | the next calendar day, across month, year and leap-day ends, has the next day number |
| Calendar.ParseFullDate | utils/helpers.ts:3-4 | reads `YYYY-MM-DD` text naming a real day, and anything it reads as a date has a year from 0 to 9999 |
| Calendar.ParseFullDateOfFullDate | utils/helpers.ts:3-4 | reading the full-date text of a day gives that day back |
| Calendar.FullDateOfParseFullDate | utils/helpers.ts:3-4 | a text that reads as a date is that date's full-date text |
| Calendar.FullDateParts | utils/helpers.ts:3-4 | a full-date text is four year digits, `-`, two month digits, `-`, two day digits |
| Calendar.FullDateOrder | components/forms/AddDailyCostForm.tsx:60 | full-date texts compare as strings exactly as their days compare |
| Calendar.IsoDatePart | components/forms/AddPeriodForm.tsx:23-25 | `toISOString().split('T')[0]`: the ISO year, month and day of the UTC day; its facts are the `IsoYearValue` and `IsoDatePartIsFullDate` rows |
| Calendar.IsoYearValue | components/forms/AddPeriodForm.tsx:24 | `toISOString` writes a year from 0 to 9999 as four digits, and any other as a sign and six digits that read back as the year |
| Calendar.IsoDatePartIsFullDate | components/forms/AddPeriodForm.tsx:23-25 | the part of `toISOString()` before `T` is the full-date of the UTC day, for four-digit years |
| Calendar.EpochDayNumber | utils/helpers.ts:3-4 | 1970-01-01, where time values count from, is day 719528 of the proleptic calendar |
| Calendar.TimeValueDay | components/forms/AddPeriodForm.tsx:52 | of two `Date`s, the one whose time value is not larger falls on the same or an earlier UTC day |
| Helpers.DateTime | utils/helpers.ts:3-4 | for `YYYY-MM-DD` text with a year from 0000 to 9999 naming a real day, `new Date(text).getTime()` is UTC midnight of that day; the model gives `None` for every other text, including forms ECMAScript does read (see Left out) |
| Helpers.Abs | utils/helpers.ts:7 | `Math.abs`: the non-negative one of x and -x |
| Helpers.CeilDiv | utils/helpers.ts:8 | `Math.ceil(a / b)`: the integer r with (r-1)·b < a ≤ r·b |
| Helpers.CeilDivWhole | utils/helpers.ts:8 | the ceiling of a whole number of days is that number |
| Helpers.DaysInPeriod | utils/helpers.ts:2-11 | within the model's reading of dates, the result is `None` exactly when either text is not a `YYYY-MM-DD` full-date with a year from 0000 to 9999; the other date forms that ECMAScript reads are left out |
| Helpers.DaysInPeriodValue | utils/helpers.ts:3-9 | for two full-dates the result is the distance between their day numbers plus one |
| Helpers.DaysInPeriodOfMidnights | utils/helpers.ts:3-8 | for two full-dates the count is the rounded-up distance between their UTC midnights, in days, plus one |
| Helpers.MidnightDifference | utils/helpers.ts:7 | two UTC midnights are apart by the difference of their day numbers times 86400000 ms |
| Helpers.WholeDays | utils/helpers.ts:7-8 | times k whole days apart give exactly the absolute value of k days, with nothing to round up |
| Helpers.DaysBetweenMidnights | utils/helpers.ts:7-8 | between the midnights of two days lie as many days as between their day numbers |
| Helpers.DaysInPeriodOfFullDates | utils/helpers.ts:2-11 | between the full-dates of a first and a later last day the count is the days from one to the other, both included |
| Helpers.DaysInPeriodSymmetric | utils/helpers.ts:7 | swapping the arguments gives the same result |
| Helpers.DaysInPeriodPositive | utils/helpers.ts:7-8 | for two full-dates the result is at least 1 |
| Helpers.DaysInPeriodSameDay | utils/helpers.ts:8 | equal dates give 1 |
| Helpers.DaysInPeriodNextDay | utils/helpers.ts:3-8 | when the end is not before the start, moving the end one day later adds exactly 1, across month, year and leap-day ends |
| Helpers.DaysInPeriodExample | utils/helpers.ts:7-8 | the full-dates of 2024-01-01 and 2024-01-05 give 5 |
| Helpers.ExampleFullDates | utils/helpers.ts:3-4 | the full-dates of 2024-01-01 and 2024-01-05 are the texts `"2024-01-01"` and `"2024-01-05"` |
| Helpers.DaysInPeriodTextExample | utils/helpers.ts:2-11 | `getDaysInPeriod("2024-01-01", "2024-01-05")` is 5 |
| DailyCostList.Extend | components/DailyCostList.tsx:46-50 | `{...cost, carryOver, remaining}` keeps every field of the cost and adds the two computed ones |
| DailyCostList.DailyLimit | components/DailyCostList.tsx:32 | a missing daily limit counts as 0, a present one as itself |
| DailyCostList.SortByDate | components/DailyCostList.tsx:31 | the sorted copy has as many costs as the array; that it is the stable sort by date is stated by the `SortByDate*`, `StableSortUnique` and `StablySortedIsSortByDate` rows |
| DailyCostList.SortByDatePermutation | components/DailyCostList.tsx:31 | the sorted copy holds the same costs, each as often as the input |
| DailyCostList.SortByDateSorted | components/DailyCostList.tsx:31 | the sorted copy is non-decreasing by date string |
| DailyCostList.SortByDateStable | components/DailyCostList.tsx:31 | costs with the same date keep their input order |
| DailyCostList.InsertWithDate | components/DailyCostList.tsx:31 | an inserted cost lands before every cost of its own date |
| DailyCostList.SortByDateStablySorted | components/DailyCostList.tsx:31 | the sort is a stable sort by date |
| DailyCostList.StableSortUnique | components/DailyCostList.tsx:31 | two sequences that are both sorted by date and keep the same order within each date are equal |
| DailyCostList.StablySortedIsSortByDate | components/DailyCostList.tsx:31 | every stable sort by date of the costs, the engine's included, gives the modelled sorted copy |
| DailyCostList.CarryOver | components/DailyCostList.tsx:35-53 | the fold: one item per sorted cost with its fields; first carry-over 0; each later carry-over is the previous remaining; remaining = carry-over + limit − spent |
| DailyCostList.CarriedOverClosedForm | components/DailyCostList.tsx:35-53 | item i has remaining = (i+1)·limit − the total spent on days 0..i |
| DailyCostList.CarriedOverUnique | components/DailyCostList.tsx:35-53 | the costs and the limit fix the computed items completely |
| DailyCostList.CalculatedItems | components/DailyCostList.tsx:28-54 | no period gives no items; otherwise the stably sorted copy of the array, carried over with the period's limit (0 when missing); the array is only read |
| DashboardData.Without | hooks/useDashboardData.ts:145 | the filter keeps exactly the entries whose id differs from the given one |
| DashboardData.WithoutAppend | hooks/useDashboardData.ts:122 | the filter works entry by entry, keeping their order: it distributes over concatenation, so the kept entries stay in their order |
| DashboardData.WithoutAbsent | hooks/useDashboardData.ts:163 | a list without the id is left exactly as it was |
| DashboardData.WithoutIdempotent | hooks/useDashboardData.ts:181 | filtering the same id twice removes nothing more |
| DashboardData.SelectAfterFetch | hooks/useDashboardData.ts:52-59 | no periods give no active id; otherwise the active id is kept when a fetched period has it, and is the first period's id when not; the result always names a fetched period |
| DashboardData.SelectAfterDelete | hooks/useDashboardData.ts:124 | none exactly when no period remains; otherwise the id of the first remaining period |
| DashboardData.DeletedPeriodGone | hooks/useDashboardData.ts:122-124 | after deleting a period no remaining period has its id, so the next active id is a different one |
| DashboardData.Dashboard.Valid | hooks/useDashboardData.ts:52-59 | the invariant: an active id, when set, names a loaded period. The constructor sets it up, and every handler requires and ensures it: the class invariant |
| DashboardData.Dashboard.constructor | hooks/useDashboardData.ts:23-30 | the initial state: no periods, no active id, `loading` on, empty lists, `loadingData` off; the active id invariant holds |
| DashboardData.Dashboard.StartFetchPeriods | hooks/useDashboardData.ts:46-48 | with a user, `loading` goes on; without one nothing changes |
| DashboardData.Dashboard.FinishFetchPeriods | hooks/useDashboardData.ts:49-64 | fetched periods replace the list and re-select the active id; a failed fetch changes neither; `loading` goes off in both cases; the active id still names a loaded period |
| DashboardData.Dashboard.SyncPeriodData | hooks/useDashboardData.ts:36-45 | with a user and an active id the period's data is fetched and `loadingData` goes on; otherwise all four lists are emptied |
| DashboardData.Dashboard.FinishFetchPeriodData | hooks/useDashboardData.ts:69-84 | all four lists are replaced together, or none of them is when a fetch failed; `loadingData` goes off in both cases |
| DashboardData.Dashboard.DeletePeriod | hooks/useDashboardData.ts:109-134 | nothing happens without an active id or a user, or when the remote delete fails; otherwise the period is filtered out and the first remaining one becomes active |
| DashboardData.Dashboard.DeleteIncome | hooks/useDashboardData.ts:136-152 | after a successful remote delete the incomes lose that id; after a failed one nothing changes |
| DashboardData.Dashboard.DeleteBudget | hooks/useDashboardData.ts:154-170 | the same for budgets |
| DashboardData.Dashboard.DeleteDailyCost | hooks/useDashboardData.ts:172-188 | the same for daily costs |
| DashboardData.Dashboard.DeleteMiscellaneousCost | hooks/useDashboardData.ts:190-206 | the same for miscellaneous costs |
| FormSupport.AfterStore | components/forms/AddMiscellaneousCostForm.tsx:44-57 | after the store call: the created record goes to the callback, or the store's message is shown under the title "Error" |
| FormSupport.Submitted | components/forms/AddMiscellaneousCostForm.tsx:32-58 | a failed check rejects with its alert before any store call; otherwise the store is called with the checked record |
| FormSupport.TrimmedOfNonBlank | components/forms/AddMiscellaneousCostForm.tsx:46 | a text that is not blank trims to a non-empty text that trimming leaves unchanged |
| AddMiscellaneousCostForm.Validate | components/forms/AddMiscellaneousCostForm.tsx:33-50 | accepted exactly when the title is not blank, the amount is not empty and it parses to a number ≥ 0; "fill all fields" is checked before the amount; the record is the trimmed title, the parsed amount and the two ids |
| AddMiscellaneousCostForm.AcceptedMiscellaneousCost | components/forms/AddMiscellaneousCostForm.tsx:45-50 | a sent cost has a trimmed non-empty title, an amount ≥ 0 and the caller's ids |
| AddMiscellaneousCostForm.Form.constructor | components/forms/AddMiscellaneousCostForm.tsx:28-30 | empty title and amount, not loading |
| AddMiscellaneousCostForm.Form.HandleSubmit | components/forms/AddMiscellaneousCostForm.tsx:32-58 | the submission is the checked one; a rejection leaves `loading` alone, and a call to the store ends with it off |
| AddBudgetForm.Validate | components/forms/AddBudgetForm.tsx:33-45 | accepted exactly when the name is not blank and the amount is not empty; the record has the trimmed name, the unchecked `parseFloat` amount, the two ids and status not paid |
| AddBudgetForm.AcceptedBudget | components/forms/AddBudgetForm.tsx:39-45 | a sent budget has a trimmed non-empty name and is not paid |
| AddBudgetForm.Form.constructor | components/forms/AddBudgetForm.tsx:28-30 | empty name and amount, not loading |
| AddBudgetForm.Form.HandleSubmit | components/forms/AddBudgetForm.tsx:32-53 | the submission is the checked one; `loading` ends off once the store was called |
| AddIncomeForm.Validate | components/forms/AddIncomeForm.tsx:33-44 | accepted exactly when the source is not blank and the amount is not empty; the record has the trimmed source, the unchecked `parseFloat` amount and the two ids |
| AddIncomeForm.AcceptedIncome | components/forms/AddIncomeForm.tsx:39-44 | a sent income has a trimmed non-empty source and the caller's ids |
| AddIncomeForm.Form.constructor | components/forms/AddIncomeForm.tsx:28-30 | empty source and amount, not loading |
| AddIncomeForm.Form.HandleSubmit | components/forms/AddIncomeForm.tsx:32-52 | the submission is the checked one; `loading` ends off once the store was called |
| SetDailyLimitForm.InitialText | components/forms/SetDailyLimitForm.tsx:26 | the input starts as the limit's text when the limit is above 0, and empty otherwise |
| SetDailyLimitForm.Validate | components/forms/SetDailyLimitForm.tsx:30-34 | accepted exactly when the text parses to a number ≥ 0, which is the new limit; 0 is accepted |
| SetDailyLimitForm.InitialTextValidates | components/forms/SetDailyLimitForm.tsx:26-34 | with no limit set yet, the untouched input is refused; a positive limit whose text reads back is accepted unchanged |
| SetDailyLimitForm.Form.constructor | components/forms/SetDailyLimitForm.tsx:26-27 | the input starts with the initial text, not loading |
| SetDailyLimitForm.Form.HandleSubmit | components/forms/SetDailyLimitForm.tsx:29-40 | a refused limit calls nothing; an accepted one calls `onLimitSet(periodId, limit)` once; `loading` goes off and the form closes only when that call's promise resolves |
| AddDailyCostForm.FormatDate | components/forms/AddDailyCostForm.tsx:23-28 | the form's `formatDate`; its facts are the `FormatDatePadded` and `FormatDateIsFullDate` rows |
| AddDailyCostForm.FormatDatePadded | components/forms/AddDailyCostForm.tsx:23-28 | the form writes the year, then the month and the day as exactly two digits each |
| AddDailyCostForm.FormatDateIsFullDate | components/forms/AddDailyCostForm.tsx:23-28 | for a four-digit year this is the `YYYY-MM-DD` full-date |
| AddDailyCostForm.WithinPeriod | components/forms/AddDailyCostForm.tsx:59-60 | the string check: the formatted date is neither before `start_date` nor after `end_date`; `WithinPeriodIsCalendarRange` states that this is the calendar range of the period |
| AddDailyCostForm.Validate | components/forms/AddDailyCostForm.tsx:51-75 | accepted exactly when the amount parses to a number ≥ 0 and the formatted date is neither before the start nor after the end (as strings); the amount is checked first; the record is the formatted date, the amount, the user and the period id |
| AddDailyCostForm.WithinPeriodIsCalendarRange | components/forms/AddDailyCostForm.tsx:59-66 | for full-date period ends and a four-digit year, the string check accepts exactly the days from the first to the last day of the period, both included |
| AddDailyCostForm.AcceptedDailyCost | components/forms/AddDailyCostForm.tsx:59-75 | a sent cost has an amount ≥ 0, the period's id, and a full-date naming the selected day, which lies within the period |
| AddDailyCostForm.Form.constructor | components/forms/AddDailyCostForm.tsx:36-39 | today's date, empty amount, not loading, picker hidden |
| AddDailyCostForm.Form.OpenDatePicker | components/forms/AddDailyCostForm.tsx:87 | the date button shows the picker |
| AddDailyCostForm.Form.HandleDateChange | components/forms/AddDailyCostForm.tsx:40-49 | the picker is hidden; the date changes only for a `set` event that comes with a date |
| AddDailyCostForm.Form.HandleSubmit | components/forms/AddDailyCostForm.tsx:51-83 | the submission is the checked one; `loading` ends off once the store was called |
| AddPeriodForm.FormatDate | components/forms/AddPeriodForm.tsx:23-25 | the form's `formatDate`, the date part of `toISOString()`; its facts are the `FormatDateIsFullDate` and `PickedDates` rows |
| AddPeriodForm.FormatDateIsFullDate | components/forms/AddPeriodForm.tsx:23-25 | for a four-digit year, the full-date of the instant's UTC day |
| AddPeriodForm.Validate | components/forms/AddPeriodForm.tsx:46-64 | accepted exactly when the name is not blank, both dates are picked and the end is not earlier than the start; fields are checked first; the record is the trimmed name, both formatted dates and the user, with no daily limit or notes |
| AddPeriodForm.FullDatesOfPeriod | components/forms/AddPeriodForm.tsx:23-25 | the full-dates of two days in order read back as those days, compare as strings in that order, and `getDaysInPeriod` counts the days from one to the other |
| AddPeriodForm.PickedDates | components/forms/AddPeriodForm.tsx:52-64 | two picked dates whose time values are in order (four-digit years) are formatted to such texts for their UTC days |
| AddPeriodForm.AcceptedPeriod | components/forms/AddPeriodForm.tsx:52-64 | a sent period has a trimmed name and full-dates naming the picked days; its end is not before its start as strings; `getDaysInPeriod` gives it end − start + 1 days |
| AddPeriodForm.Form.constructor | components/forms/AddPeriodForm.tsx:28-32 | empty name, no dates, not loading, no picker open |
| AddPeriodForm.Form.OpenDatePicker | components/forms/AddPeriodForm.tsx:85-89 | the start or the end button opens its picker |
| AddPeriodForm.Form.HandleDateChange | components/forms/AddPeriodForm.tsx:34-44 | the picker closes; the start date is updated when the start picker was open and the end date otherwise, to the selected date or, with none, to its current value |
| AddPeriodForm.Form.HandleSubmit | components/forms/AddPeriodForm.tsx:46-72 | the submission is the checked one; `loading` ends off once the store was called |
| BudgetList.Item | components/BudgetList.tsx:11-15 | the row of one budget; what the list holds is the `TransactionItems` row |
| BudgetList.TransactionItems | components/BudgetList.tsx:11-15 | one row per budget, in order: its id, its name, its allocated amount |
| BudgetList.ItemsWithout | components/BudgetList.tsx:11-15 | deleting a budget and then listing gives the old rows without that budget's row |
| IncomeList.Item | components/IncomeList.tsx:11-15 | the row of one income; what the list holds is the `TransactionItems` row |
| IncomeList.TransactionItems | components/IncomeList.tsx:11-15 | one row per income, in order: its id, its source as the name, its amount |
| IncomeList.ItemsWithout | components/IncomeList.tsx:11-15 | deleting an income and then listing gives the old rows without that income's row |

The record types of types/data.ts are the datatypes of `Records`:

- `daily_limit` and `notes` are `Option`s.
- A budget's status is `Paid` or `NotPaid` and nothing else.
- Every child record carries its `periodId` and `userId`.

## Left out

- Floating point. Amounts are exact reals, so rounding artefacts of doubles are not modelled.
- Infinities and the exponent notation that `toString` uses for very large or very small numbers are not modelled.
- A NaN amount passed to `formatAmount` is not modelled. Its text would be `"NaN"`.
- `parseFloat` is a parameter, not a parser: the model does not say which texts read as which numbers.
- `Number.prototype.toString` for the daily limit is a parameter too.
- Time zones.
  - `AddDailyCostForm` keeps only the local calendar day of its `Date`, the one part `formatDate` reads. `new Date()` becomes a constructor argument.
  - `AddPeriodForm` keeps a UTC day and a time of day.
  - How the device's time zone maps one onto the other is not modelled.
- Helpers.DateTime reads only `YYYY-MM-DD` text with a year from 0000 to 9999, which ECMAScript reads as UTC midnight, and gives `None` for everything else. The Date Time String Format of ECMAScript also has `YYYY` and `YYYY-MM`, the date-time forms and the expanded `±YYYYYY` years. Every engine must read these, and the model gives `None` for them. That includes the `+010000-01-01` text that `AddPeriodForm`'s own `formatDate` writes for a year past 9999. So `getDaysInPeriod("2024", "2024-01-05")` is 5 in the program and `None` in the model. Whether a `YYYY-MM-DD` naming no real day (`2024-02-30`) is NaN depends on the engine; some roll it over into the next month. The model gives `None`.
- Helpers.DaysInPeriod inherits that reading: its contract says the result is `None` exactly when either text is not a four-digit-year full-date, which is narrower than the program for the other standard forms above.
- A `Date` in `AddPeriodForm` is its time value together with the UTC day and the milliseconds into it that `toISOString` reads. `Calendar.ValidInstant` says the three agree; every `Date` a picker yields does, and the lemmas about the form's dates require it.
- `toISOString` throws for an invalid `Date` or for one beyond ±275760 years. The picker never yields such a date, so this is not modelled.
- JavaScript string `<` is modelled as order on Dafny characters, which for text within the Basic Multilingual Plane is the UTF-16 code-unit order. Characters outside that plane are not modelled.
- `localeCompare` in the sort is modelled by that same order. For `YYYY-MM-DD` texts the two agree. Locale collation in general is not modelled.
- `DailyCostList.SortByDate`: the engine's `Array.prototype.sort`, which ECMAScript 2019 and later require to be stable, is replaced by an insertion sort. The model assumes that stability: `StableSortUnique` shows that every stable sort by date gives the same sequence, and `StablySortedIsSortByDate` needs the engine's sort to be one.
- Asynchrony:
  - each handler, and each half of a fetch, is one atomic step;
  - interleavings of concurrent fetches are not modelled;
  - values a closure captured at an earlier render (a stale `activePeriodId`) are not modelled;
  - the confirmation dialogs are not modelled: a delete method is the confirmed `onPress`.
- `handleSetDailyLimit` and `handleSaveNotes` are not modelled. Each is a remote update followed by `fetchPeriods`, which `FinishFetchPeriods` models, then an alert.
- The store itself (lib/firebase-service.ts) is not part of this model. This includes the cascade that deletes a period's records, so the model only sees whether each call succeeded.
- Authentication, navigation, rendering and styles are not modelled.
- A change of signed-in user while the dashboard is mounted is not modelled: the user is fixed when the dashboard is created. On sign-out the source's effects clear the four lists but keep `periods` and `activePeriodId`.
- The dashboard's own `Alert.alert` success and failure messages and its `console.error` calls, in `handleDeletePeriod` and the four `handleDelete*` handlers, are not modelled.
- The income-minus-budgets remainder shown on the dashboard is computed outside these files and is not modelled.
- The `Valid()` invariant of the dashboard covers the transitions modelled here. The screens can also call the exported raw setters (`setPeriods`, `setActivePeriodId`), which are not modelled.
- `AddDailyCostForm.WithinPeriodIsCalendarRange` and `AcceptedDailyCost` need a year from 1000 to 9999. For other years `formatDate` does not write a full-date, and its string order says nothing about the calendar.
