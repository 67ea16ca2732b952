# Daily Expense Tracker — ledger model

A Dafny model of the transaction ledger of the single-page Streamlit expense tracker
(`app.py`), and of the views the page derives from it.

The page keeps one table per browser session, `transactions`, with the columns Date, Type,
Category and Amount. It starts empty. The "Add Transaction" button appends one row, but only
when the amount is strictly positive. Every rerun of the page then derives these views from the
table:

- the total income, the total expense and the balance;
- the expense pie chart, shown only when some row is an expense;
- the month selector, whose options are the distinct `YYYY-MM` keys of the row dates in order of
  first appearance, preselecting the first option when the table has rows and nothing when it is
  empty;
- the month view, the rows whose key equals the selected month, in table order;
- the CSV and PDF download buttons, shown only when the table has rows.

Modules:

- `Records` (records.dfy): the row (`Record`), its `Kind` (Income or Expense), its `Category`
  (the nine choices of the select box) and its `Date`. Also the ledger invariant `AllPositive`
  and the order-preserving subsequence relation `IsSubsequence`. Amounts are exact integers in
  cents.
- `Totals` (totals.dfy): `Income`, `Expense` and `Balance`, written as in the source: mask the
  rows by Type (`OfKind`), then sum the Amount column (`SumAmounts`). `SignedSum` is an
  independent reference definition of the balance.
- `Months` (months.dfy): `MonthKey` (the `%Y-%m` formatter) and its inverse `ParseMonthKey`.
  `Keys` is the column of keys. `Distinct` and `MonthOptions` give the month options,
  `DefaultSelection` the preselected option, and `FilterByMonth` the month view. `ConcatViews`
  lays all the month views end to end.
- `Display` (display.dfy): the conditions under which the chart, the month view and the
  exports are shown, and the month view itself (`MonthView`).
- `Session` (session.dfy): the class `Ledger`. It owns the `transactions` sequence. Its
  constructor creates the empty table, and its method `Add` is the guarded append.
- `Scenario` (scenario.dfy): a three-row session (two January rows and one February row of 2024)
  worked through the totals, the month keys and options, the preselection, the January view, and
  the chart, export and month-view conditions.

## Model

| member | source | states |
|---|---|---|
| `Session.Ledger.constructor` | app.py:8-9 | A new session's table is empty, so the ledger invariant holds. |
| `Session.Ledger.Add` | app.py:24-26 | The row is added iff the amount is > 0. If added, the new table is the old one plus exactly that row at the end. Otherwise the table is unchanged. Every stored amount stays > 0. Income or expense grows by the amount, according to the kind. The month options gain the row's month iff it is new. The row's month view gains exactly that row, and every other view is unchanged. |
| `Records.AppendPositive` | app.py:24-26 | Appending a row whose amount passed the guard to a ledger of positive amounts keeps every amount positive. |
| `Totals.OfKind` | app.py:41-42 | The Type mask keeps only ledger rows of the given kind, keeps every ledger row of that kind, and is no longer than the ledger. |
| `Totals.OfKindSpec` | app.py:41-42 | The mask holds each row of the kind exactly as often as the ledger does and no other row, as an order-preserving subsequence of the ledger. |
| `Totals.SumAmounts` | app.py:41-42 | The `.sum()` of the Amount column is never negative when every amount passed the guard, and is positive when there is at least one such row. |
| `Totals.OfKindAllPositive` | app.py:41-42 | A mask of a ledger of positive amounts holds only positive amounts. |
| `Totals.Income` | app.py:41 | The income total is never negative on a guarded ledger, and is 0 when no row is Income (in particular on the empty ledger). |
| `Totals.Expense` | app.py:42 | The expense total is never negative on a guarded ledger, and is 0 when no row is an Expense (in particular on the empty ledger). |
| `Totals.Balance` | app.py:43 | The balance equals the signed running sum that adds income amounts and subtracts expense amounts. |
| `Totals.TotalsBounds` | app.py:41-43 | On the empty ledger, income, expense and balance are all 0. When all amounts are positive, income and expense are never negative. |
| `Totals.IncomePlusExpense` | app.py:41-42 | Every row is Income or Expense, so income + expense is the sum of the whole Amount column. |
| `Totals.NetIsSignedSum` | app.py:41-43 | Income − expense equals the running sum that adds income amounts and subtracts expense amounts. |
| `Totals.AppendTotals` | app.py:41-43 | Appending a row raises only the total of its own kind, by its amount, and moves the balance by its signed amount. |
| `Totals.SumAmountsConcat` | app.py:41-42 | The Amount sum of two tables laid end to end is the sum of their two sums. |
| `Totals.OfKindConcat` | app.py:41-42 | Masking two tables laid end to end gives the two masks laid end to end. |
| `Months.MonthKey` | app.py:64 | The key has 7 characters: four year digits, `-`, then two month digits. The digits read back as the year and month, and the month is zero-padded. |
| `Months.MonthKeyRoundTrip` | app.py:64 | Parsing a date's key gives back its year and month. |
| `Months.MonthKeyInjective` | app.py:66 | Two dates have the same key iff they share year and month. |
| `Months.Keys` | app.py:64 | The `strftime('%Y-%m')` column has one key per row, in row order, and each parses back to its row's year and month. |
| `Months.Distinct` | app.py:64 | `unique()` gives no duplicates, and exactly the values of its input. |
| `Months.DistinctFirstSeenOrder` | app.py:64 | The distinct values come out in the order of their first occurrence in the input. |
| `Months.DistinctHead` | app.py:64 | The first distinct value of a non-empty input is its first value. |
| `Months.DistinctUnique` | app.py:64 | Suppose a sequence has no duplicates, holds exactly the input's values, and is ordered by first occurrence. Then it is `Distinct` of that input. |
| `Months.MonthOptions` | app.py:64 | The month options have no duplicates. Every row's month is an option, and every option is the month of some row. |
| `Months.MonthOptionsFirstSeenOrder` | app.py:64 | The options are ordered by the first row of each month. |
| `Months.MonthOptionsCharacterized` | app.py:64 | Those properties determine the month options uniquely. |
| `Months.DefaultSelection` | app.py:64 | Nothing is preselected iff the ledger is empty. Otherwise the preselected option is an option, and it is the month of the first row. |
| `Months.FilterByMonth` | app.py:66 | The month view holds only ledger rows of that month, and every ledger row of that month. |
| `Months.FilterByMonthSpec` | app.py:66 | The month view holds each row of that month as often as the ledger does, and no other row. It is an order-preserving subsequence of the ledger. |
| `Months.FilterByMonthConcat` | app.py:66 | Filtering two tables laid end to end gives the two filtered views laid end to end. |
| `Months.OptionViewNonEmpty` | app.py:64-66 | The view of every month option holds at least one row. |
| `Months.AppendMonthOptions` | app.py:64 | A new row adds its month at the end of the options when that month is new; otherwise the options are unchanged. |
| `Months.AppendMonthView` | app.py:66 | A new row extends its own month's view by that row and no other view. |
| `Months.ConcatViewsCount` | app.py:66 | For duplicate-free keys, the views laid end to end hold each row as often as the ledger does when the row's month is among the keys, and never otherwise. |
| `Months.MonthViewMembership` | app.py:64-66 | Every row's month is an option. A row lies in the view of an option iff that option is its own month. |
| `Months.MonthViewsCoverLedger` | app.py:64-66 | The views over all month options, laid end to end, are a permutation of the ledger. |
| `Display.ShowsExpenseChart` | app.py:55-56 | The expense chart is shown iff some row is an expense. |
| `Display.ExpenseChartCondition` | app.py:55-60 | With positive amounts, the expense chart is shown iff the expense total is positive. |
| `Display.ShowsExports` | app.py:70-81 | The CSV export (app.py:70) and the PDF export (app.py:81) are offered iff the month selector has options. |
| `Display.ExportsShownIffMonthSelected` | app.py:64-81 | The exports appear iff the month selector preselects an option. |
| `Display.MonthView` | app.py:65-67 | The view is shown iff a non-empty month string is selected. A shown view holds only ledger rows of that month and every ledger row of that month, each as often as the ledger does, in ledger order. Selecting any month option shows a non-empty view. |
| `Display.DefaultMonthView` | app.py:64-67 | Under the default selection, no month view is shown on the empty ledger. Otherwise the view is shown, is non-empty, and starts with the first row. |
| `Scenario.ThreeRowsKeys` | app.py:64 | Two January rows and one February row of 2024 have the keys 2024-01, 2024-01 and 2024-02. |
| `Scenario.ThreeRowsTotals` | app.py:41-43 | For those rows, income is 1000.00, expense is 520.00 and balance is 480.00. |
| `Scenario.ThreeKeysDistinct` | app.py:64 | `unique()` of those keys is [2024-01, 2024-02]. |
| `Scenario.ThreeRowsMonths` | app.py:64 | For those rows, the options are [2024-01, 2024-02] and 2024-01 is preselected. |
| `Scenario.ThreeRowsJanuary` | app.py:66 | For those rows, the January view is the first two rows. |
| `Scenario.ThreeRowsDisplay` | app.py:55-81 | For those rows, the expense chart and the exports are shown, and the default month view is the first two rows. |

## Left out

- Widgets, layout, styling and the session-state plumbing (app.py:11-22, 29-37, 45-51) are not modelled. The date, type, category and amount entered in the form are parameters of `Add`. The button click is modelled as the call to `Add` itself.
- The "Transaction Added!" message is not modelled; `Add` returns whether the row was added.
- The pie chart (app.py:57) is not modelled: grouping expenses by category and summing them happens inside the charting library. Only the condition for showing the chart is modelled.
- CSV export via `to_csv` (app.py:71) and PDF generation with fpdf2 and `latin1` encoding (app.py:82-106) are not modelled. Both are library serialisation, and the PDF output is bytes from a foreign library. Only the condition for offering them is modelled.
- Amounts are floats in the source and integers (cents) here. Float rounding and the two-decimal `${x:.2f}` display formatting (app.py:47-51, 103) are not modelled.
- `Months.MonthKey`: dates are modelled with four-digit years (the `Year` subset type, 1000..9999). The date input (app.py:18) sets no bounds, so it offers only dates within ten years of today, well inside that range. The model does not reproduce the out-of-range error that `pd.to_datetime` raises (app.py:64, 66) for dates outside 1677..2262.
- A `Date` checks the month (1..12) and day (1..31), but not the day against the month's length. The month key never reads the day.
- The month selector keeps the user's pick across reruns while its options stay the same; a row with a new month changes the options and resets it to the first option. `Display.MonthView` therefore takes the selection as a parameter, and only the preselection `Months.DefaultSelection` is modelled.
- A non-positive amount is skipped silently; no error is raised (app.py:24). `Add` reports this through `added`.
- The guard makes every stored amount > 0 (`Ledger.Valid`, `AllPositive`).
