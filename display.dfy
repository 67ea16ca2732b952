/** The conditions under which the page shows the expense chart, the month view and the export buttons. */
module Display {
  import opened Records
  import Totals
  import Months

  /** The expense pie chart is drawn only when the expense rows are not empty: when some row is an expense. */
  predicate ShowsExpenseChart(l: seq<Record>)
    ensures ShowsExpenseChart(l) <==> exists i :: 0 <= i < |l| && l[i].kind == Expense
  {
    Totals.OfKindNone(l, Expense);
    Totals.OfKind(l, Expense) != []
  }

  /** The CSV and PDF download buttons are offered only when the ledger has rows: when the month selector has options. */
  predicate ShowsExports(l: seq<Record>)
    ensures ShowsExports(l) <==> Months.MonthOptions(l) != []
  {
    l != []
  }

  /**
   * The table under the month selector: shown exactly for a selected, non-empty month string,
   * holding each row of that month as often as the ledger does and no other row, in ledger
   * order. A selected option always shows a non-empty table.
   */
  function MonthView(l: seq<Record>, selected: Option<string>): (r: Option<seq<Record>>)
    ensures r.Some? <==> selected.Some? && selected.value != ""
    ensures r.Some? ==> forall x :: x in r.value ==> x in l && Months.MonthKey(x.date) == selected.value
    ensures r.Some? ==> forall i :: 0 <= i < |l| && Months.MonthKey(l[i].date) == selected.value ==> l[i] in r.value
    ensures r.Some? ==> IsSubsequence(r.value, l)
    ensures r.Some? ==> forall x :: multiset(r.value)[x] == (if Months.MonthKey(x.date) == selected.value then multiset(l)[x] else 0)
    ensures selected.Some? && selected.value in Months.MonthOptions(l) ==> r.Some? && r.value != []
  {
    match selected
    case None => None
    case Some(m) =>
      Months.OptionViewNonEmpty(l, m);
      Months.FilterByMonthSpec(l, m);
      if m != "" then Some(Months.FilterByMonth(l, m)) else None
  }

  /** With positive amounts, the chart is shown iff the expense total is positive. */
  lemma ExpenseChartCondition(l: seq<Record>)
    ensures AllPositive(l) ==> (ShowsExpenseChart(l) <==> Totals.Expense(l) > 0)
  {
    Totals.OfKindAllPositive(l, Expense);
  }

  /** The exports appear exactly when the month selector starts on an option. */
  lemma ExportsShownIffMonthSelected(l: seq<Record>)
    ensures ShowsExports(l) <==> Months.DefaultSelection(l).Some?
  {
  }

  /**
   * With the default selection, the month view is absent on the empty ledger; otherwise it shows
   * the month of the first row, starting with that row.
   */
  lemma DefaultMonthView(l: seq<Record>)
    ensures l == [] ==> MonthView(l, Months.DefaultSelection(l)) == None
    ensures l != [] ==> MonthView(l, Months.DefaultSelection(l)).Some?
    ensures l != [] ==> var v := MonthView(l, Months.DefaultSelection(l)).value; v != [] && v[0] == l[0]
  {
  }
}
