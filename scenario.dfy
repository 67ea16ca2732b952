/** A worked session: two January rows and one February row. */
module Scenario {
  import opened Records
  import Totals
  import Months
  import Display

  /** 15 Jan 2024 food 20.00, 20 Jan 2024 salary 1000.00, 1 Feb 2024 rent 500.00 (amounts in cents). */
  function ThreeRows(): seq<Record>
  {
    [Record(Date(2024, 1, 15), Expense, Food, 2000),
     Record(Date(2024, 1, 20), Income, Salary, 100000),
     Record(Date(2024, 2, 1), Expense, Rent, 50000)]
  }

  lemma ThreeRowsKeys()
    ensures Months.Keys(ThreeRows()) == ["2024-01", "2024-01", "2024-02"]
  {
  }

  lemma ThreeRowsTotals()
    ensures Totals.Income(ThreeRows()) == 100000
    ensures Totals.Expense(ThreeRows()) == 52000
    ensures Totals.Balance(ThreeRows()) == 48000
  {
  }

  /** `unique()` on the three keys keeps the first January key and the February key. */
  lemma ThreeKeysDistinct()
    ensures Months.Distinct(["2024-01", "2024-01", "2024-02"]) == ["2024-01", "2024-02"]
  {
    var k: seq<string> := ["2024-01", "2024-01", "2024-02"];
    var k1, k2 := k[..1], k[..2];
    assert k1[..0] == [] && Months.Distinct(k1) == ["2024-01"];
    assert k2[..1] == k1 && Months.Distinct(k2) == ["2024-01"];
    assert k[..2] == k2;
  }

  lemma ThreeRowsMonths()
    ensures Months.MonthOptions(ThreeRows()) == ["2024-01", "2024-02"]
    ensures Months.DefaultSelection(ThreeRows()) == Some("2024-01")
  {
    ThreeRowsKeys();
    ThreeKeysDistinct();
  }

  lemma ThreeRowsJanuary()
    ensures Months.FilterByMonth(ThreeRows(), "2024-01") == ThreeRows()[..2]
  {
  }

  /** The three rows show the expense chart, the exports and, by default, the January view. */
  lemma ThreeRowsDisplay()
    ensures Display.ShowsExpenseChart(ThreeRows())
    ensures Display.ShowsExports(ThreeRows())
    ensures Display.MonthView(ThreeRows(), Months.DefaultSelection(ThreeRows())) == Some(ThreeRows()[..2])
  {
    ThreeRowsMonths();
    ThreeRowsJanuary();
    assert ThreeRows()[0].kind == Expense;
  }
}
