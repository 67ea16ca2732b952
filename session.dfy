/** The session-owned transactions table and the add-transaction form handler. */
module Session {
  import opened Records
  import Totals
  import Months

  /** The session's ledger: created empty, changed only by `Add`. */
  class Ledger {
    var transactions: seq<Record>

    /** Every stored row passed the add guard. */
    ghost predicate Valid()
      reads this
    {
      AllPositive(transactions)
    }

    /** A new session starts with an empty table. */
    constructor ()
      ensures Valid() && transactions == []
    {
      transactions := [];
    }

    /**
     * The "Add Transaction" button: a row is appended only when the amount is strictly positive;
     * otherwise the table is left exactly as it was.
     */
    method Add(date: Date, kind: Kind, category: Category, amount: int) returns (added: bool)
      requires Valid()
      modifies this
      ensures Valid()
      ensures added <==> amount > 0
      ensures transactions ==
              if added then old(transactions) + [Record(date, kind, category, amount)] else old(transactions)
      ensures Totals.Income(transactions) ==
              old(Totals.Income(transactions)) + (if added && kind == Income then amount else 0)
      ensures Totals.Expense(transactions) ==
              old(Totals.Expense(transactions)) + (if added && kind == Expense then amount else 0)
      ensures added && Months.MonthKey(date) !in old(Months.MonthOptions(transactions)) ==>
              Months.MonthOptions(transactions) == old(Months.MonthOptions(transactions)) + [Months.MonthKey(date)]
      ensures !(added && Months.MonthKey(date) !in old(Months.MonthOptions(transactions))) ==>
              Months.MonthOptions(transactions) == old(Months.MonthOptions(transactions))
      ensures forall m :: (Months.FilterByMonth(transactions, m) ==
                           old(Months.FilterByMonth(transactions, m)) +
                           if added && Months.MonthKey(date) == m then [Record(date, kind, category, amount)] else [])
    {
      added := amount > 0;
      if added {
        var row := Record(date, kind, category, amount);
        var before := transactions;
        AppendPositive(before, row);
        Totals.AppendTotals(before, row);
        Months.AppendMonthOptions(before, row);
        Months.AppendMonthView(before, row);
        transactions := before + [row];
      }
    }
  }
}
