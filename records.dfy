/** The transaction record kept by the expense tracker and the ledger invariant. */
module Records {

  /** The "Type" radio button: a transaction is either income or an expense. */
  datatype Kind = Income | Expense

  /** The fixed list offered by the "Category" select box. */
  datatype Category =
    | Food | Transport | Shopping | Rent | Salary | Entertainment | Healthcare | Bills | Other

  /** Four-digit years: wider than the dates the date input offers, which lie near today. */
  type Year = y: int | 1000 <= y <= 9999 witness 2024
  type Month = m: int | 1 <= m <= 12 witness 1
  type Day = d: int | 1 <= d <= 31 witness 1

  /** A calendar date as picked in the date input; there is no time of day. */
  datatype Date = Date(year: Year, month: Month, day: Day)

  /** One row of the transactions table: Date, Type, Category, Amount (in cents). */
  datatype Record = Record(date: Date, kind: Kind, category: Category, amount: int)

  datatype Option<T> = None | Some(value: T)

  /** Every stored amount passed the add guard. */
  predicate AllPositive(l: seq<Record>)
  {
    forall i :: 0 <= i < |l| ==> l[i].amount > 0
  }

  /** Appending a row that passed the guard keeps the invariant. */
  lemma AppendPositive(l: seq<Record>, x: Record)
    requires AllPositive(l) && x.amount > 0
    ensures AllPositive(l + [x])
  {
    assert forall i :: 0 <= i < |l| ==> (l + [x])[i] == l[i];
  }

  /** `a` occurs in `b` in the same order, possibly with gaps. */
  predicate IsSubsequence<T(==)>(a: seq<T>, b: seq<T>)
  {
    if a == [] then true
    else if b == [] then false
    else if a[0] == b[0] then IsSubsequence(a[1..], b[1..])
    else IsSubsequence(a, b[1..])
  }

  lemma {:induction false} SubsequenceSkip<T>(a: seq<T>, b: seq<T>)
    requires b != [] && IsSubsequence(a, b[1..])
    ensures IsSubsequence(a, b)
  {
    if a != [] && a[0] == b[0] {
      SubsequenceTail(a, b[1..]);
    }
  }

  lemma {:induction false} SubsequenceTail<T>(a: seq<T>, b: seq<T>)
    requires a != [] && IsSubsequence(a, b)
    ensures IsSubsequence(a[1..], b)
  {
    if a[0] == b[0] {
      if a[1..] != [] {
        SubsequenceSkip(a[1..], b);
      }
    } else {
      SubsequenceTail(a, b[1..]);
      if a[1..] != [] {
        SubsequenceSkip(a[1..], b);
      }
    }
  }
}
