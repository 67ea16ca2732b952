/** The summary metrics: total income, total expense and balance. */
module Totals {
  import opened Records

  /** The rows whose Type column equals `k`, in ledger order (a boolean mask on Type). */
  function OfKind(l: seq<Record>, k: Kind): (r: seq<Record>)
    ensures |r| <= |l|
    ensures forall x :: x in r ==> x in l && x.kind == k
    ensures forall i :: 0 <= i < |l| && l[i].kind == k ==> l[i] in r
  {
    if l == [] then []
    else if l[0].kind == k then [l[0]] + OfKind(l[1..], k)
    else OfKind(l[1..], k)
  }

  /**
   * The sum of the Amount column; 0 for no rows, as a pandas column sum is. Amounts that all
   * passed the add guard sum to a positive total once there is a row.
   */
  function SumAmounts(l: seq<Record>): (r: int)
    ensures AllPositive(l) ==> r >= 0
    ensures AllPositive(l) && l != [] ==> r > 0
  {
    if l == [] then 0 else l[0].amount + SumAmounts(l[1..])
  }

  /** Every row the mask keeps is a row of the ledger, so it passed the guard too. */
  lemma OfKindAllPositive(l: seq<Record>, k: Kind)
    ensures AllPositive(l) ==> AllPositive(OfKind(l, k))
  {
    var r := OfKind(l, k);
    assert forall j :: 0 <= j < |r| ==> r[j] in l;
  }

  /** A mask that finds no row of its kind is empty. */
  lemma OfKindNone(l: seq<Record>, k: Kind)
    ensures (forall i :: 0 <= i < |l| ==> l[i].kind != k) ==> OfKind(l, k) == []
  {
    var r := OfKind(l, k);
    if r != [] {
      assert r[0] in r;
    }
  }

  /** The "Total Income" metric: the Amount sum over the Income rows. */
  function Income(l: seq<Record>): (r: int)
    ensures AllPositive(l) ==> r >= 0
    ensures (forall i :: 0 <= i < |l| ==> l[i].kind != Kind.Income) ==> r == 0
  {
    OfKindAllPositive(l, Kind.Income);
    OfKindNone(l, Kind.Income);
    SumAmounts(OfKind(l, Kind.Income))
  }

  /** The "Total Expense" metric: the Amount sum over the Expense rows. */
  function Expense(l: seq<Record>): (r: int)
    ensures AllPositive(l) ==> r >= 0
    ensures (forall i :: 0 <= i < |l| ==> l[i].kind != Kind.Expense) ==> r == 0
  {
    OfKindAllPositive(l, Kind.Expense);
    OfKindNone(l, Kind.Expense);
    SumAmounts(OfKind(l, Kind.Expense))
  }

  /** The "Balance" metric, income minus expense: the signed running sum of the ledger. */
  function Balance(l: seq<Record>): (r: int)
    ensures r == SignedSum(l)
  {
    NetIsSignedSum(l);
    Income(l) - Expense(l)
  }

  /** A record's contribution to the balance: income counts up, an expense counts down. */
  function Signed(x: Record): int
  {
    match x.kind
    case Income => x.amount
    case Expense => -x.amount
  }

  /** Reference definition of the balance as one running sum over the ledger. */
  function SignedSum(l: seq<Record>): int
  {
    if l == [] then 0 else Signed(l[0]) + SignedSum(l[1..])
  }

  lemma {:induction false} SumAmountsConcat(a: seq<Record>, b: seq<Record>)
    ensures SumAmounts(a + b) == SumAmounts(a) + SumAmounts(b)
  {
    if a != [] {
      assert (a + b)[1..] == a[1..] + b;
      SumAmountsConcat(a[1..], b);
    } else {
      assert a + b == b;
    }
  }

  lemma {:induction false} OfKindConcat(a: seq<Record>, b: seq<Record>, k: Kind)
    ensures OfKind(a + b, k) == OfKind(a, k) + OfKind(b, k)
  {
    if a != [] {
      assert (a + b)[1..] == a[1..] + b;
      OfKindConcat(a[1..], b, k);
    } else {
      assert a + b == b;
    }
  }

  /**
   * The Type mask keeps every row of kind `k` as often as the ledger holds it, no other row,
   * and keeps them in ledger order.
   */
  lemma {:induction false} OfKindSpec(l: seq<Record>, k: Kind)
    ensures forall x :: multiset(OfKind(l, k))[x] == (if x.kind == k then multiset(l)[x] else 0)
    ensures IsSubsequence(OfKind(l, k), l)
  {
    if l != [] {
      OfKindSpec(l[1..], k);
      assert l == [l[0]] + l[1..];
      var r := OfKind(l, k);
      if l[0].kind == k {
        assert r[0] == l[0] && r[1..] == OfKind(l[1..], k);
      } else {
        SubsequenceSkip(r, l);
      }
    }
  }

  /**
   * Summary of the bounds the three metrics state: on the empty ledger every total is 0; on a
   * ledger of positive amounts no total is negative.
   */
  lemma TotalsBounds(l: seq<Record>)
    ensures l == [] ==> Income(l) == 0 && Expense(l) == 0 && Balance(l) == 0
    ensures AllPositive(l) ==> Income(l) >= 0 && Expense(l) >= 0
  {
  }

  /** Every row is Income or Expense, so the two totals together are the whole Amount column. */
  lemma {:induction false} IncomePlusExpense(l: seq<Record>)
    ensures Income(l) + Expense(l) == SumAmounts(l)
  {
    if l != [] {
      IncomePlusExpense(l[1..]);
    }
  }

  /** Income minus expense is the signed running sum of the ledger. */
  lemma {:induction false} NetIsSignedSum(l: seq<Record>)
    ensures Income(l) - Expense(l) == SignedSum(l)
  {
    if l != [] {
      NetIsSignedSum(l[1..]);
    }
  }

  /** Appending one row moves exactly the total of its kind, by its amount. */
  lemma AppendTotals(l: seq<Record>, x: Record)
    ensures Income(l + [x]) == Income(l) + (if x.kind == Kind.Income then x.amount else 0)
    ensures Expense(l + [x]) == Expense(l) + (if x.kind == Kind.Expense then x.amount else 0)
    ensures Balance(l + [x]) == Balance(l) + Signed(x)
  {
    OfKindConcat(l, [x], Kind.Income);
    OfKindConcat(l, [x], Kind.Expense);
    SumAmountsConcat(OfKind(l, Kind.Income), OfKind([x], Kind.Income));
    SumAmountsConcat(OfKind(l, Kind.Expense), OfKind([x], Kind.Expense));
  }
}
