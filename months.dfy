/** The month filter: the `YYYY-MM` key of a date, the month options, the default selection and the filtered view. */
module Months {
  import opened Records

  /** The character of a decimal digit. */
  function Digit(n: int): (c: char)
    requires 0 <= n <= 9
    ensures '0' <= c <= '9' && DigitValue(c) == n
  {
    (n + '0' as int) as char
  }

  function DigitValue(c: char): int
  {
    c as int - '0' as int
  }

  predicate IsDigit(c: char)
  {
    '0' <= c <= '9'
  }

  /** The four decimal digits of a four-digit year recombine to the year. */
  lemma YearDigits(y: Year)
    ensures 1 <= y / 1000 <= 9 && 0 <= y / 100 % 10 <= 9 && 0 <= y / 10 % 10 <= 9 && 0 <= y % 10 <= 9
    ensures (y / 1000) * 1000 + (y / 100 % 10) * 100 + (y / 10 % 10) * 10 + y % 10 == y
  {
    var h := y / 100;
    assert y == h * 100 + y % 100;
    assert h == (y / 1000) * 10 + h % 10;
    assert y % 100 == (y / 10 % 10) * 10 + y % 10;
  }

  /** `strftime('%Y-%m')` of a date with a four-digit year: the year, a dash, the zero-padded month. */
  function MonthKey(d: Date): (r: string)
    ensures |r| == 7 && r[4] == '-'
    ensures IsDigit(r[0]) && IsDigit(r[1]) && IsDigit(r[2]) && IsDigit(r[3])
    ensures IsDigit(r[5]) && IsDigit(r[6])
    ensures DigitValue(r[0]) * 1000 + DigitValue(r[1]) * 100 + DigitValue(r[2]) * 10 + DigitValue(r[3]) == d.year
    ensures DigitValue(r[5]) * 10 + DigitValue(r[6]) == d.month
    ensures r[5] == (if d.month < 10 then '0' else '1')
  {
    YearDigits(d.year);
    [Digit(d.year / 1000), Digit(d.year / 100 % 10), Digit(d.year / 10 % 10), Digit(d.year % 10),
     '-', Digit(d.month / 10), Digit(d.month % 10)]
  }

  /** Reads a `YYYY-MM` key back into its year and month, when it is one. */
  function ParseMonthKey(s: string): Option<(int, int)>
  {
    if |s| == 7 && s[4] == '-' && IsDigit(s[0]) && IsDigit(s[1]) && IsDigit(s[2]) && IsDigit(s[3])
       && IsDigit(s[5]) && IsDigit(s[6])
    then
      var y := DigitValue(s[0]) * 1000 + DigitValue(s[1]) * 100 + DigitValue(s[2]) * 10 + DigitValue(s[3]);
      var m := DigitValue(s[5]) * 10 + DigitValue(s[6]);
      if 1000 <= y && 1 <= m <= 12 then Some((y, m)) else None
    else None
  }

  /** The key is a faithful encoding of the year and month: parsing it gives them back. */
  lemma MonthKeyRoundTrip(d: Date)
    ensures ParseMonthKey(MonthKey(d)) == Some((d.year, d.month))
  {
  }

  /** Two dates fall in the same month view exactly when they share year and month. */
  lemma MonthKeyInjective(d1: Date, d2: Date)
    ensures MonthKey(d1) == MonthKey(d2) <==> d1.year == d2.year && d1.month == d2.month
  {
  }

  /** The month key of every row, in ledger order. */
  function Keys(l: seq<Record>): (r: seq<string>)
    ensures |r| == |l|
    ensures forall i :: 0 <= i < |l| ==> r[i] == MonthKey(l[i].date)
    ensures forall i :: 0 <= i < |l| ==> ParseMonthKey(r[i]) == Some((l[i].date.year, l[i].date.month))
  {
    seq(|l|, i requires 0 <= i < |l| => MonthKey(l[i].date))
  }

  predicate NoDuplicates<T(==)>(s: seq<T>)
  {
    forall i, j :: 0 <= i < j < |s| ==> s[i] != s[j]
  }

  /** `a` and `b` hold the same values, regardless of order and repetition. */
  ghost predicate SameValues(a: seq<string>, b: seq<string>)
  {
    forall x :: x in a <==> x in b
  }

  /** The position of the first occurrence of `x` in `s`. */
  function FirstIndex(s: seq<string>, x: string): (r: nat)
    requires x in s
    ensures r < |s| && s[r] == x
    ensures forall j :: 0 <= j < r ==> s[j] != x
  {
    if s[0] == x then 0 else 1 + FirstIndex(s[1..], x)
  }

  /** The distinct values of `s` in order of first appearance (what `unique()` returns). */
  function Distinct(s: seq<string>): (r: seq<string>)
    ensures NoDuplicates(r)
    ensures SameValues(r, s)
  {
    if s == [] then []
    else
      var p := Distinct(s[..|s| - 1]);
      assert forall x :: x in s <==> x in s[..|s| - 1] || x == s[|s| - 1];
      if s[|s| - 1] in p then p else p + [s[|s| - 1]]
  }

  /** The distinct values come out in the order in which they first occur in `s`. */
  lemma {:induction false} DistinctFirstSeenOrder(s: seq<string>)
    ensures forall i, j :: 0 <= i < j < |Distinct(s)| ==>
      FirstIndex(s, Distinct(s)[i]) < FirstIndex(s, Distinct(s)[j])
  {
    if s != [] {
      var q := s[..|s| - 1];
      var p := Distinct(q);
      DistinctFirstSeenOrder(q);
      forall x | x in q ensures FirstIndex(s, x) == FirstIndex(q, x) {
        FirstIndexPrefix(q, s, x);
      }
      var last := s[|s| - 1];
      if last !in p {
        assert last !in q;
        assert FirstIndex(s, last) == |s| - 1;
      }
    }
  }

  lemma FirstIndexPrefix(q: seq<string>, s: seq<string>, x: string)
    requires q <= s && x in q
    ensures FirstIndex(s, x) == FirstIndex(q, x)
  {
  }

  /** The first distinct value is the first value. */
  lemma {:induction false} DistinctHead(s: seq<string>)
    requires s != []
    ensures Distinct(s) != [] && Distinct(s)[0] == s[0]
  {
    if |s| > 1 {
      DistinctHead(s[..|s| - 1]);
    }
  }

  /**
   * The month selector's options: the distinct month keys in order of first appearance. No
   * option repeats, every row's month is an option and every option is the month of some row.
   */
  function MonthOptions(l: seq<Record>): (r: seq<string>)
    ensures NoDuplicates(r)
    ensures forall i :: 0 <= i < |l| ==> MonthKey(l[i].date) in r
    ensures forall o :: o in r ==> exists i :: 0 <= i < |l| && MonthKey(l[i].date) == o
  {
    var k := Keys(l);
    assert forall i :: 0 <= i < |l| ==> k[i] in k;
    assert forall o :: o in k ==> MonthKey(l[FirstIndex(k, o)].date) == o;
    Distinct(k)
  }

  /**
   * The selector starts on the first option when the ledger has rows and on nothing when it
   * is empty; the first option is the month of the first row.
   */
  function DefaultSelection(l: seq<Record>): (r: Option<string>)
    ensures r.None? <==> l == []
    ensures r.Some? ==> r.value == MonthKey(l[0].date) && r.value in MonthOptions(l)
  {
    if l == [] then None
    else
      DistinctHead(Keys(l));
      Some(MonthOptions(l)[0])
  }

  /** The rows whose month key equals `m`, in ledger order: every such row and no other. */
  function FilterByMonth(l: seq<Record>, m: string): (r: seq<Record>)
    ensures forall x :: x in r ==> x in l && MonthKey(x.date) == m
    ensures forall i :: 0 <= i < |l| && MonthKey(l[i].date) == m ==> l[i] in r
  {
    if l == [] then []
    else if MonthKey(l[0].date) == m then [l[0]] + FilterByMonth(l[1..], m)
    else FilterByMonth(l[1..], m)
  }

  /** The filtered view holds each row of month `m` as often as the ledger does, and in ledger order. */
  lemma {:induction false} FilterByMonthSpec(l: seq<Record>, m: string)
    ensures forall x :: multiset(FilterByMonth(l, m))[x] ==
                        (if MonthKey(x.date) == m then multiset(l)[x] else 0)
    ensures IsSubsequence(FilterByMonth(l, m), l)
  {
    if l != [] {
      FilterByMonthSpec(l[1..], m);
      assert l == [l[0]] + l[1..];
      var r := FilterByMonth(l, m);
      if MonthKey(l[0].date) == m {
        assert r[0] == l[0] && r[1..] == FilterByMonth(l[1..], m);
      } else {
        SubsequenceSkip(r, l);
      }
    }
  }

  /** Filtering a concatenation filters each part. */
  lemma {:induction false} FilterByMonthConcat(a: seq<Record>, b: seq<Record>, m: string)
    ensures FilterByMonth(a + b, m) == FilterByMonth(a, m) + FilterByMonth(b, m)
  {
    if a != [] {
      assert (a + b)[1..] == a[1..] + b;
      FilterByMonthConcat(a[1..], b, m);
    } else {
      assert a + b == b;
    }
  }

  /** The month options are ordered by the first row of each month. */
  lemma MonthOptionsFirstSeenOrder(l: seq<Record>)
    ensures forall i, j :: 0 <= i < j < |MonthOptions(l)| ==>
      FirstIndex(Keys(l), MonthOptions(l)[i]) < FirstIndex(Keys(l), MonthOptions(l)[j])
  {
    DistinctFirstSeenOrder(Keys(l));
  }

  /** The view of every month option holds at least one row. */
  lemma OptionViewNonEmpty(l: seq<Record>, o: string)
    ensures o in MonthOptions(l) ==> FilterByMonth(l, o) != []
  {
    if o in MonthOptions(l) {
      var i :| 0 <= i < |l| && MonthKey(l[i].date) == o;
      assert l[i] in FilterByMonth(l, o);
    }
  }

  /** The head of a non-empty sequence is one of its values (a step for empty-sequence arguments). */
  lemma HeadIn(r: seq<string>)
    requires r != []
    ensures r[0] in r
  {
  }

  lemma NoMembersEmpty(r: seq<string>)
    requires forall x :: x !in r
    ensures r == []
  {
    if r != [] {
      HeadIn(r);
      assert false;
    }
  }

  lemma FirstIndexOfNewLast(s: seq<string>)
    requires s != [] && s[|s| - 1] !in s[..|s| - 1]
    ensures FirstIndex(s, s[|s| - 1]) == |s| - 1
  {
  }

  /** When the last value of `s` occurs nowhere before, a sequence ordered by first appearance ends with it. */
  lemma NewLastComesLast(s: seq<string>, r: seq<string>)
    requires s != [] && s[|s| - 1] !in s[..|s| - 1]
    requires SameValues(r, s)
    requires forall i, j :: 0 <= i < j < |r| ==> FirstIndex(s, r[i]) < FirstIndex(s, r[j])
    ensures r != [] && r[|r| - 1] == s[|s| - 1]
  {
    var last := s[|s| - 1];
    FirstIndexOfNewLast(s);
    assert last in r;
    var k :| 0 <= k < |r| && r[k] == last;
    var fk, fl := FirstIndex(s, r[k]), FirstIndex(s, r[|r| - 1]);
    assert fk == |s| - 1 && fl < |s|;
    assert k == |r| - 1;
  }

  /** Dropping that last value from both leaves the same values on each side. */
  lemma DropNewLast(s: seq<string>, r: seq<string>)
    requires s != [] && NoDuplicates(r) && SameValues(r, s)
    requires r != [] && r[|r| - 1] == s[|s| - 1] && s[|s| - 1] !in s[..|s| - 1]
    ensures SameValues(r[..|r| - 1], s[..|s| - 1])
  {
    var q, last, r' := s[..|s| - 1], s[|s| - 1], r[..|r| - 1];
    assert forall x :: x in s <==> x in q || x == last;
    forall x ensures x in r' <==> x in q {
      if x in r' {
        var i :| 0 <= i < |r'| && r'[i] == x;
        assert r[i] != r[|r| - 1];
      }
      if x in q {
        var i :| 0 <= i < |r| && r[i] == x;
        assert r'[i] == x;
      }
    }
  }

  /**
   * The three properties of the month options determine them: any duplicate-free sequence of
   * exactly the values of `s`, ordered by first appearance, is `Distinct(s)`.
   */
  lemma {:induction false} DistinctUnique(s: seq<string>, r: seq<string>)
    requires NoDuplicates(r)
    requires SameValues(r, s)
    requires forall i, j :: 0 <= i < j < |r| ==> FirstIndex(s, r[i]) < FirstIndex(s, r[j])
    ensures r == Distinct(s)
  {
    if s == [] {
      NoMembersEmpty(r);
    } else {
      var q := s[..|s| - 1];
      var last := s[|s| - 1];
      assert forall x :: x in s <==> x in q || x == last;
      forall x | x in q ensures FirstIndex(s, x) == FirstIndex(q, x) {
        FirstIndexPrefix(q, s, x);
      }
      if last in q {
        DistinctUnique(q, r);
      } else {
        NewLastComesLast(s, r);
        DropNewLast(s, r);
        var r' := r[..|r| - 1];
        assert r == r' + [last];
        DistinctUnique(q, r');
      }
    }
  }

  /** The month options are the only sequence with the properties `MonthOptions` and `MonthOptionsFirstSeenOrder` state. */
  lemma MonthOptionsCharacterized(l: seq<Record>, r: seq<string>)
    requires NoDuplicates(r)
    requires SameValues(r, Keys(l))
    requires forall i, j :: 0 <= i < j < |r| ==> FirstIndex(Keys(l), r[i]) < FirstIndex(Keys(l), r[j])
    ensures r == MonthOptions(l)
  {
    DistinctUnique(Keys(l), r);
  }

  /** The month views, one per key in `ks`, laid end to end. */
  function ConcatViews(l: seq<Record>, ks: seq<string>): seq<Record>
  {
    if ks == [] then [] else FilterByMonth(l, ks[0]) + ConcatViews(l, ks[1..])
  }

  lemma {:induction false} ConcatViewsCount(l: seq<Record>, ks: seq<string>, x: Record)
    requires NoDuplicates(ks)
    ensures multiset(ConcatViews(l, ks))[x] == if MonthKey(x.date) in ks then multiset(l)[x] else 0
  {
    if ks != [] {
      ConcatViewsCount(l, ks[1..], x);
      FilterByMonthSpec(l, ks[0]);
      assert MonthKey(x.date) in ks <==> MonthKey(x.date) == ks[0] || MonthKey(x.date) in ks[1..];
      if MonthKey(x.date) == ks[0] {
        assert ks[0] !in ks[1..];
      }
    }
  }

  /** Every row lies in the view of its own month, which is an option, and in no other view. */
  lemma MonthViewMembership(l: seq<Record>)
    ensures forall i :: 0 <= i < |l| ==> MonthKey(l[i].date) in MonthOptions(l)
    ensures forall i, o :: 0 <= i < |l| && o in MonthOptions(l) ==>
      (l[i] in FilterByMonth(l, o) <==> o == MonthKey(l[i].date))
  {
    forall i, o | 0 <= i < |l| && o in MonthOptions(l)
      ensures l[i] in FilterByMonth(l, o) <==> o == MonthKey(l[i].date)
    {
      FilterByMonthSpec(l, o);
      assert l[i] in multiset(l);
    }
  }

  /** The views over all month options, laid end to end, hold every row exactly as often as the ledger. */
  lemma MonthViewsCoverLedger(l: seq<Record>)
    ensures multiset(ConcatViews(l, MonthOptions(l))) == multiset(l)
  {
    var opts := MonthOptions(l);
    forall x ensures multiset(ConcatViews(l, opts))[x] == multiset(l)[x] {
      ConcatViewsCount(l, opts, x);
      if x in l {
        var i :| 0 <= i < |l| && l[i] == x;
      }
    }
  }

  /** Adding a row extends the month options by its month when that month is new, and leaves them alone otherwise. */
  lemma AppendMonthOptions(l: seq<Record>, x: Record)
    ensures MonthOptions(l + [x]) ==
            if MonthKey(x.date) in MonthOptions(l) then MonthOptions(l)
            else MonthOptions(l) + [MonthKey(x.date)]
  {
    var k := Keys(l + [x]);
    assert k[..|k| - 1] == Keys(l);
  }

  /** Adding a row extends the view of its own month by that row and leaves every other view alone. */
  lemma AppendMonthView(l: seq<Record>, x: Record)
    ensures forall m :: (FilterByMonth(l + [x], m) ==
                         FilterByMonth(l, m) + if MonthKey(x.date) == m then [x] else [])
  {
    forall m ensures FilterByMonth(l + [x], m) == FilterByMonth(l, m) + if MonthKey(x.date) == m then [x] else [] {
      FilterByMonthConcat(l, [x], m);
      assert [x][1..] == [];
    }
  }
}
