/** The derived view of the tracker: the case-insensitive filter, the sort
    chosen by the sort controls and the "show all or first N" truncation. */
module ExpenseView {
  import opened Text
  import opened Expenses

  /** The sort direction. Every value other than ascending sorts descending. */
  datatype Order = Asc | Desc

  /** What clicking the header of the current sort column does to the order. */
  function Flip(o: Order): (r: Order)
    ensures r != o
  {
    if o == Asc then Desc else Asc
  }

  datatype SortKey = ByDate | ByAmount | ByDescription

  /** The key a `sortBy` value selects: "date", "amount", and the
      description for any other value. */
  function KeyOf(sortBy: string): (k: SortKey)
    ensures k == ByDate <==> sortBy == "date"
    ensures k == ByAmount <==> sortBy == "amount"
  {
    if sortBy == "date" then ByDate
    else if sortBy == "amount" then ByAmount
    else ByDescription
  }

  /** Ascending comparison on a key: negative, zero or positive as `a` sorts
      before, level with or after `b`. Dates are ISO `YYYY-MM-DD` strings,
      whose code-point order is their chronological order. */
  function KeyCompare(key: SortKey, a: Expense, b: Expense): (r: int)
    ensures key == ByDate ==> (r == 0 <==> a.date == b.date) && (r < 0 <==> LexLess(a.date, b.date))
    ensures key == ByAmount ==> (r < 0 <==> a.amount < b.amount) && (r == 0 <==> a.amount == b.amount)
    ensures key == ByDescription ==>
      (r == 0 <==> a.description == b.description) && (r < 0 <==> LexLess(a.description, b.description))
  {
    match key
    case ByDate =>
      LexCompareZero(a.date, b.date);
      LexCompareLess(a.date, b.date);
      LexCompare(a.date, b.date)
    case ByAmount => a.amount - b.amount
    case ByDescription =>
      LexCompareZero(a.description, b.description);
      LexCompareLess(a.description, b.description);
      LexCompare(a.description, b.description)
  }

  /** The comparator handed to the sort: ascending compares `a` with `b`,
      descending compares `b` with `a`. */
  function Compare(sortBy: string, order: Order, a: Expense, b: Expense): (r: int)
    ensures order == Asc ==> r == KeyCompare(KeyOf(sortBy), a, b)
    ensures order == Desc ==> r == -KeyCompare(KeyOf(sortBy), a, b)
  {
    if order == Asc then KeyCompare(KeyOf(sortBy), a, b)
    else
      KeyCompareAntisymmetric(KeyOf(sortBy), a, b);
      KeyCompare(KeyOf(sortBy), b, a)
  }

  /** `a` may be placed before `b`. */
  predicate Precedes(sortBy: string, order: Order, a: Expense, b: Expense) {
    Compare(sortBy, order, a, b) <= 0
  }

  predicate SortedBy(s: seq<Expense>, sortBy: string, order: Order) {
    forall i, j :: 0 <= i < j < |s| ==> Precedes(sortBy, order, s[i], s[j])
  }

  lemma KeyCompareAntisymmetric(key: SortKey, a: Expense, b: Expense)
    ensures KeyCompare(key, a, b) == -KeyCompare(key, b, a)
  {
    match key
    case ByDate => LexCompareAntisymmetric(a.date, b.date);
    case ByAmount =>
    case ByDescription => LexCompareAntisymmetric(a.description, b.description);
  }

  lemma KeyCompareTransitive(key: SortKey, a: Expense, b: Expense, c: Expense)
    requires KeyCompare(key, a, b) <= 0 && KeyCompare(key, b, c) <= 0
    ensures KeyCompare(key, a, c) <= 0
  {
    match key
    case ByDate => LexCompareTransitive(a.date, b.date, c.date);
    case ByAmount =>
    case ByDescription => LexCompareTransitive(a.description, b.description, c.description);
  }

  /** Any two records can be ordered one way or the other. */
  lemma PrecedesTotal(sortBy: string, order: Order, a: Expense, b: Expense)
    ensures Precedes(sortBy, order, a, b) || Precedes(sortBy, order, b, a)
  {
    KeyCompareAntisymmetric(KeyOf(sortBy), a, b);
  }

  lemma PrecedesTransitive(sortBy: string, order: Order, a: Expense, b: Expense, c: Expense)
    requires Precedes(sortBy, order, a, b) && Precedes(sortBy, order, b, c)
    ensures Precedes(sortBy, order, a, c)
  {
    if order == Asc {
      KeyCompareTransitive(KeyOf(sortBy), a, b, c);
    } else {
      KeyCompareTransitive(KeyOf(sortBy), c, b, a);
    }
  }

  /** Clicking the same column twice restores the order. */
  lemma FlipTwice(o: Order)
    ensures Flip(Flip(o)) == o
  {
  }

  /** Flipping the order swaps the roles of the two records. */
  lemma PrecedesFlip(sortBy: string, order: Order, a: Expense, b: Expense)
    ensures Precedes(sortBy, Flip(order), a, b) == Precedes(sortBy, order, b, a)
  {
  }

  /** A record that may precede the head of a sorted list may precede all of it. */
  lemma PrecedesHead(sortBy: string, order: Order, x: Expense, s: seq<Expense>)
    requires SortedBy(s, sortBy, order) && s != [] && Precedes(sortBy, order, x, s[0])
    ensures forall i :: 0 <= i < |s| ==> Precedes(sortBy, order, x, s[i])
  {
    forall i | 0 < i < |s| ensures Precedes(sortBy, order, x, s[i]) {
      PrecedesTransitive(sortBy, order, x, s[0], s[i]);
    }
  }

  /** A record that may precede every element of `s` may precede every
      element of a list made of some of those elements. */
  lemma PrecedesMembers(sortBy: string, order: Order, a: Expense, s: seq<Expense>, t: seq<Expense>)
    requires forall i :: 0 <= i < |s| ==> Precedes(sortBy, order, a, s[i])
    requires multiset(t) <= multiset(s)
    ensures forall i :: 0 <= i < |t| ==> Precedes(sortBy, order, a, t[i])
  {
    forall i | 0 <= i < |t| ensures Precedes(sortBy, order, a, t[i]) {
      assert t[i] in multiset(t);
      assert t[i] in multiset(s);
      var k :| 0 <= k < |s| && s[k] == t[i];
    }
  }

  lemma PrependSorted(sortBy: string, order: Order, x: Expense, s: seq<Expense>)
    requires SortedBy(s, sortBy, order)
    requires forall i :: 0 <= i < |s| ==> Precedes(sortBy, order, x, s[i])
    ensures SortedBy([x] + s, sortBy, order)
  {
    var r := [x] + s;
    forall i, j | 0 <= i < j < |r| ensures Precedes(sortBy, order, r[i], r[j]) {
      if i > 0 {
        assert r[i] == s[i - 1] && r[j] == s[j - 1];
      }
    }
  }

  /** Placing the head of a sorted list in front of a sorted list of the
      rest of it and a record the head may not follow. */
  lemma InsertAfterHead(sortBy: string, order: Order, x: Expense, s: seq<Expense>, rest: seq<Expense>)
    requires SortedBy(s, sortBy, order) && s != [] && !Precedes(sortBy, order, x, s[0])
    requires multiset(rest) == multiset(s[1..]) + multiset{x} && SortedBy(rest, sortBy, order)
    ensures multiset([s[0]] + rest) == multiset(s) + multiset{x}
    ensures SortedBy([s[0]] + rest, sortBy, order)
  {
    assert s == [s[0]] + s[1..];
    assert forall i :: 0 <= i < |s| - 1 ==> s[1..][i] == s[i + 1];
    PrecedesTotal(sortBy, order, x, s[0]);
    PrecedesMembers(sortBy, order, s[0], [x] + s[1..], rest);
    PrependSorted(sortBy, order, s[0], rest);
  }

  /** Inserts `x` into a sorted list before the first element it may precede. */
  function Insert(sortBy: string, order: Order, x: Expense, s: seq<Expense>): (r: seq<Expense>)
    requires SortedBy(s, sortBy, order)
    ensures multiset(r) == multiset(s) + multiset{x}
    ensures SortedBy(r, sortBy, order)
  {
    if s == [] then [x]
    else if Precedes(sortBy, order, x, s[0]) then
      PrecedesHead(sortBy, order, x, s);
      PrependSorted(sortBy, order, x, s);
      [x] + s
    else
      SortedTail(sortBy, order, s);
      var rest := Insert(sortBy, order, x, s[1..]);
      InsertAfterHead(sortBy, order, x, s, rest);
      [s[0]] + rest
  }

  /** The sort of the view: a sorted permutation of its input. Which of
      several records with equal keys comes first is not specified. */
  function Sort(sortBy: string, order: Order, s: seq<Expense>): (r: seq<Expense>)
    ensures multiset(r) == multiset(s)
    ensures SortedBy(r, sortBy, order)
  {
    if s == [] then []
    else
      assert s == [s[0]] + s[1..];
      Insert(sortBy, order, s[0], Sort(sortBy, order, s[1..]))
  }

  /** No two different records of `s` are level on the key. */
  predicate DistinctKeys(s: seq<Expense>, key: SortKey) {
    forall x, y :: x in s && y in s && KeyCompare(key, x, y) == 0 ==> x == y
  }

  lemma SortedTail(sortBy: string, order: Order, s: seq<Expense>)
    requires SortedBy(s, sortBy, order) && s != []
    ensures SortedBy(s[1..], sortBy, order)
  {
    assert forall i :: 0 <= i < |s| - 1 ==> s[1..][i] == s[i + 1];
  }

  lemma TailsSameRecords(a: seq<Expense>, b: seq<Expense>)
    requires multiset(a) == multiset(b) && a != [] && b != [] && a[0] == b[0]
    ensures multiset(a[1..]) == multiset(b[1..])
  {
    assert a == [a[0]] + a[1..] && b == [b[0]] + b[1..];
    assert multiset(a) == multiset{a[0]} + multiset(a[1..]);
    assert multiset(b) == multiset{b[0]} + multiset(b[1..]);
    forall x ensures multiset(a[1..])[x] == multiset(b[1..])[x] {
      assert multiset(a)[x] == multiset{a[0]}[x] + multiset(a[1..])[x];
      assert multiset(b)[x] == multiset{b[0]}[x] + multiset(b[1..])[x];
    }
  }

  lemma DistinctKeysTail(s: seq<Expense>, key: SortKey)
    requires DistinctKeys(s, key) && s != []
    ensures DistinctKeys(s[1..], key)
  {
    forall x | x in s[1..] ensures x in s {
      var i :| 0 <= i < |s| - 1 && s[1..][i] == x;
      assert s[i + 1] == x;
    }
  }

  /** Two sorted lists holding the same records with distinct keys start
      with the same record. */
  lemma SortedHeadsEqual(sortBy: string, order: Order, a: seq<Expense>, b: seq<Expense>)
    requires SortedBy(a, sortBy, order) && SortedBy(b, sortBy, order)
    requires multiset(a) == multiset(b) && a != []
    requires DistinctKeys(a, KeyOf(sortBy))
    ensures b != [] && a[0] == b[0]
  {
    assert a[0] in multiset(b);
    var k :| 0 <= k < |b| && b[k] == a[0];
    assert b[0] in multiset(a);
    var m :| 0 <= m < |a| && a[m] == b[0];
    KeyCompareAntisymmetric(KeyOf(sortBy), a[0], a[0]);
    assert Precedes(sortBy, order, b[0], a[0]);
    assert Precedes(sortBy, order, a[0], b[0]);
    KeyCompareAntisymmetric(KeyOf(sortBy), a[0], b[0]);
  }

  /** With distinct keys there is only one sorted order. */
  lemma {:induction false} SortedUnique(sortBy: string, order: Order, a: seq<Expense>, b: seq<Expense>)
    requires SortedBy(a, sortBy, order) && SortedBy(b, sortBy, order)
    requires multiset(a) == multiset(b)
    requires DistinctKeys(a, KeyOf(sortBy))
    ensures a == b
    decreases |a|
  {
    if a == [] {
      assert |b| == |multiset(b)| == 0;
    } else {
      SortedHeadsEqual(sortBy, order, a, b);
      TailsSameRecords(a, b);
      DistinctKeysTail(a, KeyOf(sortBy));
      SortedTail(sortBy, order, a);
      SortedTail(sortBy, order, b);
      SortedUnique(sortBy, order, a[1..], b[1..]);
    }
  }

  function Reverse(s: seq<Expense>): (r: seq<Expense>)
    ensures |r| == |s|
    ensures forall i :: 0 <= i < |s| ==> r[i] == s[|s| - 1 - i]
    ensures multiset(r) == multiset(s)
  {
    if s == [] then []
    else
      assert s == [s[0]] + s[1..];
      Reverse(s[1..]) + [s[0]]
  }

  /** Reading a sorted list backwards gives it sorted the other way round. */
  lemma ReverseSorted(sortBy: string, order: Order, s: seq<Expense>)
    requires SortedBy(s, sortBy, order)
    ensures SortedBy(Reverse(s), sortBy, Flip(order))
  {
    var r := Reverse(s);
    forall i, j | 0 <= i < j < |r| ensures Precedes(sortBy, Flip(order), r[i], r[j]) {
      PrecedesFlip(sortBy, order, r[i], r[j]);
      assert Precedes(sortBy, order, s[|s| - 1 - j], s[|s| - 1 - i]);
    }
  }

  /** When no two records are level on the key, sorting the other way
      round gives exactly the reverse order. */
  lemma FlipReverses(sortBy: string, order: Order, s: seq<Expense>)
    requires DistinctKeys(s, KeyOf(sortBy))
    ensures Sort(sortBy, Flip(order), s) == Reverse(Sort(sortBy, order, s))
  {
    var a := Sort(sortBy, Flip(order), s);
    var b := Reverse(Sort(sortBy, order, s));
    ReverseSorted(sortBy, order, Sort(sortBy, order, s));
    forall x | x in a ensures x in s {
      assert x in multiset(a);
    }
    SortedUnique(sortBy, Flip(order), a, b);
  }

  /** The filter test of one record: the lower-cased filter text occurs in
      the lower-cased description, category or (present) payment method. */
  predicate Matches(filter: string, e: Expense)
    ensures Matches(filter, e) <==>
      || Occurs(Lower(e.description), Lower(filter))
      || Occurs(Lower(e.category), Lower(filter))
      || (e.paymentMethod != "" && Occurs(Lower(e.paymentMethod), Lower(filter)))
  {
    var f := Lower(filter);
    IncludesMeansOccurs(Lower(e.description), f);
    IncludesMeansOccurs(Lower(e.category), f);
    IncludesMeansOccurs(Lower(e.paymentMethod), f);
    || Includes(Lower(e.description), f)
    || Includes(Lower(e.category), f)
    || (e.paymentMethod != "" && Includes(Lower(e.paymentMethod), f))
  }

  /** The records that match the filter text, in their original order. */
  function Filter(filter: string, s: seq<Expense>): (r: seq<Expense>)
    ensures forall x :: multiset(r)[x] == if Matches(filter, x) then multiset(s)[x] else 0
    ensures IsSubsequence(r, s)
  {
    KeepIf(s, e => Matches(filter, e))
  }

  /** An empty filter keeps every record. */
  lemma FilterEmpty(s: seq<Expense>)
    ensures Filter("", s) == s
  {
    forall i | 0 <= i < |s| ensures Matches("", s[i]) {
      IncludesEmpty(Lower(s[i].description));
    }
    KeepIfAll(s, e => Matches("", e));
  }

  /** The case of the filter text does not matter. */
  lemma FilterIgnoresCase(filter: string, s: seq<Expense>)
    ensures Filter(filter, s) == Filter(Lower(filter), s)
  {
    LowerIdempotent(filter);
    KeepIfSameTest(s, e => Matches(filter, e), e => Matches(Lower(filter), e));
  }

  /** `filteredExpenses`: the matching records, sorted by the sort controls. */
  function FilteredExpenses(s: seq<Expense>, filter: string, sortBy: string, order: Order): (r: seq<Expense>)
    ensures forall x :: multiset(r)[x] == if Matches(filter, x) then multiset(s)[x] else 0
    ensures SortedBy(r, sortBy, order)
  {
    Sort(sortBy, order, Filter(filter, s))
  }

  /** Every record of the view is a record of the list that matches the filter. */
  lemma ViewMembers(s: seq<Expense>, filter: string, sortBy: string, order: Order)
    ensures forall x :: x in FilteredExpenses(s, filter, sortBy, order) ==> x in s && Matches(filter, x)
  {
    var v := FilteredExpenses(s, filter, sortBy, order);
    forall x | x in v ensures x in s && Matches(filter, x) {
      assert x in multiset(v);
      assert x in multiset(s);
    }
  }

  /** Clicking the current sort column reverses the displayed order, when
      no two records that match the filter are level on the sort key. */
  lemma ToggleReversesView(s: seq<Expense>, filter: string, sortBy: string, order: Order)
    requires DistinctKeys(Filter(filter, s), KeyOf(sortBy))
    ensures FilteredExpenses(s, filter, sortBy, Flip(order))
         == Reverse(FilteredExpenses(s, filter, sortBy, order))
  {
    FlipReverses(sortBy, order, Filter(filter, s));
  }

  /** `s.slice(0, n)` when `showAll` is false, all of `s` otherwise.
      A negative `n` counts back from the end, as `slice` does. */
  function Page(s: seq<Expense>, showAll: bool, n: int): (r: seq<Expense>)
    ensures r <= s
    ensures showAll ==> r == s
    ensures !showAll && 0 <= n ==> |r| == if n < |s| then n else |s|
    ensures !showAll && n < 0 ==> |r| == if |s| + n > 0 then |s| + n else 0
  {
    if showAll then s
    else if 0 <= n then (if n < |s| then s[..n] else s)
    else (if |s| + n > 0 then s[..|s| + n] else [])
  }
}
