/** The expense record, the fixed vocabularies and the list operations the
    tracker applies to its list of expenses. */
module Expenses {
  import opened Text

  /** One recorded expense. The amount is a whole number of currency units.
      An empty `paymentMethod` stands for a record saved before the field
      existed: the tracker treats the empty string and a missing field alike. */
  datatype Expense = Expense(
    id: string,
    description: string,
    amount: int,
    category: string,
    date: string,
    paymentMethod: string)

  const Categories: seq<string> := [
    "Food & Dining", "Transportation", "Entertainment", "Utilities",
    "Shopping", "Healthcare", "Education", "Travel", "Other"]

  const PaymentMethods: seq<string> := ["Credit", "Debit", "Cash"]

  function Ids(s: seq<Expense>): set<string> {
    set i | 0 <= i < |s| :: s[i].id
  }

  predicate UniqueIds(s: seq<Expense>) {
    forall i, j :: 0 <= i < j < |s| ==> s[i].id != s[j].id
  }

  /** `r` is `s` with some elements dropped, the rest in their original order. */
  predicate IsSubsequence<T(==)>(r: seq<T>, s: seq<T>)
    decreases |s|
  {
    if r == [] then true
    else if s == [] then false
    else (r[0] == s[0] && IsSubsequence(r[1..], s[1..])) || IsSubsequence(r, s[1..])
  }

  /** `s.filter(p)`: every element satisfying `p`, as often as it occurs in
      `s` and in the same relative order, and nothing else. */
  function KeepIf(s: seq<Expense>, p: Expense -> bool): (r: seq<Expense>)
    ensures forall x :: multiset(r)[x] == if p(x) then multiset(s)[x] else 0
    ensures IsSubsequence(r, s)
  {
    if s == [] then []
    else
      var rest := KeepIf(s[1..], p);
      assert s == [s[0]] + s[1..];
      if p(s[0]) then
        assert ([s[0]] + rest)[1..] == rest;
        [s[0]] + rest
      else rest
  }

  /** Filtering with a predicate that holds everywhere changes nothing. */
  lemma {:induction false} KeepIfAll(s: seq<Expense>, p: Expense -> bool)
    requires forall i :: 0 <= i < |s| ==> p(s[i])
    ensures KeepIf(s, p) == s
  {
    if s != [] {
      KeepIfAll(s[1..], p);
    }
  }

  /** Filtering with the same test on every element of the list gives the same list. */
  lemma {:induction false} KeepIfSameTest(s: seq<Expense>, p: Expense -> bool, q: Expense -> bool)
    requires forall i :: 0 <= i < |s| ==> p(s[i]) == q(s[i])
    ensures KeepIf(s, p) == KeepIf(s, q)
  {
    if s != [] {
      KeepIfSameTest(s[1..], p, q);
    }
  }

  /** Every element `KeepIf` keeps satisfies the predicate. */
  lemma KeepIfSatisfies(s: seq<Expense>, p: Expense -> bool)
    ensures forall i :: 0 <= i < |KeepIf(s, p)| ==> p(KeepIf(s, p)[i])
  {
    var r := KeepIf(s, p);
    forall i | 0 <= i < |r| ensures p(r[i]) {
      assert r[i] in multiset(r);
    }
  }

  lemma NotInIds(s: seq<Expense>, id: string)
    requires id !in Ids(s)
    ensures forall i :: 0 <= i < |s| ==> s[i].id != id
  {
    forall i | 0 <= i < |s| ensures s[i].id != id {
      assert s[i].id in Ids(s);
    }
  }

  /** `deleteExpense(id)`: the list without the records carrying `id`. */
  function WithoutId(s: seq<Expense>, id: string): (r: seq<Expense>)
    ensures id !in Ids(r)
    ensures forall x: Expense :: x.id != id ==> multiset(r)[x] == multiset(s)[x]
    ensures IsSubsequence(r, s)
    ensures id !in Ids(s) ==> r == s
  {
    var p := (e: Expense) => e.id != id;
    KeepIfSatisfies(s, p);
    if id in Ids(s) then KeepIf(s, p)
    else
      NotInIds(s, id);
      KeepIfAll(s, p);
      KeepIf(s, p)
  }

  /** Deleting the same id twice is deleting it once. */
  lemma DeleteTwice(s: seq<Expense>, id: string)
    ensures WithoutId(WithoutId(s, id), id) == WithoutId(s, id)
  {
  }

  /** The list operation of an edit: every record carrying `id` is replaced
      by `e`, every other record keeps its value and position. */
  function ReplaceById(s: seq<Expense>, id: string, e: Expense): (r: seq<Expense>)
    ensures |r| == |s|
    ensures forall i :: 0 <= i < |s| && s[i].id == id ==> r[i] == e
    ensures forall i :: 0 <= i < |s| && s[i].id != id ==> r[i] == s[i]
  {
    if s == [] then []
    else [if s[0].id == id then e else s[0]] + ReplaceById(s[1..], id, e)
  }

  /** Editing an id the list does not hold changes nothing. */
  lemma ReplaceAbsent(s: seq<Expense>, id: string, e: Expense)
    requires id !in Ids(s)
    ensures ReplaceById(s, id, e) == s
  {
    var r := ReplaceById(s, id, e);
    forall i | 0 <= i < |s| ensures r[i] == s[i] {
      assert s[i].id in Ids(s);
    }
  }

  /** A replacement that keeps the id keeps the set of ids and their
      uniqueness; when the id is present, the list then holds exactly one
      record with it, and that record is `e`. */
  lemma ReplaceKeepsIds(s: seq<Expense>, id: string, e: Expense)
    requires e.id == id
    ensures Ids(ReplaceById(s, id, e)) == Ids(s)
    ensures UniqueIds(s) ==> UniqueIds(ReplaceById(s, id, e))
    ensures forall i :: 0 <= i < |s| && ReplaceById(s, id, e)[i].id == id ==> ReplaceById(s, id, e)[i] == e
  {
    var r := ReplaceById(s, id, e);
    forall x | x in Ids(r) ensures x in Ids(s) {
      var i :| 0 <= i < |r| && r[i].id == x;
      assert s[i].id == x;
    }
    forall x | x in Ids(s) ensures x in Ids(r) {
      var i :| 0 <= i < |s| && s[i].id == x;
      assert r[i].id == x;
    }
  }

  /** Appending a record whose id is fresh keeps the ids unique. */
  lemma AppendFresh(s: seq<Expense>, e: Expense)
    requires UniqueIds(s) && e.id !in Ids(s)
    ensures UniqueIds(s + [e])
  {
    forall i | 0 <= i < |s| ensures s[i].id != e.id {
      assert s[i].id in Ids(s);
    }
  }

  /** Saving the form keeps the ids unique when it edits, or when it appends
      under an id the list does not hold. */
  lemma SaveKeepsUnique(s: seq<Expense>, editingId: string, newId: string, e: Expense)
    requires e.id == if editingId != "" then editingId else newId
    requires UniqueIds(s) && (editingId != "" || newId !in Ids(s))
    ensures UniqueIds(if editingId != "" then ReplaceById(s, editingId, e) else s + [e])
  {
    if editingId != "" {
      ReplaceKeepsIds(s, editingId, e);
    } else {
      AppendFresh(s, e);
    }
  }

  /** Dropping records keeps the ids unique. */
  lemma UniqueIdsSubsequence(s: seq<Expense>, r: seq<Expense>)
    requires IsSubsequence(r, s)
    ensures UniqueIds(s) ==> UniqueIds(r)
    decreases |s|
  {
    if r != [] && s != [] && UniqueIds(s) {
      assert forall i :: 0 <= i < |s| - 1 ==> s[1..][i] == s[i + 1];
      if r[0] == s[0] && IsSubsequence(r[1..], s[1..]) {
        UniqueIdsSubsequence(s[1..], r[1..]);
        SubsequenceMembers(r[1..], s[1..]);
        forall j | 0 < j < |r| ensures r[0].id != r[j].id {
          assert r[j] == r[1..][j - 1] && r[j] in r[1..];
          var k :| 0 <= k < |s| - 1 && s[1..][k] == r[j];
          assert s[k + 1] == r[j];
        }
      } else {
        UniqueIdsSubsequence(s[1..], r);
      }
    }
  }

  /** Every element of a subsequence is an element of the whole. */
  lemma {:induction false} SubsequenceMembers(r: seq<Expense>, s: seq<Expense>)
    requires IsSubsequence(r, s)
    ensures forall x :: x in r ==> x in s
    decreases |s|
  {
    if r != [] && s != [] {
      if r[0] == s[0] && IsSubsequence(r[1..], s[1..]) {
        SubsequenceMembers(r[1..], s[1..]);
        assert r == [r[0]] + r[1..] && s == [s[0]] + s[1..];
      } else {
        SubsequenceMembers(r, s[1..]);
        assert s == [s[0]] + s[1..];
      }
    }
  }

  /** `expense.paymentMethod || paymentMethods[0]`. */
  function PaymentOrDefault(m: string): (r: string)
    ensures r != "" && (m != "" ==> r == m)
    ensures r in PaymentMethods || r == m
    ensures m == "" ==> r == PaymentMethods[0]
  {
    if m != "" then m else PaymentMethods[0]
  }

  /** The record a submit builds from the form fields (the amount is parsed
      from its text). */
  function FormRecord(id: string, description: string, amountText: string,
                      category: string, date: string, paymentMethod: string): (r: Expense)
    ensures r.id == id && r.description == description && r.category == category
    ensures r.date == date && r.paymentMethod == paymentMethod
    ensures AllDigits(amountText) ==> r.amount == DigitsValue(amountText)
    ensures r.amount < 0 ==> |amountText| > 0 && amountText[0] == '-'
  {
    Expense(id, description, ParseNumber(amountText), category, date, paymentMethod)
  }

  /** Loading a record into the form and building a record back from the
      form gives the same record, except that a missing payment method has
      become the default one. */
  lemma EditRoundTrip(e: Expense)
    ensures FormRecord(e.id, e.description, IntText(e.amount), e.category, e.date,
                       PaymentOrDefault(e.paymentMethod))
         == e.(paymentMethod := PaymentOrDefault(e.paymentMethod))
  {
    ParseIntText(e.amount);
  }

  /** With unique ids, replacing the id of the record at `k` by a record
      with the same id replaces that one position. */
  lemma ReplaceUniqueId(s: seq<Expense>, k: int, e: Expense)
    requires UniqueIds(s) && 0 <= k < |s| && e.id == s[k].id
    ensures ReplaceById(s, e.id, e) == s[k := e]
  {
    var r := ReplaceById(s, e.id, e);
    forall i | 0 <= i < |s| ensures r[i] == s[k := e][i] {
      if s[i].id == e.id {
        assert i == k;
      }
    }
  }

  /** Starting an edit of the record at `k` and submitting the form
      untouched, in a list with unique ids. A record with an id is saved in
      place, and changes only by giving a missing payment method the default
      one. A record whose id is empty leaves the edit marker empty, so the
      submit appends, instead, the copy of it under `newId` described by
      the second clause. */
  lemma EditUnchangedSave(s: seq<Expense>, k: int, newId: string)
    requires UniqueIds(s) && 0 <= k < |s|
    ensures
      var e := s[k];
      e.id != "" ==>
      ReplaceById(s, e.id, FormRecord(e.id, e.description, IntText(e.amount), e.category, e.date,
                                       PaymentOrDefault(e.paymentMethod)))
      == s[k := e.(paymentMethod := PaymentOrDefault(e.paymentMethod))]
    ensures
      var e := s[k];
      e.id == "" ==>
      FormRecord(newId, e.description, IntText(e.amount), e.category, e.date,
                 PaymentOrDefault(e.paymentMethod))
      == e.(id := newId, paymentMethod := PaymentOrDefault(e.paymentMethod))
  {
    var e := s[k];
    ParseIntText(e.amount);
    if e.id != "" {
      ReplaceUniqueId(s, k, e.(paymentMethod := PaymentOrDefault(e.paymentMethod)));
    }
  }

  /** For a record that has an id and a payment method, submitting it
      untouched leaves the list as it was. */
  lemma EditUnchangedIsNoop(s: seq<Expense>, k: int)
    requires UniqueIds(s) && 0 <= k < |s| && s[k].paymentMethod != ""
    ensures
      var e := s[k];
      e.id != "" ==>
      ReplaceById(s, e.id, FormRecord(e.id, e.description, IntText(e.amount), e.category, e.date,
                                       PaymentOrDefault(e.paymentMethod))) == s
  {
    var e := s[k];
    if e.id != "" {
      EditUnchangedSave(s, k, "");
      assert e.(paymentMethod := PaymentOrDefault(e.paymentMethod)) == e;
      assert s[k := e] == s;
    }
  }
}
