# Expense tracker: a Dafny model of its state and derived view

The expense tracker is a single-page form-and-table application. It keeps a
list of expense records (id, description, amount, category, date, payment
method) and a form for adding or editing one record. It shows the list
filtered by a case-insensitive search text, sorted by date, amount or
description in either direction, and cut to the first few rows unless
"show all" is on. Everything lives in one React component, `src/App.tsx`.

This project models that component in four modules:

- `Text` (`text.dfy`) holds stand-ins for the JavaScript library calls the
  component uses: `toLowerCase` (`Lower`), `includes` (`Includes`),
  `localeCompare` (`LexCompare`), `Number.prototype.toString` (`IntText`)
  and `parseFloat` (`ParseNumber`). It proves what each one means: a
  substring test, a total order, and a parse that inverts the printing.
- `Expenses` (`expenses.dfy`) holds the `Expense` record, the category and
  payment-method vocabularies, and the list operations of the handlers:
  - `KeepIf` models `Array.prototype.filter`.
  - `WithoutId` models the delete.
  - `ReplaceById` models the `map` that an edit performs.
  - Lemmas cover id uniqueness and the edit round trip.
- `ExpenseView` (`view.dfy`) holds the derived view:
  - `Matches` and `Filter` model the search filter.
  - `Compare` is the sort comparator; `Sort` is a reference insertion sort
    proved to return a sorted permutation.
  - `FilteredExpenses` is the filter followed by the sort; `Page` is the
    `slice` that truncates it.
- `Tracker` (`tracker.dfy`) holds the class `App`. Its fields are the
  component's state variables. Its methods are the event handlers
  `handleSubmit`, `startEditing`, `deleteExpense` and `toggleSort`, plus the
  "Show All" button. Each method's contract gives the new state in terms of
  the functions above.

Representation choices:

- `editingId` is a `string`, and the empty string stands for `null`. The
  handlers only test it for truthiness, which treats the two alike. This
  also models the code's behaviour for a record whose id is the empty
  string: editing it appends a new record.
- A missing `paymentMethod` (data saved before the field existed) is the
  empty string. Both `expense.paymentMethod || paymentMethods[0]` and the
  filter's `expense.paymentMethod && …` treat the two alike.
- Amounts are integers. The amount field of the form is text, read by
  `ParseNumber` and written by `IntText`.
- Dates are ISO `YYYY-MM-DD` strings. They are compared by code point:
  `KeyCompare` puts `a` first exactly when `LexLess(a.date, b.date)`,
  that is, when `a.date` has the smaller digit where the two dates first
  differ. For well-formed dates of this fixed width, that is
  chronological order.
- `sortOrder` is the datatype `Order`, because the code only ever stores
  `'asc'` or `'desc'`. `sortBy` stays a string: `KeyOf` maps `"date"`,
  `"amount"` and every other value (the description) to a key, as the
  comparator's `if`/`else if`/`else` does.

Three facts about the code shape the model:

- Nothing writes the list back to local storage. The list is only read
  once, at start-up, so there is no save operation to model.
- `handleSubmit` itself checks only that the description and the amount
  text are non-empty. It does not check that the amount is positive. In a
  browser, the form's own constraint validation blocks the submit event
  for an empty, non-positive or non-numeric amount. That validation is
  browser behaviour, and it is not modelled.
- Malformed stored data makes `JSON.parse` throw. It is not read as an
  empty list.

## Model

| member | source | states |
|---|---|---|
| Text.Lower | src/App.tsx:98-100 | lower-casing keeps the length, leaves no upper-case letter, changes no other character and agrees with the input up to case |
| Text.LowerIdempotent | src/App.tsx:98-100 | lower-casing twice is lower-casing once |
| Text.Includes | src/App.tsx:98-100 | the stand-in for `includes` finds a needle only when it is no longer than the haystack, and always finds a prefix |
| Text.IncludesMeansOccurs | src/App.tsx:98-100 | the left-to-right search holds exactly when the needle occurs at some position of the haystack |
| Text.IncludesEmpty | src/App.tsx:98-100 | every string includes the empty string |
| Text.LexCompare | src/App.tsx:110-112 | the stand-in for `localeCompare` gives -1, 0 or 1, and puts a proper prefix before the longer string |
| Text.LexCompareAntisymmetric | src/App.tsx:110-112 | swapping the arguments of `localeCompare` negates the result |
| Text.LexCompareZero | src/App.tsx:110-112 | the code-point stand-in for `localeCompare` is zero exactly for equal strings |
| Text.LexCompareTransitive | src/App.tsx:110-112 | "sorts no later than" is transitive |
| Text.LexCompareLess | src/App.tsx:110-112 | the stand-in for `localeCompare` is negative exactly when `LexLess` holds: the first string is a proper prefix of the second, or has the smaller character where the two first differ |
| Text.LexLessHeads | src/App.tsx:110-112 | proof helper for `LexCompareLess`: strings that start differently are ordered by their first characters |
| Text.PrefixTails | src/App.tsx:110-112 | proof helper for `LexCompareLess`: for strings that start alike, being a proper prefix carries over to the tails |
| Text.FirstDifferenceTails | src/App.tsx:110-112 | proof helper for `LexCompareLess`: for strings that start alike, the first difference carries over to the tails |
| Text.LeadingDigits | src/App.tsx:59 | the parse reads the longest prefix made of digits |
| Text.IntText | src/App.tsx:84 | the stand-in for `toString` on an amount gives a minus sign exactly for a negative amount, followed by a non-empty run of digits |
| Text.NatText | src/App.tsx:84 | printing an amount gives a non-empty string of digits |
| Text.DigitsValueOfNatText | src/App.tsx:59 | the value of the printed digits is the number printed |
| Text.LeadingDigitsOfDigits | src/App.tsx:59 | a string of digits is read completely |
| Text.ParseNumber | src/App.tsx:59 | the stand-in for `parseFloat` gives a negative result only after a leading minus sign, and reads a text made of digits, with or without a leading minus sign, as its decimal value |
| Text.ParseIntText | src/App.tsx:59 | parsing the text `toString` gives for an amount yields that amount |
| Expenses.KeepIf | src/App.tsx:92 | `filter` keeps each element satisfying the test as often as it occurs, nothing else, in the original relative order |
| Expenses.KeepIfAll | src/App.tsx:92 | filtering with a test every element passes returns the list unchanged |
| Expenses.KeepIfSameTest | src/App.tsx:97-101 | two tests that agree on the list's elements filter it alike |
| Expenses.KeepIfSatisfies | src/App.tsx:92 | every kept element passes the test |
| Expenses.NotInIds | src/App.tsx:92 | proof helper for `WithoutId`: an id outside the list's ids is carried by none of its records |
| Expenses.WithoutId | src/App.tsx:91-93 | delete leaves no record with the id, keeps every other record with its multiplicity and order, and is a no-op when the id is absent |
| Expenses.DeleteTwice | src/App.tsx:91-93 | deleting an id twice equals deleting it once |
| Expenses.ReplaceById | src/App.tsx:66 | the edit keeps the length, puts the new record at every position whose id matches, and leaves every other position as it was |
| Expenses.ReplaceAbsent | src/App.tsx:66 | editing an id the list does not hold leaves the list unchanged |
| Expenses.ReplaceKeepsIds | src/App.tsx:57-66 | an edit that keeps the id keeps the set of ids and their uniqueness, and every record then carrying the id is the new one |
| Expenses.AppendFresh | src/App.tsx:57-69 | appending a record with a fresh id keeps ids unique |
| Expenses.SaveKeepsUnique | src/App.tsx:56-70 | a successful submit keeps ids unique when it edits, or when it appends under a fresh id |
| Expenses.UniqueIdsSubsequence | src/App.tsx:92 | dropping records keeps ids unique |
| Expenses.SubsequenceMembers | src/App.tsx:92 | every record of a subsequence is a record of the whole list |
| Expenses.PaymentOrDefault | src/App.tsx:87 | the payment method loaded into the form is never empty; it is the record's own when present, otherwise exactly the first payment method, `"Credit"` |
| Expenses.FormRecord | src/App.tsx:56-63 | the record a submit builds carries the form's id, description, category, date and payment method; an amount text of digits becomes its decimal value, and the amount is negative only when the text starts with a minus sign |
| Expenses.EditRoundTrip | src/App.tsx:56-63 | loading a record into the form and building a record back from the form under the record's own id gives the same record, with a missing payment method defaulted |
| Expenses.ReplaceUniqueId | src/App.tsx:66 | proof helper for the edit lemmas: with unique ids, replacing the id of one record by a record with that id changes that one position |
| Expenses.EditUnchangedSave | src/App.tsx:57-88 | with unique ids, starting an edit and submitting the form untouched (a submit that goes through, so a non-empty description): a record with a non-empty id is saved in place, changing only by giving a missing payment method the default one; a record whose id is empty leaves the edit marker empty, and the record appended instead is its copy under the new id, with the default payment method when it had none |
| Expenses.EditUnchangedIsNoop | src/App.tsx:57-88 | with unique ids, starting an edit of a record that has a non-empty id and a payment method, and submitting the form untouched, leaves the list as it was |
| ExpenseView.Flip | src/App.tsx:119 | flipping always changes the order |
| ExpenseView.FlipTwice | src/App.tsx:119 | flipping twice restores the order |
| ExpenseView.KeyOf | src/App.tsx:103-113 | `"date"` selects the date key, `"amount"` the amount key, and every other value the description |
| ExpenseView.KeyCompare | src/App.tsx:103-113 | the ascending comparison on each key is zero exactly when the two records agree on that key; it is negative exactly when the first record's date or description sorts strictly before the second's in code-point order (`LexLess`), or when its amount is smaller |
| ExpenseView.Compare | src/App.tsx:102-114 | the comparator handed to the sort is the key's ascending comparison for ascending order and its negation for descending order |
| ExpenseView.KeyCompareAntisymmetric | src/App.tsx:103-113 | comparing the other way round negates the comparison on each key |
| ExpenseView.KeyCompareTransitive | src/App.tsx:103-113 | each key's order is transitive |
| ExpenseView.PrecedesTotal | src/App.tsx:102-114 | the comparator orders any two records one way or the other |
| ExpenseView.PrecedesTransitive | src/App.tsx:102-114 | the comparator's "may precede" is transitive in either direction |
| ExpenseView.PrecedesFlip | src/App.tsx:104-112 | the descending comparator is the ascending one with its arguments swapped |
| ExpenseView.PrecedesHead | src/App.tsx:102-114 | proof helper for the reference sort: a record that may precede the head of a sorted list may precede all of it |
| ExpenseView.PrecedesMembers | src/App.tsx:102-114 | proof helper for the reference sort: a record that may precede every element of a list may precede every element drawn from it |
| ExpenseView.PrependSorted | src/App.tsx:102-114 | proof helper for the reference sort: putting in front a record that may precede every element keeps a list sorted |
| ExpenseView.InsertAfterHead | src/App.tsx:102-114 | proof helper for the reference sort: keeping the head in front of a sorted insertion into the tail gives a sorted permutation |
| ExpenseView.Insert | src/App.tsx:102-114 | inserting into a sorted list gives a sorted list holding one more copy of the record |
| ExpenseView.Sort | src/App.tsx:102-114 | the sort returns a permutation of its input, sorted by the comparator |
| ExpenseView.SortedTail | src/App.tsx:102-114 | proof helper for `SortedUnique`: the tail of a sorted list is sorted |
| ExpenseView.TailsSameRecords | src/App.tsx:102-114 | proof helper for `SortedUnique`: two permutations with the same head have permuted tails |
| ExpenseView.DistinctKeysTail | src/App.tsx:102-114 | proof helper for `SortedUnique`: distinct keys stay distinct in the tail |
| ExpenseView.SortedHeadsEqual | src/App.tsx:102-114 | proof helper for `SortedUnique`: two sorted permutations with distinct keys start with the same record |
| ExpenseView.SortedUnique | src/App.tsx:102-114 | with distinct keys there is only one sorted permutation |
| ExpenseView.Reverse | src/App.tsx:117-124 | proof helper for `ToggleReversesView`: reversal reads the list backwards and is a permutation |
| ExpenseView.ReverseSorted | src/App.tsx:117-124 | proof helper for `ToggleReversesView`: a list sorted one way, read backwards, is sorted the other way |
| ExpenseView.FlipReverses | src/App.tsx:102-114 | with distinct keys, sorting in the flipped order gives exactly the reverse |
| ExpenseView.Matches | src/App.tsx:97-100 | a record matches exactly when the lower-cased filter text occurs in its lower-cased description or category, or in its payment method when it has one |
| ExpenseView.Filter | src/App.tsx:96-101 | the filter keeps exactly the matching records, each as often as it occurs, in their original order |
| ExpenseView.FilterEmpty | src/App.tsx:96-101 | an empty filter text keeps every record |
| ExpenseView.FilterIgnoresCase | src/App.tsx:98-100 | lower-casing the filter text does not change the result |
| ExpenseView.FilteredExpenses | src/App.tsx:96-114 | the view holds exactly the matching records with their multiplicities, sorted by the comparator |
| ExpenseView.ViewMembers | src/App.tsx:96-114 | every record of the view is a record of the list and matches the filter |
| ExpenseView.ToggleReversesView | src/App.tsx:117-124 | when no two records that match the filter share the sort key, clicking the current sort column shows the view in exactly reverse order |
| ExpenseView.Page | src/App.tsx:126-128 | the shown rows are a prefix of the view: all of it when showing all, otherwise `slice(0, n)`'s length (`min(n, length)`, or counted from the end for a negative `n`) |
| Tracker.App.constructor | src/App.tsx:32-46 | initial state: the stored list, an empty form with the first category and payment method and today's date, an empty filter, sorted by date descending, no edit, all rows shown, 5 rows per page |
| Tracker.App.HandleSubmit | src/App.tsx:51-78 | with an empty description or amount, no state changes; otherwise an edit replaces the records with the edited id and ends the edit, a new record is appended, and the form is reset; ids stay unique when the new id is fresh |
| Tracker.App.StartEditing | src/App.tsx:81-88 | the form holds the record's fields, its amount as text that parses back to it, and its payment method or the default; the record's id becomes the edit target |
| Tracker.App.DeleteExpense | src/App.tsx:91-93 | the list becomes `WithoutId` of the old list and ids stay unique; the edit target and the form are untouched |
| Tracker.App.ToggleSort | src/App.tsx:117-124 | the clicked column becomes the sort column; the same column flips the order, a new one sorts descending |
| Tracker.App.ToggleShowAll | src/App.tsx:243 | the show-all flag is negated |
| Tracker.App.DisplayedExpenses | src/App.tsx:126-128 | the displayed rows are a prefix of the filtered and sorted view: all of it when showing all, otherwise its first `min(itemsPerPage, length)` rows for a non-negative page size; every row comes from the list and matches the filter, and the rows are sorted |

## Left out

- Rendering, CSS and icons (`src/App.tsx:130-357`) are not modelled. They are pure presentation.
- The input `onChange` handlers and the filter box are not modelled as methods. Each one assigns one field, and the model's fields are public.
- Reading local storage and `JSON.parse` (`src/App.tsx:32-35`) are not modelled. They are I/O and a foreign parser. The constructor takes the parsed list instead, so the code's exception on malformed data is not modelled either.
- `Date.now()` (`src/App.tsx:57`) is a clock. `HandleSubmit` takes the new id as a parameter. Ids are proved to stay unique only when that id is fresh.
- `new Date().toISOString()` (`src/App.tsx:39, 76`) is a clock. The constructor and `HandleSubmit` take today's date as a parameter.
- Text.ParseIntText: covers whole numbers only. The model's `parseFloat` reads an optional minus sign and the leading digits. Fractions, exponents, a leading `+`, leading white space and the `NaN` result for text without digits are not modelled. Through the form's `type="number"` input, the amount text is either empty or a number.
- Text.NatText: covers whole numbers only. `toString` on fractional amounts and `toFixed(2)` in the table are not modelled.
- Text.LexCompareTransitive: uses code-point order. Locale-aware collation by `localeCompare` is not modelled.
- Text.Lower: folds ASCII letters only. Unicode case mapping by `toLowerCase` is not modelled.
- ExpenseView.KeyCompare: dates are compared as ISO strings. `new Date(...).getTime()` and the `NaN` it gives for an invalid date are not modelled.
- ExpenseView.Sort: the order among records level on the sort key is not specified. JavaScript's sort is stable, and the reference insertion sort is not proved to match it on ties.
- ExpenseView.ToggleReversesView: proved only when no two records that match the filter share the sort key. With ties, a stable sort does not reverse the order of the tied records.
- The form's HTML validation (`required` on the description, the amount and the date at `src/App.tsx:154`, `171` and `203`, and `min="0.01"` and `step="0.01"` on the amount at `src/App.tsx:169-170`) is not modelled. It is browser behaviour. `HandleSubmit` models only the handler's own emptiness check, so the model also admits submits that a browser would block.
- `itemsPerPage` is never changed by the code, so there is no method for it.
