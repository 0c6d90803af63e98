/** The tracker component's state and its event handlers. */
module Tracker {
  import opened Text
  import opened Expenses
  import opened ExpenseView

  /** The component state. `editingId` is the empty string when no record is
      being edited: the handlers only test it for truthiness, under which an
      empty id and no id behave alike. */
  class App {
    var expenses: seq<Expense>
    var description: string
    var amount: string
    var category: string
    var date: string
    var paymentMethod: string
    var filter: string
    var sortBy: string
    var sortOrder: Order
    var editingId: string
    var showAllExpenses: bool
    var itemsPerPage: int

    /** The initial state, given the list read from local storage (empty
        when nothing was stored) and today's date. */
    constructor(saved: seq<Expense>, today: string)
      ensures expenses == saved
      ensures description == "" && amount == "" && category == Categories[0]
      ensures date == today && paymentMethod == PaymentMethods[0]
      ensures filter == "" && sortBy == "date" && sortOrder == Desc
      ensures editingId == "" && showAllExpenses && itemsPerPage == 5
    {
      expenses := saved;
      description := "";
      amount := "";
      category := Categories[0];
      date := today;
      paymentMethod := PaymentMethods[0];
      filter := "";
      sortBy := "date";
      sortOrder := Desc;
      editingId := "";
      showAllExpenses := true;
      itemsPerPage := 5;
    }

    /** The form is back at its defaults, with `today` as the date. */
    ghost predicate FormReset(today: string)
      reads this
    {
      && description == "" && amount == "" && category == Categories[0]
      && date == today && paymentMethod == PaymentMethods[0]
    }

    /** Submitting the form. Without a description or an amount nothing
        happens. Otherwise the form becomes a record: when a record is being
        edited, every record with its id is replaced and the edit ends;
        otherwise the record is appended under `newId`, the timestamp the
        component takes from `Date.now()`. The form is then reset. */
    method HandleSubmit(newId: string, today: string)
      modifies this`expenses, this`editingId, this`description, this`amount
      modifies this`category, this`date, this`paymentMethod
      ensures old(description) == "" || old(amount) == "" ==> unchanged(this)
      ensures old(description) != "" && old(amount) != "" ==>
        var id := if old(editingId) != "" then old(editingId) else newId;
        var e := FormRecord(id, old(description), old(amount), old(category), old(date), old(paymentMethod));
        && (old(editingId) != "" ==> expenses == ReplaceById(old(expenses), old(editingId), e))
        && (old(editingId) == "" ==> expenses == old(expenses) + [e])
        && editingId == ""
        && FormReset(today)
      ensures UniqueIds(old(expenses)) && (old(editingId) != "" || newId !in Ids(old(expenses)))
        ==> UniqueIds(expenses)
    {
      if description == "" || amount == "" {
        return;
      }
      var id := if editingId != "" then editingId else newId;
      var e := FormRecord(id, description, amount, category, date, paymentMethod);
      var next := if editingId != "" then ReplaceById(expenses, editingId, e) else expenses + [e];
      if UniqueIds(expenses) && (editingId != "" || newId !in Ids(expenses)) {
        SaveKeepsUnique(expenses, editingId, newId, e);
      }
      expenses := next;
      editingId := "";
      description := "";
      amount := "";
      category := Categories[0];
      date := today;
      paymentMethod := PaymentMethods[0];
    }

    /** Loads a record into the form and marks it as the one being edited;
        a record without a payment method gets the first one. */
    method StartEditing(e: Expense)
      modifies this`editingId, this`description, this`amount
      modifies this`category, this`date, this`paymentMethod
      ensures editingId == e.id && description == e.description
      ensures amount == IntText(e.amount) && ParseNumber(amount) == e.amount
      ensures category == e.category && date == e.date
      ensures paymentMethod == PaymentOrDefault(e.paymentMethod)
    {
      ParseIntText(e.amount);
      editingId := e.id;
      description := e.description;
      amount := IntText(e.amount);
      category := e.category;
      date := e.date;
      paymentMethod := PaymentOrDefault(e.paymentMethod);
    }

    /** Removes every record carrying `id`; the form and the edit marker are
        left as they are. */
    method DeleteExpense(id: string)
      modifies this`expenses
      ensures expenses == WithoutId(old(expenses), id)
      ensures UniqueIds(old(expenses)) ==> UniqueIds(expenses)
    {
      expenses := WithoutId(expenses, id);
      UniqueIdsSubsequence(old(expenses), expenses);
    }

    /** Clicking a sortable column header: the current column flips the
        order, another column becomes the sort column, descending. */
    method ToggleSort(field: string)
      modifies this`sortBy, this`sortOrder
      ensures sortBy == field
      ensures old(sortBy) == field ==> sortOrder == Flip(old(sortOrder))
      ensures old(sortBy) != field ==> sortOrder == Desc
    {
      if sortBy == field {
        sortOrder := if sortOrder == Asc then Desc else Asc;
      } else {
        sortBy := field;
        sortOrder := Desc;
      }
    }

    /** The "Show All" / "Show Less" button. */
    method ToggleShowAll()
      modifies this`showAllExpenses
      ensures showAllExpenses == !old(showAllExpenses)
    {
      showAllExpenses := !showAllExpenses;
    }

    /** `displayedExpenses`: the records of the list that match the filter,
        in sort order, cut to the page unless everything is shown. */
    function DisplayedExpenses(): (r: seq<Expense>)
      reads this
      ensures forall i :: 0 <= i < |r| ==> r[i] in expenses && Matches(filter, r[i])
      ensures SortedBy(r, sortBy, sortOrder)
      ensures showAllExpenses ==>
        forall x :: multiset(r)[x] == if Matches(filter, x) then multiset(expenses)[x] else 0
      ensures !showAllExpenses && 0 <= itemsPerPage ==> |r| <= itemsPerPage
      ensures r <= FilteredExpenses(expenses, filter, sortBy, sortOrder)
      ensures showAllExpenses ==> r == FilteredExpenses(expenses, filter, sortBy, sortOrder)
      ensures !showAllExpenses && 0 <= itemsPerPage ==>
        var v := FilteredExpenses(expenses, filter, sortBy, sortOrder);
        |r| == if itemsPerPage < |v| then itemsPerPage else |v|
    {
      var v := FilteredExpenses(expenses, filter, sortBy, sortOrder);
      ViewMembers(expenses, filter, sortBy, sortOrder);
      Page(v, showAllExpenses, itemsPerPage)
    }
  }
}
