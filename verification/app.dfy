/** The screen state of the app and its handlers: the expense list, the
    two modal flags, the record being edited and the record being viewed.
    Each handler is one atomic transition from state to state. */
module App {
  import opened Wrappers
  import opened Records
  import opened ExpenseStore

  /** The five pieces of screen state. */
  datatype ScreenState = ScreenState(
    expenses: seq<Expense>,
    inputModalVisible: bool,
    detailModalVisible: bool,
    editingExpense: Option<Expense>,
    selectedExpense: Option<Expense>)

  /** The state on first render. */
  const Initial := ScreenState([], false, false, None, None)

  /** The viewed record has the given id. */
  predicate SelectedHas(s: ScreenState, id: Id)
  {
    s.selectedExpense.Some? && s.selectedExpense.value.id == id
  }

  /** `addExpense(draft)`: append the draft under a new id and close the
      form. The app takes the id from the clock; here it is supplied. */
  function AddExpense(s: ScreenState, d: Draft, newId: Id): (t: ScreenState)
    ensures |t.expenses| == |s.expenses| + 1
    ensures t.expenses[..|s.expenses|] == s.expenses
    ensures t.expenses[|s.expenses|] == Expense(newId, d.name, d.amount, d.description)
    ensures !t.inputModalVisible
    ensures t.detailModalVisible == s.detailModalVisible
    ensures t.editingExpense == s.editingExpense && t.selectedExpense == s.selectedExpense
  {
    s.(expenses := Append(s.expenses, d, newId), inputModalVisible := false)
  }

  /** `updateExpense(u)`: replace every entry carrying `u`'s id by `u` in
      place, close the form, stop editing, and refresh the viewed record
      when it is the one updated. */
  function UpdateExpense(s: ScreenState, u: Expense): (t: ScreenState)
    ensures |t.expenses| == |s.expenses|
    ensures forall i :: 0 <= i < |s.expenses| && s.expenses[i].id == u.id ==> t.expenses[i] == u
    ensures forall i :: 0 <= i < |s.expenses| && s.expenses[i].id != u.id ==> t.expenses[i] == s.expenses[i]
    ensures !t.inputModalVisible && t.editingExpense == None
    ensures t.detailModalVisible == s.detailModalVisible
    ensures SelectedHas(s, u.id) ==> t.selectedExpense == Some(u)
    ensures !SelectedHas(s, u.id) ==> t.selectedExpense == s.selectedExpense
  {
    var selected := if SelectedHas(s, u.id) then Some(u) else s.selectedExpense;
    s.(expenses := Replace(s.expenses, u), inputModalVisible := false,
       editingExpense := None, selectedExpense := selected)
  }

  /** `deleteExpense(id)`: drop every entry with that id; when the viewed
      record has that id, close the detail view and clear the selection. */
  function DeleteExpense(s: ScreenState, id: Id): (t: ScreenState)
    ensures forall x :: x in t.expenses <==> x in s.expenses && x.id != id
    ensures SelectedHas(s, id) ==> !t.detailModalVisible && t.selectedExpense == None
    ensures !SelectedHas(s, id) ==>
      t.detailModalVisible == s.detailModalVisible && t.selectedExpense == s.selectedExpense
    ensures t.inputModalVisible == s.inputModalVisible && t.editingExpense == s.editingExpense
  {
    var t := s.(expenses := Remove(s.expenses, id));
    if SelectedHas(s, id) then t.(detailModalVisible := false, selectedExpense := None) else t
  }

  /** `handleEdit(e)`: open the form on `e`. */
  function HandleEdit(s: ScreenState, e: Expense): (t: ScreenState)
    ensures t.inputModalVisible && t.editingExpense == Some(e)
    ensures t.expenses == s.expenses && t.detailModalVisible == s.detailModalVisible
    ensures t.selectedExpense == s.selectedExpense
  {
    s.(editingExpense := Some(e), inputModalVisible := true)
  }

  /** `handleExpensePress(e)`: open the detail view on `e`. */
  function HandleExpensePress(s: ScreenState, e: Expense): (t: ScreenState)
    ensures t.detailModalVisible && t.selectedExpense == Some(e)
    ensures t.expenses == s.expenses && t.inputModalVisible == s.inputModalVisible
    ensures t.editingExpense == s.editingExpense
  {
    s.(selectedExpense := Some(e), detailModalVisible := true)
  }

  /** The "+" button: open the form with nothing being edited. */
  function PressAdd(s: ScreenState): (t: ScreenState)
    ensures t.inputModalVisible && t.editingExpense == None
    ensures t.expenses == s.expenses && t.detailModalVisible == s.detailModalVisible
    ensures t.selectedExpense == s.selectedExpense
  {
    s.(editingExpense := None, inputModalVisible := true)
  }

  /** The form's `onClose` (Cancel): hide the form and stop editing. */
  function CloseForm(s: ScreenState): (t: ScreenState)
    ensures !t.inputModalVisible && t.editingExpense == None
    ensures t.expenses == s.expenses && t.detailModalVisible == s.detailModalVisible
    ensures t.selectedExpense == s.selectedExpense
  {
    s.(inputModalVisible := false, editingExpense := None)
  }

  /** The detail view's `onClose`: hide it, keeping the selection. */
  function CloseDetail(s: ScreenState): (t: ScreenState)
    ensures !t.detailModalVisible
    ensures t.expenses == s.expenses && t.inputModalVisible == s.inputModalVisible
    ensures t.editingExpense == s.editingExpense && t.selectedExpense == s.selectedExpense
  {
    s.(detailModalVisible := false)
  }

  /** The form's `onSave`: `updateExpense` while a record is being edited,
      `addExpense` otherwise. A draft without an id matches no entry in
      `updateExpense`, so on that route it only closes the form. */
  function OnSave(s: ScreenState, d: Draft, newId: Id): (t: ScreenState)
    ensures s.editingExpense.None? ==> t == AddExpense(s, d, newId)
    ensures s.editingExpense.Some? && d.id.Some? ==> t == UpdateExpense(s, Stamp(d, d.id.value))
  {
    if s.editingExpense.Some? then
      match d.id
      case Some(id) => UpdateExpense(s, Stamp(d, id))
      case None => CloseForm(s)
    else AddExpense(s, d, newId)
  }

  /** The detail view's Edit button: close the view, then edit the viewed
      record. The view renders nothing without a selection, so the button
      exists only when one is set. */
  function EditFromDetail(s: ScreenState): (t: ScreenState)
    requires s.selectedExpense.Some?
    ensures !t.detailModalVisible && t.inputModalVisible
    ensures t.editingExpense == s.selectedExpense && t.selectedExpense == s.selectedExpense
    ensures t.expenses == s.expenses
  {
    HandleEdit(CloseDetail(s), s.selectedExpense.value)
  }

  /** The detail view's Delete button: close the view, then delete the
      viewed record, which also clears the selection. */
  function DeleteFromDetail(s: ScreenState): (t: ScreenState)
    requires s.selectedExpense.Some?
    ensures !t.detailModalVisible && t.selectedExpense == None
    ensures forall x :: x in t.expenses <==> x in s.expenses && x.id != s.selectedExpense.value.id
    ensures t.inputModalVisible == s.inputModalVisible && t.editingExpense == s.editingExpense
  {
    DeleteExpense(CloseDetail(s), s.selectedExpense.value.id)
  }

  /** The displayed total, for a given reading of amount text as a number. */
  function TotalExpenses(s: ScreenState, value: string -> real): real
  {
    Total(s.expenses, value)
  }

  // ----- Properties relating the handlers -----

  /** The "+" button always routes the next save to `addExpense`. */
  lemma PressAddRoutesToAdd(s: ScreenState, d: Draft, newId: Id)
    ensures OnSave(PressAdd(s), d, newId) == AddExpense(PressAdd(s), d, newId)
  {
  }

  /** With unique ids, updating the record at position `k` overwrites
      exactly that position and adjusts the total by the difference. */
  lemma UpdateInPlace(s: ScreenState, u: Expense, k: int, value: string -> real)
    requires UniqueIds(s.expenses)
    requires 0 <= k < |s.expenses| && s.expenses[k].id == u.id
    ensures UpdateExpense(s, u).expenses == s.expenses[k := u]
    ensures TotalExpenses(UpdateExpense(s, u), value)
         == TotalExpenses(s, value) - Contribution(value, s.expenses[k]) + Contribution(value, u)
  {
    ReplaceAt(s.expenses, u, k);
    TotalReplaceAt(s.expenses, u, k, value);
  }

  /** Updating an id that is not in the list leaves the list unchanged. */
  lemma UpdateAbsent(s: ScreenState, u: Expense)
    requires u.id !in Ids(s.expenses)
    ensures UpdateExpense(s, u).expenses == s.expenses
  {
    ReplaceAbsent(s.expenses, u);
  }

  /** With unique ids, deleting the record at position `k` removes exactly
      it, keeps the others in order, and subtracts its amount. */
  lemma DeleteAt(s: ScreenState, k: int, value: string -> real)
    requires UniqueIds(s.expenses)
    requires 0 <= k < |s.expenses|
    ensures DeleteExpense(s, s.expenses[k].id).expenses == s.expenses[..k] + s.expenses[k + 1..]
    ensures TotalExpenses(DeleteExpense(s, s.expenses[k].id), value)
         == TotalExpenses(s, value) - Contribution(value, s.expenses[k])
  {
    RemoveAt(s.expenses, k);
    TotalRemoveAt(s.expenses, k, value);
  }

  /** Deleting an absent id leaves the list unchanged, and deleting twice
      is deleting once. */
  lemma DeleteIdempotent(s: ScreenState, id: Id)
    ensures id !in Ids(s.expenses) ==> DeleteExpense(s, id).expenses == s.expenses
    ensures DeleteExpense(DeleteExpense(s, id), id).expenses == DeleteExpense(s, id).expenses
  {
    if id !in Ids(s.expenses) {
      RemoveAbsent(s.expenses, id);
    }
    RemoveIdempotent(s.expenses, id);
  }

  /** Adding appends one record and adds its amount to the total; the total
      of the first screen is 0. */
  lemma AddTotal(s: ScreenState, d: Draft, newId: Id, value: string -> real)
    ensures TotalExpenses(Initial, value) == 0.0
    ensures TotalExpenses(AddExpense(s, d, newId), value)
         == TotalExpenses(s, value) + Contribution(value, Stamp(d, newId))
  {
    TotalAppend(s.expenses, d, newId, value);
  }
}
