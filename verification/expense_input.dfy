/** The input form: a three-field text buffer, the effect that fills or
    clears it when the form opens, and the save-time validation that turns
    the buffer into a draft for the screen's `onSave` callback. */
module ExpenseInput {
  import opened Wrappers
  import opened Records
  import opened Text

  /** The form's `name`, `amount` and `description` state. */
  datatype Buffer = Buffer(name: string, amount: string, description: string)

  /** `clearForm()`: all three fields blank. */
  const Cleared := Buffer("", "", "")

  /** The buffer holding a record's fields for editing. The record's amount
      is already text, so `amount.toString()` gives it back unchanged:
      saving the filled buffer at once gives back the record's own draft,
      or the refusal the record's own blank name or amount calls for. */
  function FromRecord(e: Expense): (b: Buffer)
    ensures !AllWhitespace(e.name) && !AllWhitespace(e.amount) ==>
      HandleSave(b, Some(e)).outcome == Ok(DraftOf(e))
    ensures AllWhitespace(e.name) ==> HandleSave(b, Some(e)).outcome == Err(MissingName)
    ensures !AllWhitespace(e.name) && AllWhitespace(e.amount) ==>
      HandleSave(b, Some(e)).outcome == Err(MissingAmount)
  {
    Buffer(e.name, e.amount, e.description)
  }

  /** The effect run when `visible` or `expense` changes: fill the buffer
      from the expense when the form is shown for editing, clear it when
      shown for adding, and leave it alone while hidden. */
  function Sync(buf: Buffer, visible: bool, expense: Option<Expense>): (b: Buffer)
    ensures visible && expense.Some? ==> b == FromRecord(expense.value)
    ensures visible && expense.None? ==> b == Cleared
    ensures !visible ==> b == buf
  {
    if expense.Some? && visible then FromRecord(expense.value)
    else if visible then Cleared
    else buf
  }

  /** Why a save was refused; the app shows the matching `alert`. */
  datatype SaveError = MissingName | MissingAmount

  /** The outcome of pressing Save: the draft handed to `onSave` (or the
      refusal) together with the buffer afterwards. */
  datatype Saved = Saved(outcome: Result<Draft, SaveError>, buffer: Buffer)

  /** `handleSave()`: refuse a blank name, then a blank amount, leaving the
      buffer as typed; otherwise hand over the untrimmed fields, with the
      edited expense's id when editing, and clear the buffer. */
  function HandleSave(buf: Buffer, expense: Option<Expense>): (r: Saved)
    ensures r.outcome == Err(MissingName) <==> AllWhitespace(buf.name)
    ensures r.outcome == Err(MissingAmount) <==> !AllWhitespace(buf.name) && AllWhitespace(buf.amount)
    ensures r.outcome.Err? ==> r.buffer == buf
    ensures r.outcome.Ok? ==> r.buffer == Cleared
    ensures r.outcome.Ok? ==>
      && r.outcome.value.name == buf.name
      && r.outcome.value.amount == buf.amount
      && r.outcome.value.description == buf.description
    ensures r.outcome.Ok? ==> (r.outcome.value.id.Some? <==> expense.Some?)
    ensures r.outcome.Ok? && expense.Some? ==> r.outcome.value.id == Some(expense.value.id)
  {
    TrimEmptyIff(buf.name);
    TrimEmptyIff(buf.amount);
    if Trim(buf.name) == "" then Saved(Err(MissingName), buf)
    else if Trim(buf.amount) == "" then Saved(Err(MissingAmount), buf)
    else
      var id := if expense.Some? then Some(expense.value.id) else None;
      Saved(Ok(Draft(id, buf.name, buf.amount, buf.description)), Cleared)
  }

  /** The draft a record yields when saved without changes. */
  function DraftOf(e: Expense): Draft
  {
    Draft(Some(e.id), e.name, e.amount, e.description)
  }

  /** Opening the form on a record and saving at once gives back that
      record's draft, and stamping the draft with its id restores the
      record. */
  lemma EditRoundTrip(buf: Buffer, e: Expense)
    requires !AllWhitespace(e.name) && !AllWhitespace(e.amount)
    ensures HandleSave(Sync(buf, true, Some(e)), Some(e)).outcome == Ok(DraftOf(e))
    ensures Stamp(DraftOf(e), e.id) == e
  {
  }

  /** A refused save changes nothing, so saving again is refused the same
      way. */
  lemma RefusalIsStable(buf: Buffer, expense: Option<Expense>)
    requires AllWhitespace(buf.name) || AllWhitespace(buf.amount)
    ensures HandleSave(buf, expense).outcome.Err?
    ensures HandleSave(HandleSave(buf, expense).buffer, expense) == HandleSave(buf, expense)
  {
  }

  /** After a successful save the buffer is blank, so a second save is
      refused for the missing name. */
  lemma SaveTwiceIsRefused(buf: Buffer, expense: Option<Expense>)
    requires !AllWhitespace(buf.name) && !AllWhitespace(buf.amount)
    ensures HandleSave(buf, expense).outcome.Ok?
    ensures HandleSave(HandleSave(buf, expense).buffer, expense).outcome == Err(MissingName)
  {
  }
}
