/** The whole screen as one sequential state machine: the app's screen
    state together with the input form's buffer, driven by user events.
    After each event the form's effect runs when its `visible` or
    `expense` input changed, as React does after a render. */
module Session {
  import opened Wrappers
  import opened Records
  import opened ExpenseStore
  import opened Text
  import opened ExpenseInput
  import opened App

  /** Screen state plus the form buffer. */
  datatype Session = Session(screen: ScreenState, form: Buffer)

  /** The first render: nothing stored, nothing open, a blank form. */
  const Start := Session(Initial, Cleared)

  /** What the user can do. List-item events carry the tapped record; a
      save carries the id `addExpense` will give a new record. */
  datatype Event =
    | AddButton
    | ItemPress(item: Expense)
    | ItemEdit(item: Expense)
    | ItemDelete(item: Expense)
    | NameTyped(text: string)
    | AmountTyped(text: string)
    | DescriptionTyped(text: string)
    | SavePress(newId: Id)
    | CancelPress
    | DetailClose
    | DetailEdit
    | DetailDelete

  /** Which of the three screens the user sees. */
  datatype Phase = Idle | Composing | Viewing

  function PhaseOf(s: ScreenState): Phase
  {
    if s.inputModalVisible then Composing
    else if s.detailModalVisible then Viewing
    else Idle
  }

  /** The form's effect after a transition from `before` to `after`: it
      runs only when one of its two inputs changed. The buffer is kept
      when neither changed and whenever the form ends up hidden; a form
      that opens or switches record is filled from it, or cleared. */
  function Rendered(before: ScreenState, after: ScreenState, buf: Buffer): (r: Session)
    ensures r.screen == after
    ensures (before.inputModalVisible == after.inputModalVisible
      && before.editingExpense == after.editingExpense) ==> r.form == buf
    ensures !after.inputModalVisible ==> r.form == buf
    ensures (after.inputModalVisible
      && (!before.inputModalVisible || before.editingExpense != after.editingExpense)) ==>
      r.form == (if after.editingExpense.Some? then FromRecord(after.editingExpense.value) else Cleared)
  {
    if before.inputModalVisible != after.inputModalVisible
      || before.editingExpense != after.editingExpense
    then Session(after, Sync(buf, after.inputModalVisible, after.editingExpense))
    else Session(after, buf)
  }

  /** One event, handled to completion. */
  function Step(sess: Session, ev: Event): Session
  {
    var s := sess.screen;
    match ev
    case AddButton => Rendered(s, PressAdd(s), sess.form)
    case ItemPress(e) => Rendered(s, HandleExpensePress(s, e), sess.form)
    case ItemEdit(e) => Rendered(s, HandleEdit(s, e), sess.form)
    case ItemDelete(e) => Rendered(s, DeleteExpense(s, e.id), sess.form)
    case NameTyped(text) => Session(s, sess.form.(name := text))
    case AmountTyped(text) => Session(s, sess.form.(amount := text))
    case DescriptionTyped(text) => Session(s, sess.form.(description := text))
    case SavePress(newId) =>
      var saved := HandleSave(sess.form, s.editingExpense);
      if saved.outcome.Err? then Session(s, saved.buffer)
      else Rendered(s, OnSave(s, saved.outcome.value, newId), saved.buffer)
    case CancelPress => Rendered(s, CloseForm(s), sess.form)
    case DetailClose => Rendered(s, CloseDetail(s), sess.form)
    case DetailEdit =>
      // the detail view renders nothing without a selection
      if s.selectedExpense.Some? then Rendered(s, EditFromDetail(s), sess.form) else sess
    case DetailDelete =>
      if s.selectedExpense.Some? then Rendered(s, DeleteFromDetail(s), sess.form) else sess
  }

  /** The events the visible screen offers. A modal covers the list, so
      while a modal is open only its own controls respond; list events
      name a record shown in the list; a new id is unused, standing in for
      the clock-derived id the app assumes unique. */
  predicate Enabled(sess: Session, ev: Event)
  {
    var s := sess.screen;
    match ev
    case AddButton => PhaseOf(s) == Idle
    case ItemPress(e) => PhaseOf(s) == Idle && e in s.expenses
    case ItemEdit(e) => PhaseOf(s) == Idle && e in s.expenses
    case ItemDelete(e) => PhaseOf(s) == Idle && e in s.expenses
    case NameTyped(_) => PhaseOf(s) == Composing
    case AmountTyped(_) => PhaseOf(s) == Composing
    case DescriptionTyped(_) => PhaseOf(s) == Composing
    case SavePress(newId) => PhaseOf(s) == Composing && newId !in Ids(s.expenses)
    case CancelPress => PhaseOf(s) == Composing
    case DetailClose => PhaseOf(s) == Viewing
    case DetailEdit => PhaseOf(s) == Viewing
    case DetailDelete => PhaseOf(s) == Viewing
  }

  /** What holds in every reachable screen state: ids are unique, at most
      one modal is open, the detail view has a record, the viewed record is
      in the list, and a record is edited only while the form is open and
      is in the list. */
  predicate ScreenInv(s: ScreenState)
  {
    && UniqueIds(s.expenses)
    && !(s.inputModalVisible && s.detailModalVisible)
    && (s.detailModalVisible ==> s.selectedExpense.Some?)
    && (s.selectedExpense.Some? ==> s.selectedExpense.value in s.expenses)
    && (s.editingExpense.Some? ==> s.inputModalVisible && s.editingExpense.value in s.expenses)
  }

  predicate Inv(sess: Session)
  {
    ScreenInv(sess.screen)
  }

  /** Deleting from the list or the detail view keeps the invariant. */
  lemma DeleteKeepsInv(s: ScreenState, id: Id)
    requires ScreenInv(s) && !s.inputModalVisible
    ensures ScreenInv(DeleteExpense(s, id))
  {
    RemoveKeepsIdsUnique(s.expenses, id);
  }

  /** Saving an edit of the edited record keeps the invariant: the viewed
      record is either the updated one or untouched by the update. */
  lemma UpdateKeepsInv(s: ScreenState, u: Expense)
    requires ScreenInv(s)
    requires s.editingExpense.Some? && s.editingExpense.value.id == u.id
    ensures ScreenInv(UpdateExpense(s, u))
  {
    var e := s.editingExpense.value;
    var i :| 0 <= i < |s.expenses| && s.expenses[i] == e;
    var t := UpdateExpense(s, u);
    ReplaceKeepsIdsUnique(s.expenses, u);
    assert t.expenses[i] == u;
    if s.selectedExpense.Some? && s.selectedExpense.value.id != u.id {
      var j :| 0 <= j < |s.expenses| && s.expenses[j] == s.selectedExpense.value;
      assert t.expenses[j] == s.expenses[j];
    }
  }

  /** Saving a new record under an unused id keeps the invariant. */
  lemma AddKeepsInv(s: ScreenState, d: Draft, newId: Id)
    requires ScreenInv(s) && newId !in Ids(s.expenses)
    requires s.editingExpense.None?
    ensures ScreenInv(AddExpense(s, d, newId))
  {
    AppendKeepsIdsUnique(s.expenses, d, newId);
    var t := AddExpense(s, d, newId);
    if s.selectedExpense.Some? {
      var i :| 0 <= i < |s.expenses| && s.expenses[i] == s.selectedExpense.value;
      assert t.expenses[i] == s.expenses[i];
    }
  }

  /** Every enabled event keeps the invariant. */
  lemma StepKeepsInv(sess: Session, ev: Event)
    requires Inv(sess) && Enabled(sess, ev)
    ensures Inv(Step(sess, ev))
  {
    var s := sess.screen;
    match ev
    case ItemDelete(e) =>
      DeleteKeepsInv(s, e.id);
    case DetailDelete =>
      DeleteKeepsInv(CloseDetail(s), s.selectedExpense.value.id);
    case SavePress(newId) =>
      var saved := HandleSave(sess.form, s.editingExpense);
      if saved.outcome.Ok? {
        var d := saved.outcome.value;
        if s.editingExpense.Some? {
          UpdateKeepsInv(s, Stamp(d, s.editingExpense.value.id));
        } else {
          AddKeepsInv(s, d, newId);
        }
      }
    case _ =>
  }

  /** Events applied in order. */
  function Run(sess: Session, evs: seq<Event>): Session
    decreases |evs|
  {
    if evs == [] then sess else Run(Step(sess, evs[0]), evs[1..])
  }

  /** Each event of the sequence is offered when its turn comes. */
  predicate ValidRun(sess: Session, evs: seq<Event>)
    decreases |evs|
  {
    evs == [] || (Enabled(sess, evs[0]) && ValidRun(Step(sess, evs[0]), evs[1..]))
  }

  /** Every state reachable from the first render by offered events
      satisfies the invariant; in particular ids stay unique. */
  lemma {:induction false} RunKeepsInv(sess: Session, evs: seq<Event>)
    requires Inv(sess) && ValidRun(sess, evs)
    ensures Inv(Run(sess, evs))
    ensures UniqueIds(Run(sess, evs).screen.expenses)
    decreases |evs|
  {
    if evs != [] {
      StepKeepsInv(sess, evs[0]);
      RunKeepsInv(Step(sess, evs[0]), evs[1..]);
    }
  }

  /** The first render satisfies the invariant. */
  lemma StartInv()
    ensures Inv(Start)
  {
  }

  /** The three-screen state machine: which events lead from which screen
      to which. */
  lemma PhaseTransitions(sess: Session, ev: Event)
    requires Inv(sess) && Enabled(sess, ev)
    ensures var p, q := PhaseOf(sess.screen), PhaseOf(Step(sess, ev).screen);
      && (ev.AddButton? || ev.ItemEdit? || ev.DetailEdit? ==> q == Composing)
      && (ev.ItemPress? ==> q == Viewing)
      && (ev.ItemDelete? || ev.CancelPress? || ev.DetailClose? || ev.DetailDelete? ==> q == Idle)
      && (ev.NameTyped? || ev.AmountTyped? || ev.DescriptionTyped? ==> q == p)
      && (ev.SavePress? ==>
            (q == Idle <==> HandleSave(sess.form, sess.screen.editingExpense).outcome.Ok?)
            && (q == Composing <==> HandleSave(sess.form, sess.screen.editingExpense).outcome.Err?))
  {
  }

  /** Opening the form fills it from the edited record, or clears it when
      adding. */
  lemma OpenFillsForm(sess: Session, ev: Event)
    requires Inv(sess) && Enabled(sess, ev)
    ensures ev.AddButton? ==> Step(sess, ev).form == Cleared
    ensures ev.ItemEdit? ==> Step(sess, ev).form == FromRecord(ev.item)
    ensures ev.DetailEdit? ==> Step(sess, ev).form == FromRecord(sess.screen.selectedExpense.value)
  {
  }

  /** A refused save changes nothing at all: no record is stored and the
      typed text stays for correction. */
  lemma RefusedSaveChangesNothing(sess: Session, newId: Id)
    requires PhaseOf(sess.screen) == Composing
    requires AllWhitespace(sess.form.name) || AllWhitespace(sess.form.amount)
    ensures Step(sess, SavePress(newId)) == sess
  {
  }

  /** An accepted save while adding appends exactly the typed record under
      the new id, closes the form and leaves it blank. */
  lemma AddSaveAppends(sess: Session, newId: Id)
    requires Inv(sess) && Enabled(sess, SavePress(newId))
    requires sess.screen.editingExpense.None?
    requires !AllWhitespace(sess.form.name) && !AllWhitespace(sess.form.amount)
    ensures var t := Step(sess, SavePress(newId));
      && t.screen.expenses
         == sess.screen.expenses + [Expense(newId, sess.form.name, sess.form.amount, sess.form.description)]
      && UniqueIds(t.screen.expenses)
      && t.form == Cleared && PhaseOf(t.screen) == Idle
  {
    var d := HandleSave(sess.form, None).outcome.value;
    AppendKeepsIdsUnique(sess.screen.expenses, d, newId);
  }

  /** An accepted save while editing the record at position `k` overwrites
      that position with the typed fields under the record's id; every
      other record and the length stay as they were. */
  lemma EditSaveReplaces(sess: Session, newId: Id, k: int)
    requires Inv(sess) && Enabled(sess, SavePress(newId))
    requires 0 <= k < |sess.screen.expenses|
    requires sess.screen.editingExpense == Some(sess.screen.expenses[k])
    requires !AllWhitespace(sess.form.name) && !AllWhitespace(sess.form.amount)
    ensures var t := Step(sess, SavePress(newId));
      var xs := sess.screen.expenses;
      && t.screen.expenses
         == xs[k := Expense(xs[k].id, sess.form.name, sess.form.amount, sess.form.description)]
      && t.form == Cleared && PhaseOf(t.screen) == Idle
  {
    var xs := sess.screen.expenses;
    var u := Expense(xs[k].id, sess.form.name, sess.form.amount, sess.form.description);
    ReplaceAt(xs, u, k);
  }

  /** Deleting a listed record, from the list or from its detail view,
      shortens the list by one and clears the selection if it was viewed. */
  lemma DeleteShortens(sess: Session, ev: Event)
    requires Inv(sess) && Enabled(sess, ev)
    requires ev.ItemDelete? || ev.DetailDelete?
    ensures |Step(sess, ev).screen.expenses| == |sess.screen.expenses| - 1
    ensures ev.DetailDelete? ==> Step(sess, ev).screen.selectedExpense == None
  {
    var xs := sess.screen.expenses;
    var e := if ev.ItemDelete? then ev.item else sess.screen.selectedExpense.value;
    var k :| 0 <= k < |xs| && xs[k] == e;
    RemoveAt(xs, k);
  }

  /** Editing the amount of the record at position `k` from the list and
      saving changes exactly that record's amount. */
  lemma EditAmountFlow(sess: Session, k: int, amount: string, newId: Id)
    requires Inv(sess) && PhaseOf(sess.screen) == Idle
    requires 0 <= k < |sess.screen.expenses|
    requires !AllWhitespace(sess.screen.expenses[k].name) && !AllWhitespace(amount)
    requires newId !in Ids(sess.screen.expenses)
    ensures var xs := sess.screen.expenses;
      Step(Step(Step(sess, ItemEdit(xs[k])), AmountTyped(amount)), SavePress(newId)).screen.expenses
      == xs[k := xs[k].(amount := amount)]
  {
    var xs := sess.screen.expenses;
    var s1 := Step(sess, ItemEdit(xs[k]));
    EditOpensForm(sess, xs[k]);
    var s2 := Step(s1, AmountTyped(amount));
    TypingEditsBuffer(s1, AmountTyped(amount));
    EditSaveReplaces(s2, newId, k);
  }

  /** Typing changes only the typed field of the buffer. */
  lemma TypingEditsBuffer(sess: Session, ev: Event)
    requires ev.NameTyped? || ev.AmountTyped? || ev.DescriptionTyped?
    ensures Step(sess, ev).screen == sess.screen
    ensures ev.NameTyped? ==> Step(sess, ev).form == sess.form.(name := ev.text)
    ensures ev.AmountTyped? ==> Step(sess, ev).form == sess.form.(amount := ev.text)
    ensures ev.DescriptionTyped? ==> Step(sess, ev).form == sess.form.(description := ev.text)
  {
  }

  /** Editing a listed record from the list opens the form on it, filled
      with its fields, and keeps the invariant. */
  lemma EditOpensForm(sess: Session, e: Expense)
    requires Inv(sess) && PhaseOf(sess.screen) == Idle && e in sess.screen.expenses
    ensures var t := Step(sess, ItemEdit(e));
      && Inv(t) && t.screen == HandleEdit(sess.screen, e)
      && t.form == Buffer(e.name, e.amount, e.description)
  {
    StepKeepsInv(sess, ItemEdit(e));
  }

  /** Pressing "+", typing a name and an amount and saving appends exactly
      that record, with an empty description, under the new id. */
  lemma AddFlow(sess: Session, name: string, amount: string, newId: Id)
    requires Inv(sess) && PhaseOf(sess.screen) == Idle
    requires !AllWhitespace(name) && !AllWhitespace(amount)
    requires newId !in Ids(sess.screen.expenses)
    ensures Step(Step(Step(Step(sess, AddButton), NameTyped(name)), AmountTyped(amount)), SavePress(newId))
      .screen.expenses == sess.screen.expenses + [Expense(newId, name, amount, "")]
  {
    var s1 := Step(sess, AddButton);
    StepKeepsInv(sess, AddButton);
    assert s1.form == Cleared;
    var s2 := Step(s1, NameTyped(name));
    assert s2.screen == s1.screen;
    var s3 := Step(s2, AmountTyped(amount));
    assert s3.screen == s1.screen;
    assert s3.form == Buffer(name, amount, "");
    AddSaveAppends(s3, newId);
  }
}
