# Expense tracker screen, modelled in Dafny

The app is a single React Native screen that keeps a list of expenses in
memory. Each expense has an id, a name, an amount and a description. The
screen shows a running total. A form modal adds or edits an expense, and a
detail modal views one, with Edit and Delete buttons. Nothing is persisted.

The model follows the app's structure:

- `wrappers.dfy` (`Wrappers`): `Option` for the app's `null` references, and `Result` for the form's `alert` refusals.
- `records.dfy` (`Records`): the stored `Expense`, the form's `Draft`, and unique ids.
- `store.dfy` (`ExpenseStore`): the list operations of `App.js`. These are append, replace-by-id (`map`), remove-by-id (`filter`) and the `reduce` total.
- `text.dfy` (`Text`): `String.prototype.trim`, using the ECMAScript WhiteSpace and LineTerminator code points.
- `expense_input.dfy` (`ExpenseInput`): the form buffer of `component/ExpenseInput.js`. It covers the fill/clear effect and `handleSave`'s validation and draft.
- `app.dfy` (`App`): the screen state of `App.js` and its handlers, each a pure transition, including the detail view's composed Edit and Delete buttons.
- `session.dfy` (`Session`): screen state plus form buffer as one event machine. The form effect runs when its inputs change. `Enabled` gives the events the visible screen offers, and an invariant holds in every reachable state.

Ids come from `Date.now()` in the app. In the model the caller supplies
the id and must show it is unused. The total uses a caller-supplied reading
`value` of the amount text in place of `parseFloat`. An empty amount
contributes 0, as `amount || 0` makes it.

## Model

| member | source | states |
|---|---|---|
| ExpenseStore.Append | App.js:33-40 | the new list is the old list followed by exactly one record carrying the draft's fields under the new id |
| ExpenseStore.AppendKeepsIdsUnique | App.js:34-37 | an unused id keeps ids unique, and the id set grows by exactly that id |
| ExpenseStore.Replace | App.js:46-50 | same length; each position holds the update where its id matched and is unchanged otherwise; ids stay position by position |
| ExpenseStore.ReplaceAt | App.js:46-50 | with unique ids, updating a present id overwrites exactly the position holding it (`xs[k := u]`) |
| ExpenseStore.ReplaceAbsent | App.js:46-50 | updating an id not in the list leaves the list unchanged |
| ExpenseStore.ReplaceKeepsIdsUnique | App.js:46-50 | an update keeps the id set and the uniqueness of ids |
| ExpenseStore.Remove | App.js:62 | a record survives exactly when it was in the list and its id differs; the list never grows |
| ExpenseStore.RemoveConcat | App.js:62 | removal distributes over concatenation, so survivors keep their relative order |
| ExpenseStore.RemoveAbsent | App.js:62 | removing an absent id leaves the list unchanged |
| ExpenseStore.RemovedIdsGone | App.js:62 | the surviving ids are the old ids minus the removed one |
| ExpenseStore.RemoveIdempotent | App.js:62 | removing twice equals removing once |
| ExpenseStore.RemoveAt | App.js:62 | with unique ids, removing the id at position k yields `xs[..k] + xs[k+1..]`, one shorter |
| ExpenseStore.RemoveKeepsIdsUnique | App.js:62 | removal keeps ids unique |
| ExpenseStore.TotalConcat | App.js:84-87 | the total of a concatenation is the sum of the totals |
| ExpenseStore.TotalAppend | App.js:84-87 | the empty total is 0, and appending adds the new record's contribution |
| ExpenseStore.TotalRemoveAt | App.js:84-87 | with unique ids, deleting the record at k subtracts its contribution |
| ExpenseStore.TotalReplaceAt | App.js:84-87 | with unique ids, updating the record at k swaps its contribution for the update's |
| Text.TrimStart | component/ExpenseInput.js:43 | the result is the longest suffix not starting with whitespace, and only whitespace was dropped |
| Text.TrimEnd | component/ExpenseInput.js:43 | the result is the longest prefix not ending with whitespace, and only whitespace was dropped |
| Text.TrimEmptyIff | component/ExpenseInput.js:43-51 | `s.trim() === ""` holds exactly when every character of s is whitespace |
| Text.TrimEnds | component/ExpenseInput.js:43 | the trimmed text neither starts nor ends with whitespace |
| ExpenseInput.FromRecord | component/ExpenseInput.js:24-26 | saving the buffer filled from a record gives back that record's draft (id included) when its name and amount are not blank, and the matching refusal otherwise |
| ExpenseInput.Sync | component/ExpenseInput.js:20-31 | visible with an expense fills from it; visible without one clears; hidden leaves the buffer untouched |
| ExpenseInput.HandleSave | component/ExpenseInput.js:41-70 | a blank name is refused first, then a blank amount, with the buffer unchanged; on success the draft holds the untrimmed fields, has an id iff an expense is edited (that expense's id), and the buffer is cleared |
| ExpenseInput.EditRoundTrip | component/ExpenseInput.js:20-63 | opening the form on a record and saving at once yields that record's draft, which restamped is the record |
| ExpenseInput.RefusalIsStable | component/ExpenseInput.js:43-51 | a blank name or amount is refused, and the unchanged buffer makes a repeated save refused identically |
| ExpenseInput.SaveTwiceIsRefused | component/ExpenseInput.js:43-69 | a non-blank name and amount are accepted, and the cleared buffer makes the next save fail for the name |
| App.AddExpense | App.js:33-42 | one record with the draft's fields and the new id is appended after the unchanged old list; the form closes; nothing else changes |
| App.UpdateExpense | App.js:45-58 | entries with the update's id become it, others stay, length kept; form closed and editing cleared; the viewed record is replaced only if it has the updated id |
| App.DeleteExpense | App.js:61-69 | survivors are exactly the other-id records; when the viewed record has the id, the detail view closes and the selection clears, otherwise both are untouched |
| App.HandleEdit | App.js:72-75 | the form opens on the given record; list, detail view and selection are untouched |
| App.HandleExpensePress | App.js:78-81 | the detail view opens on the given record; list, form and editing are untouched |
| App.PressAdd | App.js:120-123 | the form opens with nothing being edited |
| App.CloseForm | App.js:130-133 | the form closes and editing clears; nothing else changes |
| App.CloseDetail | App.js:141 | the detail view closes and the selection is kept |
| App.OnSave | App.js:134 | a save routes to the update while a record is edited and to the add otherwise |
| App.EditFromDetail | component/ExpenseDetail.js:74-79 | the detail view closes and the form opens on the viewed record |
| App.DeleteFromDetail | component/ExpenseDetail.js:84-89 | the detail view closes, the viewed record's id is removed and the selection clears |
| App.PressAddRoutesToAdd | App.js:120-134 | after the "+" button, a save always takes the add route |
| App.UpdateInPlace | App.js:45-57 | with unique ids, the update overwrites exactly the matching position and shifts the total by the difference |
| App.UpdateAbsent | App.js:46-50 | an update of an unknown id leaves the list unchanged |
| App.DeleteAt | App.js:61-62 | with unique ids, deleting position k removes exactly it, keeps order, and subtracts its amount from the total |
| App.DeleteIdempotent | App.js:61-62 | deleting an absent id changes no list; deleting twice is deleting once |
| App.AddTotal | App.js:84-87 | the first screen's total is 0, and adding a record adds its contribution |
| Session.Rendered | component/ExpenseInput.js:20-31 | the screen is the transition's result; the buffer is kept when neither `visible` nor `expense` changed and whenever the form ends hidden; opening or switching record fills it from the record, or clears it when adding |
| ExpenseStore.Total | App.js:84-87 | no contract of its own: the left fold of `Contribution`, characterised by TotalConcat, TotalAppend, TotalRemoveAt and TotalReplaceAt |
| ExpenseStore.Contribution | App.js:85 | no contract of its own: `parseFloat` of the amount, or of 0 when the amount is the falsy empty string; used by the total lemmas |
| Text.Trim | component/ExpenseInput.js:43-48 | no contract of its own: `trim()` as TrimEnd after TrimStart, characterised by TrimEmptyIff and TrimEnds |
| Records.Stamp | App.js:35-38 | no contract of its own: `{...expense, id}`, characterised by Append's last element and EditRoundTrip |
| App.TotalExpenses | App.js:84-87 | no contract of its own: the displayed total of the screen's list, characterised by AddTotal, UpdateInPlace and DeleteAt |
| Session.Step | App.js:106-144 | no contract of its own: the wiring of every event to its handler, characterised by StepKeepsInv, PhaseTransitions, OpenFillsForm and the save and delete lemmas |
| Session.Enabled | App.js:89-144 | no contract of its own: the events the visible screen offers (one modal's controls at a time, listed items, unused new ids), the hypothesis of StepKeepsInv and RunKeepsInv |
| Session.DeleteKeepsInv | App.js:61-69 | a delete keeps the screen invariant |
| Session.UpdateKeepsInv | App.js:45-58 | saving an edit keeps the screen invariant, including that the viewed record is listed |
| Session.AddKeepsInv | App.js:33-42 | adding under an unused id keeps the screen invariant |
| Session.StepKeepsInv | App.js:33-144 | every offered event keeps the invariant: unique ids, at most one modal, the viewed and edited records are listed |
| Session.RunKeepsInv | App.js:33-144 | every state reached by offered events keeps the invariant, in particular unique ids |
| Session.StartInv | App.js:18-30 | the first render satisfies the invariant |
| Session.PhaseTransitions | App.js:118-144 | the Idle/Composing/Viewing machine: add or edit opens the form, pressing an item opens the view, a close or delete returns to Idle, and a save leaves the form exactly when accepted |
| Session.OpenFillsForm | component/ExpenseInput.js:20-31 | "+" shows a blank form; editing from the list or the detail view shows the record's fields |
| Session.RefusedSaveChangesNothing | component/ExpenseInput.js:43-51 | a save with a blank name or amount changes neither the list, the screen nor the buffer |
| Session.AddSaveAppends | component/ExpenseInput.js:54-69 | an accepted add appends exactly the typed record under the new id, ids stay unique, and the form is closed and blank |
| Session.EditSaveReplaces | component/ExpenseInput.js:54-69 | an accepted edit of position k overwrites that position with the typed fields under its id, and the form is closed and blank |
| Session.DeleteShortens | App.js:61-68 | deleting a listed record shortens the list by one; deleting from the view clears the selection |
| Session.EditAmountFlow | App.js:72-75 | edit a listed record, type an amount, save: only that record's amount changes |
| Session.EditOpensForm | App.js:72-75 | editing a listed record opens the form on it, fills the buffer with its fields and keeps the invariant |
| Session.TypingEditsBuffer | component/ExpenseInput.js:91-121 | typing into a field changes only that buffer field and nothing on the screen |
| Session.AddFlow | App.js:120-123 | "+", name, amount, save: exactly that record is appended, with an empty description |

## Left out

- Rendering, styles, `Modal`/`FlatList`/`TouchableOpacity` widgets, keyboard dismissal: presentation only. The blocking effect of an open modal is modelled by `Session.Enabled`, which assumes a modal takes every touch while it is open.
- `component/ExpenseItem.js` is not part of this model: it is presentation and `toFixed(2)` formatting.
- The date formatting of `component/ExpenseDetail.js` (`getDateFromId`) depends on the clock and the locale. Only its Close, Edit and Delete buttons are modelled, as `App.CloseDetail` (event `DetailClose`), `App.EditFromDetail` and `App.DeleteFromDetail`.
- `Date.now()` ids: the new id is a parameter. Uniqueness of ids needs it to be unused, which `Session.Enabled` requires of a save.
- `parseFloat`, floating-point sums and `toFixed`: the total is an exact `real` sum of a caller-supplied `value` reading of non-empty amount text. The code's `parseFloat` yields NaN for text that is not a number, and one NaN makes the whole total NaN. That is not representable here.
- `alert`: a refusal is returned as `Err(MissingName)` or `Err(MissingAmount)`.
- An update of an id that is not present is a silent no-op, as in the code, not a reported error.
- React state batching and closures: each handler is one atomic transition that reads the state of the render it was created in. The form effect is compared by value, not by object identity (`Object.is`). Two structurally equal but distinct records would re-run the effect in React and not in the model.
- Typing events only replace a buffer field; the text-input widgets are not modelled.
