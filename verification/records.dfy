/** The records the screen manipulates: a stored expense and the draft
    object the input form hands to its `onSave` callback. */
module Records {
  import opened Wrappers

  /** Record identifiers; the app derives them from the creation timestamp,
      the model only needs them to be comparable strings. */
  type Id = string

  /** One stored expense. `amount` is kept as the text the user typed:
      the app never converts it when storing. */
  datatype Expense = Expense(id: Id, name: string, amount: string, description: string)

  /** The object built by the form on a successful save: the three fields,
      and the edited record's id only when an expense is being edited. */
  datatype Draft = Draft(id: Option<Id>, name: string, amount: string, description: string)

  /** The record `{...draft, id}`: the draft's fields under the given id. */
  function Stamp(d: Draft, id: Id): Expense
  {
    Expense(id, d.name, d.amount, d.description)
  }

  /** The ids present in a list of expenses. */
  function Ids(xs: seq<Expense>): set<Id>
  {
    set i | 0 <= i < |xs| :: xs[i].id
  }

  /** No two positions of the list hold the same id. */
  predicate UniqueIds(xs: seq<Expense>)
  {
    forall i, j :: 0 <= i < j < |xs| ==> xs[i].id != xs[j].id
  }
}
