/**
 * The dialog that edits a listed customer in place: it copies the customer it
 * is given, edits one field at a time, and hands the edited record back.
 */
module EditCustomerDialog {
  import opened Options
  import opened Records

  /**
   * The effect that runs when the `customer` prop changes: a customer replaces
   * the copy being edited; `null` leaves the previous copy in place.
   */
  function Sync(edited: Option<Customer>, prop: Option<Customer>): (r: Option<Customer>)
    ensures prop.Some? ==> r == prop
    ensures prop.None? ==> r == edited
  {
    if prop.Some? then prop else edited
  }

  /** A field edit: the field takes the typed text; an optional field becomes present. */
  function Edit(c: Customer, field: CustomerField, value: string): (r: Customer)
    ensures Field(r, field) == Some(value)
    ensures forall g :: g != field ==> Field(r, g) == Field(c, g)
    ensures r.id == c.id && r.selfHref == c.selfHref
  {
    match field
    case FirstName => c.(firstname := value)
    case LastName => c.(lastname := value)
    case Email => c.(email := value)
    case StreetAddress => c.(streetaddress := Some(value))
    case PostCode => c.(postcode := Some(value))
    case City => c.(city := Some(value))
    case Phone => c.(phone := Some(value))
  }

  /** A sequence of field edits, applied in order. */
  function EditAll(c: Customer, edits: seq<(CustomerField, string)>): (r: Customer)
    ensures r.id == c.id && r.selfHref == c.selfHref
    ensures forall f :: (forall i :: 0 <= i < |edits| ==> edits[i].0 != f) ==> Field(r, f) == Field(c, f)
    decreases |edits|
  {
    if |edits| == 0 then c else EditAll(Edit(c, edits[0].0, edits[0].1), edits[1..])
  }

  /** `value={editedCustomer.x || ''}`: what a field's input shows. */
  function Shown(c: Customer, field: CustomerField): (r: string)
    ensures Field(c, field).Some? ==> r == Field(c, field).value
    ensures Field(c, field).None? ==> r == ""
  {
    FieldOrEmpty(c, field)
  }

  /** Each input shows what was last typed into it; typing into one input leaves the others' text alone. */
  lemma ShownAfterEdit(c: Customer, field: CustomerField, value: string, other: CustomerField)
    ensures Shown(Edit(c, field, value), field) == value
    ensures other != field ==> Shown(Edit(c, field, value), other) == Shown(c, other)
  {
  }

  /** `handleSave`: with a copy to edit, it is handed to `onSave` and the dialog closes; without one nothing happens. */
  function Save(edited: Option<Customer>): (r: (Option<Customer>, bool))
    ensures r.0 == edited
    ensures r.1 <==> edited.Some?
  {
    if edited.Some? then (edited, true) else (None, false)
  }

  /** Editing never changes which customer is saved: the id and the self link stay those of the customer given. */
  lemma SavedKeepsIdentity(previous: Option<Customer>, c: Customer, edits: seq<(CustomerField, string)>)
    ensures var saved := Save(Some(EditAll(Sync(previous, Some(c)).value, edits))).0;
      saved.Some? && saved.value.id == c.id && saved.value.selfHref == c.selfHref
  {
  }
}
