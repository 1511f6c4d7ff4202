/**
 * The dialog that adds or edits a customer: a form of seven texts, filled
 * from the customer being edited or emptied when it opens, edited one field
 * at a time, and handed back with the edited customer's id.
 */
module AddCustomerDialog {
  import opened Options
  import opened Records

  const EmptyForm: CustomerForm := CustomerForm("", "", "", "", "", "", "")

  /** The form for editing `c`: every field, absent ones as ''. */
  function FormOf(c: Customer): (r: CustomerForm)
    ensures forall f :: FormField(r, f) == FieldOrEmpty(c, f)
  {
    CustomerForm(c.firstname, c.lastname, c.email,
      c.streetaddress.GetOr(""), c.postcode.GetOr(""), c.city.GetOr(""), c.phone.GetOr(""))
  }

  /**
   * The effect that runs when `initialData` or `open` change: while open, the
   * form is filled from the customer being edited, or emptied when there is
   * none; while closed it keeps what it holds.
   */
  function OnOpen(form: CustomerForm, initial: Option<Customer>, open: bool): (r: CustomerForm)
    ensures open && initial.Some? ==> forall f :: FormField(r, f) == FieldOrEmpty(initial.value, f)
    ensures open && initial.None? ==> forall f :: FormField(r, f) == ""
    ensures !open ==> r == form
  {
    if !open then form
    else match initial
      case Some(c) => FormOf(c)
      case None => EmptyForm
  }

  /** `handleChange`: the named field takes the typed text. */
  function Change(form: CustomerForm, field: CustomerField, value: string): (r: CustomerForm)
    ensures FormField(r, field) == value
    ensures forall g :: g != field ==> FormField(r, g) == FormField(form, g)
  {
    match field
    case FirstName => form.(firstname := value)
    case LastName => form.(lastname := value)
    case Email => form.(email := value)
    case StreetAddress => form.(streetaddress := value)
    case PostCode => form.(postcode := value)
    case City => form.(city := value)
    case Phone => form.(phone := value)
  }

  /** Two forms that agree on every field are the same form. */
  lemma FormExtensional(a: CustomerForm, b: CustomerForm)
    requires forall f :: FormField(a, f) == FormField(b, f)
    ensures a == b
  {
    assert FormField(a, FirstName) == FormField(b, FirstName);
    assert FormField(a, LastName) == FormField(b, LastName);
    assert FormField(a, Email) == FormField(b, Email);
    assert FormField(a, StreetAddress) == FormField(b, StreetAddress);
    assert FormField(a, PostCode) == FormField(b, PostCode);
    assert FormField(a, City) == FormField(b, City);
    assert FormField(a, Phone) == FormField(b, Phone);
  }

  /** Typing a field's current text back into it changes nothing; the last text typed into a field wins. */
  lemma ChangeLaws(form: CustomerForm, field: CustomerField, v: string, w: string)
    ensures Change(form, field, FormField(form, field)) == form
    ensures Change(Change(form, field, v), field, w) == Change(form, field, w)
  {
    FormExtensional(Change(form, field, FormField(form, field)), form);
    FormExtensional(Change(Change(form, field, v), field, w), Change(form, field, w));
  }

  /** `handleSave`: the form, with the id of the customer being edited when there is one. */
  function Save(form: CustomerForm, initial: Option<Customer>): (r: CustomerPayload)
    ensures r.form == form
    ensures r.id.Some? <==> initial.Some?
    ensures initial.Some? ==> r.id == Some(initial.value.id)
  {
    CustomerPayload(form, if initial.Some? then Some(initial.value.id) else None)
  }

  /** Opening the dialog for `c` and saving without typing hands back `c`'s fields and id. */
  lemma OpenThenSave(form: CustomerForm, c: Customer)
    ensures var p := Save(OnOpen(form, Some(c), true), Some(c));
      p.id == Some(c.id) && forall f :: FormField(p.form, f) == FieldOrEmpty(c, f)
  {
  }

  /**
   * A dialog rendered without `initialData`, as the second revision's list
   * renders it, always opens empty and always hands back a payload without an
   * id, so saving it adds a customer.
   */
  lemma WithoutInitialDataAlwaysAdds(form: CustomerForm, edits: seq<(CustomerField, string)>)
    ensures OnOpen(form, None, true) == EmptyForm
    ensures Save(ApplyAll(OnOpen(form, None, true), edits), None).id.None?
  {
    FormExtensional(OnOpen(form, None, true), EmptyForm);
  }

  /** A sequence of typed texts, applied in order. */
  function ApplyAll(form: CustomerForm, edits: seq<(CustomerField, string)>): (r: CustomerForm)
    ensures forall f :: (forall i :: 0 <= i < |edits| ==> edits[i].0 != f) ==> FormField(r, f) == FormField(form, f)
    decreases |edits|
  {
    if |edits| == 0 then form else ApplyAll(Change(form, edits[0].0, edits[0].1), edits[1..])
  }
}
