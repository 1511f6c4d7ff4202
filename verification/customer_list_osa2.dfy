/**
 * The customer screen of the second revision: a search over the named
 * fields, the add, edit and delete flows with their dialogs, and a `loading`
 * flag. Its service layer never looks at the HTTP status: a delete fails
 * only when the network does, and an add or an update also when the reply's
 * body is not JSON.
 */
module CustomerListOsa2 {
  import opened Options
  import opened Text
  import opened Numbers
  import opened Records
  import opened Sorting
  import opened Listing
  import opened Gateway
  import opened DeleteConfirmation
  import EditCustomerDialog

  /** `(o && o.toLowerCase().includes(term))`: an absent or empty optional field never matches. */
  predicate OptionalMatches(o: Option<string>, term: string) {
    o.Some? && o.value != "" && Contains(Lower(o.value), term)
  }

  /** The search predicate: one of the seven fields, lower-cased, contains the term. */
  predicate NamedFieldsMatch(c: Customer, term: string) {
    || Contains(Lower(c.firstname), term)
    || Contains(Lower(c.lastname), term)
    || Contains(Lower(c.email), term)
    || OptionalMatches(c.streetaddress, term)
    || OptionalMatches(c.postcode, term)
    || OptionalMatches(c.city, term)
    || OptionalMatches(c.phone, term)
  }

  /** A non-empty term matches exactly when some present field contains it; the emptiness test is redundant. */
  lemma NamedFieldsMatchIff(c: Customer, term: string)
    requires term != ""
    ensures NamedFieldsMatch(c, term) <==>
      exists f :: Field(c, f).Some? && Contains(Lower(Field(c, f).value), term)
  {
    if NamedFieldsMatch(c, term) {
      if Contains(Lower(c.firstname), term) {
        assert Field(c, FirstName).Some?;
      } else if Contains(Lower(c.lastname), term) {
        assert Field(c, LastName).Some?;
      } else if Contains(Lower(c.email), term) {
        assert Field(c, Email).Some?;
      } else if OptionalMatches(c.streetaddress, term) {
        assert Field(c, StreetAddress).Some?;
      } else if OptionalMatches(c.postcode, term) {
        assert Field(c, PostCode).Some?;
      } else if OptionalMatches(c.city, term) {
        assert Field(c, City).Some?;
      } else {
        assert Field(c, Phone).Some?;
      }
    }
  }

  /** `a[key] ?? ''`: the value a column sorts by. */
  function ColumnValue(f: CustomerField, c: Customer): SortValue {
    Text(FieldOrEmpty(c, f))
  }

  /** The rows the table shows for a search and a sort column. */
  function ProcessedCustomers(cs: seq<Customer>, search: string, cfg: SortConfig<CustomerField>): (r: seq<Customer>)
    ensures forall c :: c in r ==> c in cs && (search == "" || NamedFieldsMatch(c, Lower(search)))
    ensures forall c :: c in cs && (search == "" || NamedFieldsMatch(c, Lower(search))) ==> c in r
    ensures multiset(r) == multiset(Filtered(cs, search, NamedFieldsMatch))
    ensures cfg.key.None? ==> r == Filtered(cs, search, NamedFieldsMatch)
    ensures cfg.key.Some? ==> forall i, j :: 0 <= i < j < |r| ==>
      Before(cfg.direction, ColumnValue(cfg.key.value, r[i]), ColumnValue(cfg.key.value, r[j]))
    ensures cfg.key.Some? ==> Stable(r, Filtered(cs, search, NamedFieldsMatch), ColumnValue, cfg.key.value)
  {
    ProjectSpec(cs, search, cfg, NamedFieldsMatch, ColumnValue);
    Project(cs, search, cfg, NamedFieldsMatch, ColumnValue)
  }

  /** The state of the screen besides the list itself, the search and the sort. */
  datatype Screen = Screen(
    error: Option<string>, loading: bool,
    addOpen: bool,
    editOpen: bool, editing: Option<Customer>,
    delete: Pending<Customer>)

  /** `_links?.self.href` is a non-empty text. */
  predicate HasLink(c: Customer) {
    c.selfHref.Some? && c.selfHref.value != ""
  }

  /** `handleSave`: add the customer, refetch and close the dialog; on failure show an error and keep it open. */
  function HandleSave(s: Screen, form: CustomerForm, response: Response): (o: Outcome<Screen>)
    ensures o.request == Some(PostCustomer(form))
    ensures o.refetch <==> !ReadRejects(response)
    ensures o.state.addOpen <==> s.addOpen && ReadRejects(response)
    ensures o.state.error.Some? <==> ReadRejects(response)
    ensures !o.state.loading
    ensures o.state.editOpen == s.editOpen && o.state.editing == s.editing
    ensures o.state.delete == s.delete
  {
    var request := Some(PostCustomer(form));
    if ReadRejects(response) then
      Outcome(s.(error := Some("Tallennus epäonnistui."), loading := false), request, false)
    else
      Outcome(s.(error := None, loading := false, addOpen := false), request, true)
  }

  /**
   * `handleSaveEdit`: a customer with a link is sent to `PUT /customers/<id>`
   * with the id read from the link; one without a link is silently ignored and
   * its dialog stays open.
   */
  function HandleSaveEdit(s: Screen, c: Customer, response: Response): (o: Outcome<Screen>)
    ensures o.request.Some? <==> HasLink(c)
    ensures o.request.Some? ==> o.request.value == PutCustomer(HrefId(c.selfHref))
    ensures o.refetch <==> HasLink(c) && !ReadRejects(response)
    ensures o.state.error.Some? <==> HasLink(c) && ReadRejects(response)
    ensures o.state.editOpen <==> s.editOpen && !o.refetch
    ensures o.state.editing == (if o.refetch then None else s.editing)
    ensures !o.state.loading
    ensures o.state.addOpen == s.addOpen
    ensures o.state.delete == s.delete
  {
    if !HasLink(c) then
      Outcome(s.(error := None, loading := false), None, false)
    else
      var request := Some(PutCustomer(HrefId(c.selfHref)));
      if ReadRejects(response) then
        Outcome(s.(error := Some("Päivitys epäonnistui."), loading := false), request, false)
      else
        Outcome(s.(error := None, loading := false, editOpen := false, editing := None), request, true)
  }

  /**
   * `handleDeleteConfirm`: with nobody pending nothing happens; otherwise the
   * pending customer is deleted if it has a link, and in every case the
   * dialog closes and nobody is pending any more.
   */
  function HandleDeleteConfirm(s: Screen, response: Response): (o: Outcome<Screen>)
    ensures s.delete.target.None? ==> o == Outcome(s, None, false)
    ensures s.delete.target.Some? ==> !o.state.delete.open && o.state.delete.target.None? && !o.state.loading
    ensures o.request.Some? <==> s.delete.target.Some? && HasLink(s.delete.target.value)
    ensures o.request.Some? ==> o.request.value == DeleteCustomer(HrefId(s.delete.target.value.selfHref))
    ensures o.refetch <==> o.request.Some? && !ServiceRejects(response)
    ensures s.delete.target.Some? ==> (o.state.error.Some? <==> o.request.Some? && ServiceRejects(response))
    ensures o.state.addOpen == s.addOpen && o.state.editOpen == s.editOpen && o.state.editing == s.editing
  {
    match s.delete.target
    case None => Outcome(s, None, false)
    case Some(c) =>
      var closed := s.(loading := false, delete := Dismiss());
      if !HasLink(c) then
        Outcome(closed.(error := None), None, false)
      else
        var request := Some(DeleteCustomer(HrefId(c.selfHref)));
        if ServiceRejects(response) then
          Outcome(closed.(error := Some("Poisto epäonnistui.")), request, false)
        else
          Outcome(closed.(error := None), request, true)
  }

  /**
   * Every handler keeps the delete dialog open exactly while a customer is
   * pending, leaves the screen out of its loading state, and refetches only
   * after a request it sent.
   */
  lemma HandlersKeepDeleteDialogConsistent(s: Screen, c: Customer, form: CustomerForm, response: Response)
    requires Consistent(s.delete)
    ensures Consistent(HandleSave(s, form, response).state.delete)
    ensures Consistent(HandleSaveEdit(s, c, response).state.delete)
    ensures Consistent(HandleDeleteConfirm(s, response).state.delete)
    ensures RefetchesOnlyAfterRequest(HandleSave(s, form, response))
    ensures RefetchesOnlyAfterRequest(HandleSaveEdit(s, c, response))
    ensures RefetchesOnlyAfterRequest(HandleDeleteConfirm(s, response))
  {
  }

  /**
   * Confirming right after a delete click deletes the clicked customer, by
   * the id in its link, and closes the dialog; after a cancel, confirming
   * does nothing.
   */
  lemma ConfirmDeletesClickedCustomer(s: Screen, c: Customer, response: Response)
    ensures var o := HandleDeleteConfirm(s.(delete := Ask(c)), response);
      && o.request == (if HasLink(c) then Some(DeleteCustomer(HrefId(c.selfHref))) else None)
      && o.state.delete == Dismiss()
    ensures HandleDeleteConfirm(s.(delete := Dismiss()), response) == Outcome(s.(delete := Dismiss()), None, false)
  {
  }

  /** Editing a customer whose link ends in `/<n>` sends `PUT /customers/<n>`. */
  lemma SaveEditTargetsLinkedCustomer(s: Screen, c: Customer, base: string, n: int, response: Response)
    requires c.selfHref == Some(base + "/" + IntToString(n))
    ensures HandleSaveEdit(s, c, response).request == Some(PutCustomer(Finite(n)))
  {
    HrefIdOfResource(base, n);
  }

  /**
   * Whatever is typed into the edit dialog, saving it updates the customer
   * the dialog was opened for, and nothing is sent for a customer without a link.
   */
  lemma SaveEditTargetsOpenedCustomer(s: Screen, c: Customer, edits: seq<(CustomerField, string)>, response: Response)
    ensures HandleSaveEdit(s, EditCustomerDialog.EditAll(c, edits), response).request
         == if HasLink(c) then Some(PutCustomer(HrefId(c.selfHref))) else None
  {
  }
}
