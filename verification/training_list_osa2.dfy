/**
 * The training screen of the second revision: trainings listed as fetched,
 * a training added for the customer chosen in the dialog, and a delete
 * confirmed in a dialog.
 */
module TrainingListOsa2 {
  import opened Options
  import opened Text
  import opened Numbers
  import opened Records
  import opened Gateway
  import opened DeleteConfirmation

  /** The state of the screen besides the lists. */
  datatype Screen = Screen(error: Option<string>, loading: bool, delete: Pending<EmbeddedTraining>)

  const AddFailed: string := "Harjoituksen lisääminen epäonnistui."

  /** `${n}` for a number. */
  function NumberText(n: JsNumber): string {
    match n
    case Finite(v) => IntToString(v)
    case NaN => "NaN"
  }

  const CustomersUrl: string := BaseUrl + "/customers"

  /** The customer link the training is posted with: built from the chosen id, not taken from a customer. */
  function CustomerUrl(id: JsNumber): string {
    CustomersUrl + "/" + NumberText(id)
  }

  /** The dialog's choices: each customer with the id parsed from its self link. */
  function DialogCustomers(cs: seq<ApiCustomer>): (r: seq<ListedCustomer>)
    ensures |r| == |cs|
    ensures forall i :: 0 <= i < |cs| ==>
      r[i] == ListedCustomer(HrefId(cs[i].selfHref), Person(cs[i].firstname, cs[i].lastname), None)
  {
    seq(|cs|, i requires 0 <= i < |cs| => ListedCustomer(HrefId(cs[i].selfHref), Person(cs[i].firstname, cs[i].lastname), None))
  }

  /** `c._links?.self.href?.includes('/customers/' + id)`: the existence check as written. */
  predicate LinkMentions(c: ApiCustomer, id: JsNumber) {
    c.selfHref.Some? && Contains(c.selfHref.value, "/customers/" + NumberText(id))
  }

  /** The link of `c` names the customer `id` itself. */
  predicate LinkNames(c: ApiCustomer, id: JsNumber) {
    StrictEquals(HrefId(c.selfHref), id)
  }

  /**
   * `handleAddTraining` parameterised by its existence check: when some
   * customer passes the check, the training is posted with the link built
   * from the chosen id; otherwise nothing is sent and an error is shown.
   */
  function AddWith(s: Screen, cs: seq<ApiCustomer>, form: TrainingForm, response: Response,
                   exists_: bool): (o: Outcome<Screen>)
    ensures o.request.Some? <==> exists_
    ensures exists_ ==> o.request == Some(PostTraining(TrainingBody(form.activity, form.duration, form.date, CustomerUrl(form.customerId))))
    ensures o.refetch <==> exists_ && !ReadRejects(response)
    ensures o.state.error.Some? <==> !o.refetch
    ensures !o.state.loading
    ensures o.state.delete == s.delete
  {
    if !exists_ then
      Outcome(s.(error := Some(AddFailed), loading := false), None, false)
    else
      var request := PostTraining(TrainingBody(form.activity, form.duration, form.date, CustomerUrl(form.customerId)));
      if ReadRejects(response) then
        Outcome(s.(error := Some(AddFailed), loading := false), Some(request), false)
      else
        Outcome(s.(error := None, loading := false), Some(request), true)
  }

  /** `handleAddTraining` as written: a customer whose link merely contains `/customers/<id>` lets the post through. */
  function HandleAddTrainingAsWritten(s: Screen, cs: seq<ApiCustomer>, form: TrainingForm, response: Response): (o: Outcome<Screen>)
    ensures o.request.Some? <==> exists c :: c in cs && LinkMentions(c, form.customerId)
  {
    AddWith(s, cs, form, response, exists c :: c in cs && LinkMentions(c, form.customerId))
  }

  /**
   * The substring test lets a training through for a customer who does not
   * exist: with only customer 12 listed, choosing id 1 posts a training for
   * `/customers/1`.
   */
  lemma AsWrittenPostsForMissingCustomer(s: Screen, host: string, response: Response)
    ensures var form := TrainingForm("Gym", 60, "2025-01-01T10:00:00.000Z", Finite(1));
      && HandleAddTrainingAsWritten(s, [CustomerTwelve(host)], form, response).request
         == Some(PostTraining(TrainingBody("Gym", 60, "2025-01-01T10:00:00.000Z", CustomerUrl(Finite(1)))))
      && !LinkNames(CustomerTwelve(host), form.customerId)
  {
    SubstringCheckAdmitsOne(host);
  }

  /** The only customer of the counterexample: customer 12 of the backend at `host`. */
  function CustomerTwelve(host: string): ApiCustomer {
    ApiCustomer("A", "B", "", "", "", "", "", Some(host + "/customers/12"))
  }

  /** The link of customer 12 contains `/customers/1` but names the id 12. */
  lemma SubstringCheckAdmitsOne(host: string)
    ensures LinkMentions(CustomerTwelve(host), Finite(1))
    ensures HrefId(CustomerTwelve(host).selfHref) == Finite(12)
  {
    assert IntToString(1) == "1" && IntToString(12) == "12" by {
      assert NatToString(12) == NatToString(1) + [DigitChar(2)];
    }
    assert "/customers/" + NumberText(Finite(1)) == "/customers/1";
    assert host + "/customers/12" == host + "/customers/1" + "2";
    ContainsInfix(host, "/customers/1", "2");
    assert host + "/customers/12" == (host + "/customers") + "/" + IntToString(12);
    HrefIdOfResource(host + "/customers", 12);
  }

  /** `handleAddTraining` with the existence check it evidently intends: some customer's link ends in the chosen id. */
  function HandleAddTraining(s: Screen, cs: seq<ApiCustomer>, form: TrainingForm, response: Response): (o: Outcome<Screen>)
    ensures o.request.Some? <==> exists c :: c in cs && LinkNames(c, form.customerId)
    ensures o.request.Some? ==>
      o.request.value == PostTraining(TrainingBody(form.activity, form.duration, form.date, CustomerUrl(form.customerId)))
  {
    AddWith(s, cs, form, response, exists c :: c in cs && LinkNames(c, form.customerId))
  }

  /**
   * With the corrected check a training is posted exactly when the chosen id
   * is one the dialog offers: every choice is accepted, and no other.
   */
  lemma {:induction false} AcceptsExactlyDialogChoices(s: Screen, cs: seq<ApiCustomer>, form: TrainingForm, response: Response)
    ensures HandleAddTraining(s, cs, form, response).request.Some? <==>
      exists d :: d in DialogCustomers(cs) && StrictEquals(d.id, form.customerId)
  {
    if exists c :: c in cs && LinkNames(c, form.customerId) {
      var c :| c in cs && LinkNames(c, form.customerId);
      LinkedCustomerIsChoice(cs, form.customerId, c);
    }
    if exists d :: d in DialogCustomers(cs) && StrictEquals(d.id, form.customerId) {
      var d :| d in DialogCustomers(cs) && StrictEquals(d.id, form.customerId);
      ChoiceIsLinkedCustomer(cs, form.customerId, d);
    }
  }

  /** A customer whose link names `id` is offered by the dialog with that id. */
  lemma {:induction false} LinkedCustomerIsChoice(cs: seq<ApiCustomer>, id: JsNumber, c: ApiCustomer)
    requires c in cs && LinkNames(c, id)
    ensures exists d :: d in DialogCustomers(cs) && StrictEquals(d.id, id)
  {
    var ds := DialogCustomers(cs);
    var i :| 0 <= i < |cs| && cs[i] == c;
    assert ds[i].id == HrefId(c.selfHref);
    assert ds[i] in ds;
  }

  /** A choice the dialog offers with id `id` comes from a customer whose link names `id`. */
  lemma {:induction false} ChoiceIsLinkedCustomer(cs: seq<ApiCustomer>, id: JsNumber, d: ListedCustomer)
    requires d in DialogCustomers(cs) && StrictEquals(d.id, id)
    ensures exists c :: c in cs && LinkNames(c, id)
  {
    var ds := DialogCustomers(cs);
    var i :| 0 <= i < |ds| && ds[i] == d;
    assert d.id == HrefId(cs[i].selfHref);
    assert cs[i] in cs;
  }

  /** The link built for a finite id names that id. */
  lemma CustomerUrlNamesId(n: int)
    ensures HrefId(Some(CustomerUrl(Finite(n)))) == Finite(n)
  {
    HrefIdOfResource(CustomersUrl, n);
  }

  /** The link a training is posted with names the chosen customer: its id is the chosen id. */
  lemma PostedLinkNamesChosenCustomer(s: Screen, cs: seq<ApiCustomer>, form: TrainingForm, response: Response)
    requires HandleAddTraining(s, cs, form, response).request.Some?
    ensures HrefId(Some(CustomerUrl(form.customerId))) == form.customerId
  {
    assert form.customerId.Finite?;
    CustomerUrlNamesId(form.customerId.value);
  }

  /**
   * `handleDeleteConfirm`: with nothing pending nothing happens; otherwise the
   * pending training is deleted by its id, and the dialog closes whatever
   * the outcome.
   */
  function HandleDeleteConfirm(s: Screen, response: Response): (o: Outcome<Screen>)
    ensures s.delete.target.None? ==> o == Outcome(s, None, false)
    ensures s.delete.target.Some? ==>
      && o.request == Some(DeleteTraining(s.delete.target.value.id))
      && !o.state.delete.open && o.state.delete.target.None? && !o.state.loading
      && (o.state.error.Some? <==> ServiceRejects(response))
    ensures o.refetch <==> s.delete.target.Some? && !ServiceRejects(response)
  {
    match s.delete.target
    case None => Outcome(s, None, false)
    case Some(t) =>
      var closed := s.(loading := false, delete := Dismiss());
      var request := Some(DeleteTraining(t.id));
      if ServiceRejects(response) then
        Outcome(closed.(error := Some("Poisto epäonnistui.")), request, false)
      else
        Outcome(closed.(error := None), request, true)
  }

  /** The delete dialog is open exactly while a training waits for confirmation, whatever the handler. */
  lemma HandlersKeepDeleteDialogConsistent(s: Screen, cs: seq<ApiCustomer>, form: TrainingForm, response: Response)
    requires Consistent(s.delete)
    ensures Consistent(HandleAddTraining(s, cs, form, response).state.delete)
    ensures Consistent(HandleDeleteConfirm(s, response).state.delete)
  {
  }

  /**
   * Confirming right after a delete click deletes the clicked training by its
   * id and closes the dialog; after a cancel, confirming does nothing.
   */
  lemma ConfirmDeletesClickedTraining(s: Screen, t: EmbeddedTraining, response: Response)
    ensures var o := HandleDeleteConfirm(s.(delete := Ask(t)), response);
      o.request == Some(DeleteTraining(t.id)) && o.state.delete == Dismiss()
    ensures HandleDeleteConfirm(s.(delete := Dismiss()), response) == Outcome(s.(delete := Dismiss()), None, false)
  {
  }
}
