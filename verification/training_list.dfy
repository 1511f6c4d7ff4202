/**
 * The training screen of the final revision: customers identified by the id
 * in their self link, a training's customer name, a search over the name,
 * the activity, the formatted date and the duration, sortable columns, and
 * the add and delete handlers. Dates are minutes on a time line; the
 * `DD.MM.YYYY` formatting is a parameter.
 */
module TrainingList {
  import opened Options
  import opened Text
  import opened Numbers
  import opened Records
  import opened Sorting
  import opened Listing
  import opened Gateway

  /** The sortable columns of the table. */
  datatype TrainingColumn = ActivityColumn | DurationColumn | DateColumn | CustomerColumn

  /** `fetchCustomers`: each customer gets the id parsed from its self link. */
  function CustomersWithIds(raw: seq<ApiCustomer>): (r: seq<ListedCustomer>)
    ensures |r| == |raw|
    ensures forall i :: 0 <= i < |raw| ==>
      r[i] == ListedCustomer(HrefId(raw[i].selfHref), Person(raw[i].firstname, raw[i].lastname), raw[i].selfHref)
  {
    seq(|raw|, i requires 0 <= i < |raw| =>
      ListedCustomer(HrefId(raw[i].selfHref), Person(raw[i].firstname, raw[i].lastname), raw[i].selfHref))
  }

  /** `customers.find(c => c.id === id)`: the first customer with that id. */
  function FindCustomer(cs: seq<ListedCustomer>, id: JsNumber): (r: Option<ListedCustomer>)
    ensures r.None? <==> forall c :: c in cs ==> !StrictEquals(c.id, id)
    ensures r.Some? ==> exists i :: (0 <= i < |cs| && cs[i] == r.value && StrictEquals(cs[i].id, id)
      && forall j :: 0 <= j < i ==> !StrictEquals(cs[j].id, id))
  {
    if |cs| == 0 then None
    else if StrictEquals(cs[0].id, id) then Some(cs[0])
    else
      var r := FindCustomer(cs[1..], id);
      assert forall c :: c in cs ==> c == cs[0] || c in cs[1..];
      if r.Some? then
        var i :| 0 <= i < |cs[1..]| && cs[1..][i] == r.value && StrictEquals(cs[1..][i].id, id)
          && forall j :: 0 <= j < i ==> !StrictEquals(cs[1..][j].id, id);
        assert cs[i + 1] == r.value;
        assert forall j :: 0 <= j < i + 1 ==> !StrictEquals(cs[j].id, id) by {
          forall j | 0 <= j < i + 1 ensures !StrictEquals(cs[j].id, id) {
            if j > 0 {
              assert cs[j] == cs[1..][j - 1];
            }
          }
        }
        r
      else r
  }

  const Unknown: string := "Tuntematon"

  /**
   * `getCustomerName`: the embedded customer's full name; failing that, the
   * full name of the listed customer whose id is the training's `customerId`;
   * failing that, "Tuntematon".
   */
  function CustomerName(cs: seq<ListedCustomer>, t: Training): (r: string)
    ensures t.customer.Some? ==> r == FullName(t.customer.value)
    ensures t.customer.None? && FindCustomer(cs, Finite(t.customerId)).Some? ==>
      r == FullName(FindCustomer(cs, Finite(t.customerId)).value.person)
    ensures t.customer.None? && FindCustomer(cs, Finite(t.customerId)).None? ==> r == Unknown
  {
    match t.customer
    case Some(p) => FullName(p)
    case None =>
      match FindCustomer(cs, Finite(t.customerId))
      case Some(c) => FullName(c.person)
      case None => Unknown
  }

  /** A full name holds a space; "Tuntematon" does not. */
  lemma FullNameIsNotUnknown(p: Person)
    ensures FullName(p) != Unknown
  {
  }

  /** The name is "Tuntematon" exactly when no customer is embedded and none is listed with the training's id. */
  lemma UnknownIffNoCustomer(cs: seq<ListedCustomer>, t: Training)
    ensures CustomerName(cs, t) == Unknown <==>
      t.customer.None? && forall c :: c in cs ==> !StrictEquals(c.id, Finite(t.customerId))
  {
    match t.customer
    case Some(p) => FullNameIsNotUnknown(p);
    case None =>
      match FindCustomer(cs, Finite(t.customerId))
      case Some(c) => FullNameIsNotUnknown(c.person);
      case None =>
  }

  /** The search predicate: the name or the activity, lower-cased, the formatted date or the duration contains the term. */
  predicate TrainingMatches(cs: seq<ListedCustomer>, format: int -> string, t: Training, term: string) {
    || Contains(Lower(CustomerName(cs, t)), term)
    || Contains(Lower(t.activity), term)
    || Contains(format(t.date), term)
    || Contains(IntToString(t.duration), term)
  }

  function Matcher(cs: seq<ListedCustomer>, format: int -> string): (Training, string) -> bool {
    (t, term) => TrainingMatches(cs, format, t, term)
  }

  /** What a column sorts by: the name, the activity text, the instant, or the duration. */
  function ColumnValue(cs: seq<ListedCustomer>, k: TrainingColumn, t: Training): SortValue {
    match k
    case ActivityColumn => Text(t.activity)
    case DurationColumn => Number(t.duration)
    case DateColumn => Number(t.date)
    case CustomerColumn => Text(CustomerName(cs, t))
  }

  function Valuer(cs: seq<ListedCustomer>): (TrainingColumn, Training) -> SortValue {
    (k, t) => ColumnValue(cs, k, t)
  }

  /** The rows the table shows for a search and a sort column. */
  function ProcessedTrainings(ts: seq<Training>, cs: seq<ListedCustomer>, format: int -> string,
                              search: string, cfg: SortConfig<TrainingColumn>): (r: seq<Training>)
    ensures forall t :: t in r ==> t in ts && (search == "" || TrainingMatches(cs, format, t, Lower(search)))
    ensures forall t :: t in ts && (search == "" || TrainingMatches(cs, format, t, Lower(search))) ==> t in r
    ensures multiset(r) == multiset(Filtered(ts, search, Matcher(cs, format)))
    ensures cfg.key.None? ==> r == Filtered(ts, search, Matcher(cs, format))
    ensures cfg.key.Some? ==> forall i, j :: 0 <= i < j < |r| ==>
      Before(cfg.direction, ColumnValue(cs, cfg.key.value, r[i]), ColumnValue(cs, cfg.key.value, r[j]))
    ensures cfg.key.Some? ==> Stable(r, Filtered(ts, search, Matcher(cs, format)), Valuer(cs), cfg.key.value)
  {
    ProjectSpec(ts, search, cfg, Matcher(cs, format), Valuer(cs));
    Project(ts, search, cfg, Matcher(cs, format), Valuer(cs))
  }

  /** Sorting by date orders the trainings chronologically, latest first when descending. */
  lemma DateSortIsChronological(ts: seq<Training>, cs: seq<ListedCustomer>, format: int -> string,
                                search: string, dir: Direction, i: nat, j: nat)
    requires var r := ProcessedTrainings(ts, cs, format, search, SortConfig(Some(DateColumn), dir));
      i < j < |r|
    ensures var r := ProcessedTrainings(ts, cs, format, search, SortConfig(Some(DateColumn), dir));
      if dir == Ascending then r[i].date <= r[j].date else r[i].date >= r[j].date
  {
    var r := ProcessedTrainings(ts, cs, format, search, SortConfig(Some(DateColumn), dir));
    assert Before(dir, Number(r[i].date), Number(r[j].date));
  }

  /** The state of the screen besides the lists, the search and the sort. */
  datatype Screen = Screen(error: Option<string>, dialogOpen: bool)

  const AddFailed: string := "Harjoituksen lisäys epäonnistui."

  /** `customer?._links?.self?.href` is a non-empty text. */
  predicate HasLink(c: ListedCustomer) {
    c.selfHref.Some? && c.selfHref.value != ""
  }

  /**
   * `addTraining`: the training is posted with the self link of the customer
   * chosen by id; with no such customer, or one without a link, nothing is
   * sent and the screen shows an error.
   */
  function AddTraining(s: Screen, cs: seq<ListedCustomer>, form: TrainingForm, response: Response): (o: Outcome<Screen>)
    ensures (forall c :: c in cs ==> !StrictEquals(c.id, form.customerId)) ==>
      o.request.None? && o.state.error == Some(AddFailed)
    ensures o.request.Some? ==> exists c :: (c in cs && StrictEquals(c.id, form.customerId) && HasLink(c)
      && o.request.value == PostTraining(TrainingBody(form.activity, form.duration, form.date, c.selfHref.value)))
    ensures var f := FindCustomer(cs, form.customerId);
      && (o.request.Some? <==> f.Some? && HasLink(f.value))
      && (o.request.Some? ==>
            o.request.value == PostTraining(TrainingBody(form.activity, form.duration, form.date, f.value.selfHref.value)))
    ensures o.refetch <==> o.request.Some? && Ok(response)
    ensures o.state.error.None? <==> o.refetch
    ensures o.state.dialogOpen == s.dialogOpen
  {
    var found := FindCustomer(cs, form.customerId);
    if found.None? || !HasLink(found.value) then
      Outcome(s.(error := Some(AddFailed)), None, false)
    else
      var request := PostTraining(TrainingBody(form.activity, form.duration, form.date, found.value.selfHref.value));
      Outcome(s.(error := if Ok(response) then None else Some(AddFailed)), Some(request), Ok(response))
  }

  /** `handleAddTraining`: `addTraining` catches its own failures, so the dialog always closes. */
  function HandleAddTraining(s: Screen, cs: seq<ListedCustomer>, form: TrainingForm, response: Response): (o: Outcome<Screen>)
    ensures !o.state.dialogOpen
    ensures o.(state := o.state.(dialogOpen := s.dialogOpen)) == AddTraining(s, cs, form, response)
  {
    var added := AddTraining(s, cs, form, response);
    added.(state := added.state.(dialogOpen := false))
  }

  /** Customers whose links end in `/<n>` get the ids `n`. */
  lemma IdsFromLinks(raw: seq<ApiCustomer>, base: string, ids: seq<int>)
    requires |ids| == |raw|
    requires forall i :: 0 <= i < |raw| ==> raw[i].selfHref == Some(base + "/" + IntToString(ids[i]))
    ensures forall i :: 0 <= i < |raw| ==> CustomersWithIds(raw)[i].id == Finite(ids[i])
  {
    forall i | 0 <= i < |raw| ensures CustomersWithIds(raw)[i].id == Finite(ids[i]) {
      HrefIdOfResource(base, ids[i]);
    }
  }

  /** With distinct ids, the customer found for an id is the one that has it. */
  lemma FindDistinct(cs: seq<ListedCustomer>, ids: seq<int>, k: nat)
    requires |ids| == |cs| && k < |cs|
    requires forall i :: 0 <= i < |cs| ==> cs[i].id == Finite(ids[i])
    requires forall i, j :: 0 <= i < j < |ids| ==> ids[i] != ids[j]
    ensures FindCustomer(cs, Finite(ids[k])) == Some(cs[k])
  {
    assert StrictEquals(cs[k].id, Finite(ids[k]));
    var found := FindCustomer(cs, Finite(ids[k]));
    var i :| 0 <= i < |cs| && cs[i] == found.value && StrictEquals(cs[i].id, Finite(ids[k]))
      && forall j :: 0 <= j < i ==> !StrictEquals(cs[j].id, Finite(ids[k]));
    assert i == k;
  }

  /**
   * When every customer's link is `<base>/<n>` for a distinct `n`, choosing
   * the customer with id `n` posts the training with that customer's link.
   */
  lemma AddTrainingLinksChosenCustomer(s: Screen, raw: seq<ApiCustomer>, base: string, ids: seq<int>,
                                       k: nat, form: TrainingForm, response: Response)
    requires |ids| == |raw| && k < |raw|
    requires forall i :: 0 <= i < |raw| ==> raw[i].selfHref == Some(base + "/" + IntToString(ids[i]))
    requires forall i, j :: 0 <= i < j < |ids| ==> ids[i] != ids[j]
    requires form.customerId == Finite(ids[k])
    ensures AddTraining(s, CustomersWithIds(raw), form, response).request
         == Some(PostTraining(TrainingBody(form.activity, form.duration, form.date, base + "/" + IntToString(ids[k]))))
  {
    var cs := CustomersWithIds(raw);
    IdsFromLinks(raw, base, ids);
    FindDistinct(cs, ids, k);
    assert cs[k].selfHref == raw[k].selfHref;
  }

  /** A `NaN` customer id, what `Number` makes of a non-numeric choice, never posts a training. */
  lemma NaNCustomerNeverPosts(s: Screen, cs: seq<ListedCustomer>, form: TrainingForm, response: Response)
    requires form.customerId == NaN
    ensures AddTraining(s, cs, form, response).request.None?
    ensures AddTraining(s, cs, form, response).state.error == Some(AddFailed)
  {
  }

  /**
   * `handleDelete` with the answer of `window.confirm`: a declined delete
   * changes nothing; a confirmed one sends `DELETE /trainings/<id>` and
   * refetches exactly when the response is ok.
   */
  function HandleDelete(s: Screen, id: int, confirmed: bool, response: Response): (o: Outcome<Screen>)
    ensures !confirmed ==> o == Outcome(s, None, false)
    ensures confirmed ==> o.request == Some(DeleteTraining(id))
    ensures o.refetch <==> confirmed && Ok(response)
    ensures confirmed ==> (o.state.error.Some? <==> !Ok(response))
    ensures o.state.dialogOpen == s.dialogOpen
  {
    if !confirmed then Outcome(s, None, false)
    else
      DeleteFailedIffNotOk(response);
      var failed := DeleteFailed(response);
      Outcome(s.(error := if failed then Some("Harjoituksen poisto epäonnistui.") else None),
              Some(DeleteTraining(id)), !failed)
  }
}
