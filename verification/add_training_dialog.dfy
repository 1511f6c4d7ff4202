/**
 * The dialog that adds a training: its form, the reset when it opens, the
 * field handlers, and the validation that guards `onSave`. The current
 * instant is a parameter (`now`, already an ISO text).
 */
module AddTrainingDialog {
  import opened Options
  import opened Text
  import opened Numbers
  import opened Records

  /** One message per field; '' means the field is valid. */
  datatype FormErrors = FormErrors(activity: string, duration: string, date: string, customerId: string)

  const NoErrors: FormErrors := FormErrors("", "", "", "")

  const ActivityRequired: string := "Aktiviteetti on pakollinen"
  const DurationPositive: string := "Keston täytyy olla suurempi kuin 0"
  const DateRequired: string := "Päivämäärä on pakollinen"
  const CustomerRequired: string := "Asiakas on pakollinen"

  /** The dialog's state: the form and the messages shown under its fields. */
  datatype Dialog = Dialog(form: TrainingForm, errors: FormErrors)

  /** The form the dialog starts a new training from: the first offered customer is chosen. */
  function FreshForm(now: string, first: JsNumber): TrainingForm {
    TrainingForm("", 0, now, first)
  }

  /**
   * The effect that runs when `open` or the customers change: while open and
   * with customers to offer, the form and its messages start afresh;
   * otherwise the dialog keeps its state.
   */
  function Reset(d: Dialog, open: bool, customers: seq<ListedCustomer>, now: string): (r: Dialog)
    ensures open && |customers| > 0 ==> r == Dialog(FreshForm(now, customers[0].id), NoErrors)
    ensures !open || |customers| == 0 ==> r == d
  {
    if open && |customers| > 0 then Dialog(FreshForm(now, customers[0].id), NoErrors) else d
  }

  /** `validateForm`: the messages for a form. */
  function Errors(f: TrainingForm): FormErrors {
    FormErrors(
      if Trim(f.activity) == "" then ActivityRequired else "",
      if f.duration <= 0 then DurationPositive else "",
      if f.date == "" then DateRequired else "",
      if !Truthy(f.customerId) then CustomerRequired else "")
  }

  /** `!Object.values(errors).some(e => e !== '')`. */
  predicate NoneSet(e: FormErrors) {
    e.activity == "" && e.duration == "" && e.date == "" && e.customerId == ""
  }

  /**
   * A form is valid exactly when its activity is not blank, its duration is
   * positive, it has a date, and a customer id other than 0 and `NaN` is chosen.
   */
  lemma ValidIff(f: TrainingForm)
    ensures NoneSet(Errors(f)) <==>
      !Blank(f.activity) && f.duration > 0 && f.date != "" && f.customerId.Finite? && f.customerId.value != 0
  {
    TrimEmptyIffBlank(f.activity);
  }

  /** Each message appears exactly when its own check fails, whatever the other fields hold. */
  lemma ErrorsAreIndependent(f: TrainingForm, g: TrainingForm)
    ensures f.activity == g.activity ==> Errors(f).activity == Errors(g).activity
    ensures f.duration == g.duration ==> Errors(f).duration == Errors(g).duration
    ensures f.date == g.date ==> Errors(f).date == Errors(g).date
    ensures f.customerId == g.customerId ==> Errors(f).customerId == Errors(g).customerId
  {
  }

  /** `handleSave`: a valid form is handed to `onSave` and the dialog closes; an invalid one only shows its messages. */
  function Save(d: Dialog): (r: (Dialog, Option<TrainingForm>, bool))
    ensures r.0 == Dialog(d.form, Errors(d.form))
    ensures r.1.Some? <==> !Blank(d.form.activity) && d.form.duration > 0 && d.form.date != "" && Truthy(d.form.customerId)
    ensures r.1.Some? ==> r.1.value == d.form
    ensures r.2 <==> r.1.Some?
  {
    ValidIff(d.form);
    var errors := Errors(d.form);
    if NoneSet(errors) then (Dialog(d.form, errors), Some(d.form), true)
    else (Dialog(d.form, errors), None, false)
  }

  /** A freshly reset form never saves: its activity is empty and its duration is 0. */
  lemma FreshFormRejected(now: string, first: JsNumber)
    ensures Errors(FreshForm(now, first)).activity == ActivityRequired
    ensures Errors(FreshForm(now, first)).duration == DurationPositive
    ensures Save(Dialog(FreshForm(now, first), NoErrors)).1.None?
  {
    var f := FreshForm(now, first);
    assert TrimStart(f.activity) == "";
    assert Trim(f.activity) == "";
    assert Errors(f).duration == DurationPositive;
    assert !NoneSet(Errors(f));
  }

  /** The text inputs of the form, by their `name`. */
  datatype Input = ActivityInput | DurationInput

  /** `handleInputChange`: the duration takes `parseInt(value) || 0`, the activity the text itself. */
  function InputChange(f: TrainingForm, input: Input, value: string): (r: TrainingForm)
    ensures input == ActivityInput ==> r == f.(activity := value)
    ensures input == DurationInput ==> r == f.(duration := r.duration)
    ensures input == DurationInput && ParseInt(value).Finite? ==> r.duration == ParseInt(value).value
    ensures input == DurationInput && ParseInt(value).NaN? ==> r.duration == 0
  {
    match input
    case ActivityInput => f.(activity := value)
    case DurationInput =>
      var n := ParseInt(value);
      f.(duration := if Truthy(n) then n.value else 0)
  }

  /** Typing the digits of a number into the duration field sets the duration to that number. */
  lemma DurationInputRoundTrip(f: TrainingForm, n: int)
    ensures InputChange(f, DurationInput, IntToString(n)).duration == n
  {
    ParseIntRoundTrip(n);
  }

  /** `handleDateChange`: a picked instant replaces the date; clearing the picker keeps it. */
  function DateChange(f: TrainingForm, picked: Option<string>): (r: TrainingForm)
    ensures picked.Some? ==> r == f.(date := picked.value)
    ensures picked.None? ==> r == f
  {
    match picked
    case Some(iso) => f.(date := iso)
    case None => f
  }

  /**
   * Picking an instant sets the date the form is validated on: a picked,
   * non-empty ISO text clears the date's message, and clearing the picker
   * leaves every message as it was. The other messages never change.
   */
  lemma DateChangeValidation(f: TrainingForm, picked: Option<string>)
    ensures picked.Some? && picked.value != "" ==> Errors(DateChange(f, picked)).date == ""
    ensures picked.None? ==> Errors(DateChange(f, picked)) == Errors(f)
    ensures Errors(DateChange(f, picked)).(date := Errors(f).date) == Errors(f)
  {
  }

  /** `handleCustomerChange`: the select's value through `Number`. */
  function CustomerChange(f: TrainingForm, value: string): (r: TrainingForm)
    ensures r == f.(customerId := r.customerId)
  {
    f.(customerId := NumberOf(value))
  }

  /** Choosing a customer whose option value is its id sets exactly that id. */
  lemma CustomerChangeRoundTrip(f: TrainingForm, c: ListedCustomer)
    requires c.id.Finite?
    ensures CustomerChange(f, IntToString(c.id.value)).customerId == c.id
  {
    NumberOfRoundTrip(c.id.value);
  }
}
