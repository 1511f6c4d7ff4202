/**
 * The records the screens hold: customers in the shapes the three revisions
 * use, trainings with an optional or a mandatory embedded customer, and the
 * id a record derives from its `_links.self.href`.
 */
module Records {
  import opened Options
  import opened Text
  import opened Numbers

  /** The `{ firstname, lastname }` summary a training embeds. */
  datatype Person = Person(firstname: string, lastname: string)

  /** `${firstname} ${lastname}`. */
  function FullName(p: Person): (r: string)
    ensures |r| == |p.firstname| + 1 + |p.lastname|
    ensures r[|p.firstname|] == ' '
  {
    p.firstname + " " + p.lastname
  }

  /** The seven editable customer fields, in the order of the table columns. */
  datatype CustomerField = FirstName | LastName | Email | StreetAddress | PostCode | City | Phone

  predicate Optional(f: CustomerField) {
    f == StreetAddress || f == PostCode || f == City || f == Phone
  }

  /**
   * A customer of the list screens that may lack the four address and phone
   * fields; `selfHref` is `_links.self.href` when the backend sent one.
   */
  datatype Customer = Customer(
    id: int,
    firstname: string, lastname: string, email: string,
    streetaddress: Option<string>, postcode: Option<string>, city: Option<string>, phone: Option<string>,
    selfHref: Option<string>)

  /** `c[f]`, absent for an optional field the record does not carry. */
  function Field(c: Customer, f: CustomerField): (r: Option<string>)
    ensures !Optional(f) ==> r.Some?
  {
    match f
    case FirstName => Some(c.firstname)
    case LastName => Some(c.lastname)
    case Email => Some(c.email)
    case StreetAddress => c.streetaddress
    case PostCode => c.postcode
    case City => c.city
    case Phone => c.phone
  }

  /** `c[f] ?? ''`. */
  function FieldOrEmpty(c: Customer, f: CustomerField): string {
    Field(c, f).GetOr("")
  }

  /** The customer record of the backend as typed in `api.ts`: every field present. */
  datatype ApiCustomer = ApiCustomer(
    firstname: string, lastname: string, email: string,
    streetaddress: string, postcode: string, city: string, phone: string,
    selfHref: Option<string>)

  function ApiField(c: ApiCustomer, f: CustomerField): string {
    match f
    case FirstName => c.firstname
    case LastName => c.lastname
    case Email => c.email
    case StreetAddress => c.streetaddress
    case PostCode => c.postcode
    case City => c.city
    case Phone => c.phone
  }

  /** A customer as offered by the training screens, with the id taken from its link. */
  datatype ListedCustomer = ListedCustomer(id: JsNumber, person: Person, selfHref: Option<string>)

  /** A training whose customer may be embedded or only referenced by `customerId`; `date` is in minutes. */
  datatype Training = Training(
    id: int, activity: string, duration: int, date: int,
    customerId: int, customer: Option<Person>)

  /** A training of the `/gettrainings` endpoint, which always embeds its customer. */
  datatype EmbeddedTraining = EmbeddedTraining(
    id: int, date: int, duration: int, activity: string, customer: Person)

  /** `s || '0'`. */
  function OrZero(s: string): string {
    if s == "" then "0" else s
  }

  /** `parseInt(href?.split('/').pop() || '0')`: the id a record derives from its self link. */
  function HrefId(href: Option<string>): JsNumber {
    match href
    case None => ParseInt("0")
    case Some(h) => ParseInt(OrZero(LastSegment(h)))
  }

  /** A link that ends in `/<n>` yields the id `n`. */
  lemma HrefIdOfResource(base: string, n: int)
    ensures HrefId(Some(base + "/" + IntToString(n))) == Finite(n)
  {
    var seg := IntToString(n);
    assert '/' !in seg by {
      if n < 0 {
        assert seg == "-" + NatToString(-n);
        assert forall i :: 1 <= i < |seg| ==> IsDigit(seg[i]) by {
          forall i | 1 <= i < |seg| ensures IsDigit(seg[i]) {
            assert seg[i] == NatToString(-n)[i - 1];
          }
        }
      }
    }
    LastSegmentAfterSlash(base, seg);
    if n < 0 {
      assert seg != "";
    } else {
      assert |NatToString(n)| > 0;
    }
    ParseIntRoundTrip(n);
  }

  /** A missing link, or one that ends in '/', yields the id 0. */
  lemma HrefIdDefaultsToZero(href: Option<string>)
    requires href.None? || (|href.value| > 0 && href.value[|href.value| - 1] == '/')
    ensures HrefId(href) == Finite(0)
  {
    assert IntToString(0) == "0";
    ParseIntRoundTrip(0);
  }

  /** The seven text fields of the customer dialog's form; absent values are held as ''. */
  datatype CustomerForm = CustomerForm(
    firstname: string, lastname: string, email: string,
    streetaddress: string, postcode: string, city: string, phone: string)

  function FormField(f: CustomerForm, field: CustomerField): string {
    match field
    case FirstName => f.firstname
    case LastName => f.lastname
    case Email => f.email
    case StreetAddress => f.streetaddress
    case PostCode => f.postcode
    case City => f.city
    case Phone => f.phone
  }

  /** What the customer dialog hands to its `onSave`: the form, plus the id of the customer being edited. */
  datatype CustomerPayload = CustomerPayload(form: CustomerForm, id: Option<int>)

  /** The training dialog's form; `date` is an ISO date-time text, `customerId` what the select holds. */
  datatype TrainingForm = TrainingForm(activity: string, duration: int, date: string, customerId: JsNumber)
}
