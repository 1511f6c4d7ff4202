/**
 * The customer screen of the final revision: a search over every value of
 * the record, a sortable table whose absent fields sort as '', the CSV export
 * of what the table shows, and the save and delete handlers.
 */
module CustomerList {
  import opened Options
  import opened Text
  import opened Numbers
  import opened Records
  import opened Sorting
  import opened Listing
  import opened Gateway
  import CustomerListOsa2
  import AddCustomerDialog

  /** `Object.values(c).map(String)`: the id and every field the record carries. */
  function FieldValues(c: Customer): (r: seq<string>)
    ensures forall v :: v in r ==> v == IntToString(c.id) || exists f :: Field(c, f) == Some(v)
    ensures IntToString(c.id) in r
    ensures forall f :: Field(c, f).Some? ==> Field(c, f).value in r
  {
    var optionals := [c.streetaddress, c.postcode, c.city, c.phone];
    var r := [IntToString(c.id), c.firstname, c.lastname, c.email] + Present(optionals);
    assert forall f :: Field(c, f).Some? ==> Field(c, f).value in r by {
      forall f | Field(c, f).Some? ensures Field(c, f).value in r {
        if Optional(f) {
          assert Field(c, f) in optionals;
        }
      }
    }
    assert forall v :: v in Present(optionals) ==> exists f :: Field(c, f) == Some(v) by {
      forall v | v in Present(optionals) ensures exists f :: Field(c, f) == Some(v) {
        if Some(v) == c.streetaddress {
          assert Field(c, StreetAddress) == Some(v);
        } else if Some(v) == c.postcode {
          assert Field(c, PostCode) == Some(v);
        } else if Some(v) == c.city {
          assert Field(c, City) == Some(v);
        } else {
          assert Field(c, Phone) == Some(v);
        }
      }
    }
    assert forall v :: v in [c.firstname, c.lastname, c.email] ==> exists f :: Field(c, f) == Some(v) by {
      assert Field(c, FirstName) == Some(c.firstname);
      assert Field(c, LastName) == Some(c.lastname);
      assert Field(c, Email) == Some(c.email);
    }
    r
  }

  /** The values of the options that are present, in order. */
  function Present(os: seq<Option<string>>): (r: seq<string>)
    ensures forall o :: o in os && o.Some? ==> o.value in r
    ensures forall v :: v in r ==> Some(v) in os
  {
    if |os| == 0 then []
    else
      assert forall o :: o in os ==> o == os[0] || o in os[1..];
      (if os[0].Some? then [os[0].value] else []) + Present(os[1..])
  }

  /** `Object.values(c).some(val => String(val).toLowerCase().includes(term))`. */
  predicate AnyValueMatches(c: Customer, term: string) {
    exists v :: v in FieldValues(c) && Contains(Lower(v), term)
  }

  /** A string without upper-case letters is its own lower case. */
  lemma {:induction false} LowerOfLower(s: string)
    requires forall i :: 0 <= i < |s| ==> !IsUpper(s[i])
    ensures Lower(s) == s
  {
  }

  /** `String(n)` has no letters, so lower-casing it changes nothing. */
  lemma LowerIntToString(n: int)
    ensures Lower(IntToString(n)) == IntToString(n)
  {
    var s := IntToString(n);
    assert forall i :: 0 <= i < |s| ==> !IsUpper(s[i]) by {
      if n < 0 {
        forall i | 1 <= i < |s| ensures !IsUpper(s[i]) {
          assert s[i] == NatToString(-n)[i - 1];
        }
      }
    }
    LowerOfLower(s);
  }

  /**
   * The search of this revision finds what the second revision's named-field
   * search finds, plus the customers whose id contains the term.
   */
  lemma AnyValueMatchesIff(c: Customer, term: string)
    requires term != ""
    ensures AnyValueMatches(c, term) <==>
      CustomerListOsa2.NamedFieldsMatch(c, term) || Contains(IntToString(c.id), term)
  {
    CustomerListOsa2.NamedFieldsMatchIff(c, term);
    LowerIntToString(c.id);
    var values := FieldValues(c);
    if AnyValueMatches(c, term) {
      var v :| v in values && Contains(Lower(v), term);
      if v != IntToString(c.id) {
        var f :| Field(c, f) == Some(v);
        assert Field(c, f).Some? && Contains(Lower(Field(c, f).value), term);
      }
    }
    if CustomerListOsa2.NamedFieldsMatch(c, term) {
      var f :| Field(c, f).Some? && Contains(Lower(Field(c, f).value), term);
      assert Field(c, f).value in values;
    }
    if Contains(IntToString(c.id), term) {
      assert IntToString(c.id) in values;
    }
  }

  /** `a[key] ?? ''`: the value a column sorts by. */
  function ColumnValue(f: CustomerField, c: Customer): SortValue {
    Text(FieldOrEmpty(c, f))
  }

  /** The rows the table shows for a search and a sort column. */
  function ProcessedCustomers(cs: seq<Customer>, search: string, cfg: SortConfig<CustomerField>): (r: seq<Customer>)
    ensures forall c :: c in r ==> c in cs && (search == "" || AnyValueMatches(c, Lower(search)))
    ensures forall c :: c in cs && (search == "" || AnyValueMatches(c, Lower(search))) ==> c in r
    ensures multiset(r) == multiset(Filtered(cs, search, AnyValueMatches))
    ensures cfg.key.None? ==> r == Filtered(cs, search, AnyValueMatches)
    ensures cfg.key.Some? ==> forall i, j :: 0 <= i < j < |r| ==>
      Before(cfg.direction, ColumnValue(cfg.key.value, r[i]), ColumnValue(cfg.key.value, r[j]))
    ensures cfg.key.Some? ==> Stable(r, Filtered(cs, search, AnyValueMatches), ColumnValue, cfg.key.value)
  {
    ProjectSpec(cs, search, cfg, AnyValueMatches, ColumnValue);
    Project(cs, search, cfg, AnyValueMatches, ColumnValue)
  }

  /** The value of a table cell: a column's key is a customer field or the action buttons. */
  datatype ColumnKey = FieldColumn(field: CustomerField) | Actions

  datatype Column = Column(key: ColumnKey, heading: string, sortable: bool)

  /** The table's columns, shared with the CSV export. */
  const Columns: seq<Column> := [
    Column(FieldColumn(FirstName), "Etunimi", true),
    Column(FieldColumn(LastName), "Sukunimi", true),
    Column(FieldColumn(Email), "Email", true),
    Column(FieldColumn(StreetAddress), "Osoite", true),
    Column(FieldColumn(PostCode), "Postinumero", true),
    Column(FieldColumn(City), "Kaupunki", true),
    Column(FieldColumn(Phone), "Puhelin", true),
    Column(Actions, "Toiminnot", false)
  ]

  /** A CSV header: the column label over the field it exports. */
  datatype CsvHeader = CsvHeader(heading: string, field: CustomerField)

  /** `columns.filter(col => col.key !== 'actions').map(...)`, over any column list. */
  function HeadersOf(cols: seq<Column>): (r: seq<CsvHeader>)
    ensures |r| <= |cols|
  {
    if |cols| == 0 then []
    else
      var rest := HeadersOf(cols[1..]);
      match cols[0].key
      case Actions => rest
      case FieldColumn(f) => [CsvHeader(cols[0].heading, f)] + rest
  }

  /**
   * When the field columns all come before the action columns, the headers
   * are the field columns, one for one and in order.
   */
  lemma {:induction false} HeadersOfFieldsFirst(cols: seq<Column>, n: nat)
    requires n <= |cols|
    requires forall i :: 0 <= i < n ==> cols[i].key.FieldColumn?
    requires forall i :: n <= i < |cols| ==> cols[i].key.Actions?
    ensures |HeadersOf(cols)| == n
    ensures forall i :: 0 <= i < n ==> HeadersOf(cols)[i] == CsvHeader(cols[i].heading, cols[i].key.field)
  {
    if |cols| > 0 {
      if n == 0 {
        HeadersOfFieldsFirst(cols[1..], 0);
      } else {
        HeadersOfFieldsFirst(cols[1..], n - 1);
        var r := HeadersOf(cols);
        assert r == [CsvHeader(cols[0].heading, cols[0].key.field)] + HeadersOf(cols[1..]);
        assert forall i :: 1 <= i < n ==> r[i] == HeadersOf(cols[1..])[i - 1];
      }
    }
  }

  /** The export's headers are the table's sortable columns, in table order and with the table's labels. */
  function CsvHeaders(): (r: seq<CsvHeader>)
    ensures |r| == |Columns| - 1
    ensures forall i :: 0 <= i < |r| ==>
      Columns[i].sortable && Columns[i].key == FieldColumn(r[i].field) && Columns[i].heading == r[i].heading
  {
    HeadersOfFieldsFirst(Columns, 7);
    HeadersOf(Columns)
  }

  /** One exported row: every header's field, with '' for an absent one. */
  function CsvRow(c: Customer, headers: seq<CsvHeader>): (r: seq<string>)
    ensures |r| == |headers|
    ensures forall j :: 0 <= j < |headers| ==> r[j] == FieldOrEmpty(c, headers[j].field)
  {
    seq(|headers|, j requires 0 <= j < |headers| => FieldOrEmpty(c, headers[j].field))
  }

  /** `csvData`: one row per displayed customer, in display order. */
  function CsvData(displayed: seq<Customer>): (r: seq<seq<string>>)
    ensures |r| == |displayed|
    ensures forall i :: 0 <= i < |r| ==> r[i] == CsvRow(displayed[i], CsvHeaders())
  {
    seq(|displayed|, i requires 0 <= i < |displayed| => CsvRow(displayed[i], CsvHeaders()))
  }

  /** `c[col.key] ?? '-'`: what a table cell shows. */
  function TableCell(c: Customer, f: CustomerField): string {
    Field(c, f).GetOr("-")
  }

  /**
   * The export holds what the table shows, cell for cell, except that an
   * absent field is exported as '' where the table shows '-'.
   */
  lemma CsvAgreesWithTable(displayed: seq<Customer>, i: nat, j: nat)
    requires i < |displayed| && j < |CsvHeaders()|
    ensures var cell := CsvData(displayed)[i][j];
      var f := CsvHeaders()[j].field;
      && Columns[j].key == FieldColumn(f)
      && (Field(displayed[i], f).Some? ==> cell == TableCell(displayed[i], f))
      && (Field(displayed[i], f).None? ==> cell == "" && TableCell(displayed[i], f) == "-")
  {
  }

  /** The state of the screen besides the list, the search and the sort. */
  datatype Screen = Screen(error: Option<string>, dialogOpen: bool, editing: Option<Customer>)

  /** `handleOpenDialog`: open the dialog, for a new customer or for editing `c`. */
  function OpenDialog(s: Screen, c: Option<Customer>): (r: Screen)
    ensures r.dialogOpen && r.editing == c && r.error == s.error
  {
    s.(dialogOpen := true, editing := c)
  }

  /** `handleCloseDialog`. */
  function CloseDialog(s: Screen): (r: Screen)
    ensures !r.dialogOpen && r.editing.None? && r.error == s.error
  {
    s.(dialogOpen := false, editing := None)
  }

  /** `'id' in customerData && customerData.id`: the payload names an existing customer. */
  predicate IsUpdate(p: CustomerPayload) {
    p.id.Some? && p.id.value != 0
  }

  /**
   * `handleSave`: a payload with a non-zero id updates that customer, any
   * other adds one. `addCustomer` and `updateCustomer` catch their own
   * failures, so the dialog closes whether or not the request succeeded.
   */
  function HandleSave(s: Screen, p: CustomerPayload, response: Response): (o: Outcome<Screen>)
    ensures IsUpdate(p) ==> o.request == Some(PutCustomer(Finite(p.id.value)))
    ensures !IsUpdate(p) ==> o.request == Some(PostCustomer(p.form))
    ensures o.refetch <==> Ok(response)
    ensures o.state.error.Some? <==> !Ok(response)
    ensures !o.state.dialogOpen && o.state.editing.None?
  {
    var closed := CloseDialog(s);
    if IsUpdate(p) then
      Outcome(closed.(error := if Ok(response) then None else Some("Asiakkaan päivitys epäonnistui.")),
              Some(PutCustomer(Finite(p.id.value))), Ok(response))
    else
      Outcome(closed.(error := if Ok(response) then None else Some("Asiakkaan lisäys epäonnistui.")),
              Some(PostCustomer(p.form)), Ok(response))
  }

  /**
   * `handleDelete` with the answer of `window.confirm`: a declined delete
   * changes nothing; a confirmed one sends `DELETE /customers/<id>` and
   * refetches exactly when the response is ok.
   */
  function HandleDelete(s: Screen, id: int, confirmed: bool, response: Response): (o: Outcome<Screen>)
    ensures !confirmed ==> o == Outcome(s, None, false)
    ensures confirmed ==> o.request == Some(DeleteCustomer(Finite(id)))
    ensures o.refetch <==> confirmed && Ok(response)
    ensures confirmed ==> (o.state.error.Some? <==> !Ok(response))
    ensures o.state.dialogOpen == s.dialogOpen && o.state.editing == s.editing
  {
    if !confirmed then Outcome(s, None, false)
    else
      DeleteFailedIffNotOk(response);
      var failed := DeleteFailed(response);
      Outcome(s.(error := if failed then Some("Asiakkaan poisto epäonnistui.") else None),
              Some(DeleteCustomer(Finite(id))), !failed)
  }

  /**
   * Opening the dialog for a listed customer, typing, and saving updates that
   * customer when its id is non-zero; with id 0 the edit is sent as a new customer.
   */
  lemma EditSaveTargetsCustomer(s: Screen, c: Customer, form: CustomerForm,
                                edits: seq<(CustomerField, string)>, response: Response)
    ensures var p := AddCustomerDialog.Save(
        AddCustomerDialog.ApplyAll(AddCustomerDialog.OnOpen(form, Some(c), true), edits), Some(c));
      HandleSave(s, p, response).request
        == if c.id != 0 then Some(PutCustomer(Finite(c.id))) else Some(PostCustomer(p.form))
  {
  }
}
