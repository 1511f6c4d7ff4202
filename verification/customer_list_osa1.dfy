/**
 * The customer screen of the first revision: a read-only table of the
 * backend's customers with a search over five fields and sortable columns.
 */
module CustomerListOsa1 {
  import opened Options
  import opened Text
  import opened Records
  import opened Sorting
  import opened Listing

  /**
   * The search predicate: the names, the email or the city, lower-cased,
   * contain the term, or the phone contains it as typed.
   */
  predicate FiveFieldsMatch(c: ApiCustomer, term: string) {
    || Contains(Lower(c.firstname), term)
    || Contains(Lower(c.lastname), term)
    || Contains(Lower(c.email), term)
    || Contains(Lower(c.city), term)
    || Contains(c.phone, term)
  }

  /** `a[key] ?? ''`: every field is present, so a column sorts by its text. */
  function ColumnValue(f: CustomerField, c: ApiCustomer): SortValue {
    Text(ApiField(c, f))
  }

  /** The rows the table shows for a search and a sort column. */
  function ProcessedCustomers(cs: seq<ApiCustomer>, search: string, cfg: SortConfig<CustomerField>): (r: seq<ApiCustomer>)
    ensures forall c :: c in r ==> c in cs && (search == "" || FiveFieldsMatch(c, Lower(search)))
    ensures forall c :: c in cs && (search == "" || FiveFieldsMatch(c, Lower(search))) ==> c in r
    ensures multiset(r) == multiset(Filtered(cs, search, FiveFieldsMatch))
    ensures cfg.key.None? ==> r == Filtered(cs, search, FiveFieldsMatch)
    ensures cfg.key.Some? ==> forall i, j :: 0 <= i < j < |r| ==>
      Before(cfg.direction, ColumnValue(cfg.key.value, r[i]), ColumnValue(cfg.key.value, r[j]))
    ensures cfg.key.Some? ==> Stable(r, Filtered(cs, search, FiveFieldsMatch), ColumnValue, cfg.key.value)
  {
    ProjectSpec(cs, search, cfg, FiveFieldsMatch, ColumnValue);
    Project(cs, search, cfg, FiveFieldsMatch, ColumnValue)
  }

  /** The street address, the post code and the link play no part in the search. */
  lemma SearchIgnoresAddress(c: ApiCustomer, streetaddress: string, postcode: string, term: string)
    ensures FiveFieldsMatch(c.(streetaddress := streetaddress, postcode := postcode, selfHref := None), term)
        <==> FiveFieldsMatch(c, term)
  {
  }

  /**
   * The phone is not lower-cased: a phone written with an upper-case letter is
   * not found by a search that spells that letter, because the term itself is
   * always lower-cased.
   */
  lemma PhoneSearchIsCaseSensitive()
    ensures var c := ApiCustomer("", "", "", "", "", "", "EXT", None);
      !FiveFieldsMatch(c, Lower("EXT")) && Contains(Lower(c.phone), Lower("EXT"))
  {
    var c := ApiCustomer("", "", "", "", "", "", "EXT", None);
    assert Lower("EXT") == "ext";
    assert Lower(c.phone) == "ext";
    assert IsPrefix("ext", "ext");
    assert !Contains("EXT", "ext") by {
      assert !IsPrefix("ext", "EXT");
      assert !Contains("XT", "ext");
    }
  }
}
