/**
 * The training screen of the first revision: a read-only table of the
 * trainings with their embedded customers, a search over the name, the
 * activity and the formatted date, and sortable columns.
 */
module TrainingListOsa1 {
  import opened Options
  import opened Text
  import opened Records
  import opened Sorting
  import opened Listing
  import TrainingList

  type TrainingColumn = TrainingList.TrainingColumn

  /** The search predicate: the customer's name or the activity, lower-cased, or the formatted date contains the term. */
  predicate TrainingMatches(format: int -> string, t: EmbeddedTraining, term: string) {
    || Contains(Lower(FullName(t.customer)), term)
    || Contains(Lower(t.activity), term)
    || Contains(format(t.date), term)
  }

  function Matcher(format: int -> string): (EmbeddedTraining, string) -> bool {
    (t, term) => TrainingMatches(format, t, term)
  }

  /** What a column sorts by: the full name, the instant, or the raw field. */
  function ColumnValue(k: TrainingColumn, t: EmbeddedTraining): SortValue {
    match k
    case ActivityColumn => Text(t.activity)
    case DurationColumn => Number(t.duration)
    case DateColumn => Number(t.date)
    case CustomerColumn => Text(FullName(t.customer))
  }

  /** The rows the table shows for a search and a sort column. */
  function ProcessedTrainings(ts: seq<EmbeddedTraining>, format: int -> string,
                              search: string, cfg: SortConfig<TrainingColumn>): (r: seq<EmbeddedTraining>)
    ensures forall t :: t in r ==> t in ts && (search == "" || TrainingMatches(format, t, Lower(search)))
    ensures forall t :: t in ts && (search == "" || TrainingMatches(format, t, Lower(search))) ==> t in r
    ensures multiset(r) == multiset(Filtered(ts, search, Matcher(format)))
    ensures cfg.key.None? ==> r == Filtered(ts, search, Matcher(format))
    ensures cfg.key.Some? ==> forall i, j :: 0 <= i < j < |r| ==>
      Before(cfg.direction, ColumnValue(cfg.key.value, r[i]), ColumnValue(cfg.key.value, r[j]))
    ensures cfg.key.Some? ==> Stable(r, Filtered(ts, search, Matcher(format)), ColumnValue, cfg.key.value)
  {
    ProjectSpec(ts, search, cfg, Matcher(format), ColumnValue);
    Project(ts, search, cfg, Matcher(format), ColumnValue)
  }

  /** Sorting by customer orders the trainings by the customers' full names. */
  lemma CustomerSortOrdersNames(ts: seq<EmbeddedTraining>, format: int -> string, search: string, i: nat, j: nat)
    requires i < j < |ProcessedTrainings(ts, format, search, SortConfig(Some(TrainingList.CustomerColumn), Ascending))|
    ensures var r := ProcessedTrainings(ts, format, search, SortConfig(Some(TrainingList.CustomerColumn), Ascending));
      !TextLess(FullName(r[j].customer), FullName(r[i].customer))
  {
    var r := ProcessedTrainings(ts, format, search, SortConfig(Some(TrainingList.CustomerColumn), Ascending));
    var a, b := Text(FullName(r[i].customer)), Text(FullName(r[j].customer));
    assert Before(Ascending, a, b);
    LessStrictTotal(a, b, a);
  }
}
