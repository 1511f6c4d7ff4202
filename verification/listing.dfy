/**
 * The projection every list screen derives from `(collection, search, sortConfig)`:
 * keep the rows that match the lower-cased search term (all rows for an empty
 * search), then sort them stably by the configured column, if any. Each screen
 * supplies its own matcher and its own column values.
 */
module Listing {
  import opened Options
  import opened Text
  import opened Sorting

  /** `a` is `b` with some rows left out and the rest in their order. */
  ghost predicate IsSubsequence<T>(a: seq<T>, b: seq<T>)
    decreases |b|
  {
    |a| == 0 || (|b| > 0 && ((a[0] == b[0] && IsSubsequence(a[1..], b[1..])) || IsSubsequence(a, b[1..])))
  }

  /** `xs.filter(x => matches(x, term))`. */
  function Search<T>(xs: seq<T>, matches: (T, string) -> bool, term: string): (r: seq<T>)
    ensures forall x :: x in r ==> x in xs && matches(x, term)
    ensures forall x :: x in xs && matches(x, term) ==> x in r
    ensures IsSubsequence(r, xs)
    ensures forall x :: x in xs ==> multiset(r)[x] == if matches(x, term) then multiset(xs)[x] else 0
  {
    if |xs| == 0 then []
    else
      var rest := Search(xs[1..], matches, term);
      assert forall x :: x in xs ==> x == xs[0] || x in xs[1..];
      assert xs == [xs[0]] + xs[1..];
      if matches(xs[0], term) then
        assert ([xs[0]] + rest)[1..] == rest;
        [xs[0]] + rest
      else rest
  }

  /** A row that every row matches is left untouched by the search. */
  lemma {:induction false} SearchAllMatch<T>(xs: seq<T>, matches: (T, string) -> bool, term: string)
    requires forall x :: x in xs ==> matches(x, term)
    ensures Search(xs, matches, term) == xs
  {
    if |xs| > 0 {
      SearchAllMatch(xs[1..], matches, term);
      assert xs == [xs[0]] + xs[1..];
    }
  }

  /** Searching the search result again with the same term changes nothing. */
  lemma SearchIdempotent<T>(xs: seq<T>, matches: (T, string) -> bool, term: string)
    ensures Search(Search(xs, matches, term), matches, term) == Search(xs, matches, term)
  {
    SearchAllMatch(Search(xs, matches, term), matches, term);
  }

  /** `if (search) rows = rows.filter(...)`: an empty search keeps every row. */
  function Filtered<T>(xs: seq<T>, search: string, matches: (T, string) -> bool): seq<T> {
    if search == "" then xs else Search(xs, matches, Lower(search))
  }

  /** The rows a list screen displays. */
  function Project<K, T>(xs: seq<T>, search: string, cfg: SortConfig<K>,
                         matches: (T, string) -> bool, key: (K, T) -> SortValue): (r: seq<T>)
    ensures multiset(r) == multiset(Filtered(xs, search, matches))
    ensures cfg.key.None? ==> r == Filtered(xs, search, matches)
  {
    var rows := Filtered(xs, search, matches);
    match cfg.key
    case None => rows
    case Some(k) => SortBy(rows, key, k, cfg.direction)
  }

  /**
   * What the screen shows: exactly the rows of the collection that match the
   * search, each as often as in the collection, sorted stably by the column
   * when one is set, and in fetched order otherwise.
   */
  lemma ProjectSpec<K, T>(xs: seq<T>, search: string, cfg: SortConfig<K>,
                          matches: (T, string) -> bool, key: (K, T) -> SortValue)
    ensures forall x :: x in Project(xs, search, cfg, matches, key) <==>
      x in xs && (search == "" || matches(x, Lower(search)))
    ensures forall x :: x in xs ==>
      multiset(Project(xs, search, cfg, matches, key))[x] ==
      (if search == "" || matches(x, Lower(search)) then multiset(xs)[x] else 0)
    ensures cfg.key.None? ==> IsSubsequence(Project(xs, search, cfg, matches, key), xs)
    ensures cfg.key.Some? ==>
      && Sorted(Project(xs, search, cfg, matches, key), key, cfg.key.value, cfg.direction)
      && Stable(Project(xs, search, cfg, matches, key), Filtered(xs, search, matches), key, cfg.key.value)
  {
    var r := Project(xs, search, cfg, matches, key);
    var rows := Filtered(xs, search, matches);
    assert forall x :: x in r <==> x in multiset(rows);
    if search == "" {
      IsSubsequenceRefl(xs);
    }
    if cfg.key.Some? {
      SortBySorted(rows, key, cfg.key.value, cfg.direction);
      SortByStable(rows, key, cfg.key.value, cfg.direction);
    }
  }

  lemma {:induction false} IsSubsequenceRefl<T>(xs: seq<T>)
    ensures IsSubsequence(xs, xs)
  {
    if |xs| > 0 {
      IsSubsequenceRefl(xs[1..]);
    }
  }

  /** With an empty search and no sort column the screen shows the fetched list as it is. */
  lemma ProjectIdentity<K, T>(xs: seq<T>, matches: (T, string) -> bool, key: (K, T) -> SortValue)
    ensures Project(xs, "", InitialSort(), matches, key) == xs
  {
  }

  /** Filtering the displayed rows again with the same search term changes nothing. */
  lemma FilteredIdempotent<T>(xs: seq<T>, search: string, matches: (T, string) -> bool)
    ensures Filtered(Filtered(xs, search, matches), search, matches) == Filtered(xs, search, matches)
  {
    if search != "" {
      SearchIdempotent(xs, matches, Lower(search));
    }
  }

  /** Clicking a tie-free column twice shows the rows in exactly the reverse order. */
  lemma ProjectDescendingReverses<K, T>(xs: seq<T>, search: string, k: K,
                                        matches: (T, string) -> bool, key: (K, T) -> SortValue)
    requires NoTies(xs, key, k)
    ensures Project(xs, search, SortConfig(Some(k), Descending), matches, key)
         == Reverse(Project(xs, search, SortConfig(Some(k), Ascending), matches, key))
  {
    var rows := Filtered(xs, search, matches);
    assert NoTies(rows, key, k) by {
      forall x, y | x in rows && y in rows && key(k, x) == key(k, y) ensures x == y {
        assert x in xs && y in xs;
      }
    }
    DescendingIsReverse(rows, key, k);
  }
}
