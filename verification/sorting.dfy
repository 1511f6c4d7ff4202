/**
 * Sorting a list screen's rows by one column: the sort configuration and its
 * `requestSort` toggle, the comparator every screen passes to
 * `Array.prototype.sort`, and a stable sort by that comparator, which
 * `Array.prototype.sort` is required to be (section 23.1.3.30 of ECMA-262).
 */
module Sorting {
  import opened Options

  /** The value a row shows in the sort column: a string, or a number (a duration or a timestamp). */
  datatype SortValue = Text(s: string) | Number(n: int)

  /** JavaScript's `a < b` on strings: character by character, a proper prefix first. */
  predicate TextLess(a: string, b: string)
    decreases |a|
  {
    if |a| == 0 then |b| > 0
    else if |b| == 0 then false
    else if a[0] != b[0] then a[0] < b[0]
    else TextLess(a[1..], b[1..])
  }

  /**
   * `a < b` on two sort values. Every column yields values of one kind, so the
   * order between a number and a string is only fixed to make the order total.
   */
  predicate Less(a: SortValue, b: SortValue) {
    match (a, b)
    case (Number(x), Number(y)) => x < y
    case (Text(x), Text(y)) => TextLess(x, y)
    case (Number(_), Text(_)) => true
    case (Text(_), Number(_)) => false
  }

  lemma {:induction false} TextLessIrreflexive(a: string)
    ensures !TextLess(a, a)
    decreases |a|
  {
    if |a| > 0 {
      TextLessIrreflexive(a[1..]);
    }
  }

  lemma {:induction false} TextLessTransitive(a: string, b: string, c: string)
    requires TextLess(a, b) && TextLess(b, c)
    ensures TextLess(a, c)
    decreases |a|
  {
    if |a| > 0 && |b| > 0 && |c| > 0 && a[0] == b[0] && b[0] == c[0] {
      TextLessTransitive(a[1..], b[1..], c[1..]);
    }
  }

  lemma {:induction false} TextLessTotal(a: string, b: string)
    ensures a == b || TextLess(a, b) || TextLess(b, a)
    decreases |a|
  {
    if |a| > 0 && |b| > 0 && a[0] == b[0] {
      TextLessTotal(a[1..], b[1..]);
      if a[1..] == b[1..] {
        assert a == [a[0]] + a[1..] && b == [b[0]] + b[1..];
      }
    }
  }

  /** `Less` is a strict total order on sort values. */
  lemma LessStrictTotal(a: SortValue, b: SortValue, c: SortValue)
    ensures !Less(a, a)
    ensures Less(a, b) && Less(b, c) ==> Less(a, c)
    ensures a == b || Less(a, b) || Less(b, a)
  {
    if a.Text? {
      TextLessIrreflexive(a.s);
    }
    if a.Text? && b.Text? && c.Text? && Less(a, b) && Less(b, c) {
      TextLessTransitive(a.s, b.s, c.s);
    }
    if a.Text? && b.Text? {
      TextLessTotal(a.s, b.s);
    }
  }

  datatype Direction = Ascending | Descending

  /** `{ key, direction }`: the column the rows are sorted by, if any, and the direction. */
  datatype SortConfig<K> = SortConfig(key: Option<K>, direction: Direction)

  /** The configuration every list screen starts with: no sort column, ascending. */
  function InitialSort<K>(): SortConfig<K> {
    SortConfig(None, Ascending)
  }

  /**
   * `requestSort(k)`, run when the header of column `k` is clicked: a second
   * click on an ascending column turns it descending, any other click sorts
   * ascending by `k`.
   */
  function RequestSort<K(==)>(cfg: SortConfig<K>, k: K): (r: SortConfig<K>)
    ensures r.key == Some(k)
    ensures r.direction == Descending <==> cfg.key == Some(k) && cfg.direction == Ascending
  {
    var direction := if cfg.key == Some(k) && cfg.direction == Ascending then Descending else Ascending;
    SortConfig(Some(k), direction)
  }

  /** Clicking the same header again always flips the direction. */
  lemma {:induction false} RequestSortRepeatedFlips<K>(cfg: SortConfig<K>, k: K)
    ensures RequestSort(RequestSort(cfg, k), k).direction != RequestSort(cfg, k).direction
    ensures RequestSort(RequestSort(RequestSort(cfg, k), k), k) == RequestSort(cfg, k)
  {
  }

  /** The comparator the screens pass to `sort`: -1, 1 or 0, with the signs swapped when descending. */
  function Compare(dir: Direction, a: SortValue, b: SortValue): int {
    if Less(a, b) then (if dir == Ascending then -1 else 1)
    else if Less(b, a) then (if dir == Ascending then 1 else -1)
    else 0
  }

  /** Descending negates the ascending comparator, and equal values compare 0. */
  lemma CompareDescendingNegates(a: SortValue, b: SortValue)
    ensures Compare(Descending, a, b) == -Compare(Ascending, a, b)
    ensures Compare(Ascending, b, a) == -Compare(Ascending, a, b)
    ensures Compare(Ascending, a, b) == 0 <==> a == b
  {
    LessStrictTotal(a, b, a);
    LessStrictTotal(b, a, b);
  }

  /** `a` may stand before `b` in the sorted rows: the comparator does not ask to swap them. */
  predicate Before(dir: Direction, a: SortValue, b: SortValue) {
    Compare(dir, a, b) <= 0
  }

  /** `Before` is a total order on sort values in either direction. */
  lemma BeforeTotalOrder(dir: Direction, a: SortValue, b: SortValue, c: SortValue)
    ensures Before(dir, a, a)
    ensures Before(dir, a, b) || Before(dir, b, a)
    ensures Before(dir, a, b) && Before(dir, b, a) ==> a == b
    ensures Before(dir, a, b) && Before(dir, b, c) ==> Before(dir, a, c)
  {
    LessStrictTotal(a, b, c);
    LessStrictTotal(b, a, c);
    LessStrictTotal(a, c, b);
    LessStrictTotal(b, c, a);
    LessStrictTotal(c, a, b);
    LessStrictTotal(c, b, a);
    LessStrictTotal(a, b, a);
    LessStrictTotal(b, c, b);
    LessStrictTotal(a, c, a);
  }

  /** Every pair of rows is in comparator order. */
  ghost predicate Sorted<K, T>(xs: seq<T>, key: (K, T) -> SortValue, k: K, dir: Direction) {
    forall i, j :: 0 <= i < j < |xs| ==> Before(dir, key(k, xs[i]), key(k, xs[j]))
  }

  /** The rows whose sort value is `v`, in their order. */
  function WithKey<K, T>(xs: seq<T>, key: (K, T) -> SortValue, k: K, v: SortValue): (r: seq<T>)
    ensures forall x :: x in r ==> x in xs && key(k, x) == v
  {
    if |xs| == 0 then []
    else (if key(k, xs[0]) == v then [xs[0]] else []) + WithKey(xs[1..], key, k, v)
  }

  /** `r` keeps, for every sort value, the rows with that value in the order `xs` has them. */
  ghost predicate Stable<K, T>(r: seq<T>, xs: seq<T>, key: (K, T) -> SortValue, k: K) {
    forall v :: WithKey(r, key, k, v) == WithKey(xs, key, k, v)
  }

  /** Puts `x` before the first row it may precede, that is, after every row that must precede it. */
  function Insert<K, T>(x: T, s: seq<T>, key: (K, T) -> SortValue, k: K, dir: Direction): (r: seq<T>)
    ensures multiset(r) == multiset(s) + multiset{x}
  {
    if |s| == 0 then [x]
    else if Before(dir, key(k, x), key(k, s[0])) then [x] + s
    else
      assert s == [s[0]] + s[1..];
      [s[0]] + Insert(x, s[1..], key, k, dir)
  }

  lemma {:induction false} InsertSorted<K, T>(x: T, s: seq<T>, key: (K, T) -> SortValue, k: K, dir: Direction)
    requires Sorted(s, key, k, dir)
    ensures Sorted(Insert(x, s, key, k, dir), key, k, dir)
    decreases |s|
  {
    var r := Insert(x, s, key, k, dir);
    if |s| == 0 {
    } else if Before(dir, key(k, x), key(k, s[0])) {
      forall i, j | 0 <= i < j < |r| ensures Before(dir, key(k, r[i]), key(k, r[j])) {
        if i == 0 {
          BeforeTotalOrder(dir, key(k, x), key(k, s[0]), key(k, s[j - 1]));
        }
      }
    } else {
      InsertSorted(x, s[1..], key, k, dir);
      var tail := Insert(x, s[1..], key, k, dir);
      forall i, j | 0 <= i < j < |r| ensures Before(dir, key(k, r[i]), key(k, r[j])) {
        if i == 0 {
          assert r[j] in multiset(tail);
          assert r[j] == x || r[j] in s[1..];
          BeforeTotalOrder(dir, key(k, x), key(k, s[0]), key(k, s[0]));
        }
      }
    }
  }

  /** `WithKey` of a row followed by more rows. */
  lemma WithKeyCons<K, T>(x: T, s: seq<T>, key: (K, T) -> SortValue, k: K, v: SortValue)
    ensures WithKey([x] + s, key, k, v) == (if key(k, x) == v then [x] else []) + WithKey(s, key, k, v)
  {
    assert ([x] + s)[0] == x;
    assert ([x] + s)[1..] == s;
  }

  /** Inserting `x` adds it in front of the rows that share its sort value. */
  lemma {:induction false} InsertWithKey<K, T>(x: T, s: seq<T>, key: (K, T) -> SortValue, k: K, dir: Direction, v: SortValue)
    ensures WithKey(Insert(x, s, key, k, dir), key, k, v)
         == (if key(k, x) == v then [x] else []) + WithKey(s, key, k, v)
    decreases |s|
  {
    if |s| == 0 || Before(dir, key(k, x), key(k, s[0])) {
      WithKeyCons(x, s, key, k, v);
    } else {
      InsertWithKey(x, s[1..], key, k, dir, v);
      InsertBehindWithKey(x, s, key, k, dir, v);
    }
  }

  /**
   * When `x` must follow the first row, the two have different sort values,
   * so at most one of them joins the rows of value `v` and their order there
   * does not matter.
   */
  lemma {:induction false} InsertBehindWithKey<K, T>(x: T, s: seq<T>, key: (K, T) -> SortValue, k: K, dir: Direction, v: SortValue)
    requires |s| > 0 && !Before(dir, key(k, x), key(k, s[0]))
    requires WithKey(Insert(x, s[1..], key, k, dir), key, k, v)
          == (if key(k, x) == v then [x] else []) + WithKey(s[1..], key, k, v)
    ensures WithKey(Insert(x, s, key, k, dir), key, k, v)
         == (if key(k, x) == v then [x] else []) + WithKey(s, key, k, v)
  {
    var tail := Insert(x, s[1..], key, k, dir);
    var rest := WithKey(s[1..], key, k, v);
    var own: seq<T> := if key(k, x) == v then [x] else [];
    var first: seq<T> := if key(k, s[0]) == v then [s[0]] else [];
    assert WithKey(Insert(x, s, key, k, dir), key, k, v) == first + (own + rest) by {
      assert Insert(x, s, key, k, dir) == [s[0]] + tail;
      WithKeyCons(s[0], tail, key, k, v);
    }
    assert WithKey(s, key, k, v) == first + rest by {
      assert s == [s[0]] + s[1..];
      WithKeyCons(s[0], s[1..], key, k, v);
    }
    assert first == [] || own == [] by {
      BeforeTotalOrder(dir, key(k, x), key(k, x), key(k, x));
    }
    SwapDisjoint(first, own, rest);
  }

  /** Two sequences of which one is empty can be swapped in front of a third. */
  lemma SwapDisjoint<T>(a: seq<T>, b: seq<T>, r: seq<T>)
    requires a == [] || b == []
    ensures a + (b + r) == b + (a + r)
  {
    if a == [] {
      assert a + (b + r) == b + r == b + (a + r);
    } else {
      assert a + (b + r) == a + r == b + (a + r);
    }
  }

  /** The stable sort of `xs` by column `k`. */
  function SortBy<K, T>(xs: seq<T>, key: (K, T) -> SortValue, k: K, dir: Direction): (r: seq<T>)
    ensures multiset(r) == multiset(xs)
  {
    if |xs| == 0 then []
    else
      assert xs == [xs[0]] + xs[1..];
      Insert(xs[0], SortBy(xs[1..], key, k, dir), key, k, dir)
  }

  /** The sort leaves the rows in comparator order. */
  lemma {:induction false} SortBySorted<K, T>(xs: seq<T>, key: (K, T) -> SortValue, k: K, dir: Direction)
    ensures Sorted(SortBy(xs, key, k, dir), key, k, dir)
  {
    if |xs| > 0 {
      SortBySorted(xs[1..], key, k, dir);
      InsertSorted(xs[0], SortBy(xs[1..], key, k, dir), key, k, dir);
    }
  }

  /** The sort is stable: rows with equal sort values keep their input order. */
  lemma {:induction false} SortByStable<K, T>(xs: seq<T>, key: (K, T) -> SortValue, k: K, dir: Direction)
    ensures Stable(SortBy(xs, key, k, dir), xs, key, k)
  {
    if |xs| > 0 {
      SortByStable(xs[1..], key, k, dir);
      forall v ensures WithKey(SortBy(xs, key, k, dir), key, k, v) == WithKey(xs, key, k, v) {
        InsertWithKey(xs[0], SortBy(xs[1..], key, k, dir), key, k, dir, v);
      }
    }
  }

  /** The first row of a sorted ordering may stand before every row of it. */
  lemma FirstIsMinimal<K, T>(b: seq<T>, x: T, key: (K, T) -> SortValue, k: K, dir: Direction)
    requires Sorted(b, key, k, dir) && x in b
    ensures Before(dir, key(k, b[0]), key(k, x))
  {
    var i :| 0 <= i < |b| && b[i] == x;
    if i == 0 {
      BeforeTotalOrder(dir, key(k, x), key(k, x), key(k, x));
    }
  }

  /** A row heads the rows of its own sort value. */
  lemma HeadsItsKey<K, T>(a: seq<T>, key: (K, T) -> SortValue, k: K)
    requires |a| > 0
    ensures WithKey(a, key, k, key(k, a[0])) == [a[0]] + WithKey(a[1..], key, k, key(k, a[0]))
  {
    WithKeyCons(a[0], a[1..], key, k, key(k, a[0]));
    assert a == [a[0]] + a[1..];
  }

  /** Two sorted, mutually stable orderings of non-empty rows start with the same row. */
  lemma SameFirstRow<K, T>(a: seq<T>, b: seq<T>, key: (K, T) -> SortValue, k: K, dir: Direction)
    requires |a| > 0 && |b| > 0
    requires Sorted(a, key, k, dir) && Sorted(b, key, k, dir)
    requires Stable(a, b, key, k)
    ensures a[0] == b[0]
  {
    var u, w := key(k, a[0]), key(k, b[0]);
    HeadsItsKey(a, key, k);
    HeadsItsKey(b, key, k);
    assert WithKey(a, key, k, u) == WithKey(b, key, k, u);
    assert WithKey(a, key, k, w) == WithKey(b, key, k, w);
    assert a[0] in WithKey(b, key, k, u);
    assert b[0] in WithKey(a, key, k, w);
    FirstIsMinimal(b, a[0], key, k, dir);
    FirstIsMinimal(a, b[0], key, k, dir);
    BeforeTotalOrder(dir, u, w, u);
    assert u == w;
  }

  /** Dropping the common first row keeps two orderings mutually stable. */
  lemma StableTails<K, T>(a: seq<T>, b: seq<T>, key: (K, T) -> SortValue, k: K)
    requires |a| > 0 && |b| > 0 && a[0] == b[0]
    requires Stable(a, b, key, k)
    ensures Stable(a[1..], b[1..], key, k)
  {
    forall v ensures WithKey(a[1..], key, k, v) == WithKey(b[1..], key, k, v) {
      WithKeyCons(a[0], a[1..], key, k, v);
      WithKeyCons(b[0], b[1..], key, k, v);
      assert a == [a[0]] + a[1..] && b == [b[0]] + b[1..];
      var h := if key(k, a[0]) == v then [a[0]] else [];
      var x, y := WithKey(a[1..], key, k, v), WithKey(b[1..], key, k, v);
      assert h + x == h + y;
      assert x == (h + x)[|h|..];
      assert y == (h + y)[|h|..];
    }
  }

  /** A non-empty ordering is not stable with respect to the empty one. */
  lemma NotStableWithEmpty<K, T>(a: seq<T>, key: (K, T) -> SortValue, k: K)
    requires |a| > 0
    ensures !Stable(a, [], key, k) && !Stable([], a, key, k)
  {
    WithKeyCons(a[0], a[1..], key, k, key(k, a[0]));
    assert a == [a[0]] + a[1..];
    assert WithKey(a, key, k, key(k, a[0])) != WithKey([], key, k, key(k, a[0]));
  }

  /**
   * A stable sort has exactly one possible result: two orderings of the same
   * rows that are both sorted and agree on the order within every sort value
   * are equal. So `SortBy` is what any stable sort with this comparator returns.
   */
  lemma {:induction false} StableSortUnique<K, T>(a: seq<T>, b: seq<T>, key: (K, T) -> SortValue, k: K, dir: Direction)
    requires Sorted(a, key, k, dir) && Sorted(b, key, k, dir)
    requires Stable(a, b, key, k)
    ensures a == b
    decreases |a| + |b|
  {
    if |a| == 0 && |b| == 0 {
    } else if |a| == 0 {
      NotStableWithEmpty(b, key, k);
    } else if |b| == 0 {
      NotStableWithEmpty(a, key, k);
    } else {
      SameFirstRow(a, b, key, k, dir);
      StableTails(a, b, key, k);
      assert Sorted(a[1..], key, k, dir);
      assert Sorted(b[1..], key, k, dir);
      StableSortUnique(a[1..], b[1..], key, k, dir);
      assert a == [a[0]] + a[1..] && b == [b[0]] + b[1..];
    }
  }

  /** A sorted, stable rearrangement of `xs` is `SortBy(xs)`. */
  lemma SortByIsTheStableSort<K, T>(r: seq<T>, xs: seq<T>, key: (K, T) -> SortValue, k: K, dir: Direction)
    requires Sorted(r, key, k, dir) && Stable(r, xs, key, k)
    ensures r == SortBy(xs, key, k, dir)
  {
    SortBySorted(xs, key, k, dir);
    SortByStable(xs, key, k, dir);
    StableSortUnique(r, SortBy(xs, key, k, dir), key, k, dir);
  }

  function Reverse<T>(s: seq<T>): (r: seq<T>)
    ensures |r| == |s|
    ensures forall i :: 0 <= i < |s| ==> r[i] == s[|s| - 1 - i]
  {
    if |s| == 0 then [] else Reverse(s[1..]) + [s[0]]
  }

  /** No two different rows share a sort value: the column has no ties. */
  ghost predicate NoTies<K, T>(xs: seq<T>, key: (K, T) -> SortValue, k: K) {
    forall x, y :: x in xs && y in xs && key(k, x) == key(k, y) ==> x == y
  }

  lemma {:induction false} WithKeyConcat<K, T>(p: seq<T>, q: seq<T>, key: (K, T) -> SortValue, k: K, v: SortValue)
    ensures WithKey(p + q, key, k, v) == WithKey(p, key, k, v) + WithKey(q, key, k, v)
  {
    if |p| == 0 {
      assert p + q == q;
    } else {
      assert p + q == [p[0]] + (p[1..] + q);
      WithKeyCons(p[0], p[1..] + q, key, k, v);
      WithKeyCons(p[0], p[1..], key, k, v);
      assert p == [p[0]] + p[1..];
      WithKeyConcat(p[1..], q, key, k, v);
    }
  }

  lemma {:induction false} WithKeyReverse<K, T>(s: seq<T>, key: (K, T) -> SortValue, k: K, v: SortValue)
    ensures WithKey(Reverse(s), key, k, v) == Reverse(WithKey(s, key, k, v))
  {
    if |s| > 0 {
      WithKeyReverse(s[1..], key, k, v);
      WithKeyConcat(Reverse(s[1..]), [s[0]], key, k, v);
      var head := if key(k, s[0]) == v then [s[0]] else [];
      var rest := WithKey(s[1..], key, k, v);
      assert WithKey([s[0]], key, k, v) == head;
      assert Reverse(head + rest) == Reverse(rest) + head;
    }
  }

  /** Reversing the sorted rows gives rows sorted the other way. */
  lemma ReverseSortedAscending<K, T>(s: seq<T>, key: (K, T) -> SortValue, k: K)
    requires Sorted(s, key, k, Ascending)
    ensures Sorted(Reverse(s), key, k, Descending)
  {
    var r := Reverse(s);
    forall i, j | 0 <= i < j < |r| ensures Before(Descending, key(k, r[i]), key(k, r[j])) {
      assert r[i] == s[|s| - 1 - i] && r[j] == s[|s| - 1 - j];
      CompareDescendingNegates(key(k, r[i]), key(k, r[j]));
      CompareDescendingNegates(key(k, r[j]), key(k, r[i]));
    }
  }

  /** A sequence of copies of one row reads the same reversed. */
  lemma ReverseOfCopies<T>(c: seq<T>)
    requires forall i, j :: 0 <= i < |c| && 0 <= j < |c| ==> c[i] == c[j]
    ensures Reverse(c) == c
  {
  }

  /** With no ties, the rows of one sort value in a rearrangement of `xs` are all the same row. */
  lemma WithKeyOfNoTies<K, T>(up: seq<T>, xs: seq<T>, key: (K, T) -> SortValue, k: K, v: SortValue)
    requires NoTies(xs, key, k) && multiset(up) == multiset(xs)
    ensures Reverse(WithKey(up, key, k, v)) == WithKey(up, key, k, v)
  {
    var c := WithKey(up, key, k, v);
    forall i, j | 0 <= i < |c| && 0 <= j < |c| ensures c[i] == c[j] {
      assert c[i] in up && c[j] in up;
      assert c[i] in multiset(xs) && c[j] in multiset(xs);
    }
    ReverseOfCopies(c);
  }

  /**
   * With no ties in the sort column, sorting descending gives exactly the
   * reverse of sorting ascending.
   */
  lemma DescendingIsReverse<K, T>(xs: seq<T>, key: (K, T) -> SortValue, k: K)
    requires NoTies(xs, key, k)
    ensures SortBy(xs, key, k, Descending) == Reverse(SortBy(xs, key, k, Ascending))
  {
    var up := SortBy(xs, key, k, Ascending);
    var down := SortBy(xs, key, k, Descending);
    SortBySorted(xs, key, k, Ascending);
    SortBySorted(xs, key, k, Descending);
    SortByStable(xs, key, k, Ascending);
    SortByStable(xs, key, k, Descending);
    ReverseSortedAscending(up, key, k);
    forall v ensures WithKey(down, key, k, v) == WithKey(Reverse(up), key, k, v) {
      WithKeyReverse(up, key, k, v);
      WithKeyOfNoTies(up, xs, key, k, v);
    }
    StableSortUnique(down, Reverse(up), key, k, Descending);
  }
}
