/**
 * The statistics page: one bar per activity with the total minutes trained
 * in it, activities in the order they first occur among the trainings.
 */
module StatsPage {
  import opened Records

  /** A bar of the chart. */
  datatype Bar = Bar(activity: string, duration: int)

  /** The minutes of all trainings. */
  function Total(ts: seq<Training>): int {
    if |ts| == 0 then 0 else Total(ts[..|ts| - 1]) + ts[|ts| - 1].duration
  }

  /** `_.sumBy(group, 'duration')` for the group of activity `a`: the minutes of the trainings of `a`. */
  function SumFor(ts: seq<Training>, a: string): int {
    if |ts| == 0 then 0
    else SumFor(ts[..|ts| - 1], a) + (if ts[|ts| - 1].activity == a then ts[|ts| - 1].duration else 0)
  }

  predicate Distinct(xs: seq<string>) {
    forall i, j :: 0 <= i < j < |xs| ==> xs[i] != xs[j]
  }

  /** `Object.keys(_.groupBy(ts, 'activity'))`: each activity once, in order of first occurrence. */
  function Activities(ts: seq<Training>): (r: seq<string>)
    ensures Distinct(r)
    ensures forall a :: a in r <==> exists t :: t in ts && t.activity == a
  {
    if |ts| == 0 then []
    else
      var init := ts[..|ts| - 1];
      var last := ts[|ts| - 1];
      var rest := Activities(init);
      assert forall t :: t in ts <==> t in init || t == last;
      if last.activity in rest then rest else rest + [last.activity]
  }

  /** The chart's data: one bar per activity with its minutes. */
  function ChartData(ts: seq<Training>): (r: seq<Bar>)
    ensures |r| == |Activities(ts)|
    ensures forall i :: 0 <= i < |r| ==> r[i] == Bar(Activities(ts)[i], SumFor(ts, Activities(ts)[i]))
  {
    var acts := Activities(ts);
    seq(|acts|, i requires 0 <= i < |acts| => Bar(acts[i], SumFor(ts, acts[i])))
  }

  /** The minutes the bars show. */
  function BarTotal(bars: seq<Bar>): int {
    if |bars| == 0 then 0 else BarTotal(bars[..|bars| - 1]) + bars[|bars| - 1].duration
  }

  /** The minutes of the groups of the activities `xs`. */
  function SumOver(xs: seq<string>, ts: seq<Training>): int {
    if |xs| == 0 then 0 else SumOver(xs[..|xs| - 1], ts) + SumFor(ts, xs[|xs| - 1])
  }

  /** An activity nobody trained has no minutes. */
  lemma {:induction false} SumForAbsent(ts: seq<Training>, a: string)
    requires forall t :: t in ts ==> t.activity != a
    ensures SumFor(ts, a) == 0
  {
    if |ts| > 0 {
      assert forall t :: t in ts[..|ts| - 1] ==> t in ts;
      SumForAbsent(ts[..|ts| - 1], a);
    }
  }

  /** Appending a training adds its minutes to the groups of `xs` exactly when `xs` names its activity. */
  lemma {:induction false} SumOverAppend(xs: seq<string>, ts: seq<Training>, t: Training)
    requires Distinct(xs)
    ensures SumOver(xs, ts + [t]) == SumOver(xs, ts) + (if t.activity in xs then t.duration else 0)
  {
    if |xs| > 0 {
      var init := xs[..|xs| - 1];
      assert Distinct(init);
      SumOverAppend(init, ts, t);
      assert (ts + [t])[..|ts + [t]| - 1] == ts;
      assert t.activity in xs <==> t.activity in init || t.activity == xs[|xs| - 1];
      assert xs[|xs| - 1] !in init;
    }
  }

  /** The bars of a chart over `xs` show the groups of `xs`. */
  lemma {:induction false} BarTotalOfBars(xs: seq<string>, ts: seq<Training>)
    ensures BarTotal(seq(|xs|, i requires 0 <= i < |xs| => Bar(xs[i], SumFor(ts, xs[i])))) == SumOver(xs, ts)
  {
    var bars := seq(|xs|, i requires 0 <= i < |xs| => Bar(xs[i], SumFor(ts, xs[i])));
    if |xs| > 0 {
      var init := xs[..|xs| - 1];
      BarTotalOfBars(init, ts);
      assert bars[..|bars| - 1] == seq(|init|, i requires 0 <= i < |init| => Bar(init[i], SumFor(ts, init[i])));
    }
  }

  /** The groups of the chart's activities hold every minute trained. */
  lemma {:induction false} SumOverActivities(ts: seq<Training>)
    ensures SumOver(Activities(ts), ts) == Total(ts)
  {
    if |ts| > 0 {
      var init := ts[..|ts| - 1];
      var last := ts[|ts| - 1];
      assert ts == init + [last];
      SumOverActivities(init);
      var rest := Activities(init);
      SumOverAppend(rest, init, last);
      if last.activity !in rest {
        assert forall t :: t in init ==> t.activity != last.activity;
        SumForAbsent(init, last.activity);
        var xs := rest + [last.activity];
        assert xs[..|xs| - 1] == rest;
        SumOverAppend(rest, ts, last);
      }
    }
  }

  /** The chart shows every minute trained: the bars add up to the minutes of all trainings. */
  lemma ChartConservesMinutes(ts: seq<Training>)
    ensures BarTotal(ChartData(ts)) == Total(ts)
  {
    var acts := Activities(ts);
    assert ChartData(ts) == seq(|acts|, i requires 0 <= i < |acts| => Bar(acts[i], SumFor(ts, acts[i])));
    BarTotalOfBars(acts, ts);
    SumOverActivities(ts);
  }
}
