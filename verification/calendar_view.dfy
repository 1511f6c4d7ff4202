/**
 * The calendar: each training becomes an event from its start, converted to
 * Helsinki time, to its start plus its duration, titled with the activity and
 * the customer's name; a training whose date cannot be converted is left
 * out. The conversion is a parameter returning minutes, or nothing when it throws.
 */
module CalendarView {
  import opened Options
  import opened Records
  import opened Listing

  datatype Event = Event(id: int, title: string, start: int, end: int, original: Training)

  /** `t.customer ? `${firstname} ${lastname}` : ''`. */
  function NameOf(t: Training): (r: string)
    ensures t.customer.Some? ==> r == FullName(t.customer.value) && r != ""
    ensures t.customer.None? ==> r == ""
  {
    match t.customer
    case Some(p) => FullName(p)
    case None => ""
  }

  /** The event's title: the activity, then the customer's name in parentheses when there is one. */
  function Title(t: Training): (r: string)
    ensures t.customer.Some? ==> r == t.activity + " (" + FullName(t.customer.value) + ")"
    ensures t.customer.None? ==> r == t.activity
  {
    var name := NameOf(t);
    t.activity + (if name != "" then " (" + name + ")" else "")
  }

  /** A title is the bare activity exactly when no customer is embedded. */
  lemma TitleIsActivityIff(t: Training)
    ensures Title(t) == t.activity <==> t.customer.None?
  {
    if t.customer.Some? {
      assert |Title(t)| > |t.activity|;
    }
  }

  /** The event of one training, or none when its date cannot be converted. */
  function EventOf(t: Training, toLocal: int -> Option<int>): (r: Option<Event>)
    ensures r.None? <==> toLocal(t.date).None?
    ensures r.Some? ==>
      && r.value.original == t && r.value.id == t.id && r.value.title == Title(t)
      && r.value.start == toLocal(t.date).value && r.value.end - r.value.start == t.duration
  {
    match toLocal(t.date)
    case None => None
    case Some(start) => Some(Event(t.id, Title(t), start, start + t.duration, t))
  }

  /** The trainings a sequence of events was made from, in the events' order. */
  function Originals(es: seq<Event>): (r: seq<Training>)
    ensures |r| == |es|
    ensures forall i :: 0 <= i < |es| ==> r[i] == es[i].original
  {
    seq(|es|, i requires 0 <= i < |es| => es[i].original)
  }

  lemma OriginalsCons(e: Event, es: seq<Event>)
    ensures Originals([e] + es) == [e.original] + Originals(es)
  {
    var l, r := Originals([e] + es), [e.original] + Originals(es);
    assert |l| == |r|;
    forall i | 0 <= i < |l| ensures l[i] == r[i] {
      if i > 0 {
        assert ([e] + es)[i] == es[i - 1];
      }
    }
  }

  /** The calendar's filter as a search matcher: the training's date converts; the term is ignored. */
  function Converts(toLocal: int -> Option<int>): (Training, string) -> bool {
    (t: Training, term: string) => toLocal(t.date).Some?
  }

  /**
   * `events`: the trainings whose dates convert, as events, in their order.
   * The events' trainings are exactly what filtering the trainings by a
   * convertible date keeps: same rows, same order, same repetitions.
   */
  function Events(ts: seq<Training>, toLocal: int -> Option<int>): (r: seq<Event>)
    ensures Originals(r) == Search(ts, Converts(toLocal), "")
    ensures forall i :: 0 <= i < |r| ==> EventOf(r[i].original, toLocal) == Some(r[i])
  {
    if |ts| == 0 then []
    else
      var rest := Events(ts[1..], toLocal);
      var keep := Converts(toLocal);
      assert keep(ts[0], "") <==> toLocal(ts[0].date).Some?;
      assert Search(ts, keep, "") == if keep(ts[0], "") then [ts[0]] + Search(ts[1..], keep, "") else Search(ts[1..], keep, "");
      match EventOf(ts[0], toLocal)
      case None => rest
      case Some(e) =>
        OriginalsCons(e, rest);
        [e] + rest
  }

  /** When every date converts, the calendar has one event per training, in the trainings' order. */
  lemma EventsWhenAllConvert(ts: seq<Training>, toLocal: int -> Option<int>)
    requires forall t :: t in ts ==> toLocal(t.date).Some?
    ensures Originals(Events(ts, toLocal)) == ts
  {
    SearchAllMatch(ts, Converts(toLocal), "");
  }

  /** Every training whose date converts has its event on the calendar, and every event comes from a listed training. */
  lemma EventsCoverTrainings(ts: seq<Training>, toLocal: int -> Option<int>)
    ensures forall t :: t in ts && toLocal(t.date).Some? ==> EventOf(t, toLocal).value in Events(ts, toLocal)
    ensures forall e :: e in Events(ts, toLocal) ==> e.original in ts
  {
    var r := Events(ts, toLocal);
    forall t | t in ts && toLocal(t.date).Some? ensures EventOf(t, toLocal).value in r {
      assert t in Search(ts, Converts(toLocal), "");
      var i :| 0 <= i < |r| && Originals(r)[i] == t;
      assert r[i] == EventOf(t, toLocal).value;
    }
    forall e | e in r ensures e.original in ts {
      var i :| 0 <= i < |r| && r[i] == e;
      assert Originals(r)[i] in Search(ts, Converts(toLocal), "");
    }
  }

  /** Every event lasts exactly its training's duration. */
  lemma EventsLastTheirDuration(ts: seq<Training>, toLocal: int -> Option<int>, i: nat)
    requires i < |Events(ts, toLocal)|
    ensures var e := Events(ts, toLocal)[i]; e.end - e.start == e.original.duration
  {
    var e := Events(ts, toLocal)[i];
    assert e in Events(ts, toLocal);
  }

  /** `handleSelectEvent`: the name shown for the event's customer, 'Ei asiakasta' without one. */
  function SelectedCustomerName(e: Event): (r: string)
    ensures e.original.customer.Some? ==> r == NameOf(e.original)
    ensures e.original.customer.None? ==> r == "Ei asiakasta"
  {
    match e.original.customer
    case Some(p) => FullName(p)
    case None => "Ei asiakasta"
  }

  /** The pop-up names the customer the title names. */
  lemma SelectedNameInTitle(e: Event)
    requires e.title == Title(e.original) && e.original.customer.Some?
    ensures e.title == e.original.activity + " (" + SelectedCustomerName(e) + ")"
  {
  }
}
