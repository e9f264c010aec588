/**
 The start and stop events of a set of build steps, in time order
 (tools/report_build_time_ninja.py, the first half of `SummarizeEntries`).
 */
module NinjaEvents {
  import opened NinjaTarget

  datatype Kind = Start | Stop

  datatype Event = Event(time: real, kind: Kind, target: Target)

  function StartOf(t: Target): Event { Event(t.start, Start, t) }

  function StopOf(t: Target): Event { Event(t.end, Stop, t) }

  function Events(entries: seq<Target>): seq<Event> {
    if entries == [] then []
    else Events(entries[..|entries| - 1]) + [StartOf(entries[|entries| - 1]), StopOf(entries[|entries| - 1])]
  }

  /** The sort key: by time, and "start" before "stop" at the same time. */
  predicate Leq(a: Event, b: Event) {
    a.time < b.time || (a.time == b.time && (a.kind.Start? || b.kind.Stop?))
  }

  ghost predicate Sorted(s: seq<Event>) {
    forall i, j :: 0 <= i < j < |s| ==> Leq(s[i], s[j])
  }

  function Insert(e: Event, s: seq<Event>): seq<Event> {
    if s == [] || Leq(s[|s| - 1], e) then s + [e] else Insert(e, s[..|s| - 1]) + [s[|s| - 1]]
  }

  /** A stable sort. */
  function Sort(s: seq<Event>): seq<Event> {
    if s == [] then [] else Insert(s[|s| - 1], Sort(s[..|s| - 1]))
  }

  lemma SortedSnoc(s: seq<Event>, e: Event)
    requires Sorted(s) && forall i :: 0 <= i < |s| ==> Leq(s[i], e)
    ensures Sorted(s + [e])
  {
  }

  lemma LastBounds(s: seq<Event>, e: Event)
    requires Sorted(s) && s != [] && Leq(s[|s| - 1], e)
    ensures forall i :: 0 <= i < |s| ==> Leq(s[i], e)
  {
    forall i | 0 <= i < |s| ensures Leq(s[i], e) {
      if i < |s| - 1 { assert Leq(s[i], s[|s| - 1]); }
    }
  }

  lemma {:induction false} InsertSorts(e: Event, s: seq<Event>)
    requires Sorted(s)
    ensures Sorted(Insert(e, s))
    ensures multiset(Insert(e, s)) == multiset(s) + multiset{e}
    ensures forall x :: x in Insert(e, s) ==> x == e || x in s
  {
    if s == [] {
    } else if Leq(s[|s| - 1], e) {
      LastBounds(s, e);
      SortedSnoc(s, e);
    } else {
      var init, last := s[..|s| - 1], s[|s| - 1];
      assert s == init + [last];
      InsertSorts(e, init);
      var r := Insert(e, init);
      forall i | 0 <= i < |r| ensures Leq(r[i], last) {
        assert r[i] in r;
      }
      SortedSnoc(r, last);
    }
  }

  lemma {:induction false} SortSorts(s: seq<Event>)
    ensures Sorted(Sort(s)) && multiset(Sort(s)) == multiset(s)
  {
    if s != [] {
      var init, last := s[..|s| - 1], s[|s| - 1];
      assert s == init + [last];
      SortSorts(init);
      InsertSorts(last, Sort(init));
    }
  }

  lemma {:induction false} EventsOf(entries: seq<Target>, e: Event)
    ensures e in Events(entries) <==> e.target in entries && (e == StartOf(e.target) || e == StopOf(e.target))
  {
    if entries != [] {
      var init, last := entries[..|entries| - 1], entries[|entries| - 1];
      assert entries == init + [last];
      EventsOf(init, e);
    }
  }

  lemma {:induction false} EventsDistinct(entries: seq<Target>)
    requires Distinct(entries)
    ensures Distinct(Events(entries))
  {
    if entries != [] {
      var init, last := entries[..|entries| - 1], entries[|entries| - 1];
      assert entries == init + [last];
      EventsDistinct(init);
      EventsOf(init, StartOf(last));
      EventsOf(init, StopOf(last));
      assert forall k :: 0 <= k < |init| ==> init[k] != last;
      assert last !in init;
    }
  }

  lemma {:induction false} DistinctCount<T>(s: seq<T>, x: T)
    requires Distinct(s)
    ensures multiset(s)[x] <= 1
  {
    if s != [] {
      assert s == s[..|s| - 1] + [s[|s| - 1]];
      DistinctCount(s[..|s| - 1], x);
    }
  }

  lemma PermutationDistinct<T>(s: seq<T>, r: seq<T>)
    requires Distinct(s) && multiset(s) == multiset(r)
    ensures Distinct(r)
  {
    forall i, j | 0 <= i < j < |r| ensures r[i] != r[j] {
      DistinctCount(s, r[i]);
      assert r == r[..i] + [r[i]] + r[i + 1..j] + [r[j]] + r[j + 1..];
    }
  }

  /** What the sweep relies on: a sorted list that holds each start and each stop once. */
  ghost predicate Timeline(entries: seq<Target>, ev: seq<Event>) {
    && Sorted(ev)
    && Distinct(ev)
    && (forall t :: t in entries ==> StartOf(t) in ev && StopOf(t) in ev)
    && (forall e :: e in ev ==> e.target in entries && (e == StartOf(e.target) || e == StopOf(e.target)))
  }

  lemma SortedEventsAreTimeline(entries: seq<Target>)
    requires Distinct(entries)
    ensures Timeline(entries, Sort(Events(entries)))
    ensures |Sort(Events(entries))| == 2 * |entries|
  {
    var es := Events(entries);
    var ev := Sort(es);
    SortSorts(es);
    EventsDistinct(entries);
    PermutationDistinct(es, ev);
    forall t | t in entries ensures StartOf(t) in ev && StopOf(t) in ev {
      EventsOf(entries, StartOf(t));
      EventsOf(entries, StopOf(t));
      SameElements(es, ev, StartOf(t));
      SameElements(es, ev, StopOf(t));
    }
    forall e | e in ev ensures e.target in entries && (e == StartOf(e.target) || e == StopOf(e.target)) {
      SameElements(es, ev, e);
      EventsOf(entries, e);
    }
    EventsLength(entries);
    assert |ev| == |multiset(ev)| && |es| == |multiset(es)|;
  }

  lemma SameElements<T>(s: seq<T>, r: seq<T>, x: T)
    requires multiset(s) == multiset(r)
    ensures x in s <==> x in r
  {
    assert x in s <==> x in multiset(s);
    assert x in r <==> x in multiset(r);
  }

  lemma {:induction false} EventsLength(entries: seq<Target>)
    ensures |Events(entries)| == 2 * |entries|
  {
    if entries != [] { EventsLength(entries[..|entries| - 1]); }
  }
}
