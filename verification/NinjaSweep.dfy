/**
 The sweep over start and stop events that shares elapsed time among the running build
 steps (tools/report_build_time_ninja.py, `SummarizeEntries`).
 */
module NinjaSweep {
  import opened Wrappers
  import opened NinjaTarget
  import opened NinjaEvents
  import opened NinjaShares

  datatype Error = IndexError | KeyError

  datatype Report = Report(length: real, weightedTotal: real, totalCpuTime: real, warned: bool)

  ghost function Times(ev: seq<Event>): seq<real> {
    seq(|ev|, i requires 0 <= i < |ev| => ev[i].time)
  }

  lemma TimelineGivesGrid(entries: seq<Target>, ev: seq<Event>)
    requires Timeline(entries, ev) && ev != []
    ensures Grid(entries, Times(ev))
  {
    var times := Times(ev);
    forall t | t in entries ensures t.start in times && t.end in times {
      var i :| 0 <= i < |ev| && ev[i] == StartOf(t);
      assert times[i] == t.start;
      var j :| 0 <= j < |ev| && ev[j] == StopOf(t);
      assert times[j] == t.end;
    }
  }

  ghost predicate Started(ev: seq<Event>, i: nat, t: Target)
    requires i <= |ev|
  {
    StartOf(t) in ev[..i]
  }

  ghost predicate Stopped(ev: seq<Event>, i: nat, t: Target)
    requires i <= |ev|
  {
    StopOf(t) in ev[..i]
  }

  /** Across a stretch of positive length, the steps between their events are those that run. */
  lemma RunningIsBetweenEvents(entries: seq<Target>, ev: seq<Event>, k: nat, i: nat, t: Target)
    requires Timeline(entries, ev) && k + 1 == i < |ev| && t in entries && ev[k].time < ev[i].time
    ensures Started(ev, i, t) && !Stopped(ev, i, t) <==> Runs(t, ev[k].time, ev[i].time)
  {
    var m :| 0 <= m < |ev| && ev[m] == StartOf(t);
    var n :| 0 <= n < |ev| && ev[n] == StopOf(t);
    assert Started(ev, i, t) <==> m < i by { PositionInPrefix(ev, i, m); }
    assert Stopped(ev, i, t) <==> n < i by { PositionInPrefix(ev, i, n); }
    TimeAt(ev, k, i, m);
    TimeAt(ev, k, i, n);
  }

  lemma PositionInPrefix(ev: seq<Event>, i: nat, m: nat)
    requires Distinct(ev) && i <= |ev| && m < |ev|
    ensures ev[m] in ev[..i] <==> m < i
  {
    if m < i { assert ev[..i][m] == ev[m]; }
  }

  lemma TimeAt(ev: seq<Event>, k: nat, i: nat, m: nat)
    requires Sorted(ev) && k + 1 == i < |ev| && m < |ev|
    ensures m < i ==> ev[m].time <= ev[k].time
    ensures m >= i ==> ev[i].time <= ev[m].time
  {
    if m < k { assert Leq(ev[m], ev[k]); }
    if m > i { assert Leq(ev[i], ev[m]); }
  }

  /** `running` holds the steps that have started and not stopped. */
  ghost predicate TracksRunning(entries: seq<Target>, ev: seq<Event>, i: nat, running: map<Target, real>)
    requires i <= |ev|
  {
    running.Keys == set t | t in entries && Started(ev, i, t) && !Stopped(ev, i, t)
  }

  lemma RunningKeys(entries: seq<Target>, ev: seq<Event>, k: nat, i: nat, running: map<Target, real>)
    requires Timeline(entries, ev) && k + 1 == i < |ev| && ev[k].time < ev[i].time
    requires TracksRunning(entries, ev, i, running)
    ensures running.Keys == Running(entries, ev[k].time, ev[i].time)
  {
    forall t | t in entries ensures t in running <==> t in Running(entries, ev[k].time, ev[i].time) {
      RunningIsBetweenEvents(entries, ev, k, i, t);
    }
  }

  ghost predicate Accrues(entries: seq<Target>, times: seq<real>, k: nat, running: map<Target, real>, w: real)
    requires k < |times|
  {
    forall t :: t in running && t in entries ==> w - running[t] == Share(entries, times, t, k)
  }

  function Advance(running: map<Target, real>, w: real, lastTime: real, time: real): real {
    if |running| > 0 then w + Split(time - lastTime, |running|) else w
  }

  lemma AdvanceBy(running: map<Target, real>, w: real, a: real, b: real)
    requires |running| > 0
    ensures Advance(running, w, a, b) == w + Split(b - a, |running|)
  {
  }

  lemma RunningGapShare(entries: seq<Target>, ev: seq<Event>, k: nat, i: nat, running: map<Target, real>, t: Target)
    requires Timeline(entries, ev) && k + 1 == i < |ev| && TracksRunning(entries, ev, i, running)
    requires t in running
    ensures |running| > 0 && t in entries
    ensures GapShare(entries, t, ev[k].time, ev[i].time) == Split(ev[i].time - ev[k].time, |running|)
  {
    var a, b := ev[k].time, ev[i].time;
    assert |running| == |running.Keys| && t in running.Keys;
    assert a <= b by { assert Leq(ev[k], ev[i]); }
    if a < b {
      RunningKeys(entries, ev, k, i, running);
      assert t in Running(entries, a, b);
    } else {
      EmptyGap(entries, t, a);
      SplitNothing(|running|);
    }
  }

  lemma ShareUnfold(entries: seq<Target>, times: seq<real>, t: Target, k: nat)
    requires k + 1 < |times| && t in entries
    ensures Share(entries, times, t, k + 1) == Share(entries, times, t, k) + GapShare(entries, t, times[k], times[k + 1])
  {
  }

  lemma ShareStep(entries: seq<Target>, ev: seq<Event>, k: nat, i: nat, t: Target)
    requires k + 1 == i < |ev| && t in entries
    ensures Share(entries, Times(ev), t, i) ==
            Share(entries, Times(ev), t, k) + GapShare(entries, t, ev[k].time, ev[i].time)
  {
    TimesAt(ev, k);
    TimesAt(ev, i);
    ShareAt(entries, Times(ev), t, k, i, ev[k].time, ev[i].time, GapShare(entries, t, ev[k].time, ev[i].time));
  }

  lemma ShareAt(entries: seq<Target>, times: seq<real>, t: Target, k: nat, i: nat, a: real, b: real, gap: real)
    requires k + 1 == i < |times| && t in entries && times[k] == a && times[i] == b && gap == GapShare(entries, t, a, b)
    ensures Share(entries, times, t, i) == Share(entries, times, t, k) + gap
  {
    ShareUnfold(entries, times, t, k);
  }

  lemma TimesAt(ev: seq<Event>, k: nat)
    requires k < |ev|
    ensures Times(ev)[k] == ev[k].time
  {
  }

  /** Advancing the accumulated weighted time to event `i` advances every running step's share. */
  lemma AdvanceAccrues(entries: seq<Target>, ev: seq<Event>, k: nat, i: nat, running: map<Target, real>, w: real)
    requires Timeline(entries, ev) && k + 1 == i < |ev| && TracksRunning(entries, ev, i, running)
    requires Accrues(entries, Times(ev), k, running, w)
    ensures Accrues(entries, Times(ev), i, running, Advance(running, w, ev[k].time, ev[i].time))
  {
    var times, w' := Times(ev), Advance(running, w, ev[k].time, ev[i].time);
    forall t | t in running && t in entries ensures w' - running[t] == Share(entries, times, t, i) {
      RunningGapShare(entries, ev, k, i, running, t);
      ShareStep(entries, ev, k, i, t);
      AdvanceBy(running, w, ev[k].time, ev[i].time);
    }
  }

  // ---------------------------------------------------------------------------------
  // Bookkeeping of the sweep.

  lemma PrefixStep(ev: seq<Event>, i: nat, e: Event)
    requires i < |ev|
    ensures e in ev[..i + 1] <==> e in ev[..i] || e == ev[i]
  {
    assert ev[..i + 1] == ev[..i] + [ev[i]];
  }

  /** Every step that has stopped had started; so its start is no later than its end. */
  ghost predicate StopsFollowStarts(entries: seq<Target>, ev: seq<Event>, i: nat)
    requires i <= |ev|
  {
    forall t :: t in entries && Stopped(ev, i, t) ==> Started(ev, i, t) && t.start <= t.end
  }

  lemma StartEvent(entries: seq<Target>, ev: seq<Event>, i: nat, running: map<Target, real>, w: real)
    requires Timeline(entries, ev) && i < |ev| && ev[i].kind.Start?
    requires TracksRunning(entries, ev, i, running) && StopsFollowStarts(entries, ev, i)
    ensures var t := ev[i].target;
            && t in entries && !Started(ev, i, t) && t.start == ev[i].time
            && TracksRunning(entries, ev, i + 1, running[t := w])
            && StopsFollowStarts(entries, ev, i + 1)
            && forall u :: u in entries ==> Stopped(ev, i + 1, u) == Stopped(ev, i, u)
  {
    var t := ev[i].target;
    assert ev[i] in ev && ev[i] == StartOf(t);
    PositionInPrefix(ev, i, i);
    forall u | u in entries
      ensures Stopped(ev, i + 1, u) == Stopped(ev, i, u)
      ensures Started(ev, i + 1, u) == (Started(ev, i, u) || u == t)
    {
      PrefixStep(ev, i, StartOf(u));
      PrefixStep(ev, i, StopOf(u));
    }
  }

  /** A step has started when its stop event comes exactly when it does not end before it starts. */
  lemma StopOrder(entries: seq<Target>, ev: seq<Event>, i: nat)
    requires Timeline(entries, ev) && i < |ev| && ev[i].kind.Stop?
    ensures var t := ev[i].target;
            && t in entries && !Stopped(ev, i, t) && t.end == ev[i].time && ev[i] == StopOf(t)
            && (Started(ev, i, t) <==> t.start <= t.end)
  {
    var t := ev[i].target;
    assert ev[i] in ev && ev[i] == StopOf(t);
    PositionInPrefix(ev, i, i);
    var m :| 0 <= m < |ev| && ev[m] == StartOf(t);
    PositionInPrefix(ev, i, m);
    assert m != i;
    if m < i { assert Leq(ev[m], ev[i]); } else { assert Leq(ev[i], ev[m]); }
  }

  lemma StopEvent(entries: seq<Target>, ev: seq<Event>, i: nat, running: map<Target, real>, t: Target)
    requires i < |ev| && ev[i] == StopOf(t) && t in entries && Started(ev, i, t) && t.start <= t.end
    requires TracksRunning(entries, ev, i, running) && StopsFollowStarts(entries, ev, i)
    ensures TracksRunning(entries, ev, i + 1, running - {t})
    ensures StopsFollowStarts(entries, ev, i + 1)
    ensures forall u :: u in entries ==> Stopped(ev, i + 1, u) == (Stopped(ev, i, u) || u == t)
  {
    forall u | u in entries
      ensures Stopped(ev, i + 1, u) == (Stopped(ev, i, u) || u == t)
      ensures Started(ev, i + 1, u) == Started(ev, i, u)
    {
      PrefixStep(ev, i, StartOf(u));
      PrefixStep(ev, i, StopOf(u));
    }
  }

  ghost function Sum(s: seq<real>): real {
    if s == [] then 0.0 else Sum(s[..|s| - 1]) + s[|s| - 1]
  }

  lemma {:induction false} SumUpdate(s: seq<real>, j: nat, v: real)
    requires j < |s|
    ensures Sum(s[j := v]) == Sum(s) - s[j] + v
  {
    var n := |s| - 1;
    if j == n {
      assert s[j := v][..n] == s[..n];
    } else {
      assert s[j := v][..n] == s[..n][j := v];
      SumUpdate(s[..n], j, v);
    }
  }

  lemma PayOnce(paid: seq<real>, j: nat, weighted: real, total: real, total': real)
    requires j < |paid| && paid[j] == 0.0 && total == Sum(paid) && total' == total + weighted
    ensures total' == Sum(paid[j := weighted])
  {
    SumUpdate(paid, j, weighted);
  }

  lemma {:induction false} SumZeros(s: seq<real>)
    requires forall j :: 0 <= j < |s| ==> s[j] == 0.0
    ensures Sum(s) == 0.0
  {
    if s != [] { SumZeros(s[..|s| - 1]); }
  }

  lemma {:induction false} SumIsSumShares(entries: seq<Target>, times: seq<real>, k: nat, s: seq<real>, n: nat)
    requires k < |times| && |s| == |entries| && n <= |s|
    requires forall j :: 0 <= j < |s| ==> s[j] == Share(entries, times, entries[j], k)
    ensures Sum(s[..n]) == SumShares(entries, times, k, n)
  {
    if n > 0 {
      SumIsSumShares(entries, times, k, s, n - 1);
      assert s[..n][..n - 1] == s[..n - 1];
    }
  }

  // ---------------------------------------------------------------------------------
  // The sweep.

  lemma StoppedBy(ev: seq<Event>, k: nat, i: nat, t: Target)
    requires Sorted(ev) && k + 1 == i < |ev| && Stopped(ev, i, t)
    ensures t.end <= Times(ev)[k]
  {
    var n :| 0 <= n < |ev[..i]| && ev[..i][n] == StopOf(t);
    if n < k { assert Leq(ev[n], ev[k]); }
  }

  lemma StoppedShareIsFinal(entries: seq<Target>, ev: seq<Event>, k: nat, i: nat, t: Target)
    requires Timeline(entries, ev) && k + 1 == i < |ev| && t in entries && Stopped(ev, i, t)
    ensures Share(entries, Times(ev), t, i) == Share(entries, Times(ev), t, k)
  {
    StoppedBy(ev, k, i, t);
    TimelineGivesGrid(entries, ev);
    NoShareAfterEnd(entries, Times(ev), t, k, i);
  }

  /** The sweep's state once events `..i` are processed and time stands at event `k`; `paid` holds
      what each step has been given so far. */
  ghost predicate Good(entries: seq<Target>, ev: seq<Event>, i: nat, k: nat, running: map<Target, real>, w: real,
                       paid: seq<real>)
    requires i <= |ev| && k < |ev|
  {
    && TracksRunning(entries, ev, i, running)
    && StopsFollowStarts(entries, ev, i)
    && Accrues(entries, Times(ev), k, running, w)
    && Paid(entries, ev, i, k, paid)
  }

  /** Time advances to event `i`. */
  lemma Tick(entries: seq<Target>, ev: seq<Event>, i: nat, k: nat, running: map<Target, real>, w: real, paid: seq<real>)
    requires Timeline(entries, ev) && i < |ev| && (k + 1 == i || k == i == 0)
    requires Good(entries, ev, i, k, running, w, paid)
    ensures Good(entries, ev, i, i, running, Advance(running, w, ev[k].time, ev[i].time), paid)
  {
    if i == 0 {
      assert running.Keys == {};
      assert |running| == |running.Keys|;
    } else {
      AdvanceAccrues(entries, ev, k, i, running, w);
      forall t | t in entries && Stopped(ev, i, t)
        ensures Share(entries, Times(ev), t, i) == Share(entries, Times(ev), t, k)
      {
        StoppedShareIsFinal(entries, ev, k, i, t);
      }
    }
  }

  lemma OnStart(entries: seq<Target>, ev: seq<Event>, i: nat, next: nat, running: map<Target, real>, w: real,
                paid: seq<real>)
    requires Timeline(entries, ev) && i < next == i + 1 <= |ev| && ev[i].kind.Start?
    requires Good(entries, ev, i, i, running, w, paid)
    ensures Good(entries, ev, next, i, running[ev[i].target := w], w, paid)
  {
    var t, times := ev[i].target, Times(ev);
    StartEvent(entries, ev, i, running, w);
    TimelineGivesGrid(entries, ev);
    NoShareBeforeStart(entries, times, t, i);
  }

  lemma OnStop(entries: seq<Target>, ev: seq<Event>, i: nat, next: nat, running: map<Target, real>, w: real,
               paid: seq<real>, j: nat, t: Target, weighted: real)
    requires Timeline(entries, ev) && Distinct(entries) && i < next == i + 1 <= |ev| && ev[i] == StopOf(t)
    requires Good(entries, ev, i, i, running, w, paid)
    requires j < |entries| && entries[j] == t && t in running && weighted == w - running[t]
    ensures Good(entries, ev, next, i, running - {t}, w, paid[j := weighted])
    ensures paid[j] == 0.0
    ensures forall m :: 0 <= m < |entries| ==> Stopped(ev, next, entries[m]) == (Stopped(ev, i, entries[m]) || m == j)
  {
    StopOrder(entries, ev, i);
    StopEvent(entries, ev, i, running, t);
    AccruesWithout(entries, Times(ev), i, running, w, t);
    PaidOnStop(entries, ev, i, next, paid, j, t, weighted);
  }

  lemma AccruesWithout(entries: seq<Target>, times: seq<real>, k: nat, running: map<Target, real>, w: real, t: Target)
    requires k < |times| && Accrues(entries, times, k, running, w)
    ensures Accrues(entries, times, k, running - {t}, w)
  {
  }

  /** Each step that has stopped has been paid its share up to event `k`, the others nothing. */
  ghost predicate Paid(entries: seq<Target>, ev: seq<Event>, i: nat, k: nat, paid: seq<real>)
    requires i <= |ev| && k < |ev|
  {
    && |paid| == |entries|
    && forall j :: 0 <= j < |entries| ==>
         paid[j] == if Stopped(ev, i, entries[j]) then Share(entries, Times(ev), entries[j], k) else 0.0
  }

  lemma PaidOnStop(entries: seq<Target>, ev: seq<Event>, i: nat, next: nat, paid: seq<real>, j: nat, t: Target,
                   weighted: real)
    requires Distinct(entries) && i < next == i + 1 <= |ev| && j < |entries| && entries[j] == t
    requires !Stopped(ev, i, t) && Paid(entries, ev, i, i, paid)
    requires forall u :: u in entries ==> Stopped(ev, next, u) == (Stopped(ev, i, u) || u == t)
    requires weighted == Share(entries, Times(ev), t, i)
    ensures Paid(entries, ev, next, i, paid[j := weighted]) && paid[j] == 0.0
    ensures forall m :: 0 <= m < |entries| ==> Stopped(ev, next, entries[m]) == (Stopped(ev, i, entries[m]) || m == j)
  {
    forall m | 0 <= m < |entries| ensures Stopped(ev, next, entries[m]) == (Stopped(ev, i, entries[m]) || m == j) {
      assert entries[m] in entries;
    }
  }

  /** At the end every step has stopped and nothing is left running. */
  lemma AllStopped(entries: seq<Target>, ev: seq<Event>, i: nat, k: nat, running: map<Target, real>, w: real, paid: seq<real>)
    requires Timeline(entries, ev) && k < i == |ev| && Good(entries, ev, i, k, running, w, paid)
    ensures running.Keys == {}
    ensures forall t :: t in entries ==> Stopped(ev, i, t) && t.start <= t.end
  {
    assert ev[..i] == ev;
    assert forall t :: t in entries ==> StopOf(t) in ev;
  }

  /** What has been paid in the end adds up to the busy time. */
  lemma PaymentsAddUp(entries: seq<Target>, times: seq<real>, k: nat, last: nat, paid: seq<real>)
    requires Distinct(entries) && k == last < |times| && |paid| == |entries|
    requires forall j :: 0 <= j < |entries| ==> paid[j] == Share(entries, times, entries[j], k)
    ensures Sum(paid) == Busy(entries, times, last)
    ensures forall j :: 0 <= j < |entries| ==> paid[j] == Share(entries, times, entries[j], last)
  {
    SumIsSumShares(entries, times, k, paid, |paid|);
    assert paid[..|paid|] == paid;
    SharesAddUp(entries, times, k);
  }

  lemma SweepEnds(entries: seq<Target>, ev: seq<Event>, i: nat, k: nat, last: nat, running: map<Target, real>, w: real,
                  paid: seq<real>, total: real)
    requires Timeline(entries, ev) && Distinct(entries) && k < i == |ev| && k == last
    requires Good(entries, ev, i, k, running, w, paid) && total == Sum(paid)
    ensures running.Keys == {}
    ensures forall t :: t in entries ==> t.start <= t.end
    ensures forall j :: 0 <= j < |entries| ==>
              Stopped(ev, i, entries[j]) && paid[j] == Share(entries, Times(ev), entries[j], last)
    ensures total == Busy(entries, Times(ev), last)
  {
    AllStopped(entries, ev, i, k, running, w, paid);
    PaymentsAddUp(entries, Times(ev), k, last, paid);
  }

  /** The weighted durations recorded so far are what has been paid. */
  ghost predicate Recorded(entries: seq<Target>, ev: seq<Event>, i: nat, paid: seq<real>)
    requires i <= |ev| && |paid| == |entries|
    reads entries
  {
    forall j :: 0 <= j < |entries| && Stopped(ev, i, entries[j]) ==> entries[j].weightedDuration == paid[j]
  }

  /** Pays a step when it stops. */
  method Pay(entries: seq<Target>, ghost ev: seq<Event>, ghost i: nat, ghost next: nat, running: map<Target, real>,
             w: real, total: real, ghost paid: seq<real>, t: Target)
    returns (running': map<Target, real>, total': real, ghost paid': seq<real>)
    requires Timeline(entries, ev) && Distinct(entries) && i < next == i + 1 <= |ev|
    requires ev[i] == StopOf(t) && t in entries && t in running
    requires Good(entries, ev, i, i, running, w, paid) && total == Sum(paid) && Recorded(entries, ev, i, paid)
    modifies t`weightedDuration
    ensures Good(entries, ev, next, i, running', w, paid') && total' == Sum(paid')
    ensures Recorded(entries, ev, next, paid')
  {
    var weighted := w - running[t];
    total' := total + weighted;
    ghost var j :| 0 <= j < |entries| && entries[j] == t;
    OnStop(entries, ev, i, next, running, w, paid, j, t, weighted);
    PayOnce(paid, j, weighted, total, total');
    t.weightedDuration := weighted;
    running', paid' := running - {t}, paid[j := weighted];
  }

  ghost predicate SomeEndsEarly(entries: seq<Target>) {
    exists t :: t in entries && t.start > t.end
  }

  /** What the sweep leaves behind: each step has its share, and the total is the busy time. */
  ghost predicate Swept(entries: seq<Target>, ev: seq<Event>, last: nat, total: real)
    requires last < |ev|
    reads entries
  {
    && (forall t :: t in entries ==> t.weightedDuration == Share(entries, Times(ev), t, last))
    && total == Busy(entries, Times(ev), last)
  }

  lemma MissingStart(entries: seq<Target>, ev: seq<Event>, i: nat, running: map<Target, real>, t: Target)
    requires Timeline(entries, ev) && i < |ev| && ev[i].kind.Stop? && t == ev[i].target && t !in running
    requires TracksRunning(entries, ev, i, running)
    ensures SomeEndsEarly(entries)
  {
    StopOrder(entries, ev, i);
  }

  lemma RecordedAll(entries: seq<Target>, ev: seq<Event>, i: nat, last: nat, paid: seq<real>)
    requires i <= |ev| && last < |ev| && |paid| == |entries| && Recorded(entries, ev, i, paid)
    requires forall j :: 0 <= j < |entries| ==>
               Stopped(ev, i, entries[j]) && paid[j] == Share(entries, Times(ev), entries[j], last)
    ensures forall t :: t in entries ==> t.weightedDuration == Share(entries, Times(ev), t, last)
  {
    forall t | t in entries ensures t.weightedDuration == Share(entries, Times(ev), t, last) {
      var j :| 0 <= j < |entries| && entries[j] == t;
    }
  }

  /** The scan over the sorted events; not `ok` when looking up a stopping step raises `KeyError`. */
  method Sweep(entries: seq<Target>, ev: seq<Event>) returns (total: real, ok: bool, ghost last: nat)
    requires Distinct(entries) && Timeline(entries, ev) && ev != []
    modifies set t | t in entries :: t`weightedDuration
    ensures !ok <==> SomeEndsEarly(entries)
    ensures last + 1 == |ev| && (ok ==> Swept(entries, ev, last, total))
  {
    var running: map<Target, real> := map[];
    var lastTime, w := ev[0].time, 0.0;
    total, ok, last := 0.0, true, |ev| - 1;
    ghost var paid, k := seq(|entries|, _ => 0.0), 0;
    SumZeros(paid);
    var i := 0;
    while i < |ev|
      invariant 0 <= i <= |ev| && (k + 1 == i || k == i == 0)
      invariant lastTime == ev[k].time
      invariant Good(entries, ev, i, k, running, w, paid)
      invariant total == Sum(paid)
      invariant Recorded(entries, ev, i, paid)
    {
      var e := ev[i];
      assert e in ev;
      Tick(entries, ev, i, k, running, w, paid);
      w := Advance(running, w, lastTime, e.time);
      var next := i + 1;
      if e.kind.Start? {
        StartEvent(entries, ev, i, running, w);
        OnStart(entries, ev, i, next, running, w, paid);
        running := running[e.target := w];
      } else {
        StopOrder(entries, ev, i);
        if e.target !in running {
          MissingStart(entries, ev, i, running, e.target);
          return total, false, last;
        }
        running, total, paid := Pay(entries, ev, i, next, running, w, total, paid, e.target);
      }
      lastTime, k, i := e.time, i, next;
    }
    SweepEnds(entries, ev, i, k, last, running, w, paid, total);
    RecordedAll(entries, ev, i, last, paid);
    assert running.Keys == {};
  }

  // ---------------------------------------------------------------------------------
  // The extent of the build, and the report.

  ghost predicate IsEarliest(entries: seq<Target>, x: real) {
    (exists t :: t in entries && t.start == x) && forall t :: t in entries ==> x <= t.start
  }

  ghost predicate IsLatest(entries: seq<Target>, x: real) {
    (exists t :: t in entries && t.end == x) && forall t :: t in entries ==> t.end <= x
  }

  /** The value of `earliest` after the first loop, which uses a negative value as "not yet set". */
  ghost function EarliestSeen(entries: seq<Target>): real {
    if entries == [] then -1.0
    else
      var e, s := EarliestSeen(entries[..|entries| - 1]), entries[|entries| - 1].start;
      if e < 0.0 || s < e then s else e
  }

  /** The value of `latest` after the first loop, which starts from zero. */
  ghost function LatestSeen(entries: seq<Target>): real {
    if entries == [] then 0.0
    else
      var l, s := LatestSeen(entries[..|entries| - 1]), entries[|entries| - 1].end;
      if s > l then s else l
  }

  ghost function TotalDuration(entries: seq<Target>): real {
    if entries == [] then 0.0 else TotalDuration(entries[..|entries| - 1]) + entries[|entries| - 1].Duration()
  }

  lemma {:induction false} EarliestSeenIsAStart(entries: seq<Target>)
    requires entries != []
    ensures exists t :: t in entries && t.start == EarliestSeen(entries)
    ensures (forall t :: t in entries ==> t.start >= 0.0) ==> IsEarliest(entries, EarliestSeen(entries))
  {
    var init, last := entries[..|entries| - 1], entries[|entries| - 1];
    assert entries == init + [last];
    if init != [] {
      EarliestSeenIsAStart(init);
      var u :| u in init && u.start == EarliestSeen(init);
      assert u in entries;
    }
    assert last in entries;
  }

  lemma LastStartsFirst(entries: seq<Target>)
    requires entries != [] && forall t :: t in entries ==> entries[|entries| - 1].start <= t.start
    ensures EarliestSeen(entries) == entries[|entries| - 1].start
  {
    var init, last := entries[..|entries| - 1], entries[|entries| - 1];
    if init != [] {
      EarliestSeenIsAStart(init);
      var u :| u in init && u.start == EarliestSeen(init);
      assert u in entries;
    }
  }

  /** `earliest` is the earliest start exactly when no start is negative or the last entry starts first. */
  lemma EarliestSeenIsEarliest(entries: seq<Target>)
    requires entries != []
    ensures IsEarliest(entries, EarliestSeen(entries)) <==>
            || (forall t :: t in entries ==> t.start >= 0.0)
            || (forall t :: t in entries ==> entries[|entries| - 1].start <= t.start)
  {
    var last := entries[|entries| - 1];
    if forall t :: t in entries ==> t.start >= 0.0 {
      EarliestSeenIsAStart(entries);
    } else if forall t :: t in entries ==> last.start <= t.start {
      LastStartsFirst(entries);
      assert last in entries;
    } else {
      var u :| u in entries && u.start < 0.0;
      var v :| v in entries && v.start < last.start;
      var e := EarliestSeen(entries);
      assert e > u.start || e > v.start;
    }
  }

  /** Starting before zero: the second entry replaces the first, although it starts later. */
  lemma NegativeStartIsLost(a: Target, b: Target)
    requires a.start == -2.0 && b.start == -1.0
    ensures EarliestSeen([a, b]) == -1.0 && !IsEarliest([a, b], EarliestSeen([a, b]))
  {
    var entries := [a, b];
    assert entries[..1] == [a] && [a][..0] == [];
    assert EarliestSeen([a]) == -2.0;
    assert a in entries;
  }

  lemma {:induction false} LatestSeenBounds(entries: seq<Target>)
    ensures LatestSeen(entries) >= 0.0 && forall t :: t in entries ==> t.end <= LatestSeen(entries)
    ensures LatestSeen(entries) == 0.0 || exists t :: t in entries && t.end == LatestSeen(entries)
  {
    if entries != [] {
      var init, last := entries[..|entries| - 1], entries[|entries| - 1];
      assert entries == init + [last] && last in entries;
      LatestSeenBounds(init);
      if LatestSeen(entries) != 0.0 && LatestSeen(entries) != last.end {
        var u :| u in init && u.end == LatestSeen(init);
        assert u in entries;
      }
    }
  }

  /** `latest` is the latest end exactly when some end is not negative. */
  lemma LatestSeenIsLatest(entries: seq<Target>)
    ensures IsLatest(entries, LatestSeen(entries)) <==> exists t :: t in entries && t.end >= 0.0
  {
    LatestSeenBounds(entries);
    if t :| t in entries && t.end >= 0.0 {
      assert LatestSeen(entries) == 0.0 ==> t.end == LatestSeen(entries);
    }
  }

  lemma TimesAreStartsOrEnds(entries: seq<Target>, ev: seq<Event>, i: nat) returns (t: Target)
    requires Timeline(entries, ev) && i < |ev|
    ensures t in entries && (t.start == ev[i].time || t.end == ev[i].time)
  {
    assert ev[i] in ev;
    t := ev[i].target;
  }

  lemma GridExtent(entries: seq<Target>, times: seq<real>, t: Target)
    requires Grid(entries, times) && t in entries
    ensures times[0] <= t.start && t.end <= times[|times| - 1]
  {
    var i :| 0 <= i < |times| && times[i] == t.start;
    var j :| 0 <= j < |times| && times[j] == t.end;
  }

  /** The timeline begins with the earliest start and finishes with the latest end. */
  lemma TimelineExtent(entries: seq<Target>, ev: seq<Event>, times: seq<real>, k: nat)
    requires Timeline(entries, ev) && times == Times(ev) && k + 1 == |ev|
    requires forall t :: t in entries ==> t.start <= t.end
    ensures IsEarliest(entries, times[0]) && IsLatest(entries, times[k])
  {
    TimelineGivesGrid(entries, ev);
    forall t | t in entries ensures times[0] <= t.start && t.end <= times[k] { GridExtent(entries, times, t); }
    var first := TimesAreStartsOrEnds(entries, ev, 0);
    var last := TimesAreStartsOrEnds(entries, ev, k);
    assert first.start == times[0] && last.end == times[k];
  }

  lemma EarliestIsUnique(entries: seq<Target>, x: real, y: real)
    requires IsEarliest(entries, x) && IsEarliest(entries, y)
    ensures x == y
  {
  }

  lemma LatestIsUnique(entries: seq<Target>, x: real, y: real)
    requires IsLatest(entries, x) && IsLatest(entries, y)
    ensures x == y
  {
  }

  lemma LatestIsCovered(entries: seq<Target>, x: real)
    requires IsLatest(entries, x) && forall t :: t in entries ==> t.start <= t.end
    ensures Covered(entries, x)
  {
    var t :| t in entries && t.end == x;
    assert t.start <= x <= t.end;
  }

  lemma GridBusyAgainstExtent(entries: seq<Target>, times: seq<real>, k: nat)
    requires Grid(entries, times) && k + 1 == |times| && Covered(entries, times[k])
    ensures Busy(entries, times, k) <= times[k] - times[0]
    ensures Busy(entries, times, k) == times[k] - times[0] <==> NeverIdle(entries, times[0], times[k])
  {
    BusyWithinExtent(entries, times, k);
    BusyIsExtentIffNeverIdle(entries, times);
  }

  /** The busy time is at most the extent of the build, and all of it exactly when no instant in between is idle. */
  lemma BusyAgainstExtent(entries: seq<Target>, ev: seq<Event>, times: seq<real>, k: nat)
    requires Timeline(entries, ev) && times == Times(ev) && k + 1 == |ev|
    requires forall t :: t in entries ==> t.start <= t.end
    ensures IsEarliest(entries, times[0]) && IsLatest(entries, times[k])
    ensures Busy(entries, times, k) <= times[k] - times[0]
    ensures Busy(entries, times, k) == times[k] - times[0] <==> NeverIdle(entries, times[0], times[k])
  {
    TimelineGivesGrid(entries, ev);
    TimelineExtent(entries, ev, times, k);
    LatestIsCovered(entries, times[k]);
    GridBusyAgainstExtent(entries, times, k);
  }

  method CollectEvents(entries: seq<Target>)
    returns (events: seq<Event>, earliest: real, latest: real, totalCpuTime: real)
    ensures events == Events(entries)
    ensures earliest == EarliestSeen(entries) && latest == LatestSeen(entries)
    ensures totalCpuTime == TotalDuration(entries)
  {
    events, earliest, latest, totalCpuTime := [], -1.0, 0.0, 0.0;
    for i := 0 to |entries|
      invariant events == Events(entries[..i])
      invariant earliest == EarliestSeen(entries[..i]) && latest == LatestSeen(entries[..i])
      invariant totalCpuTime == TotalDuration(entries[..i])
    {
      var target := entries[i];
      if earliest < 0.0 || target.start < earliest { earliest := target.start; }
      if target.end > latest { latest := target.end; }
      totalCpuTime := totalCpuTime + target.Duration();
      events := events + [StartOf(target), StopOf(target)];
      assert entries[..i + 1][..i] == entries[..i];
    }
    assert entries[..|entries|] == entries;
  }

  /** Sorts the events and sweeps them; `ev` is the timeline, and `last` its last index. */
  method SortAndSweep(entries: seq<Target>, events: seq<Event>)
    returns (r: Result<real, Error>, ghost ev: seq<Event>, ghost last: nat)
    requires Distinct(entries) && events == Events(entries)
    modifies set t | t in entries :: t`weightedDuration
    ensures ev == Sort(Events(entries)) && Timeline(entries, ev)
    ensures r == Failure(IndexError) <==> entries == []
    ensures r == Failure(KeyError) <==> SomeEndsEarly(entries)
    ensures r.Success? ==> last + 1 == |ev| && Swept(entries, ev, last, r.value)
  {
    var sorted := SortEvents(entries, events);
    ev, last := sorted, 0;
    if sorted == [] { return Failure(IndexError), ev, last; }
    var total, ok;
    total, ok, last := Sweep(entries, sorted);
    r := if ok then Success(total) else Failure(KeyError);
  }

  method SortEvents(entries: seq<Target>, events: seq<Event>) returns (ev: seq<Event>)
    requires Distinct(entries) && events == Events(entries)
    ensures ev == Sort(Events(entries)) && Timeline(entries, ev) && (ev == [] <==> entries == [])
  {
    SortedEventsAreTimeline(entries);
    ev := Sort(events);
  }

  /** The whole summary.  The warning threshold is 500 seconds: times are in seconds here. */
  method SummarizeEntries(entries: seq<Target>) returns (r: Result<Report, Error>, ghost ev: seq<Event>, ghost last: nat)
    requires Distinct(entries)
    modifies set t | t in entries :: t`weightedDuration
    ensures r == Failure(IndexError) <==> entries == []
    ensures r == Failure(KeyError) <==> SomeEndsEarly(entries)
    ensures ev == Sort(Events(entries)) && Timeline(entries, ev)
    ensures r.Success? ==>
              && last + 1 == |ev| && Swept(entries, ev, last, r.value.weightedTotal)
              && r.value.length == LatestSeen(entries) - EarliestSeen(entries)
              && r.value.totalCpuTime == TotalDuration(entries)
              && (r.value.warned <==>
                  r.value.length - r.value.weightedTotal > 500.0 || r.value.weightedTotal - r.value.length > 500.0)
  {
    var events, earliest, latest, totalCpuTime := CollectEvents(entries);
    var total;
    total, ev, last := SortAndSweep(entries, events);
    if total.Failure? { return Failure(total.error), ev, last; }
    var length := latest - earliest;
    r := Success(Report(length, total.value, totalCpuTime, TooFarOff(length, total.value)));
  }

  predicate TooFarOff(length: real, weightedTotal: real) {
    length - weightedTotal > 500.0 || weightedTotal - length > 500.0
  }

  /** For a log whose times are not negative, the reported length is the extent of the build, the
      weighted total is at most that, and the warning means more than 500 seconds of idle time. */
  lemma WarningMeansIdle(entries: seq<Target>, ev: seq<Event>, times: seq<real>, k: nat, length: real)
    requires Timeline(entries, ev) && times == Times(ev) && k + 1 == |ev|
    requires forall t :: t in entries ==> 0.0 <= t.start <= t.end
    requires length == LatestSeen(entries) - EarliestSeen(entries)
    ensures IsEarliest(entries, EarliestSeen(entries)) && IsLatest(entries, LatestSeen(entries))
    ensures Busy(entries, times, k) <= length
    ensures TooFarOff(length, Busy(entries, times, k)) <==> length - Busy(entries, times, k) > 500.0
    ensures Busy(entries, times, k) == length <==> NeverIdle(entries, EarliestSeen(entries), LatestSeen(entries))
  {
    BusyAgainstExtent(entries, ev, times, k);
    EarliestSeenIsAStart(entries);
    LatestSeenIsLatest(entries);
    assert exists t :: t in entries && t.end >= 0.0 by {
      var t :| t in entries && t.end == times[k];
      assert 0.0 <= t.start <= t.end;
    }
    EarliestIsUnique(entries, EarliestSeen(entries), times[0]);
    LatestIsUnique(entries, LatestSeen(entries), times[k]);
  }
}
