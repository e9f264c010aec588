/**
 The total CPU time of a build (tools/report_build_time_ninja.py) against the time during which
 something ran: they differ by exactly what ran in parallel.
 */
module NinjaTotals {
  import opened NinjaTarget
  import opened NinjaShares
  import opened NinjaSweep

  ghost predicate InOrder(entries: seq<Target>) {
    forall t :: t in entries ==> t.start <= t.end
  }

  /** None of the first `n` steps has shared its time. */
  ghost predicate AllWhole(entries: seq<Target>, times: seq<real>, n: nat)
    requires times != [] && n <= |entries|
  {
    n == 0 ||
    (AllWhole(entries, times, n - 1) && Share(entries, times, entries[n - 1], |times| - 1) == entries[n - 1].Duration())
  }

  lemma {:induction false} AllWholeAt(entries: seq<Target>, times: seq<real>, n: nat)
    requires times != [] && n <= |entries|
    ensures AllWhole(entries, times, n) <==>
            forall i :: 0 <= i < n ==> Share(entries, times, entries[i], |times| - 1) == entries[i].Duration()
  {
    if n > 0 { AllWholeAt(entries, times, n - 1); }
  }

  lemma TotalStep(entries: seq<Target>, n: nat, next: nat)
    requires n + 1 == next <= |entries|
    ensures TotalDuration(entries[..next]) == TotalDuration(entries[..n]) + entries[n].Duration()
  {
    assert entries[..next][..n] == entries[..n];
  }

  /** What the first `n` steps lost to others that ran at the same time. */
  lemma {:induction false} SharesWithinDurations(entries: seq<Target>, times: seq<real>, n: nat)
    requires Grid(entries, times) && InOrder(entries) && n <= |entries|
    ensures SumShares(entries, times, |times| - 1, n) <= TotalDuration(entries[..n])
    ensures SumShares(entries, times, |times| - 1, n) == TotalDuration(entries[..n]) <==>
            AllWhole(entries, times, n)
  {
    if n > 0 {
      SharesWithinDurations(entries, times, n - 1);
      TotalStep(entries, n - 1, n);
      WeightedAtMostDuration(entries, times, entries[n - 1]);
    }
  }

  lemma SharedGap(entries: seq<Target>, t: Target, u: Target, a: real, b: real)
    requires t in entries && u in entries && t != u && a < b && Runs(t, a, b) && Runs(u, a, b)
    ensures GapShare(entries, t, a, b) < b - a
  {
    var running := Running(entries, a, b);
    SubsetCardinality({t, u}, running);
    DivideLess(b - a, 2.0, |running| as real);
  }

  lemma GapWithin(entries: seq<Target>, times: seq<real>, t: Target, k: nat, next: nat)
    requires Grid(entries, times) && t in entries && t.start <= t.end && k + 1 == next < |times|
    ensures GapShare(entries, t, times[k], times[next]) <= Overlap(t, times[next]) - Overlap(t, times[k])
    ensures Runs(t, times[k], times[next]) ==> Overlap(t, times[next]) - Overlap(t, times[k]) == times[next] - times[k]
  {
    var a, b := times[k], times[next];
    assert a <= b;
    NoStraddling(times, t.start, next);
    NoStraddling(times, t.end, next);
    if Runs(t, a, b) {
      var n := |Running(entries, a, b)|;
      assert t in Running(entries, a, b);
      DivideLess(b - a, 1.0, n as real);
    }
  }

  /** Once a step has shared its time, it stays behind its duration. */
  lemma {:induction false} SharedStaysBehind(entries: seq<Target>, times: seq<real>, t: Target, u: Target, j: nat, k: nat)
    requires Grid(entries, times) && t in entries && u in entries && t != u && t.start <= t.end
    requires 0 < j <= k < |times| && times[j - 1] < times[j]
    requires Runs(t, times[j - 1], times[j]) && Runs(u, times[j - 1], times[j])
    ensures Share(entries, times, t, k) < Overlap(t, times[k])
  {
    var p := k - 1;
    GapWithin(entries, times, t, p, k);
    if j == k {
      SharedGap(entries, t, u, times[p], times[k]);
      ShareWithin(entries, times, t, p);
    } else {
      SharedStaysBehind(entries, times, t, u, j, p);
    }
  }

  lemma {:induction false} ShareWithin(entries: seq<Target>, times: seq<real>, t: Target, k: nat)
    requires Grid(entries, times) && t in entries && t.start <= t.end && k < |times|
    ensures Share(entries, times, t, k) <= Overlap(t, times[k])
  {
    if k > 0 {
      ShareWithin(entries, times, t, k - 1);
      GapWithin(entries, times, t, k - 1, k);
    }
  }

  lemma RunsAround(times: seq<real>, t: Target, x: real, j: nat)
    requires forall i, l :: 0 <= i < l < |times| ==> times[i] <= times[l]
    requires t.start in times && t.end in times && t.start < x < t.end
    requires 0 < j < |times| && times[j - 1] <= x < times[j]
    ensures Runs(t, times[j - 1], times[j])
  {
    NoStraddling(times, t.start, j);
    NoStraddling(times, t.end, j);
  }

  lemma Spans(times: seq<real>, x: real)
    requires x in times && forall i, l :: 0 <= i < l < |times| ==> times[i] <= times[l]
    ensures times[0] <= x <= times[|times| - 1]
  {
    var i :| 0 <= i < |times| && times[i] == x;
  }

  lemma OverlapCosts(entries: seq<Target>, times: seq<real>, t: Target, u: Target, x: real)
    requires Grid(entries, times) && t in entries && u in entries && t != u
    requires t.start < x < t.end && u.start < x < u.end
    ensures Share(entries, times, t, |times| - 1) < t.Duration()
  {
    var last := |times| - 1;
    Spans(times, t.start);
    Spans(times, t.end);
    var j := GapOfInstant(times, x, last);
    RunsAround(times, t, x, j);
    RunsAround(times, u, x, j);
    SharedStaysBehind(entries, times, t, u, j, last);
  }

  lemma AtMostOne(s: set<Target>)
    requires forall t, u :: t in s && u in s ==> t == u
    ensures |s| <= 1
  {
    if t :| t in s { assert s == {t}; }
  }

  lemma ParallelIsLost(entries: seq<Target>, times: seq<real>)
    requires Grid(entries, times) && InOrder(entries)
    requires forall i :: 0 <= i < |entries| ==> Share(entries, times, entries[i], |times| - 1) == entries[i].Duration()
    ensures ConcurrencyAtMost(entries, 1)
  {
    forall x: real ensures |Inside(entries, x)| <= 1 {
      forall t, u | t in Inside(entries, x) && u in Inside(entries, x) ensures t == u {
        if t != u { OverlapCosts(entries, times, t, u, x); }
      }
      AtMostOne(Inside(entries, x));
    }
  }

  lemma AloneIsWhole(entries: seq<Target>, times: seq<real>, t: Target)
    requires Grid(entries, times) && t in entries && t.start <= t.end && ConcurrencyAtMost(entries, 1)
    ensures Share(entries, times, t, |times| - 1) == t.Duration()
  {
    WeightedDurationBounds(entries, times, t, 1);
  }

  /** The total CPU time is at least the busy time, with equality exactly when no two steps run at once. */
  lemma TotalAgainstBusy(entries: seq<Target>, times: seq<real>)
    requires Distinct(entries) && Grid(entries, times) && InOrder(entries)
    ensures Busy(entries, times, |times| - 1) <= TotalDuration(entries)
    ensures Busy(entries, times, |times| - 1) == TotalDuration(entries) <==> ConcurrencyAtMost(entries, 1)
  {
    var n, last := |entries|, |times| - 1;
    SharesAddUp(entries, times, last);
    SharesWithinDurations(entries, times, n);
    assert entries[..n] == entries;
    AllWholeAt(entries, times, n);
    if ConcurrencyAtMost(entries, 1) {
      forall i | 0 <= i < n ensures Share(entries, times, entries[i], last) == entries[i].Duration() {
        AloneIsWhole(entries, times, entries[i]);
      }
    } else if Busy(entries, times, last) == TotalDuration(entries) {
      ParallelIsLost(entries, times);
    }
  }
}
