/**
 What a build step's weighted duration means: its share of every stretch of time that it
 runs, divided evenly among the steps that run then.  Stretches lie between consecutive
 points of a time grid that holds every start and every end.
 */
module NinjaShares {
  import opened NinjaTarget

  predicate Runs(t: Target, a: real, b: real) {
    t.start <= a && b <= t.end
  }

  ghost function Running(entries: seq<Target>, a: real, b: real): set<Target> {
    set t | t in entries && Runs(t, a, b)
  }

  /** A stretch of time shared evenly by `n` steps. */
  function Split(x: real, n: nat): real
    requires n > 0
  {
    x / n as real
  }

  lemma SplitNothing(n: nat)
    requires n > 0
    ensures Split(0.0, n) == 0.0
  {
  }

  ghost function GapShare(entries: seq<Target>, t: Target, a: real, b: real): real
    requires t in entries
  {
    if Runs(t, a, b) then
      assert t in Running(entries, a, b);
      Split(b - a, |Running(entries, a, b)|)
    else 0.0
  }

  /** The weighted time of `t` up to grid point `k`. */
  ghost function Share(entries: seq<Target>, times: seq<real>, t: Target, k: nat): real
    requires t in entries && k < |times|
  {
    if k == 0 then 0.0
    else Share(entries, times, t, k - 1) + GapShare(entries, t, times[k - 1], times[k])
  }

  ghost function BusyGap(entries: seq<Target>, a: real, b: real): real {
    if Running(entries, a, b) != {} then b - a else 0.0
  }

  /** The time up to grid point `k` during which at least one step runs. */
  ghost function Busy(entries: seq<Target>, times: seq<real>, k: nat): real
    requires k < |times|
  {
    if k == 0 then 0.0
    else Busy(entries, times, k - 1) + BusyGap(entries, times[k - 1], times[k])
  }

  ghost function SumShares(entries: seq<Target>, times: seq<real>, k: nat, n: nat): real
    requires k < |times| && n <= |entries|
  {
    if n == 0 then 0.0 else SumShares(entries, times, k, n - 1) + Share(entries, times, entries[n - 1], k)
  }

  ghost predicate Grid(entries: seq<Target>, times: seq<real>) {
    && times != []
    && (forall i, j :: 0 <= i < j < |times| ==> times[i] <= times[j])
    && (forall t :: t in entries ==> t.start in times && t.end in times)
  }

  // ---------------------------------------------------------------------------------
  // Conservation: the shares add up to the busy time.

  ghost function SumGap(entries: seq<Target>, a: real, b: real, n: nat): real
    requires n <= |entries|
  {
    if n == 0 then 0.0 else SumGap(entries, a, b, n - 1) + GapShare(entries, entries[n - 1], a, b)
  }

  lemma CountStep(entries: seq<Target>, a: real, b: real, n: nat)
    requires Distinct(entries) && 0 < n <= |entries|
    ensures |Running(entries[..n], a, b)| ==
            |Running(entries[..n - 1], a, b)| + if Runs(entries[n - 1], a, b) then 1 else 0
  {
    var t := entries[n - 1];
    assert entries[..n] == entries[..n - 1] + [t];
    assert t !in entries[..n - 1];
    if Runs(t, a, b) {
      assert Running(entries[..n], a, b) == Running(entries[..n - 1], a, b) + {t};
    } else {
      assert Running(entries[..n], a, b) == Running(entries[..n - 1], a, b);
    }
  }

  lemma AddOne(c: nat, x: real)
    ensures (c + 1) as real * x == c as real * x + x
  {
  }

  lemma {:induction false} SumGapCounts(entries: seq<Target>, a: real, b: real, n: nat)
    requires Distinct(entries) && n <= |entries| && Running(entries, a, b) != {}
    ensures SumGap(entries, a, b, n) ==
            |Running(entries[..n], a, b)| as real * Split(b - a, |Running(entries, a, b)|)
  {
    if n == 0 {
      assert Running(entries[..0], a, b) == {};
    } else {
      SumGapCounts(entries, a, b, n - 1);
      CountStep(entries, a, b, n);
      AddOne(|Running(entries[..n - 1], a, b)|, Split(b - a, |Running(entries, a, b)|));
    }
  }

  lemma {:induction false} SumGapIdle(entries: seq<Target>, a: real, b: real, n: nat)
    requires n <= |entries| && Running(entries, a, b) == {}
    ensures SumGap(entries, a, b, n) == 0.0
  {
    if n > 0 {
      SumGapIdle(entries, a, b, n - 1);
      assert entries[n - 1] !in Running(entries, a, b);
    }
  }

  lemma {:induction false} SumSharesStep(entries: seq<Target>, times: seq<real>, k: nat, n: nat)
    requires 0 < k < |times| && n <= |entries|
    ensures SumShares(entries, times, k, n) ==
            SumShares(entries, times, k - 1, n) + SumGap(entries, times[k - 1], times[k], n)
  {
    if n > 0 { SumSharesStep(entries, times, k, n - 1); }
  }

  /** The weighted durations add up to the time during which at least one step runs. */
  lemma {:induction false} SharesAddUp(entries: seq<Target>, times: seq<real>, k: nat)
    requires Distinct(entries) && k < |times|
    ensures SumShares(entries, times, k, |entries|) == Busy(entries, times, k)
  {
    var n := |entries|;
    if k == 0 {
      NoSharesYet(entries, times, n);
    } else {
      SharesAddUp(entries, times, k - 1);
      SumSharesStep(entries, times, k, n);
      var a, b := times[k - 1], times[k];
      if Running(entries, a, b) == {} {
        SumGapIdle(entries, a, b, n);
      } else {
        SumGapCounts(entries, a, b, n);
        assert entries[..n] == entries;
      }
    }
  }

  lemma {:induction false} NoSharesYet(entries: seq<Target>, times: seq<real>, n: nat)
    requires times != [] && n <= |entries|
    ensures SumShares(entries, times, 0, n) == 0.0
  {
    if n > 0 { NoSharesYet(entries, times, n - 1); }
  }

  // ---------------------------------------------------------------------------------
  // Bounds: a share is at most the duration, and at least the duration over the peak concurrency.

  /** At no instant do more than `p` steps run. */
  ghost predicate ConcurrencyAtMost(entries: seq<Target>, p: nat) {
    forall x: real :: |Inside(entries, x)| <= p
  }

  ghost function Inside(entries: seq<Target>, x: real): set<Target> {
    set t | t in entries && t.start < x < t.end
  }

  /** How much of `t` lies before `x`. */
  function Overlap(t: Target, x: real): real {
    if x <= t.start then 0.0 else if x <= t.end then x - t.start else t.end - t.start
  }

  lemma NoStraddling(times: seq<real>, x: real, j: nat)
    requires forall i, k :: 0 <= i < k < |times| ==> times[i] <= times[k]
    requires x in times && 0 < j < |times|
    ensures x <= times[j - 1] || times[j] <= x
  {
    var i :| 0 <= i < |times| && times[i] == x;
    if i < j - 1 { assert times[i] <= times[j - 1]; }
    if i > j { assert times[j] <= times[i]; }
  }

  lemma SubsetCardinality<T>(a: set<T>, b: set<T>)
    requires a <= b
    ensures |a| <= |b|
  {
    assert b == a + (b - a);
  }

  lemma RunningBound(entries: seq<Target>, a: real, b: real, p: nat)
    requires a < b && ConcurrencyAtMost(entries, p)
    ensures |Running(entries, a, b)| <= p
  {
    var x := (a + b) / 2.0;
    assert Running(entries, a, b) <= Inside(entries, x);
    SubsetCardinality(Running(entries, a, b), Inside(entries, x));
    assert |Inside(entries, x)| <= p;
  }

  lemma GapShareBounds(entries: seq<Target>, t: Target, a: real, b: real, p: nat)
    requires t in entries && a <= b && p > 0 && ConcurrencyAtMost(entries, p)
    ensures Runs(t, a, b) ==> (b - a) / p as real <= GapShare(entries, t, a, b) <= b - a
  {
    if Runs(t, a, b) {
      var n := |Running(entries, a, b)|;
      assert t in Running(entries, a, b);
      if a < b {
        RunningBound(entries, a, b, p);
        DivideLess(b - a, 1.0, n as real);
        DivideLess(b - a, n as real, p as real);
      }
    }
  }

  lemma DivideLess(x: real, m: real, n: real)
    requires x >= 0.0 && 0.0 < m <= n
    ensures x / n <= x / m
  {
    var q, r := x / n, x / m;
    assert q * n == x && r * m == x;
  }

  lemma DivideSum(x: real, y: real, n: real)
    requires n != 0.0
    ensures (x + y) / n == x / n + y / n
  {
    var q, r := x / n, y / n;
    assert (q + r) * n == q * n + r * n == x + y;
  }

  lemma EmptyGap(entries: seq<Target>, t: Target, a: real)
    requires t in entries
    ensures GapShare(entries, t, a, a) == 0.0
  {
    if Runs(t, a, a) {
      assert t in Running(entries, a, a);
      SplitNothing(|Running(entries, a, a)|);
    }
  }

  lemma {:induction false} ShareBounds(entries: seq<Target>, times: seq<real>, t: Target, k: nat, p: nat)
    requires Grid(entries, times) && t in entries && t.start <= t.end && k < |times|
    requires p > 0 && ConcurrencyAtMost(entries, p)
    ensures Overlap(t, times[k]) / p as real <= Share(entries, times, t, k) <= Overlap(t, times[k])
  {
    if k == 0 {
      var i :| 0 <= i < |times| && times[i] == t.start;
      assert times[0] <= t.start;
    } else {
      ShareBounds(entries, times, t, k - 1, p);
      var a, b := times[k - 1], times[k];
      NoStraddling(times, t.start, k);
      NoStraddling(times, t.end, k);
      GapShareBounds(entries, t, a, b, p);
      assert a <= b;
      if Runs(t, a, b) {
        assert Overlap(t, b) == Overlap(t, a) + (b - a);
        DivideSum(Overlap(t, a), b - a, p as real);
      } else {
        assert Overlap(t, b) == Overlap(t, a);
        assert GapShare(entries, t, a, b) == 0.0;
      }
    }
  }

  /** Over the whole grid: duration / peak concurrency <= weighted duration <= duration. */
  lemma WeightedDurationBounds(entries: seq<Target>, times: seq<real>, t: Target, p: nat)
    requires Grid(entries, times) && t in entries && t.start <= t.end
    requires p > 0 && ConcurrencyAtMost(entries, p)
    ensures t.Duration() / p as real <= Share(entries, times, t, |times| - 1) <= t.Duration()
  {
    ShareBounds(entries, times, t, |times| - 1, p);
    var i :| 0 <= i < |times| && times[i] == t.end;
    assert t.end <= times[|times| - 1];
  }

  lemma {:induction false} ElementsAtMostLength<T>(s: seq<T>)
    ensures |set x | x in s| <= |s|
  {
    if s != [] {
      var init, last := s[..|s| - 1], s[|s| - 1];
      ElementsAtMostLength(init);
      assert (set x | x in s) == (set x | x in init) + {last};
    }
  }

  /** The assertion in `WeightedDuration` cannot fail: a weighted duration never exceeds the duration. */
  lemma WeightedAtMostDuration(entries: seq<Target>, times: seq<real>, t: Target)
    requires Grid(entries, times) && t in entries && t.start <= t.end
    ensures 0.0 <= Share(entries, times, t, |times| - 1) <= t.Duration()
  {
    forall x: real ensures |Inside(entries, x)| <= |entries| {
      ElementsAtMostLength(entries);
      SubsetCardinality(Inside(entries, x), set u | u in entries);
    }
    WeightedDurationBounds(entries, times, t, |entries|);
    assert t.Duration() / |entries| as real >= 0.0;
  }

  // ---------------------------------------------------------------------------------
  // Before the start and after the end nothing accrues.

  lemma {:induction false} NoShareBeforeStart(entries: seq<Target>, times: seq<real>, t: Target, k: nat)
    requires Grid(entries, times) && t in entries && k < |times| && times[k] <= t.start
    ensures Share(entries, times, t, k) == 0.0
  {
    if k > 0 {
      assert times[k - 1] <= times[k];
      NoShareBeforeStart(entries, times, t, k - 1);
      if Runs(t, times[k - 1], times[k]) { EmptyGap(entries, t, times[k]); }
    }
  }

  lemma NoShareAfterEnd(entries: seq<Target>, times: seq<real>, t: Target, k: nat, next: nat)
    requires Grid(entries, times) && t in entries && k + 1 == next < |times| && t.end <= times[k]
    ensures Share(entries, times, t, next) == Share(entries, times, t, k)
  {
    assert times[k] <= times[next];
    if Runs(t, times[k], times[next]) { EmptyGap(entries, t, times[next]); }
  }

  // ---------------------------------------------------------------------------------
  // Busy time against the extent of the build.

  ghost predicate GapBusy(entries: seq<Target>, times: seq<real>, j: nat)
    requires 0 < j < |times|
  {
    times[j - 1] < times[j] ==> Running(entries, times[j - 1], times[j]) != {}
  }

  ghost predicate GapsBusy(entries: seq<Target>, times: seq<real>, k: nat)
    requires k < |times|
  {
    forall j :: 0 < j <= k ==> GapBusy(entries, times, j)
  }

  lemma {:induction false} BusyWithinExtent(entries: seq<Target>, times: seq<real>, k: nat)
    requires Grid(entries, times) && k < |times|
    ensures Busy(entries, times, k) <= times[k] - times[0]
    ensures Busy(entries, times, k) == times[k] - times[0] <==> GapsBusy(entries, times, k)
  {
    if k > 0 {
      BusyWithinExtent(entries, times, k - 1);
      assert times[k - 1] <= times[k];
      assert GapsBusy(entries, times, k) <==> GapsBusy(entries, times, k - 1) && GapBusy(entries, times, k);
    }
  }

  /** Some step is running at the instant `x`. */
  ghost predicate Covered(entries: seq<Target>, x: real) {
    exists t :: t in entries && t.start <= x <= t.end
  }

  lemma GapOfInstant(times: seq<real>, x: real, k: nat) returns (j: nat)
    requires 0 < k < |times| && times[0] <= x < times[k]
    requires forall i, l :: 0 <= i < l < |times| ==> times[i] <= times[l]
    ensures 0 < j <= k && times[j - 1] <= x < times[j]
  {
    j := k;
    while x < times[j - 1]
      invariant 0 < j <= k && x < times[j]
      decreases j
    {
      j := j - 1;
    }
  }

  ghost predicate NeverIdle(entries: seq<Target>, a: real, b: real) {
    forall x: real :: a <= x <= b ==> Covered(entries, x)
  }

  lemma BusyGapsNeverIdle(entries: seq<Target>, times: seq<real>, k: nat)
    requires Grid(entries, times) && k < |times| && GapsBusy(entries, times, k) && Covered(entries, times[k])
    ensures NeverIdle(entries, times[0], times[k])
  {
    forall x: real | times[0] <= x <= times[k] ensures Covered(entries, x) {
      if x < times[k] { BusyGapCovers(entries, times, x, k); }
    }
  }

  lemma NeverIdleGapsBusy(entries: seq<Target>, times: seq<real>, k: nat)
    requires Grid(entries, times) && k < |times| && NeverIdle(entries, times[0], times[k])
    ensures GapsBusy(entries, times, k)
  {
    forall j | 0 < j <= k ensures GapBusy(entries, times, j) {
      if times[j - 1] < times[j] {
        var x := (times[j - 1] + times[j]) / 2.0;
        assert times[0] <= times[j - 1] && times[j] <= times[k];
        CoveredGapIsBusy(entries, times, j, x);
      }
    }
  }

  /** The busy time is the whole extent exactly when no instant of the extent is idle. */
  lemma BusyIsExtentIffNeverIdle(entries: seq<Target>, times: seq<real>)
    requires Grid(entries, times) && Covered(entries, times[|times| - 1])
    ensures var k := |times| - 1;
            Busy(entries, times, k) == times[k] - times[0] <==> NeverIdle(entries, times[0], times[k])
  {
    var k := |times| - 1;
    BusyWithinExtent(entries, times, k);
    if GapsBusy(entries, times, k) { BusyGapsNeverIdle(entries, times, k); }
    if NeverIdle(entries, times[0], times[k]) { NeverIdleGapsBusy(entries, times, k); }
  }

  lemma BusyGapCovers(entries: seq<Target>, times: seq<real>, x: real, k: nat)
    requires Grid(entries, times) && k < |times| && times[0] <= x < times[k]
    requires GapsBusy(entries, times, k)
    ensures Covered(entries, x)
  {
    var j := GapOfInstant(times, x, k);
    assert GapBusy(entries, times, j);
    var t :| t in Running(entries, times[j - 1], times[j]);
    assert t in entries && t.start <= x <= t.end;
  }

  lemma CoveredGapIsBusy(entries: seq<Target>, times: seq<real>, j: nat, x: real)
    requires Grid(entries, times) && 0 < j < |times| && times[j - 1] < x < times[j] && Covered(entries, x)
    ensures Running(entries, times[j - 1], times[j]) != {}
  {
    var t :| t in entries && t.start <= x <= t.end;
    NoStraddling(times, t.start, j);
    NoStraddling(times, t.end, j);
    assert t in Running(entries, times[j - 1], times[j]);
  }

  // ---------------------------------------------------------------------------------
  // The busy time does not depend on the grid.

  ghost predicate NoneInside(entries: seq<Target>, a: real, b: real) {
    forall t :: t in entries ==> !(a < t.start < b) && !(a < t.end < b)
  }

  /** A stretch in which nothing starts or ends can be cut anywhere. */
  lemma CutGap(entries: seq<Target>, a: real, m: real, b: real)
    requires a <= m <= b && NoneInside(entries, a, b)
    ensures BusyGap(entries, a, b) == BusyGap(entries, a, m) + BusyGap(entries, m, b)
  {
    if a < m < b {
      assert Running(entries, a, b) == Running(entries, a, m);
      assert Running(entries, a, b) == Running(entries, m, b);
    }
  }

  lemma NothingInGap(entries: seq<Target>, times: seq<real>, k: nat, next: nat)
    requires Grid(entries, times) && k + 1 == next < |times|
    ensures NoneInside(entries, times[k], times[next])
  {
    forall t | t in entries ensures !(times[k] < t.start < times[next]) && !(times[k] < t.end < times[next]) {
      NoStraddling(times, t.start, next);
      NoStraddling(times, t.end, next);
    }
  }

  /** The busy time up to `x`, which lies between grid points `k` and `k + 1`. */
  ghost function BusyUpTo(entries: seq<Target>, times: seq<real>, k: nat, x: real): real
    requires k < |times|
  {
    Busy(entries, times, k) + BusyGap(entries, times[k], x)
  }

  predicate Between(times: seq<real>, k: nat, x: real)
    requires k < |times|
  {
    times[k] <= x && if k + 1 < |times| then x <= times[k + 1] else x == times[k]
  }

  lemma {:induction false} NothingYet(entries: seq<Target>, times: seq<real>, k: nat)
    requires Grid(entries, times) && k < |times| && times[k] == times[0]
    ensures Busy(entries, times, k) == 0.0
  {
    if k > 0 {
      assert times[0] <= times[k - 1] <= times[k];
      NothingYet(entries, times, k - 1);
    }
  }

  lemma CutUpTo(entries: seq<Target>, times: seq<real>, k: nat, m: real, x: real)
    requires Grid(entries, times) && k < |times| && Between(times, k, x) && times[k] <= m <= x
    ensures Between(times, k, m)
    ensures BusyUpTo(entries, times, k, x) == BusyUpTo(entries, times, k, m) + BusyGap(entries, m, x)
  {
    if k + 1 < |times| { NothingInGap(entries, times, k, k + 1); }
    CutGap(entries, times[k], m, x);
  }

  lemma {:induction false} SameUpTo(entries: seq<Target>, times: seq<real>, k: nat, others: seq<real>, l: nat, x: real)
    requires Grid(entries, times) && Grid(entries, others) && times[0] == others[0]
    requires k < |times| && l < |others| && Between(times, k, x) && Between(others, l, x)
    ensures BusyUpTo(entries, times, k, x) == BusyUpTo(entries, others, l, x)
    decreases k + l, if times[k] <= others[l] then 0 else 1
  {
    var b := others[l];
    if times[k] > b {
      SameUpTo(entries, others, l, times, k, x);
    } else {
      CutUpTo(entries, times, k, b, x);
      if l == 0 {
        StartIsFirst(times, k);
        NothingYet(entries, times, k);
      } else {
        assert others[l - 1] <= b;
        SameUpTo(entries, times, k, others, l - 1, b);
      }
    }
  }

  lemma StartIsFirst(times: seq<real>, k: nat)
    requires k < |times| && forall i, j :: 0 <= i < j < |times| ==> times[i] <= times[j]
    ensures times[0] <= times[k]
  {
  }

  /** Any two grids with the same extent give the same busy time. */
  lemma BusyOnAnyGrid(entries: seq<Target>, times: seq<real>, others: seq<real>)
    requires Grid(entries, times) && Grid(entries, others)
    requires times[0] == others[0] && times[|times| - 1] == others[|others| - 1]
    ensures Busy(entries, times, |times| - 1) == Busy(entries, others, |others| - 1)
  {
    var x := times[|times| - 1];
    SameUpTo(entries, times, |times| - 1, others, |others| - 1, x);
  }
}
