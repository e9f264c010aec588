/**
 The token-bucket rate limiter (benchmarks/disagg_benchmarks/rate_limiter.py).

 The lock makes each pass through the retry loop atomic, so that every interleaving of
 coroutines under every clock is a sequence of attempts at non-decreasing times.
 */
module RateLimiter {
  import opened Arithmetic


  datatype Bucket = Bucket(tokens: int, lastRefill: real)

  /** The refill comes when strictly more than one second has passed. */
  predicate Refills(s: Bucket, now: real) {
    now - s.lastRefill > 1.0
  }

  function Refilled(rate: int, s: Bucket, now: real): Bucket {
    if Refills(s, now) then Bucket(rate, now) else s
  }

  predicate Grants(rate: int, s: Bucket, now: real) {
    Refilled(rate, s, now).tokens > 0
  }

  function After(rate: int, s: Bucket, now: real): Bucket {
    var r := Refilled(rate, s, now);
    if r.tokens > 0 then r.(tokens := r.tokens - 1) else r
  }

  /** The wait time computed for a refused attempt, from the time elapsed before any refill. */
  function WaitTime(s: Bucket, now: real): real {
    1.0 - (now - s.lastRefill)
  }

  class Limiter {
    const rateLimit: int
    var numAvailableTokens: int
    var lastRefill: real

    ghost function View(): Bucket
      reads this
    {
      Bucket(numAvailableTokens, lastRefill)
    }

    constructor (rateLimit: int, now: real)
      ensures this.rateLimit == rateLimit && View() == Bucket(rateLimit, now)
    {
      this.rateLimit := rateLimit;
      this.numAvailableTokens := rateLimit;
      this.lastRefill := now;
    }

    /** One pass through the loop of `acquire`, from taking the lock to releasing it. */
    method TryAcquire(now: real) returns (granted: bool, waitTime: real)
      modifies this
      ensures granted <==> Grants(rateLimit, old(View()), now)
      ensures View() == After(rateLimit, old(View()), now)
      ensures !granted ==> waitTime == WaitTime(old(View()), now)
    {
      var elapsed := now - lastRefill;
      if elapsed > 1.0 {
        numAvailableTokens := rateLimit;
        lastRefill := now;
      }
      waitTime := 0.0;
      if numAvailableTokens > 0 {
        numAvailableTokens := numAvailableTokens - 1;
        return true, waitTime;
      }
      waitTime := 1.0 - elapsed;
      granted := false;
    }
  }

  // ---------------------------------------------------------------------------------
  // Runs.

  datatype Run = Run(rate: int, created: real, times: seq<real>)
  {
    ghost predicate Valid() {
      && (forall i, j :: 0 <= i < j < |times| ==> times[i] <= times[j])
      && (forall i :: 0 <= i < |times| ==> created <= times[i])
    }

    /** The state before attempt `k`. */
    ghost function Before(k: nat): Bucket
      requires k <= |times|
    {
      if k == 0 then Bucket(rate, created) else After(rate, Before(k - 1), times[k - 1])
    }

    ghost predicate RefillsAt(k: nat)
      requires k < |times|
    {
      Refills(Before(k), times[k])
    }

    ghost predicate GrantsAt(k: nat)
      requires k < |times|
    {
      Grants(rate, Before(k), times[k])
    }

    /** How many of the attempts `i..j` are granted. */
    ghost function Granted(i: nat, j: nat): nat
      requires i <= j <= |times|
    {
      if i == j then 0 else Granted(i, j - 1) + if GrantsAt(j - 1) then 1 else 0
    }

    ghost function RefillCount(k: nat): nat
      requires k <= |times|
    {
      if k == 0 then 0 else RefillCount(k - 1) + if RefillsAt(k - 1) then 1 else 0
    }
  }

  lemma {:induction false} TokensInRange(run: Run, k: nat)
    requires run.rate >= 0 && k <= |run.times|
    ensures 0 <= run.Before(k).tokens <= run.rate
  {
    if k > 0 { TokensInRange(run, k - 1); }
  }

  /** Every computed wait time is non-negative in every run exactly when the rate is positive. */
  lemma WaitTimesAreNonNegative(rate: int)
    ensures (forall run: Run, k: nat :: run.rate == rate && run.Valid() && k < |run.times| && !run.GrantsAt(k) ==>
               WaitTime(run.Before(k), run.times[k]) >= 0.0) <==> rate >= 1
  {
    if rate < 1 {
      var run := Run(rate, 0.0, [2.0]);
      assert run.Before(0) == Bucket(rate, 0.0);
      assert run.Valid() && !run.GrantsAt(0) && WaitTime(run.Before(0), run.times[0]) == -1.0;
    }
  }

  /** A refused coroutine that wakes up exactly when its wait time is over is refused again; any later
      attempt is granted. */
  lemma WakingOnTimeIsTooEarly(rate: int, s: Bucket, now: real, again: real)
    requires rate >= 1 && !Grants(rate, s, now) && again >= now
    ensures Grants(rate, After(rate, s, now), again) <==> again > now + WaitTime(s, now)
  {
  }

  // ---------------------------------------------------------------------------------
  // The long-run rate.

  /** What was handed out and what is left never exceeds what the refills provided; refills are more
      than a second apart. */
  lemma {:induction false} Ledger(run: Run, k: nat)
    requires run.rate >= 0 && run.Valid() && k <= |run.times|
    ensures run.Granted(0, k) + run.Before(k).tokens <= run.rate * (1 + run.RefillCount(k))
    ensures run.RefillCount(k) as real <= run.Before(k).lastRefill - run.created
    ensures k > 0 ==> run.Before(k).lastRefill <= run.times[k - 1]
  {
    if k > 0 {
      var p := k - 1;
      Ledger(run, p);
      TokensInRange(run, p);
      if run.RefillsAt(p) { RefillAddsRate(run.rate, run.RefillCount(p)); }
    }
  }

  lemma RefillAddsRate(rate: int, n: nat)
    ensures rate * (1 + (n + 1)) == rate * (1 + n) + rate
  {
  }

  /** What may be granted in the given time since creation. */
  function Allowance(rate: int, elapsed: real): real {
    rate as real * (1.0 + elapsed)
  }

  lemma ScaleUp(rate: int, n: nat, elapsed: real, granted: nat)
    requires rate >= 0 && n as real <= elapsed && granted <= rate * (1 + n)
    ensures granted as real <= Allowance(rate, elapsed)
  {
    var r, x := rate as real, n as real;
    assert (rate * (1 + n)) as real == r * (1.0 + x);
    assert r * (elapsed - x) >= 0.0;
  }

  /** After an elapsed time T at most rate * (1 + T) attempts have been granted. */
  lemma RateBound(run: Run, k: nat)
    requires run.rate >= 0 && run.Valid() && 0 < k <= |run.times|
    ensures run.Granted(0, k) as real <= Allowance(run.rate, run.times[k - 1] - run.created)
  {
    Ledger(run, k);
    TokensInRange(run, k);
    ScaleUp(run.rate, run.RefillCount(k), run.times[k - 1] - run.created, run.Granted(0, k));
  }

  // ---------------------------------------------------------------------------------
  // Windows of one second.

  /** Without a refill a window hands out what is there. */
  lemma {:induction false} GrantsWithoutRefill(run: Run, i: nat, j: nat)
    requires run.rate >= 0 && i <= j <= |run.times|
    requires forall k :: i <= k < j ==> !run.RefillsAt(k)
    ensures run.Granted(i, j) == Min(run.Before(i).tokens, j - i)
    ensures run.Before(j) == Bucket(run.Before(i).tokens - run.Granted(i, j), run.Before(i).lastRefill)
  {
    TokensInRange(run, i);
    if i < j {
      GrantsWithoutRefill(run, i, j - 1);
      assert !run.RefillsAt(j - 1);
    }
  }

  lemma {:induction false} GrantedSplits(run: Run, i: nat, k: nat, j: nat)
    requires i <= k <= j <= |run.times|
    ensures run.Granted(i, j) == run.Granted(i, k) + run.Granted(k, j)
  {
    if k < j { GrantedSplits(run, i, k, j - 1); }
  }

  /** A refill starts a stretch of attempts with a full bucket; no other refill follows within a second. */
  lemma {:induction false} GrantsFromRefill(run: Run, k: nat, j: nat)
    requires run.rate >= 0 && run.Valid() && k < j <= |run.times| && run.RefillsAt(k)
    requires run.times[j - 1] - run.times[k] <= 1.0
    ensures run.Granted(k, j) == Min(run.rate, j - k)
    ensures run.Before(j) == Bucket(run.rate - run.Granted(k, j), run.times[k])
    ensures forall m :: k < m < j ==> !run.RefillsAt(m)
  {
    if k < j - 1 {
      assert run.times[j - 2] <= run.times[j - 1];
      GrantsFromRefill(run, k, j - 1);
    } else {
      assert run.Granted(k, k) == 0;
    }
  }

  lemma {:induction false} FirstRefill(run: Run, i: nat, j: nat) returns (k: nat)
    requires i < j <= |run.times| && exists m :: i <= m < j && run.RefillsAt(m)
    ensures i <= k < j && run.RefillsAt(k) && forall m :: i <= m < k ==> !run.RefillsAt(m)
    decreases j - i
  {
    if run.RefillsAt(i) { return i; }
    k := FirstRefill(run, i + 1, j);
  }

  /** The exact number of grants in a window of at most one second: there is at most one refill, and
      the bucket is drained before and after it. */
  lemma WindowGrants(run: Run, i: nat, j: nat) returns (k: nat)
    requires run.rate >= 0 && run.Valid() && i < j <= |run.times| && run.times[j - 1] - run.times[i] <= 1.0
    ensures i <= k <= j
    ensures forall m :: i <= m < j ==> (run.RefillsAt(m) <==> m == k)
    ensures run.Granted(i, j) == Min(run.Before(i).tokens, k - i) + Min(run.rate, j - k)
  {
    if exists m :: i <= m < j && run.RefillsAt(m) {
      k := FirstRefill(run, i, j);
      assert run.times[i] <= run.times[k];
      GrantsWithoutRefill(run, i, k);
      GrantsFromRefill(run, k, j);
      GrantedSplits(run, i, k, j);
    } else {
      k := j;
      GrantsWithoutRefill(run, i, j);
    }
  }

  /** A window of one second holds at most twice the rate. */
  lemma WindowBound(run: Run, i: nat, j: nat)
    requires run.rate >= 0 && run.Valid() && i < j <= |run.times| && run.times[j - 1] - run.times[i] <= 1.0
    ensures run.Granted(i, j) <= 2 * run.rate
  {
    var k := WindowGrants(run, i, j);
    TokensInRange(run, i);
  }

  /** The bound is reached, so the limit is not a limit on every one-second window: all initial tokens
      just before the refill, and a full bucket just after it. */
  lemma WindowBoundIsTight(rate: nat, created: real) returns (run: Run)
    requires rate >= 1
    ensures run.rate == rate && run.created == created && run.Valid() && |run.times| == 2 * rate
    ensures run.times[2 * rate - 1] - run.times[0] <= 1.0
    ensures run.Granted(0, 2 * rate) == 2 * rate
  {
    run := Run(rate, created, seq(2 * rate, i => if i < rate then created + 1.0 else created + 1.5));
    NoEarlyRefill(run, rate);
    assert run.RefillsAt(rate);
    var k := WindowGrants(run, 0, 2 * rate);
    assert run.Before(0).tokens == rate;
  }

  lemma {:induction false} NoEarlyRefill(run: Run, k: nat)
    requires k <= |run.times| && forall m :: 0 <= m < k ==> run.times[m] <= run.created + 1.0
    ensures run.Before(k).lastRefill == run.created
  {
    if k > 0 { NoEarlyRefill(run, k - 1); }
  }
}
