/**
 The order in which the request queue (benchmarks/disagg_benchmarks/request_queue.py) awaits
 tasks, seen from outside: which tasks `enqueue` is called with, and which tasks are awaited.
 */
module RequestOrder {
  import opened Arithmetic
  import opened RequestQueue

  // ---------------------------------------------------------------------------------
  // What an observer sees of a run.

  /** The tasks that `enqueue` is called with, in order. */
  function Submitted(steps: seq<Step>): seq<Task> {
    if steps == [] then []
    else (if steps[0].Enqueue? then [steps[0].task] else []) + Submitted(steps[1..])
  }

  /** The tasks of the consumers that run in `after` and did not in `before`. */
  function Begun(before: seq<Consumer>, after: seq<Consumer>): seq<Task>
    requires |before| == |after|
  {
    if after == [] then []
    else
      var n := |after| - 1;
      Begun(before[..n], after[..n]) + if after[n].Runs? && !before[n].Runs? then [after[n].task] else []
  }

  /** The tasks that are awaited along a run, in order. */
  ghost function Awaited(s: State, steps: seq<Step>): seq<Task>
    requires IsRun(s, steps)
    decreases |steps|
  {
    if steps == [] then []
    else
      SameConsumers(s, steps[0]);
      Begun(s.consumers, Next(s, steps[0]).consumers) + Awaited(Next(s, steps[0]), steps[1..])
  }

  lemma SameConsumers(s: State, step: Step)
    requires Enabled(s, step)
    ensures |Next(s, step).consumers| == |s.consumers|
  {
  }

  // ---------------------------------------------------------------------------------
  // What is awaited was popped.

  lemma {:induction false} NothingBegun(cs: seq<Consumer>)
    ensures Begun(cs, cs) == []
  {
    if cs != [] { NothingBegun(cs[..|cs| - 1]); }
  }

  lemma {:induction false} OneBegun(cs: seq<Consumer>, i: nat, c: Consumer)
    requires i < |cs|
    ensures Begun(cs, cs[i := c]) == if c.Runs? && !cs[i].Runs? then [c.task] else []
  {
    var n := |cs| - 1;
    if i == n {
      assert cs[i := c][..n] == cs[..n];
      NothingBegun(cs[..n]);
    } else {
      assert cs[i := c][..n] == cs[..n][i := c];
      OneBegun(cs[..n], i, c);
    }
  }

  /** From `s` to `s'`, what is popped is what begins to run. */
  ghost predicate Begins(s: State, s': State) {
    |s'.consumers| == |s.consumers| && s'.popped == s.popped + Begun(s.consumers, s'.consumers)
  }

  lemma SameBegins(s: State, s': State)
    requires s'.consumers == s.consumers && s'.popped == s.popped
    ensures Begins(s, s')
  {
    NothingBegun(s.consumers);
  }

  lemma IdleBegins(s: State, s': State, id: nat, c: Consumer)
    requires id < |s.consumers| && !c.Runs? && s'.consumers == s.consumers[id := c] && s'.popped == s.popped
    ensures Begins(s, s')
  {
    OneBegun(s.consumers, id, c);
  }

  lemma PopBegins(s: State, id: nat)
    requires id < |s.consumers| && !s.consumers[id].Runs?
    ensures Begins(s, Pop(s, id))
  {
    if s.queue == [] { IdleBegins(s, Pop(s, id), id, Ended); } else { OneBegun(s.consumers, id, Runs(s.queue[0])); }
  }

  lemma GoBegins(s: State, id: nat)
    requires id < |s.consumers| && !s.consumers[id].Runs?
    ensures Begins(s, GoForLock(s, id))
  {
    if !s.locked && s.lockWaiters == [] { PopBegins(s, id); } else { IdleBegins(s, GoForLock(s, id), id, AwaitsLock); }
  }

  lemma LookBegins(s: State, id: nat)
    requires Enabled(s, Look(id))
    ensures Begins(s, Next(s, Look(id)))
  {
    if s.queue == [] {
      SameBegins(s, s);
    } else if s.permits > 0 && s.permitWaiters == [] {
      GoBegins(s.(permits := s.permits - 1), id);
    } else {
      IdleBegins(s, Next(s, Look(id)), id, AwaitsPermit);
    }
  }

  lemma WakeLockBegins(s: State)
    requires Waiting(s) && Enabled(s, WakeLockWaiter)
    ensures Begins(s, Next(s, WakeLockWaiter))
  {
    if s.lockWaiters[0].Processor? {
      PopBegins(s.(lockWaiters := s.lockWaiters[1..]), s.lockWaiters[0].id);
    } else {
      SameBegins(s, Next(s, WakeLockWaiter));
    }
  }

  lemma WakePermitBegins(s: State)
    requires Waiting(s) && Enabled(s, WakePermitWaiter)
    ensures Begins(s, Next(s, WakePermitWaiter))
  {
    assert s.consumers[s.permitWaiters[0]].AwaitsPermit?;
    GoBegins(s.(permits := s.permits - 1, permitWaiters := s.permitWaiters[1..]), s.permitWaiters[0]);
  }

  lemma StepBegins(s: State, step: Step)
    requires Waiting(s) && Enabled(s, step)
    ensures Begins(s, Next(s, step))
  {
    match step
    case Enqueue(task) => SameBegins(s, Next(s, step));
    case Look(id) => LookBegins(s, id);
    case WakeLockWaiter => WakeLockBegins(s);
    case WakePermitWaiter => WakePermitBegins(s);
    case Finish(id, raised) => IdleBegins(s, Next(s, step), id, if raised then Ended else Outside);
  }

  lemma Unfold(s: State, steps: seq<Step>, s': State, rest: seq<Step>)
    requires IsRun(s, steps) && steps != [] && s' == Next(s, steps[0]) && rest == steps[1..]
    ensures |s'.consumers| == |s.consumers| && IsRun(s', rest) && End(s, steps) == End(s', rest)
    ensures Awaited(s, steps) == Begun(s.consumers, s'.consumers) + Awaited(s', rest)
  {
    SameConsumers(s, steps[0]);
  }

  lemma OneStep(s: State, step: Step, s': State, maxConcurrent: int)
    requires Safe(s, maxConcurrent) && Enabled(s, step) && s' == Next(s, step)
    ensures Safe(s', maxConcurrent) && Begins(s, s')
  {
    StepIsSafe(s, step, maxConcurrent);
    StepBegins(s, step);
  }

  lemma Chain(p: seq<Task>, x: seq<Task>, y: seq<Task>, p': seq<Task>, e: seq<Task>, w: seq<Task>)
    requires p' == p + x && e == p' + y && w == x + y
    ensures e == p + w
  {
  }

  lemma {:induction false} AwaitedIsPopped(s: State, steps: seq<Step>, maxConcurrent: int)
    requires Safe(s, maxConcurrent) && IsRun(s, steps)
    ensures End(s, steps).popped == s.popped + Awaited(s, steps)
    decreases |steps|
  {
    if steps != [] {
      var s', rest := Next(s, steps[0]), steps[1..];
      OneStep(s, steps[0], s', maxConcurrent);
      Unfold(s, steps, s', rest);
      AwaitedIsPopped(s', rest, maxConcurrent);
      Chain(s.popped, Begun(s.consumers, s'.consumers), Awaited(s', rest), s'.popped, End(s', rest).popped,
            Awaited(s, steps));
    }
  }

  // ---------------------------------------------------------------------------------
  // What is accepted was submitted.

  /** `a` is what is left of `b` when some elements are taken out. */
  ghost predicate IsSubsequence(a: seq<Task>, b: seq<Task>) {
    a == [] || (b != [] &&
      var a', b' := a[..|a| - 1], b[..|b| - 1];
      IsSubsequence(a, b') || (a[|a| - 1] == b[|b| - 1] && IsSubsequence(a', b')))
  }

  lemma SubsequenceGrows(a: seq<Task>, b: seq<Task>, x: Task)
    requires IsSubsequence(a, b)
    ensures IsSubsequence(a, b + [x]) && IsSubsequence(a + [x], b + [x])
  {
    assert (b + [x])[..|b|] == b && (a + [x])[..|a|] == a;
  }

  lemma {:induction false} TakeOut(p: seq<Task>, x: Task, q: seq<Task>, b: seq<Task>)
    requires IsSubsequence(p + [x] + q, b)
    ensures IsSubsequence(p + q, b)
    decreases |b|
  {
    var a, b' := p + [x] + q, b[..|b| - 1];
    if IsSubsequence(a, b') {
      TakeOut(p, x, q, b');
      Later(p + q, b);
    } else if q == [] {
      assert a[..|a| - 1] == p + q;
      Later(p + q, b);
    } else {
      var q' := q[..|q| - 1];
      assert a[..|a| - 1] == p + [x] + q';
      TakeOut(p, x, q', b');
      assert (p + q)[..|p + q| - 1] == p + q';
    }
  }

  lemma Later(a: seq<Task>, b: seq<Task>)
    requires b != [] && IsSubsequence(a, b[..|b| - 1])
    ensures IsSubsequence(a, b)
  {
  }

  lemma {:induction false} PrefixOfSubsequence(p: seq<Task>, q: seq<Task>, b: seq<Task>)
    requires IsSubsequence(p + q, b)
    ensures IsSubsequence(p, b)
    decreases |q|
  {
    if q == [] {
      assert p + q == p;
    } else {
      var q', x := q[..|q| - 1], q[|q| - 1];
      assert p + q == (p + q') + [x] + [];
      TakeOut(p + q', x, [], b);
      assert (p + q') + [] == p + q';
      PrefixOfSubsequence(p, q', b);
    }
  }

  /** The tasks of the `enqueue` calls that wait for the lock, in order. */
  function Pending(ws: seq<Waiter>): seq<Task> {
    if ws == [] then [] else (if ws[0].Enqueuer? then [ws[0].task] else []) + Pending(ws[1..])
  }

  lemma {:induction false} PendingGrows(ws: seq<Waiter>, w: Waiter)
    ensures Pending(ws + [w]) == Pending(ws) + if w.Enqueuer? then [w.task] else []
  {
    if ws == [] {
      assert (ws + [w])[1..] == [];
    } else {
      PendingGrows(ws[1..], w);
      assert (ws + [w])[1..] == ws[1..] + [w];
    }
  }

  /** What was accepted, and after it what still waits, is in the order of the calls. */
  ghost predicate InOrder(s: State, calls: seq<Task>) {
    IsSubsequence(s.accepted + Pending(s.lockWaiters), calls)
  }

  lemma EnqueueKeepsOrder(s: State, task: Task, calls: seq<Task>)
    requires InOrder(s, calls)
    ensures InOrder(Next(s, Enqueue(task)), calls + [task])
  {
    SubsequenceGrows(s.accepted + Pending(s.lockWaiters), calls, task);
    PendingGrows(s.lockWaiters, Enqueuer(task));
    assert s.accepted + (Pending(s.lockWaiters) + [task]) == (s.accepted + Pending(s.lockWaiters)) + [task];
    if s.lockWaiters == [] { assert s.accepted + [] == s.accepted && (s.accepted + [task]) + [] == s.accepted + [task]; }
  }

  lemma WakeKeepsOrder(s: State, calls: seq<Task>)
    requires InOrder(s, calls) && Enabled(s, WakeLockWaiter)
    ensures InOrder(Next(s, WakeLockWaiter), calls)
  {
    var first, rest := s.lockWaiters[0], Pending(s.lockWaiters[1..]);
    if first.Enqueuer? {
      assert s.accepted + ([first.task] + rest) == s.accepted + [first.task] + rest;
      TakeOut(s.accepted, first.task, rest, calls);
    } else {
      assert [] + rest == rest;
    }
  }

  lemma StepKeepsOrder(s: State, step: Step, calls: seq<Task>)
    requires InOrder(s, calls) && Enabled(s, step)
    ensures InOrder(Next(s, step), calls + if step.Enqueue? then [step.task] else [])
  {
    assert calls + [] == calls;
    match step
    case Enqueue(task) => EnqueueKeepsOrder(s, task, calls);
    case Look(id) => PendingGrows(s.lockWaiters, Processor(id)); assert Pending(s.lockWaiters) + [] == Pending(s.lockWaiters);
    case WakeLockWaiter => WakeKeepsOrder(s, calls);
    case WakePermitWaiter =>
      PendingGrows(s.lockWaiters, Processor(s.permitWaiters[0]));
      assert Pending(s.lockWaiters) + [] == Pending(s.lockWaiters);
    case Finish(id, raised) =>
  }

  lemma {:induction false} RunKeepsOrder(s: State, steps: seq<Step>, calls: seq<Task>)
    requires InOrder(s, calls) && IsRun(s, steps)
    ensures InOrder(End(s, steps), calls + Submitted(steps))
    decreases |steps|
  {
    if steps == [] {
      assert calls + [] == calls;
    } else {
      var s', rest := Next(s, steps[0]), steps[1..];
      var call := if steps[0].Enqueue? then [steps[0].task] else [];
      StepKeepsOrder(s, steps[0], calls);
      Unfold(s, steps, s', rest);
      RunKeepsOrder(s', rest, calls + call);
      Associates(calls, call, Submitted(rest));
    }
  }

  lemma AwaitedFrom(s0: State, s: State, steps: seq<Step>, maxConcurrent: int)
    requires Safe(s0, maxConcurrent) && IsRun(s0, steps) && s == End(s0, steps)
    requires s0.accepted == [] && s0.popped == [] && s0.lockWaiters == []
    ensures s.accepted == Awaited(s0, steps) + s.queue
    ensures IsSubsequence(s.accepted, Submitted(steps)) && IsSubsequence(Awaited(s0, steps), Submitted(steps))
  {
    RunIsSafe(s0, steps, maxConcurrent);
    AwaitedIsPopped(s0, steps, maxConcurrent);
    RunKeepsOrder(s0, steps, []);
    assert [] + Submitted(steps) == Submitted(steps) && [] + Awaited(s0, steps) == Awaited(s0, steps);
    PrefixOfSubsequence(s.accepted, Pending(s.lockWaiters), Submitted(steps));
    PrefixOfSubsequence(Awaited(s0, steps), s.queue, Submitted(steps));
  }

  /** In every run tasks are awaited in the order in which they were submitted, each no more often than that;
      what was accepted and not awaited is still in the queue. */
  lemma AwaitedInOrder(maxConcurrent: nat, maxQueueSize: int, consumers: nat, steps: seq<Step>)
    requires IsRun(Init(maxConcurrent, maxQueueSize, consumers), steps)
    ensures var s0 := Init(maxConcurrent, maxQueueSize, consumers);
            && End(s0, steps).accepted == Awaited(s0, steps) + End(s0, steps).queue
            && IsSubsequence(End(s0, steps).accepted, Submitted(steps))
            && IsSubsequence(Awaited(s0, steps), Submitted(steps))
  {
    var s0 := Init(maxConcurrent, maxQueueSize, consumers);
    InitIsSafe(maxConcurrent, maxQueueSize, consumers);
    AwaitedFrom(s0, End(s0, steps), steps, maxConcurrent);
  }

  // ---------------------------------------------------------------------------------
  // Consumers that end.

  function CountEnded(cs: seq<Consumer>): nat {
    if cs == [] then 0 else CountEnded(cs[..|cs| - 1]) + if cs[|cs| - 1].Ended? then 1 else 0
  }

  /** How many awaited tasks raise. */
  function CountRaised(steps: seq<Step>): nat {
    if steps == [] then 0 else (if steps[0].Finish? && steps[0].raised then 1 else 0) + CountRaised(steps[1..])
  }

  lemma {:induction false} OneEnds(cs: seq<Consumer>, i: nat, c: Consumer)
    requires i < |cs| && !cs[i].Ended?
    ensures CountEnded(cs[i := c]) == CountEnded(cs) + if c.Ended? then 1 else 0
  {
    var n := |cs| - 1;
    if i == n {
      assert cs[i := c][..n] == cs[..n];
    } else {
      assert cs[i := c][..n] == cs[..n][i := c];
      OneEnds(cs[..n], i, c);
    }
  }

  /** From `s` to `s'`, a consumer that has ended stays ended, and one ends for each failed pop and for each of
      `raised` tasks. */
  ghost predicate Ends(s: State, s': State, raised: nat) {
    && |s'.consumers| == |s.consumers| && s'.failedPops >= s.failedPops
    && (forall i :: 0 <= i < |s.consumers| && s.consumers[i].Ended? ==> s'.consumers[i].Ended?)
    && CountEnded(s'.consumers) - CountEnded(s.consumers) == s'.failedPops - s.failedPops + raised
  }

  lemma OneChange(s: State, s': State, id: nat, c: Consumer, raised: nat)
    requires id < |s.consumers| && !s.consumers[id].Ended? && s'.consumers == s.consumers[id := c]
    requires s'.failedPops >= s.failedPops && s'.failedPops - s.failedPops + raised == if c.Ended? then 1 else 0
    ensures Ends(s, s', raised)
  {
    OneEnds(s.consumers, id, c);
  }

  lemma PopEnds(s: State, id: nat)
    requires id < |s.consumers| && !s.consumers[id].Ended?
    ensures Ends(s, Pop(s, id), 0)
  {
    OneChange(s, Pop(s, id), id, Pop(s, id).consumers[id], 0);
  }

  lemma GoEnds(s: State, id: nat)
    requires id < |s.consumers| && !s.consumers[id].Ended?
    ensures Ends(s, GoForLock(s, id), 0)
  {
    if !s.locked && s.lockWaiters == [] { PopEnds(s, id); } else { OneChange(s, GoForLock(s, id), id, AwaitsLock, 0); }
  }

  lemma LookEnds(s: State, id: nat)
    requires Enabled(s, Look(id))
    ensures Ends(s, Next(s, Look(id)), 0)
  {
    if s.queue != [] {
      if s.permits > 0 && s.permitWaiters == [] {
        GoEnds(s.(permits := s.permits - 1), id);
      } else {
        OneChange(s, Next(s, Look(id)), id, AwaitsPermit, 0);
      }
    }
  }

  lemma WakeLockEnds(s: State)
    requires Waiting(s) && Enabled(s, WakeLockWaiter)
    ensures Ends(s, Next(s, WakeLockWaiter), 0)
  {
    if s.lockWaiters[0].Processor? { PopEnds(s.(lockWaiters := s.lockWaiters[1..]), s.lockWaiters[0].id); }
  }

  lemma WakePermitEnds(s: State)
    requires Waiting(s) && Enabled(s, WakePermitWaiter)
    ensures Ends(s, Next(s, WakePermitWaiter), 0)
  {
    assert s.consumers[s.permitWaiters[0]].AwaitsPermit?;
    GoEnds(s.(permits := s.permits - 1, permitWaiters := s.permitWaiters[1..]), s.permitWaiters[0]);
  }

  lemma StepEnds(s: State, step: Step, s': State, maxConcurrent: int)
    requires Safe(s, maxConcurrent) && Enabled(s, step) && s' == Next(s, step)
    ensures Safe(s', maxConcurrent) && Ends(s, s', if step.Finish? && step.raised then 1 else 0)
  {
    StepIsSafe(s, step, maxConcurrent);
    match step
    case Enqueue(task) =>
    case Look(id) => LookEnds(s, id);
    case WakeLockWaiter => WakeLockEnds(s);
    case WakePermitWaiter => WakePermitEnds(s);
    case Finish(id, raised) => OneChange(s, s', id, if raised then Ended else Outside, if raised then 1 else 0);
  }

  lemma EndsChain(s: State, s': State, s'': State, a: nat, b: nat)
    requires Ends(s, s', a) && Ends(s', s'', b)
    ensures Ends(s, s'', a + b)
  {
  }

  /** In every run the consumers that have ended are as many as the pops that failed and the tasks that raised,
      and they stay ended: an exception is the only thing that ends a consumer, and always does. */
  lemma {:induction false} ExceptionsEndConsumers(s: State, steps: seq<Step>, maxConcurrent: int)
    requires Safe(s, maxConcurrent) && IsRun(s, steps)
    ensures Ends(s, End(s, steps), CountRaised(steps))
    decreases |steps|
  {
    if steps != [] {
      var s', rest := Next(s, steps[0]), steps[1..];
      StepEnds(s, steps[0], s', maxConcurrent);
      Unfold(s, steps, s', rest);
      ExceptionsEndConsumers(s', rest, maxConcurrent);
      EndsChain(s, s', End(s', rest), if steps[0].Finish? && steps[0].raised then 1 else 0, CountRaised(rest));
    }
  }
}
