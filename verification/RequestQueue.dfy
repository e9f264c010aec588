/**
 The request queue (benchmarks/disagg_benchmarks/request_queue.py) as a state machine.

 A step is what one coroutine does between two points where it may be suspended.  The
 lock and the semaphore serve their waiters in order; apart from that, any coroutine that
 can go on may be the next to go on.
 */
module RequestQueue {
  type Task = int

  /** Where a `process` coroutine is: outside, waiting for the semaphore, waiting for the lock with a
      permit, awaiting a task with both, or ended by an exception. */
  datatype Consumer = Outside | AwaitsPermit | AwaitsLock | Runs(task: Task) | Ended

  datatype Waiter = Enqueuer(task: Task) | Processor(id: nat)

  datatype State = State(
    maxQueueSize: int,
    queue: seq<Task>,
    queueSize: int,
    locked: bool,
    lockWaiters: seq<Waiter>,
    permits: int,
    permitWaiters: seq<nat>,
    consumers: seq<Consumer>,
    accepted: seq<Task>,       // history: what `enqueue` returned True for
    popped: seq<Task>,         // history: what `process` took out
    failedPops: nat)           // history: pops of the empty queue

  datatype Step =
    | Enqueue(task: Task)                  // a call of `enqueue` starts
    | Look(id: nat)                        // a consumer tests `self.queue`
    | WakeLockWaiter
    | WakePermitWaiter
    | Finish(id: nat, raised: bool)        // the awaited task ends

  function Init(maxConcurrent: nat, maxQueueSize: int, consumers: nat): State {
    State(maxQueueSize, [], 0, false, [], maxConcurrent, [], seq(consumers, _ => Outside), [], [], 0)
  }

  function DoEnqueue(s: State, task: Task): State {
    if s.queueSize >= s.maxQueueSize then s
    else s.(queue := s.queue + [task], queueSize := s.queueSize + 1, accepted := s.accepted + [task])
  }

  /** The body of the `async with`, up to the await; an exception releases lock and permit. */
  function Pop(s: State, id: nat): State
    requires id < |s.consumers|
  {
    if s.queue == [] then
      s.(consumers := s.consumers[id := Ended], permits := s.permits + 1, failedPops := s.failedPops + 1)
    else
      s.(queue := s.queue[1..], queueSize := s.queueSize - 1, popped := s.popped + [s.queue[0]],
         locked := true, consumers := s.consumers[id := Runs(s.queue[0])])
  }

  /** A consumer that has a permit goes for the lock. */
  function GoForLock(s: State, id: nat): State
    requires id < |s.consumers|
  {
    if !s.locked && s.lockWaiters == [] then Pop(s, id)
    else s.(lockWaiters := s.lockWaiters + [Processor(id)], consumers := s.consumers[id := AwaitsLock])
  }

  predicate Enabled(s: State, step: Step) {
    match step
    case Enqueue(_) => true
    case Look(id) => id < |s.consumers| && s.consumers[id].Outside?
    case WakeLockWaiter =>
      && !s.locked && s.lockWaiters != []
      && (s.lockWaiters[0].Processor? ==> s.lockWaiters[0].id < |s.consumers|)
    case WakePermitWaiter =>
      s.permits > 0 && s.permitWaiters != [] && s.permitWaiters[0] < |s.consumers|
    case Finish(id, _) => id < |s.consumers| && s.consumers[id].Runs?
  }

  function Next(s: State, step: Step): State
    requires Enabled(s, step)
  {
    match step
    case Enqueue(task) =>
      if !s.locked && s.lockWaiters == [] then DoEnqueue(s, task)
      else s.(lockWaiters := s.lockWaiters + [Enqueuer(task)])
    case Look(id) =>
      if s.queue == [] then s
      else if s.permits > 0 && s.permitWaiters == [] then GoForLock(s.(permits := s.permits - 1), id)
      else s.(permitWaiters := s.permitWaiters + [id], consumers := s.consumers[id := AwaitsPermit])
    case WakeLockWaiter =>
      var s' := s.(lockWaiters := s.lockWaiters[1..]);
      if s.lockWaiters[0].Enqueuer? then DoEnqueue(s', s.lockWaiters[0].task) else Pop(s', s.lockWaiters[0].id)
    case WakePermitWaiter =>
      GoForLock(s.(permits := s.permits - 1, permitWaiters := s.permitWaiters[1..]), s.permitWaiters[0])
    case Finish(id, raised) =>
      s.(locked := false, permits := s.permits + 1,
         consumers := s.consumers[id := if raised then Ended else Outside])
  }

  // ---------------------------------------------------------------------------------
  // Runs.

  ghost predicate IsRun(s: State, steps: seq<Step>)
    decreases |steps|
  {
    steps != [] ==> Enabled(s, steps[0]) && IsRun(Next(s, steps[0]), steps[1..])
  }

  ghost function End(s: State, steps: seq<Step>): State
    requires IsRun(s, steps)
    decreases |steps|
  {
    if steps == [] then s else End(Next(s, steps[0]), steps[1..])
  }

  // ---------------------------------------------------------------------------------
  // Safety.

  /** How many consumers hold a permit. */
  ghost function Holders(cs: seq<Consumer>): nat {
    if cs == [] then 0
    else Holders(cs[..|cs| - 1]) + if Holds(cs[|cs| - 1]) then 1 else 0
  }

  predicate Holds(c: Consumer) {
    c.AwaitsLock? || c.Runs?
  }

  /** FIFO: nothing is lost, duplicated or reordered, and the size is kept. */
  ghost predicate Fifo(s: State) {
    && s.accepted == s.popped + s.queue
    && s.queueSize == |s.queue|
    && (s.queue != [] ==> |s.queue| <= s.maxQueueSize)
  }

  /** The lock is held exactly while a task runs, and only one task runs. */
  ghost predicate Mutex(s: State) {
    && (s.locked <==> exists i :: 0 <= i < |s.consumers| && s.consumers[i].Runs?)
    && (forall i, j :: 0 <= i < j < |s.consumers| ==> !(s.consumers[i].Runs? && s.consumers[j].Runs?))
  }

  ghost predicate Waiting(s: State) {
    && (forall i :: 0 <= i < |s.lockWaiters| && s.lockWaiters[i].Processor? ==>
          s.lockWaiters[i].id < |s.consumers| && s.consumers[s.lockWaiters[i].id].AwaitsLock?)
    && (forall i :: 0 <= i < |s.permitWaiters| ==>
          s.permitWaiters[i] < |s.consumers| && s.consumers[s.permitWaiters[i]].AwaitsPermit?)
    && (forall i, j :: 0 <= i < j < |s.lockWaiters| && s.lockWaiters[i].Processor? ==>
          s.lockWaiters[i] != s.lockWaiters[j])
    && (forall i, j :: 0 <= i < j < |s.permitWaiters| ==> s.permitWaiters[i] != s.permitWaiters[j])
  }

  ghost predicate NotWaiting(s: State, id: nat) {
    && (forall i :: 0 <= i < |s.lockWaiters| ==> s.lockWaiters[i] != Processor(id))
    && (forall i :: 0 <= i < |s.permitWaiters| ==> s.permitWaiters[i] != id)
  }

  /** Permits are conserved; `total` is what the free ones and the held ones add up to. */
  ghost predicate Permits(s: State, total: int) {
    s.permits >= 0 && s.permits + Holders(s.consumers) == total
  }

  /** The task that runs is the one that was popped last. */
  ghost predicate RunsPopped(s: State) {
    forall i :: 0 <= i < |s.consumers| && s.consumers[i].Runs? ==>
                  s.popped != [] && s.consumers[i].task == s.popped[|s.popped| - 1]
  }

  ghost predicate Safe(s: State, maxConcurrent: int) {
    Fifo(s) && Mutex(s) && RunsPopped(s) && Waiting(s) && Permits(s, maxConcurrent)
  }

  lemma {:induction false} HoldersUpdate(cs: seq<Consumer>, i: nat, c: Consumer)
    requires i < |cs|
    ensures Holders(cs[i := c]) == Holders(cs)
            - (if Holds(cs[i]) then 1 else 0) + (if Holds(c) then 1 else 0)
  {
    var n := |cs| - 1;
    if i == n {
      assert cs[i := c][..n] == cs[..n];
    } else {
      assert cs[i := c][..n] == cs[..n][i := c];
      HoldersUpdate(cs[..n], i, c);
    }
  }

  lemma {:induction false} HoldersNone(cs: seq<Consumer>)
    requires forall i :: 0 <= i < |cs| ==> cs[i].Outside?
    ensures Holders(cs) == 0
  {
    if cs != [] { HoldersNone(cs[..|cs| - 1]); }
  }

  lemma InitIsSafe(maxConcurrent: nat, maxQueueSize: int, consumers: nat)
    ensures Safe(Init(maxConcurrent, maxQueueSize, consumers), maxConcurrent)
  {
    HoldersNone(seq(consumers, _ => Outside));
  }

  lemma PopIsSafe(s: State, id: nat, maxConcurrent: int)
    requires Fifo(s) && Mutex(s) && RunsPopped(s) && Waiting(s) && !s.locked
    requires id < |s.consumers| && NotWaiting(s, id) && !s.consumers[id].Runs?
    requires Permits(s, maxConcurrent - if Holds(s.consumers[id]) then 0 else 1)
    ensures Safe(Pop(s, id), maxConcurrent)
  {
    var s' := Pop(s, id);
    if s.queue == [] {
      HoldersUpdate(s.consumers, id, Ended);
    } else {
      HoldersUpdate(s.consumers, id, Runs(s.queue[0]));
      assert s.popped + s.queue == (s.popped + [s.queue[0]]) + s.queue[1..];
      assert s'.consumers[id].Runs?;
    }
  }

  lemma GoForLockIsSafe(s: State, id: nat, maxConcurrent: int)
    requires Fifo(s) && Mutex(s) && RunsPopped(s) && Waiting(s)
    requires id < |s.consumers| && NotWaiting(s, id) && !Holds(s.consumers[id])
    requires Permits(s, maxConcurrent - 1)
    ensures Safe(GoForLock(s, id), maxConcurrent)
  {
    if !s.locked && s.lockWaiters == [] {
      PopIsSafe(s, id, maxConcurrent);
    } else {
      HoldersUpdate(s.consumers, id, AwaitsLock);
      OtherConsumerKeepsMutex(s, GoForLock(s, id), id);
    }
  }

  lemma OtherConsumerKeepsMutex(s: State, s': State, id: nat)
    requires Mutex(s) && id < |s.consumers| && !s.consumers[id].Runs? && s'.locked == s.locked
    requires |s'.consumers| == |s.consumers| && !s'.consumers[id].Runs?
    requires forall i :: 0 <= i < |s.consumers| && i != id ==> s'.consumers[i] == s.consumers[i]
    ensures Mutex(s')
  {
    if s.locked {
      var i :| 0 <= i < |s.consumers| && s.consumers[i].Runs?;
      assert s'.consumers[i].Runs?;
    }
  }

  lemma StepIsSafe(s: State, step: Step, maxConcurrent: int)
    requires Safe(s, maxConcurrent) && Enabled(s, step)
    ensures Safe(Next(s, step), maxConcurrent)
  {
    match step
    case Enqueue(task) => EnqueueIsSafe(s, task, maxConcurrent);
    case Look(id) => LookIsSafe(s, id, maxConcurrent);
    case WakeLockWaiter => WakeLockIsSafe(s, maxConcurrent);
    case WakePermitWaiter => WakePermitIsSafe(s, maxConcurrent);
    case Finish(id, raised) => FinishIsSafe(s, id, raised, maxConcurrent);
  }

  lemma DoEnqueueIsSafe(s: State, task: Task, maxConcurrent: int)
    requires Safe(s, maxConcurrent)
    ensures Safe(DoEnqueue(s, task), maxConcurrent)
  {
    assert s.popped + (s.queue + [task]) == (s.popped + s.queue) + [task];
  }

  lemma EnqueueIsSafe(s: State, task: Task, maxConcurrent: int)
    requires Safe(s, maxConcurrent)
    ensures Safe(Next(s, Enqueue(task)), maxConcurrent)
  {
    DoEnqueueIsSafe(s, task, maxConcurrent);
  }

  lemma LookIsSafe(s: State, id: nat, maxConcurrent: int)
    requires Safe(s, maxConcurrent) && Enabled(s, Look(id))
    ensures Safe(Next(s, Look(id)), maxConcurrent)
  {
    if s.queue != [] {
      OutsideIsNotWaiting(s, id);
      if s.permits > 0 && s.permitWaiters == [] {
        GoForLockIsSafe(s.(permits := s.permits - 1), id, maxConcurrent);
      } else {
        AwaitPermitIsSafe(s, id, maxConcurrent);
      }
    }
  }

  lemma OutsideIsNotWaiting(s: State, id: nat)
    requires Waiting(s) && id < |s.consumers| && s.consumers[id].Outside?
    ensures NotWaiting(s, id)
  {
  }

  lemma AwaitPermitIsSafe(s: State, id: nat, maxConcurrent: int)
    requires Safe(s, maxConcurrent) && id < |s.consumers| && s.consumers[id].Outside? && NotWaiting(s, id)
    ensures Safe(s.(permitWaiters := s.permitWaiters + [id], consumers := s.consumers[id := AwaitsPermit]), maxConcurrent)
  {
    var s' := s.(permitWaiters := s.permitWaiters + [id], consumers := s.consumers[id := AwaitsPermit]);
    HoldersUpdate(s.consumers, id, AwaitsPermit);
    OtherConsumerKeepsMutex(s, s', id);
    assert Waiting(s');
  }

  lemma WakeLockIsSafe(s: State, maxConcurrent: int)
    requires Safe(s, maxConcurrent) && Enabled(s, WakeLockWaiter)
    ensures Safe(Next(s, WakeLockWaiter), maxConcurrent)
  {
    var s', first := s.(lockWaiters := s.lockWaiters[1..]), s.lockWaiters[0];
    assert Waiting(s');
    if first.Enqueuer? {
      DoEnqueueIsSafe(s', first.task, maxConcurrent);
    } else {
      PopIsSafe(s', first.id, maxConcurrent);
    }
  }

  lemma WakePermitIsSafe(s: State, maxConcurrent: int)
    requires Safe(s, maxConcurrent) && Enabled(s, WakePermitWaiter)
    ensures Safe(Next(s, WakePermitWaiter), maxConcurrent)
  {
    var s' := s.(permits := s.permits - 1, permitWaiters := s.permitWaiters[1..]);
    assert Waiting(s');
    GoForLockIsSafe(s', s.permitWaiters[0], maxConcurrent);
  }

  lemma FinishIsSafe(s: State, id: nat, raised: bool, maxConcurrent: int)
    requires Safe(s, maxConcurrent) && Enabled(s, Finish(id, raised))
    ensures Safe(Next(s, Finish(id, raised)), maxConcurrent)
  {
    HoldersUpdate(s.consumers, id, if raised then Ended else Outside);
  }

  /** Safety of every interleaving, for any number of consumers. */
  lemma {:induction false} RunIsSafe(s: State, steps: seq<Step>, maxConcurrent: int)
    requires Safe(s, maxConcurrent) && IsRun(s, steps)
    ensures Safe(End(s, steps), maxConcurrent)
    decreases |steps|
  {
    if steps != [] {
      StepIsSafe(s, steps[0], maxConcurrent);
      RunIsSafe(Next(s, steps[0]), steps[1..], maxConcurrent);
    }
  }

  /** However many requests may run concurrently by configuration, at most one task runs at a time. */
  lemma OneTaskAtATime(maxConcurrent: nat, maxQueueSize: int, consumers: nat, steps: seq<Step>)
    requires IsRun(Init(maxConcurrent, maxQueueSize, consumers), steps)
    ensures var cs := End(Init(maxConcurrent, maxQueueSize, consumers), steps).consumers;
            forall i, j :: 0 <= i < |cs| && 0 <= j < |cs| && cs[i].Runs? && cs[j].Runs? ==> i == j
  {
    InitIsSafe(maxConcurrent, maxQueueSize, consumers);
    RunIsSafe(Init(maxConcurrent, maxQueueSize, consumers), steps, maxConcurrent);
  }

  // ---------------------------------------------------------------------------------
  // Popping the empty queue.

  /** No pop has failed, and a consumer that waits still has something to pop. */
  ghost predicate Lone(s: State) {
    && |s.consumers| <= 1 && s.failedPops == 0
    && (|s.consumers| == 1 && (s.consumers[0].AwaitsPermit? || s.consumers[0].AwaitsLock?) ==> s.queue != [])
  }

  lemma StepKeepsLone(s: State, step: Step, maxConcurrent: int)
    requires Safe(s, maxConcurrent) && Lone(s) && Enabled(s, step)
    ensures Lone(Next(s, step))
  {
    match step
    case Enqueue(task) =>
    case Look(id) => if s.queue != [] { LoneGoes(s, s.(permits := s.permits - 1), id); }
    case WakeLockWaiter => LoneWakes(s);
    case WakePermitWaiter => LoneGoes(s, s.(permits := s.permits - 1, permitWaiters := s.permitWaiters[1..]), 0);
    case Finish(id, raised) =>
  }

  lemma LoneGoes(s: State, s': State, id: nat)
    requires Lone(s) && s.queue != [] && id < |s.consumers|
    requires s'.consumers == s.consumers && s'.queue == s.queue && s'.failedPops == s.failedPops
    ensures Lone(GoForLock(s', id))
  {
  }

  lemma LoneWakes(s: State)
    requires Waiting(s) && Lone(s) && Enabled(s, WakeLockWaiter)
    ensures Lone(Next(s, WakeLockWaiter))
  {
    if s.lockWaiters[0].Processor? { assert s.consumers[0].AwaitsLock?; }
  }

  lemma {:induction false} RunKeepsLone(s: State, steps: seq<Step>, maxConcurrent: int)
    requires Safe(s, maxConcurrent) && Lone(s) && IsRun(s, steps)
    ensures Lone(End(s, steps))
    decreases |steps|
  {
    if steps != [] {
      StepIsSafe(s, steps[0], maxConcurrent);
      StepKeepsLone(s, steps[0], maxConcurrent);
      RunKeepsLone(Next(s, steps[0]), steps[1..], maxConcurrent);
    }
  }

  lemma {:induction false} ExtendRun(s: State, steps: seq<Step>, step: Step)
    requires IsRun(s, steps) && Enabled(End(s, steps), step)
    ensures IsRun(s, steps + [step]) && End(s, steps + [step]) == Next(End(s, steps), step)
    decreases |steps|
  {
    if steps == [] {
      assert [step][1..] == [];
      assert steps + [step] == [step];
    } else {
      ExtendRun(Next(s, steps[0]), steps[1..], step);
      assert (steps + [step])[1..] == steps[1..] + [step];
    }
  }

  /** A state that some run reaches. */
  ghost predicate Reaches(s: State, s': State) {
    exists steps :: IsRun(s, steps) && End(s, steps) == s'
  }

  lemma ReachStep(s: State, s': State, step: Step)
    requires Reaches(s, s') && Enabled(s', step)
    ensures Reaches(s, Next(s', step))
  {
    var steps :| IsRun(s, steps) && End(s, steps) == s';
    ExtendRun(s, steps, step);
  }

  /** Two consumers: one runs the first of two tasks while the other has seen the second. */
  lemma SecondConsumerWaits(maxConcurrent: nat, maxQueueSize: int, consumers: nat) returns (s: State)
    requires maxConcurrent >= 1 && maxQueueSize >= 2 && consumers >= 2
    ensures Reaches(Init(maxConcurrent, maxQueueSize, consumers), s)
    ensures |s.consumers| == consumers && s.consumers[0].Outside? && s.queue == [2] && !s.locked && s.failedPops == 0
    ensures maxConcurrent == 1 ==>
              s.permits == 1 && s.permitWaiters == [1] && s.lockWaiters == [] && s.consumers[1].AwaitsPermit?
    ensures maxConcurrent > 1 ==>
              s.permits >= 1 && s.permitWaiters == [] && s.lockWaiters == [Processor(1)] && s.consumers[1].AwaitsLock?
  {
    var s0 := Init(maxConcurrent, maxQueueSize, consumers);
    assert IsRun(s0, []) && End(s0, []) == s0;
    ReachStep(s0, s0, Enqueue(1));
    var s1 := Next(s0, Enqueue(1));
    ReachStep(s0, s1, Enqueue(2));
    var s2 := Next(s1, Enqueue(2));
    assert s2.queue == [1, 2];
    ReachStep(s0, s2, Look(0));
    var s3 := Next(s2, Look(0));
    assert s3.queue == [2] && s3.locked && s3.consumers[0].Runs? && s3.consumers[1].Outside?;
    ReachStep(s0, s3, Look(1));
    var s4 := Next(s3, Look(1));
    ReachStep(s0, s4, Finish(0, false));
    s := Next(s4, Finish(0, false));
  }

  /** The same with room for one task: an `enqueue` has put in the second task, and another waits. */
  lemma EnqueuersWait(maxConcurrent: nat, consumers: nat) returns (s: State)
    requires maxConcurrent >= 1 && consumers >= 2
    ensures Reaches(Init(maxConcurrent, 1, consumers), s)
    ensures |s.consumers| == consumers && s.consumers[0].Outside? && s.consumers[1].Outside?
    ensures s.queue == [2] && s.queueSize == 1 && s.maxQueueSize == 1 && !s.locked && s.failedPops == 0
    ensures s.permits == maxConcurrent && s.permitWaiters == [] && s.lockWaiters == [Enqueuer(3)]
  {
    var s0 := Init(maxConcurrent, 1, consumers);
    assert IsRun(s0, []) && End(s0, []) == s0;
    ReachStep(s0, s0, Enqueue(1));
    var s1 := Next(s0, Enqueue(1));
    assert s1.queue == [1] && s1.queueSize == 1;
    ReachStep(s0, s1, Look(0));
    var s2 := Next(s1, Look(0));
    assert s2.queue == [] && s2.queueSize == 0 && s2.locked && s2.consumers[0].Runs? && s2.consumers[1].Outside?;
    ReachStep(s0, s2, Enqueue(2));
    var s3 := Next(s2, Enqueue(2));
    ReachStep(s0, s3, Enqueue(3));
    var s4 := Next(s3, Enqueue(3));
    assert s4.lockWaiters == [Enqueuer(2), Enqueuer(3)];
    ReachStep(s0, s4, Finish(0, false));
    var s5 := Next(s4, Finish(0, false));
    ReachStep(s0, s5, WakeLockWaiter);
    s := Next(s5, WakeLockWaiter);
  }

  /** Both consumers see that task and queue up behind the waiting `enqueue`. */
  lemma BothConsumersWait(maxConcurrent: nat, consumers: nat) returns (s: State)
    requires maxConcurrent >= 1 && consumers >= 2
    ensures Reaches(Init(maxConcurrent, 1, consumers), s)
    ensures |s.consumers| == consumers && s.queue == [2] && s.queueSize == 1 && s.maxQueueSize == 1 && !s.locked
    ensures s.failedPops == 0
    ensures maxConcurrent == 1 ==>
              s.permits == 0 && s.permitWaiters == [0] && s.lockWaiters == [Enqueuer(3), Processor(1)]
    ensures maxConcurrent > 1 ==> s.lockWaiters == [Enqueuer(3), Processor(1), Processor(0)]
  {
    var s0 := Init(maxConcurrent, 1, consumers);
    var s1 := EnqueuersWait(maxConcurrent, consumers);
    ReachStep(s0, s1, Look(1));
    var s2 := Next(s1, Look(1));
    ReachStep(s0, s2, Look(0));
    s := Next(s2, Look(0));
  }

  lemma SmallQueueCanFail(maxConcurrent: nat, consumers: nat) returns (s: State)
    requires maxConcurrent >= 1 && consumers >= 2
    ensures Reaches(Init(maxConcurrent, 1, consumers), s) && s.failedPops == 1
  {
    var s0 := Init(maxConcurrent, 1, consumers);
    var s1 := BothConsumersWait(maxConcurrent, consumers);
    var wake := if maxConcurrent == 1 then WakePermitWaiter else WakeLockWaiter;
    ReachStep(s0, s1, WakeLockWaiter);
    var s2 := Next(s1, WakeLockWaiter);
    ReachStep(s0, s2, WakeLockWaiter);
    var s3 := Next(s2, WakeLockWaiter);
    assert s3.queue == [] && s3.consumers[1].Runs?;
    ReachStep(s0, s3, Finish(1, false));
    var s4 := Next(s3, Finish(1, false));
    ReachStep(s0, s4, wake);
    s := Next(s4, wake);
  }

  /** Two consumers can pop the empty queue: both see the same task, and one of them is too late. */
  lemma TwoConsumersCanFail(maxConcurrent: nat, maxQueueSize: int, consumers: nat) returns (s: State)
    requires maxConcurrent >= 1 && maxQueueSize >= 2 && consumers >= 2
    ensures Reaches(Init(maxConcurrent, maxQueueSize, consumers), s) && s.failedPops == 1
  {
    var s0 := Init(maxConcurrent, maxQueueSize, consumers);
    var s1 := SecondConsumerWaits(maxConcurrent, maxQueueSize, consumers);
    var wake := if maxConcurrent == 1 then WakePermitWaiter else WakeLockWaiter;
    ReachStep(s0, s1, Look(0));
    var s2 := Next(s1, Look(0));
    ReachStep(s0, s2, wake);
    var s3 := Next(s2, wake);
    assert s3.queue == [] && s3.consumers[1].Runs?;
    ReachStep(s0, s3, Finish(1, false));
    var s4 := Next(s3, Finish(1, false));
    ReachStep(s0, s4, wake);
    s := Next(s4, wake);
  }

  /** No task is ever popped: there are no permits, or the queue takes nothing. */
  ghost predicate Stuck(s: State) {
    && s.failedPops == 0
    && (forall i :: 0 <= i < |s.consumers| ==> s.consumers[i].Outside? || s.consumers[i].AwaitsPermit?)
    && (s.permits == 0 ||
        (s.maxQueueSize <= 0 && forall i :: 0 <= i < |s.consumers| ==> s.consumers[i].Outside?))
  }

  lemma StepKeepsStuck(s: State, step: Step, maxConcurrent: int)
    requires Safe(s, maxConcurrent) && Stuck(s) && Enabled(s, step)
    ensures Stuck(Next(s, step))
  {
  }

  lemma {:induction false} RunKeepsStuck(s: State, steps: seq<Step>, maxConcurrent: int)
    requires Safe(s, maxConcurrent) && Stuck(s) && IsRun(s, steps)
    ensures Stuck(End(s, steps))
    decreases |steps|
  {
    if steps != [] {
      StepIsSafe(s, steps[0], maxConcurrent);
      StepKeepsStuck(s, steps[0], maxConcurrent);
      RunKeepsStuck(Next(s, steps[0]), steps[1..], maxConcurrent);
    }
  }

  lemma NeverPopsEmpty(maxConcurrent: nat, maxQueueSize: int, consumers: nat, s: State)
    requires maxConcurrent == 0 || maxQueueSize <= 0 || consumers <= 1
    requires Reaches(Init(maxConcurrent, maxQueueSize, consumers), s)
    ensures s.failedPops == 0
  {
    var s0 := Init(maxConcurrent, maxQueueSize, consumers);
    InitIsSafe(maxConcurrent, maxQueueSize, consumers);
    var steps :| IsRun(s0, steps) && End(s0, steps) == s;
    if consumers <= 1 {
      InitIsLone(maxConcurrent, maxQueueSize, consumers);
      RunKeepsLone(s0, steps, maxConcurrent);
    } else {
      InitIsStuck(maxConcurrent, maxQueueSize, consumers);
      RunKeepsStuck(s0, steps, maxConcurrent);
    }
  }

  lemma InitIsLone(maxConcurrent: nat, maxQueueSize: int, consumers: nat)
    requires consumers <= 1
    ensures Lone(Init(maxConcurrent, maxQueueSize, consumers))
  {
  }

  lemma InitIsStuck(maxConcurrent: nat, maxQueueSize: int, consumers: nat)
    requires maxConcurrent == 0 || maxQueueSize <= 0
    ensures Stuck(Init(maxConcurrent, maxQueueSize, consumers))
  {
  }

  /** Some run pops the empty queue exactly when two or more consumers share a queue that works at all. */
  lemma PopsEmptyIffManyConsumers(maxConcurrent: nat, maxQueueSize: int, consumers: nat)
    ensures (exists s: State :: Reaches(Init(maxConcurrent, maxQueueSize, consumers), s) && s.failedPops > 0) <==>
            maxConcurrent >= 1 && maxQueueSize >= 1 && consumers >= 2
  {
    var s0 := Init(maxConcurrent, maxQueueSize, consumers);
    if maxConcurrent >= 1 && maxQueueSize >= 1 && consumers >= 2 {
      if maxQueueSize == 1 {
        var s := SmallQueueCanFail(maxConcurrent, consumers);
      } else {
        var s := TwoConsumersCanFail(maxConcurrent, maxQueueSize, consumers);
      }
    } else {
      forall s: State | Reaches(s0, s) ensures s.failedPops == 0 {
        NeverPopsEmpty(maxConcurrent, maxQueueSize, consumers, s);
      }
    }
  }
}
