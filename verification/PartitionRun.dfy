/**
 Running the signatures that `PartitionSignature` computes.

 A run starts with the graph inputs and the constants alive.  Each partition needs its
 inputs alive, then drops the inputs it deallocates and adds the buffers it returns.
 Names stand for buffers up to `Real`: a mutation output is its real buffer.
 */
module PartitionRun {
  import opened PartitionSignature
  import opened PartitionFlow

  /** What position `j` uses: the inputs of partition `j`, or the graph outputs at the end. */
  ghost function Use(v: View, ps: seq<Partition>, j: nat): set<Name>
    requires j <= |ps|
  {
    if j == |ps| then v.outputs else Inputs(v, ps[j])
  }

  /** The names that denote memory a run has to keep. */
  ghost function Tracked(v: View): set<Name> {
    set x | x in v.nodes + v.constants && Real(v.realName, x) !in v.hidden
  }

  ghost function ReturnedAt(v: View, ps: seq<Partition>, i: nat): set<Name>
    requires i < |ps|
  {
    Returned(v, ps[i], Unmet(v, ps, i + 1))
  }

  ghost function FlowOf(v: View, ps: seq<Partition>): (f: Flow)
    ensures f.Shaped() && |f.outs| == |ps|
  {
    Flow(
      v.realName,
      Tracked(v),
      seq(|ps| + 1, j requires 0 <= j <= |ps| => Use(v, ps, j)),
      seq(|ps|, i requires 0 <= i < |ps| => ps[i].outs),
      seq(|ps|, i requires 0 <= i < |ps| => ps[i].freed),
      seq(|ps|, i requires 0 <= i < |ps| => ReturnedAt(v, ps, i)),
      seq(|ps| + 1, i requires 0 <= i <= |ps| => Unmet(v, ps, i)))
  }

  /** What the scheduler guarantees of a partition list; `init` holds the graph inputs and constants. */
  ghost predicate WellFormed(v: View, ps: seq<Partition>, init: set<Name>) {
    FlowOf(v, ps).Sound(init) && FlowOf(v, ps).FreedForGood()
  }

  ghost function Dropped(v: View, sig: Signature): set<Name> {
    set n | n in sig.inputDeallocation && sig.inputDeallocation[n] :: Real(v.realName, n)
  }

  ghost function Alive(v: View, sigs: seq<Signature>, init: set<Name>, i: nat): set<Name>
    requires i <= |sigs|
  {
    if i == 0 then init
    else Alive(v, sigs, init, i - 1) - Dropped(v, sigs[i - 1]) + sigs[i - 1].outputNodes
  }

  ghost predicate Ready(v: View, sig: Signature, alive: set<Name>)
  {
    forall n :: n in sig.inputNodes + sig.constantNames && n in Tracked(v) ==> Real(v.realName, n) in alive
  }

  lemma FlowAt(v: View, ps: seq<Partition>, i: nat, next: nat)
    requires i + 1 == next <= |ps|
    ensures var f := FlowOf(v, ps);
            && f.uses[i] == Inputs(v, ps[i]) && f.outs[i] == ps[i].outs && f.freed[i] == ps[i].freed
            && f.returned[i] == Returned(v, ps[i], Unmet(v, ps, next))
            && f.unmet[i] == Unmet(v, ps, i) && f.unmet[next] == Unmet(v, ps, next)
  {
    ReturnedAtIs(v, ps, i, next);
    UseAtIs(v, ps, i);
  }

  lemma ReturnedAtIs(v: View, ps: seq<Partition>, i: nat, next: nat)
    requires i + 1 == next <= |ps|
    ensures ReturnedAt(v, ps, i) == Returned(v, ps[i], Unmet(v, ps, next))
  {
  }

  lemma UseAtIs(v: View, ps: seq<Partition>, i: nat)
    requires i < |ps|
    ensures Use(v, ps, i) == Inputs(v, ps[i])
  {
  }

  lemma UnmetStep(v: View, ps: seq<Partition>, i: nat, next: nat)
    requires i + 1 == next <= |ps|
    ensures Unmet(v, ps, i) ==
            Inputs(v, ps[i]) + (Unmet(v, ps, next) - Returned(v, ps[i], Unmet(v, ps, next)))
  {
  }

  lemma FlowIsSolved(v: View, ps: seq<Partition>)
    ensures FlowOf(v, ps).Solved()
  {
    var f := FlowOf(v, ps);
    forall i, k | 0 <= i < |ps| && k == i + 1
      ensures f.unmet[i] == f.uses[i] + (f.unmet[k] - f.returned[i])
    {
      FlowAt(v, ps, i, k);
      UnmetStep(v, ps, i, k);
    }
  }

  /** Input names are real names, except for renamed buffers that the partition frees. */
  lemma RenamedInput(v: View, p: Partition, n: Name)
    requires Idempotent(v.realName) && n in v.realName
    ensures n in Inputs(v, p) <==> n in p.freed && n !in p.outs && n in v.nodes
  {
    ImageIsComprehension(v.realName, p.touched - v.hidden - p.outs);
  }

  /** So an input that is handed on is known under its real name. */
  lemma ExtraOutputIsReal(v: View, p: Partition, n: Name)
    requires Idempotent(v.realName) && n in ExtraOutputs(v, p)
    ensures n !in v.realName && n in Inputs(v, p) && n in v.nodes
  {
    if n in v.realName { RenamedInput(v, p, n); }
  }

  lemma ReturnedFrom(v: View, p: Partition, unmet: set<Name>, y: Name) returns (z: Name)
    requires y in Returned(v, p, unmet)
    ensures Real(v.realName, z) == y
    ensures z in p.outs * unmet || z in ExtraOutputs(v, p)
  {
    var s := p.outs * unmet + ExtraOutputs(v, p);
    ImageIsComprehension(v.realName, s);
    z :| z in s && Real(v.realName, z) == y;
  }

  lemma UnmetOutputIsReturned(v: View, p: Partition, unmet: set<Name>, z: Name)
    requires z in p.outs * unmet
    ensures Real(v.realName, z) in Returned(v, p, unmet)
  {
    ImageIsComprehension(v.realName, p.outs * unmet + ExtraOutputs(v, p));
  }

  lemma FlowReturnsUnmet(v: View, ps: seq<Partition>, i: nat, k: nat, z: Name)
    requires i < |ps| && k == i + 1
    requires z in FlowOf(v, ps).outs[i] && z in FlowOf(v, ps).unmet[k]
    ensures FlowOf(v, ps).Real(z) in FlowOf(v, ps).returned[i]
  {
    FlowAt(v, ps, i, k);
    UnmetOutputIsReturned(v, ps[i], Unmet(v, ps, k), z);
  }

  lemma ReturnedIsInputOrMade(v: View, p: Partition, unmet: set<Name>, y: Name)
    requires Idempotent(v.realName) && y in Returned(v, p, unmet)
    ensures y in Inputs(v, p) || exists z :: z in p.outs && Real(v.realName, z) == y
  {
    var z := ReturnedFrom(v, p, unmet, y);
    if z in ExtraOutputs(v, p) { ExtraOutputIsReal(v, p, z); }
  }

  lemma FlowReturnsOnly(v: View, ps: seq<Partition>, i: nat, y: Name)
    requires Idempotent(v.realName) && i < |ps| && y in FlowOf(v, ps).returned[i]
    ensures y in FlowOf(v, ps).uses[i] || FlowOf(v, ps).MadeAt(i, y)
  {
    var f := FlowOf(v, ps);
    FlowAt(v, ps, i, i + 1);
    ReturnedIsInputOrMade(v, ps[i], Unmet(v, ps, i + 1), y);
    if y !in f.uses[i] {
      var z :| z in ps[i].outs && Real(v.realName, z) == y;
      assert z in f.outs[i] && f.Real(z) == y;
    }
  }

  lemma FlowReturns(v: View, ps: seq<Partition>)
    requires Idempotent(v.realName)
    ensures FlowOf(v, ps).ReturnsWhatIsUnmet()
  {
    var f := FlowOf(v, ps);
    forall i, k, z | 0 <= i < |ps| && k == i + 1 && z in f.outs[i] && z in f.unmet[k]
      ensures f.Real(z) in f.returned[i]
    {
      FlowReturnsUnmet(v, ps, i, k, z);
    }
    forall i, y | 0 <= i < |ps| && y in f.returned[i] ensures y in f.uses[i] || f.MadeAt(i, y) {
      FlowReturnsOnly(v, ps, i, y);
    }
  }

  /** The signature of partition `j`, which is the one at position `k` of those from `i` on. */
  lemma SignatureAt(v: View, ps: seq<Partition>, skips: seq<bool>, i: nat, j: nat, k: nat)
    requires |ps| - Zipped(ps, skips) <= i <= j < |ps| && j == i + k
    ensures Signatures(v, ps, skips, i)[k] == SignatureFor(v, ps, skips, j)
  {
  }

  lemma SignatureIs(v: View, ps: seq<Partition>, skips: seq<bool>, i: nat, next: nat)
    requires |ps| - Zipped(ps, skips) <= i < next == i + 1 <= |ps|
    ensures SignatureFor(v, ps, skips, i) == SignatureOf(v, ps[i], Unmet(v, ps, next), skips[|skips| - |ps| + i])
  {
  }

  lemma RenamingIsIdempotent(v: View, ps: seq<Partition>, init: set<Name>)
    requires WellFormed(v, ps, init)
    ensures Idempotent(v.realName)
  {
    var f := FlowOf(v, ps);
    forall n | n in v.realName ensures v.realName[n] !in v.realName {
      assert f.Real(n) == v.realName[n];
    }
  }

  /** What one partition of a run does to the buffers that are alive. */
  lemma SignatureCarries(v: View, ps: seq<Partition>, f: Flow, i: nat, next: nat, sig: Signature,
                         alive: set<Name>, alive': set<Name>)
    requires Idempotent(v.realName) && i < next == i + 1 <= |ps| && f == FlowOf(v, ps)
    requires forall n :: n in sig.inputDeallocation ==> sig.inputDeallocation[n] == (n in ps[i].freed)
    requires sig.outputNodes == Returned(v, ps[i], Unmet(v, ps, next)) - v.hidden
    requires alive' == alive - Dropped(v, sig) + sig.outputNodes
    ensures f.Carries(alive, alive', i)
  {
    FlowAt(v, ps, i, next);
    forall c | c in alive && c !in alive' ensures f.FreedAt(i, c) {
      var n := DroppedWasFreed(v, ps[i], sig, c);
      assert n in f.freed[i] && f.Real(n) == c;
    }
    forall c | c in f.returned[i] && c in f.tracked ensures c in alive' {
      ReturnedIsVisible(v, ps[i], Unmet(v, ps, next), c);
    }
  }

  lemma ReturnedIsVisible(v: View, p: Partition, unmet: set<Name>, c: Name)
    requires Idempotent(v.realName) && c in Returned(v, p, unmet) && c in Tracked(v)
    ensures c !in v.hidden
  {
    var z := ReturnedFrom(v, p, unmet, c);
    assert Real(v.realName, c) == c;
  }

  lemma AliveStep(v: View, sigs: seq<Signature>, init: set<Name>, i: nat, next: nat)
    requires i < next == i + 1 <= |sigs|
    ensures Alive(v, sigs, init, next) == Alive(v, sigs, init, i) - Dropped(v, sigs[i]) + sigs[i].outputNodes
  {
  }

  lemma RunStep(v: View, ps: seq<Partition>, skips: seq<bool>, init: set<Name>, i: nat, next: nat,
                f: Flow, sigs: seq<Signature>)
    requires |ps| == |skips| && Idempotent(v.realName) && i < next == i + 1 <= |ps|
    requires f == FlowOf(v, ps) && sigs == Signatures(v, ps, skips, 0)
    ensures f.Carries(Alive(v, sigs, init, i), Alive(v, sigs, init, next), i)
  {
    SignatureAt(v, ps, skips, 0, i, i);
    SignatureIs(v, ps, skips, i, next);
    AliveStep(v, sigs, init, i, next);
    SignatureCarries(v, ps, f, i, next, sigs[i], Alive(v, sigs, init, i), Alive(v, sigs, init, next));
  }

  /** At every position of a run, what is made so far and still needed is alive. */
  lemma {:induction false} RunKeepsNeeded(v: View, ps: seq<Partition>, skips: seq<bool>, init: set<Name>, i: nat)
    requires |ps| == |skips| && WellFormed(v, ps, init) && i <= |ps|
    ensures FlowOf(v, ps).KeepsNeeded(init, Alive(v, Signatures(v, ps, skips, 0), init, i), i)
  {
    var f, sigs := FlowOf(v, ps), Signatures(v, ps, skips, 0);
    if i > 0 {
      var p := i - 1;
      RunKeepsNeeded(v, ps, skips, init, p);
      FlowIsSolved(v, ps);
      RenamingIsIdempotent(v, ps, init);
      FlowReturns(v, ps);
      RunStep(v, ps, skips, init, p, i, f, sigs);
      PartitionKeepsNeeded(f, init, Alive(v, sigs, init, p), Alive(v, sigs, init, i), p, i);
    } else {
      assert f.KeepsNeeded(init, init, 0);
    }
  }

  lemma DroppedWasFreed(v: View, p: Partition, sig: Signature, c: Name) returns (n: Name)
    requires forall n :: n in sig.inputDeallocation ==> sig.inputDeallocation[n] == (n in p.freed)
    requires c in Dropped(v, sig)
    ensures n in p.freed && Real(v.realName, n) == c
  {
    n :| n in sig.inputDeallocation && sig.inputDeallocation[n] && Real(v.realName, n) == c;
  }

  /** Safety of whole runs: every partition finds its inputs and constants alive, and every graph
      output is alive at the end. */
  lemma SignaturesAreSafe(v: View, ps: seq<Partition>, skips: seq<bool>, init: set<Name>)
    requires |ps| == |skips| && WellFormed(v, ps, init)
    ensures var sigs := Signatures(v, ps, skips, 0);
            && (forall i :: 0 <= i < |ps| ==> Ready(v, sigs[i], Alive(v, sigs, init, i)))
            && (forall o :: o in v.outputs && o in Tracked(v) ==>
                  Real(v.realName, o) in Alive(v, sigs, init, |ps|))
  {
    var f, sigs := FlowOf(v, ps), Signatures(v, ps, skips, 0);
    forall i | 0 <= i < |ps| ensures Ready(v, sigs[i], Alive(v, sigs, init, i)) {
      RunKeepsNeeded(v, ps, skips, init, i);
      SignatureAt(v, ps, skips, 0, i, i);
      SignatureIs(v, ps, skips, i, i + 1);
      forall n | n in sigs[i].inputNodes + sigs[i].constantNames && n in Tracked(v)
        ensures Real(v.realName, n) in Alive(v, sigs, init, i)
      {
        UsesAreAlive(f, init, Alive(v, sigs, init, i), i, n);
      }
    }
    RunKeepsNeeded(v, ps, skips, init, |ps|);
    forall o | o in v.outputs && o in Tracked(v) ensures Real(v.realName, o) in Alive(v, sigs, init, |ps|) {
      UsesAreAlive(f, init, Alive(v, sigs, init, |ps|), |ps|, o);
    }
  }

  // ---------------------------------------------------------------------------------
  // What the unmet set and the returned set mean.

  /** `unmet_output_names` is the live-in set of textbook liveness analysis, for the names of real buffers. */
  lemma UnmetIsLiveIn(v: View, ps: seq<Partition>, x: Name, i: nat)
    requires Idempotent(v.realName) && FlowOf(v, ps).InPlace() && i <= |ps|
    requires x in Tracked(v) && x !in v.realName
    ensures x in Unmet(v, ps, i) <==>
            exists j :: i <= j <= |ps| && x in Use(v, ps, j) && forall m :: i <= m < j ==> x !in ps[m].outs
  {
    var f := FlowOf(v, ps);
    FlowIsSolved(v, ps);
    FlowReturns(v, ps);
    UnmetIsLive(f, x, i);
    LiveInOfFlow(v, ps, x, i);
  }

  lemma LiveInOfFlow(v: View, ps: seq<Partition>, x: Name, i: nat)
    requires i <= |ps|
    ensures LiveIn(FlowOf(v, ps), x, i) <==>
            exists j :: i <= j <= |ps| && x in Use(v, ps, j) && forall m :: i <= m < j ==> x !in ps[m].outs
  {
    var f := FlowOf(v, ps);
    assert forall j :: 0 <= j <= |ps| ==> f.uses[j] == Use(v, ps, j);
    assert forall m :: 0 <= m < |ps| ==> f.outs[m] == ps[m].outs;
  }

  /** Some partition from `i` on frees the renamed buffer `z`, which it does not define. */
  ghost predicate FreedFrom(v: View, ps: seq<Partition>, z: Name, i: nat) {
    exists j :: i <= j < |ps| && z in ps[j].freed && z in v.nodes && z !in ps[j].outs
  }

  /** A renamed buffer is never taken out of `unmet_output_names`, because what is returned is renamed
      before it is subtracted: it stays from its last use as a graph output or a freed name on. */
  lemma {:induction false} RenamedIsNeverMet(v: View, ps: seq<Partition>, z: Name, i: nat)
    requires Idempotent(v.realName) && z in v.realName && i <= |ps|
    ensures z in Unmet(v, ps, i) <==> z in v.outputs || FreedFrom(v, ps, z, i)
    decreases |ps| - i
  {
    if i < |ps| {
      var next := i + 1;
      RenamedIsNeverMet(v, ps, z, next);
      UnmetStep(v, ps, i, next);
      RenamedInput(v, ps[i], z);
      RenamedIsNotReturned(v, ps[i], Unmet(v, ps, next), z);
      assert FreedFrom(v, ps, z, i) <==> FreedFrom(v, ps, z, next) || z in Inputs(v, ps[i]);
    }
  }

  lemma RenamedIsNotReturned(v: View, p: Partition, unmet: set<Name>, z: Name)
    requires Idempotent(v.realName) && z in v.realName
    ensures z !in Returned(v, p, unmet)
  {
    if z in Returned(v, p, unmet) {
      var w := ReturnedFrom(v, p, unmet, z);
    }
  }

  /** So the unmet set is not the live-in set of renamed buffers: a graph output that is made by the second
      of two partitions is still unmet before the first. */
  lemma RenamedOutputStaysUnmet(m: Name, a: Name, v: View, ps: seq<Partition>)
    requires m != a && v == View({m, a}, map[m := a], {}, {m}, {})
    requires ps == [Partition({a}, {}, {}), Partition({m}, {a}, {})]
    ensures m in Unmet(v, ps, 0) && !LiveIn(FlowOf(v, ps), m, 0)
  {
    var f := FlowOf(v, ps);
    RenamedIsNeverMet(v, ps, m, 0);
    FlowAt(v, ps, 0, 1);
    FlowAt(v, ps, 1, 2);
    RenamedInput(v, ps[0], m);
    RenamedInput(v, ps[1], m);
    assert m in f.outs[1] && m !in f.uses[0] && m !in f.uses[1];
  }

  /** A partition never returns an input that it deallocates when no buffer is mutated. */
  lemma FreedInputNotReturned(v: View, p: Partition, unmet: set<Name>, skip: bool, n: Name)
    requires v.realName == map[]
    requires n in SignatureOf(v, p, unmet, skip).inputNodes && n in p.freed
    ensures n !in SignatureOf(v, p, unmet, skip).outputNodes
  {
    ImageIsComprehension(v.realName, p.touched - v.hidden - p.outs);
    if n in Returned(v, p, unmet) {
      var z := ReturnedFrom(v, p, unmet, n);
    }
  }

  /** With mutations the same holds as long as freed buffers are not used later. */
  lemma FreedInputNotReturnedInRun(v: View, ps: seq<Partition>, i: nat, n: Name)
    requires Idempotent(v.realName) && FlowOf(v, ps).FreedForGood()
    requires i < |ps| && n in ps[i].freed && n !in v.realName
    ensures n !in Returned(v, ps[i], Unmet(v, ps, i + 1))
  {
    var f, next := FlowOf(v, ps), i + 1;
    if n in Returned(v, ps[i], Unmet(v, ps, i + 1)) {
      var z := ReturnedFrom(v, ps[i], Unmet(v, ps, i + 1), n);
      if z in ps[i].outs * Unmet(v, ps, i + 1) {
        FlowIsSolved(v, ps);
        assert f.unmet[next] == Unmet(v, ps, i + 1);
        assert n in f.freed[i] && f.Real(n) == n == f.Real(z);
        var j := UnmetIsUsed(f, z, next);
      } else {
        ImageIsComprehension(v.realName, ps[i].touched - v.hidden - ps[i].outs);
      }
    }
  }

  // ---------------------------------------------------------------------------------
  // Looking up returned names.

  /** Partition `k` defines `z`, whose real name has no node although it denotes memory, and `z` is unmet
      after it: `z` is a graph output, or a later partition frees it. */
  ghost predicate Unknown(v: View, ps: seq<Partition>, k: nat, z: Name)
    requires k < |ps|
  {
    && z in ps[k].outs && z in v.realName
    && Real(v.realName, z) !in v.nodes && Real(v.realName, z) !in v.hidden
    && (z in v.outputs || FreedFrom(v, ps, z, k + 1))
  }

  lemma UnknownIsReturned(v: View, ps: seq<Partition>, k: nat, z: Name)
    requires Idempotent(v.realName) && k < |ps| && Unknown(v, ps, k, z)
    ensures !(Returned(v, ps[k], Unmet(v, ps, k + 1)) - v.hidden <= v.nodes)
  {
    RenamedIsNeverMet(v, ps, z, k + 1);
    UnmetOutputIsReturned(v, ps[k], Unmet(v, ps, k + 1), z);
  }

  lemma ReturnedIsKnown(v: View, ps: seq<Partition>, k: nat)
    requires Idempotent(v.realName) && k < |ps| && ps[k].outs <= v.nodes
    requires forall z :: z in ps[k].outs ==> !Unknown(v, ps, k, z)
    ensures Returned(v, ps[k], Unmet(v, ps, k + 1)) - v.hidden <= v.nodes
  {
    var unmet := Unmet(v, ps, k + 1);
    forall y | y in Returned(v, ps[k], unmet) && y !in v.hidden ensures y in v.nodes {
      var z := ReturnedFrom(v, ps[k], unmet, y);
      if z in ExtraOutputs(v, ps[k]) {
        ExtraOutputIsReal(v, ps[k], z);
      } else if z in v.realName {
        RenamedIsNeverMet(v, ps, z, k + 1);
      }
    }
  }

  /** The pass raises `KeyError` exactly when some partition defines a renamed buffer whose real name has no
      node, and that buffer is a graph output or freed by a later partition. */
  lemma {:induction false} KnownIff(v: View, ps: seq<Partition>, i: nat)
    requires Idempotent(v.realName) && i <= |ps| && forall k :: 0 <= k < |ps| ==> ps[k].outs <= v.nodes
    ensures AllKnown(v, ps, i) <==> forall k, z :: i <= k < |ps| && z in ps[k].outs ==> !Unknown(v, ps, k, z)
    decreases |ps| - i
  {
    if i < |ps| {
      KnownIff(v, ps, i + 1);
      if forall z :: z in ps[i].outs ==> !Unknown(v, ps, i, z) {
        ReturnedIsKnown(v, ps, i);
      } else {
        var z :| z in ps[i].outs && Unknown(v, ps, i, z);
        UnknownIsReturned(v, ps, i, z);
      }
    }
  }

  /** No `KeyError` when every scheduler name has a real name that the scheduler knows or hides. */
  lemma RealNamesAreKnown(v: View, ps: seq<Partition>, i: nat)
    requires Idempotent(v.realName) && i <= |ps| && forall k :: 0 <= k < |ps| ==> ps[k].outs <= v.nodes
    requires forall n :: n in v.nodes ==> Real(v.realName, n) in v.nodes || Real(v.realName, n) in v.hidden
    ensures AllKnown(v, ps, i)
  {
    KnownIff(v, ps, i);
  }

  /** A partition that mutates a tensor constant has no signature when its mutation output is a graph output. */
  lemma MutatedConstantIsUnknown(m: Name, c: Name, v: View, p: Partition)
    requires m != c && v.realName == map[m := c] && c !in v.nodes && c !in v.hidden
    requires m in p.outs && m in v.outputs
    ensures !AllKnown(v, [p], 0)
  {
    assert Unknown(v, [p], 0, m);
    UnknownIsReturned(v, [p], 0, m);
  }
}
