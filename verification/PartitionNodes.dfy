/**
 Partition signatures in terms of the scheduler's nodes (vllm/env_override.py): what a signature
 holds, and the safety of running signatures, stated on what nodes read, write, make and free.
 */
module PartitionNodes {
  import opened PartitionSignature
  import opened PartitionFlow
  import opened PartitionRun

  ghost predicate Makes(nodes: seq<Node>, n: Name) {
    exists i :: 0 <= i < |nodes| && n in nodes[i].outputs
  }

  /** Some node reads or writes `n`. */
  ghost predicate Touches(nodes: seq<Node>, n: Name) {
    exists i :: 0 <= i < |nodes| && (n in nodes[i].readNames || n in nodes[i].writeNames)
  }

  ghost predicate Frees(nodes: seq<Node>, n: Name) {
    exists i :: 0 <= i < |nodes| && n in nodes[i].lastUsage
  }

  /** `x` is a name of the buffer whose real name is `n`. */
  ghost predicate Denotes(g: Graph, x: Name, n: Name) {
    if x in g.realName then g.realName[x] == n else x == n
  }

  /** A buffer is hidden when it has no layout: a mutation output when its real buffer has none either. */
  ghost predicate Hidden(g: Graph, n: Name) {
    && n in g.bufs && g.bufs[n].noneLayout
    && (g.bufs[n].mutationOutput && n in g.realName && g.realName[n].text != "" ==>
          g.realName[n] in g.bufs && g.bufs[g.realName[n]].noneLayout)
  }

  lemma LayoutIsHidden(g: Graph, n: Name)
    requires Idempotent(g.realName)
    ensures IsNoneLayout(g, n) <==> Hidden(g, n)
    ensures n in ViewOf(g).hidden <==> Hidden(g, n)
  {
    assert Real(g.realName, n) !in g.realName;
  }

  /** The nodes reach, from outside, the buffer whose name is `n`: they access it, or free it. */
  ghost predicate Reaches(g: Graph, nodes: seq<Node>, n: Name) {
    || Accesses(g, nodes, n)
    || (n in g.nodes && Frees(nodes, n) && !Makes(nodes, n))
  }

  /** Some node reads or writes a visible buffer, under whatever name, that no node of the partition makes. */
  ghost predicate Accesses(g: Graph, nodes: seq<Node>, n: Name) {
    exists x :: Touches(nodes, x) && !Hidden(g, x) && !Makes(nodes, x) && Denotes(g, x, n)
  }

  lemma MergedNames(nodes: seq<Node>, n: Name)
    ensures n in Merge(nodes).outs <==> Makes(nodes, n)
    ensures n in Merge(nodes).touched <==> Touches(nodes, n)
    ensures n in Merge(nodes).freed <==> Frees(nodes, n)
  {
    if n in Merge(nodes).outs { var node :| node in nodes && n in node.outputs; }
    if n in Merge(nodes).touched { var node :| node in nodes && n in node.readNames + node.writeNames; }
    if n in Merge(nodes).freed { var node :| node in nodes && n in node.lastUsage; }
    if i :| 0 <= i < |nodes| && n in nodes[i].outputs { assert nodes[i] in nodes; }
    if i :| 0 <= i < |nodes| && n in nodes[i].readNames + nodes[i].writeNames { assert nodes[i] in nodes; }
    if i :| 0 <= i < |nodes| && n in nodes[i].lastUsage { assert nodes[i] in nodes; }
  }

  /** The inputs of a partition are the buffers that its nodes reach from outside. */
  lemma InputsAreReached(g: Graph, nodes: seq<Node>, n: Name)
    requires Idempotent(g.realName)
    ensures n in Inputs(ViewOf(g), Merge(nodes)) <==> Reaches(g, nodes, n)
  {
    var v, p := ViewOf(g), Merge(nodes);
    var s := p.touched - v.hidden - p.outs;
    ImageIsComprehension(v.realName, s);
    forall x ensures x in s <==> Touches(nodes, x) && !Hidden(g, x) && !Makes(nodes, x) {
      MergedNames(nodes, x);
      LayoutIsHidden(g, x);
    }
    MergedNames(nodes, n);
  }

  // ---------------------------------------------------------------------------------
  // What the scheduler guarantees.

  /** The names of memory that a run has to keep. */
  ghost predicate IsTracked(g: Graph, n: Name) {
    (n in g.nodes || n in g.constants) && !Hidden(g, Real(g.realName, n))
  }

  /** What position `j` uses: what partition `j` reaches, or the graph outputs at the end. */
  ghost predicate UsedAt(g: Graph, partitions: seq<seq<Node>>, j: nat, n: Name)
    requires j <= |partitions|
  {
    if j < |partitions| then Reaches(g, partitions[j], n) else n in g.outputs
  }

  ghost predicate DefinedBefore(partitions: seq<seq<Node>>, init: set<Name>, n: Name, j: nat)
    requires j <= |partitions|
  {
    n in init || exists k :: 0 <= k < j && Makes(partitions[k], n)
  }

  /** Real names are not renamed again, and a buffer is tracked under all of its names or none. */
  ghost predicate Renames(g: Graph, init: set<Name>) {
    && Idempotent(g.realName)
    && (forall x :: x in init ==> x !in g.realName)
    && (forall x :: IsTracked(g, x) ==> IsTracked(g, Real(g.realName, x)))
    && (forall x :: x in g.realName && IsTracked(g, g.realName[x]) ==> IsTracked(g, x))
  }

  /** A mutation happens where its real buffer is made or reached. */
  ghost predicate InPlace(g: Graph, partitions: seq<seq<Node>>) {
    forall i, o :: 0 <= i < |partitions| && Makes(partitions[i], o) && o in g.realName && IsTracked(g, g.realName[o]) ==>
                     Makes(partitions[i], g.realName[o]) || Reaches(g, partitions[i], g.realName[o])
  }

  /** What the scheduler guarantees of a partition list; `init` holds the graph inputs and constants. */
  ghost predicate Scheduled(g: Graph, partitions: seq<seq<Node>>, init: set<Name>) {
    && Renames(g, init)
    // reads follow producers
    && (forall j, n :: 0 <= j <= |partitions| && UsedAt(g, partitions, j, n) && IsTracked(g, n) ==>
          DefinedBefore(partitions, init, n, j))
    // mutations are in place
    && InPlace(g, partitions)
    // one producer per name
    && (forall i, j, n :: 0 <= i < j < |partitions| && Makes(partitions[i], n) ==> !Makes(partitions[j], n))
    // what is freed is not used later
    && (forall i, j, n, x :: 0 <= i < j <= |partitions| && Frees(partitions[i], n) && UsedAt(g, partitions, j, x) ==>
          Real(g.realName, n) != Real(g.realName, x))
  }

  ghost function FlowOfNodes(g: Graph, partitions: seq<seq<Node>>): (f: Flow)
    requires Idempotent(g.realName)
    ensures f.Shaped() && |f.outs| == |partitions|
  {
    FlowOf(ViewOf(g), MergeAll(partitions))
  }

  lemma FlowNames(g: Graph, partitions: seq<seq<Node>>, i: nat, n: Name)
    requires Idempotent(g.realName) && i < |partitions|
    ensures n in FlowOfNodes(g, partitions).outs[i] <==> Makes(partitions[i], n)
    ensures n in FlowOfNodes(g, partitions).freed[i] <==> Frees(partitions[i], n)
  {
    MergedNames(partitions[i], n);
  }

  lemma FlowUses(g: Graph, partitions: seq<seq<Node>>, j: nat, n: Name)
    requires Idempotent(g.realName) && j <= |partitions|
    ensures n in FlowOfNodes(g, partitions).uses[j] <==> UsedAt(g, partitions, j, n)
  {
    if j < |partitions| { InputsAreReached(g, partitions[j], n); }
  }

  lemma FlowTracks(g: Graph, partitions: seq<seq<Node>>, n: Name)
    requires Idempotent(g.realName)
    ensures n in FlowOfNodes(g, partitions).tracked <==> IsTracked(g, n)
  {
    LayoutIsHidden(g, Real(g.realName, n));
  }

  lemma FlowDefines(g: Graph, partitions: seq<seq<Node>>, init: set<Name>, n: Name, j: nat)
    requires Idempotent(g.realName) && j <= |partitions|
    ensures FlowOfNodes(g, partitions).Defined(init, n, j) <==> DefinedBefore(partitions, init, n, j)
  {
    forall k | 0 <= k < j ensures n in FlowOfNodes(g, partitions).outs[k] <==> Makes(partitions[k], n) {
      FlowNames(g, partitions, k, n);
    }
  }

  lemma FlowIsInPlace(g: Graph, partitions: seq<seq<Node>>)
    requires Idempotent(g.realName) && InPlace(g, partitions)
    ensures FlowOfNodes(g, partitions).InPlace()
  {
    var f := FlowOfNodes(g, partitions);
    forall i, o | 0 <= i < |f.outs| && o in f.outs[i] && f.Real(o) != o && f.Real(o) in f.tracked
      ensures f.Real(o) in f.outs[i] || f.Real(o) in f.uses[i]
    {
      FlowNames(g, partitions, i, o);
      FlowNames(g, partitions, i, f.Real(o));
      FlowTracks(g, partitions, f.Real(o));
      FlowUses(g, partitions, i, f.Real(o));
    }
  }

  lemma FlowIsFreedForGood(g: Graph, partitions: seq<seq<Node>>, init: set<Name>)
    requires Scheduled(g, partitions, init)
    ensures FlowOfNodes(g, partitions).FreedForGood()
  {
    var f := FlowOfNodes(g, partitions);
    forall i, j, n, x | 0 <= i < j <= |f.outs| && n in f.freed[i] && x in f.uses[j] ensures f.Real(n) != f.Real(x) {
      FlowNames(g, partitions, i, n);
      FlowUses(g, partitions, j, x);
    }
  }

  lemma FlowFollowsProducers(g: Graph, partitions: seq<seq<Node>>, init: set<Name>, j: nat, x: Name)
    requires Scheduled(g, partitions, init) && j <= |partitions|
    requires x in FlowOfNodes(g, partitions).uses[j] && x in FlowOfNodes(g, partitions).tracked
    ensures FlowOfNodes(g, partitions).Defined(init, x, j)
  {
    FlowUses(g, partitions, j, x);
    FlowTracks(g, partitions, x);
    FlowDefines(g, partitions, init, x, j);
  }

  /** So the data flow of such a partition list is well-formed. */
  lemma ScheduledIsWellFormed(g: Graph, partitions: seq<seq<Node>>, init: set<Name>)
    requires Scheduled(g, partitions, init)
    ensures WellFormed(ViewOf(g), MergeAll(partitions), init)
  {
    var f := FlowOfNodes(g, partitions);
    FlowIsInPlace(g, partitions);
    FlowIsFreedForGood(g, partitions, init);
    forall x ensures x in f.tracked <==> IsTracked(g, x) { FlowTracks(g, partitions, x); }
    forall j, x | 0 <= j <= |f.outs| && x in f.uses[j] && x in f.tracked ensures f.Defined(init, x, j) {
      FlowFollowsProducers(g, partitions, init, j, x);
    }
    forall i, j, x | 0 <= i < j < |f.outs| && x in f.outs[i] ensures x !in f.outs[j] {
      FlowNames(g, partitions, i, x);
      FlowNames(g, partitions, j, x);
    }
  }

  // ---------------------------------------------------------------------------------
  // What a signature holds.

  /** From position `i` on, the buffer named `n` is used before it is made again; a renamed buffer is needed
      wherever it is a graph output or freed. */
  ghost predicate NeededFrom(g: Graph, partitions: seq<seq<Node>>, i: nat, n: Name)
    requires i <= |partitions|
  {
    if n in g.realName then
      n in g.outputs || exists j :: i <= j < |partitions| && n in g.nodes && Frees(partitions[j], n) && !Makes(partitions[j], n)
    else
      exists j :: i <= j <= |partitions| && UsedAt(g, partitions, j, n) && forall m :: i <= m < j ==> !Makes(partitions[m], n)
  }

  /** A buffer that the nodes make and that is needed later, or that they reach and do not free. */
  ghost predicate HandsOn(g: Graph, partitions: seq<seq<Node>>, i: nat, z: Name)
    requires i < |partitions|
  {
    || (Makes(partitions[i], z) && NeededFrom(g, partitions, i + 1, z))
    || (z in g.nodes && Reaches(g, partitions[i], z) && !Frees(partitions[i], z))
  }

  /** `y` is the real name of a visible buffer that partition `i` hands on. */
  ghost predicate IsReturned(g: Graph, partitions: seq<seq<Node>>, i: nat, y: Name)
    requires i < |partitions|
  {
    !Hidden(g, y) && exists z :: Denotes(g, z, y) && HandsOn(g, partitions, i, z)
  }

  ghost predicate InputsDescribed(g: Graph, nodes: seq<Node>, sig: Signature) {
    && (forall n :: n in sig.inputNodes <==> n in g.nodes && Reaches(g, nodes, n))
    && (forall n :: n in sig.constantNames <==> n in g.constants && Reaches(g, nodes, n))
    && (forall n :: n in sig.inputDeallocation <==> n in g.nodes && Reaches(g, nodes, n))
    && (forall n :: n in sig.inputDeallocation ==> (sig.inputDeallocation[n] <==> Frees(nodes, n)))
  }

  lemma InputsAreDescribed(g: Graph, nodes: seq<Node>, unmet: set<Name>, skip: bool)
    requires Idempotent(g.realName)
    ensures InputsDescribed(g, nodes, SignatureOf(ViewOf(g), Merge(nodes), unmet, skip))
  {
    var v, p := ViewOf(g), Merge(nodes);
    forall n ensures n in Inputs(v, p) <==> Reaches(g, nodes, n) { InputsAreReached(g, nodes, n); }
    forall n ensures n in p.freed <==> Frees(nodes, n) { MergedNames(nodes, n); }
  }

  /** What a partition takes: the buffers its nodes reach, with those to deallocate marked, and its flag,
      counted from the ends of the two lists. */
  lemma SignatureInputs(g: Graph, partitions: seq<seq<Node>>, skips: seq<bool>, first: nat, i: nat, sig: Signature,
                        v: View, ps: seq<Partition>)
    requires Idempotent(g.realName) && |partitions| - Zipped(partitions, skips) == first <= i < |partitions|
    requires v == ViewOf(g) && ps == MergeAll(partitions) && sig == Signatures(v, ps, skips, first)[i - first]
    ensures InputsDescribed(g, partitions[i], sig) && sig.skipCudagraph == skips[|skips| - |partitions| + i]
  {
    SignatureAt(v, ps, skips, first, i, i - first);
    InputsAreDescribed(g, partitions[i], Unmet(v, ps, i + 1), skips[|skips| - |partitions| + i]);
  }

  lemma UnmetIsNeeded(g: Graph, partitions: seq<seq<Node>>, i: nat, z: Name)
    requires Idempotent(g.realName) && InPlace(g, partitions) && i <= |partitions| && IsTracked(g, z)
    ensures z in Unmet(ViewOf(g), MergeAll(partitions), i) <==> NeededFrom(g, partitions, i, z)
  {
    var v, ps := ViewOf(g), MergeAll(partitions);
    forall j | 0 <= j < |ps|
      ensures (z in ps[j].outs <==> Makes(partitions[j], z)) && (z in ps[j].freed <==> Frees(partitions[j], z))
    {
      MergedNames(partitions[j], z);
    }
    if z in g.realName {
      RenamedIsNeverMet(v, ps, z, i);
    } else {
      FlowIsInPlace(g, partitions);
      FlowTracks(g, partitions, z);
      UnmetIsLiveIn(v, ps, z, i);
      forall j | 0 <= j <= |ps| ensures z in Use(v, ps, j) <==> UsedAt(g, partitions, j, z) {
        FlowUses(g, partitions, j, z);
      }
    }
  }

  lemma ReturnedIsHandedOn(g: Graph, partitions: seq<seq<Node>>, i: nat, next: nat, y: Name)
    requires Idempotent(g.realName) && InPlace(g, partitions) && i + 1 == next <= |partitions| && !Hidden(g, y)
    requires forall z :: Makes(partitions[i], z) ==> z in g.nodes
    ensures y in Returned(ViewOf(g), MergeAll(partitions)[i], Unmet(ViewOf(g), MergeAll(partitions), next)) <==>
            exists z :: Denotes(g, z, y) && HandsOn(g, partitions, i, z)
  {
    var v, ps := ViewOf(g), MergeAll(partitions);
    var unmet := Unmet(v, ps, next);
    var s := ps[i].outs * unmet + ExtraOutputs(v, ps[i]);
    ImageIsComprehension(v.realName, s);
    forall z | Denotes(g, z, y) ensures z in s <==> HandsOn(g, partitions, i, z) {
      MergedNames(partitions[i], z);
      InputsAreReached(g, partitions[i], z);
      if Makes(partitions[i], z) { UnmetIsNeeded(g, partitions, next, z); }
    }
    assert forall z :: Denotes(g, z, y) <==> Real(v.realName, z) == y;
  }

  lemma OutputsAreDescribed(g: Graph, partitions: seq<seq<Node>>, i: nat, next: nat, skip: bool, y: Name,
                            v: View, ps: seq<Partition>)
    requires Idempotent(g.realName) && InPlace(g, partitions) && i + 1 == next <= |partitions|
    requires v == ViewOf(g) && ps == MergeAll(partitions) && forall z :: Makes(partitions[i], z) ==> z in g.nodes
    ensures y in SignatureOf(v, ps[i], Unmet(v, ps, next), skip).outputNodes <==>
            IsReturned(g, partitions, i, y)
  {
    LayoutIsHidden(g, y);
    if !Hidden(g, y) { ReturnedIsHandedOn(g, partitions, i, next, y); }
  }

  /** What a partition returns: under its real name, every visible buffer that it makes and that is needed
      later, and every one that it reaches and does not free. */
  lemma SignatureOutputs(g: Graph, partitions: seq<seq<Node>>, skips: seq<bool>, first: nat, i: nat, sig: Signature,
                         v: View, ps: seq<Partition>, y: Name)
    requires Idempotent(g.realName) && |partitions| - Zipped(partitions, skips) == first <= i < |partitions|
    requires v == ViewOf(g) && ps == MergeAll(partitions) && sig == Signatures(v, ps, skips, first)[i - first]
    requires InPlace(g, partitions) && forall z :: Makes(partitions[i], z) ==> z in g.nodes
    ensures y in sig.outputNodes <==> IsReturned(g, partitions, i, y)
  {
    var next, skip := i + 1, skips[|skips| - |partitions| + i];
    SignatureAt(v, ps, skips, first, i, i - first);
    SignatureIs(v, ps, skips, i, next);
    OutputsAreDescribed(g, partitions, i, next, skip, y, v, ps);
  }

  // ---------------------------------------------------------------------------------
  // Safety of whole runs.

  ghost function SignaturesOf(g: Graph, partitions: seq<seq<Node>>, skips: seq<bool>): (sigs: seq<Signature>)
    requires Idempotent(g.realName) && |partitions| == |skips|
    ensures |sigs| == |partitions|
  {
    Signatures(ViewOf(g), MergeAll(partitions), skips, 0)
  }

  lemma AccessIsAlive(g: Graph, partitions: seq<seq<Node>>, skips: seq<bool>, init: set<Name>, i: nat, x: Name)
    requires |partitions| == |skips| && Scheduled(g, partitions, init) && i < |partitions|
    requires Touches(partitions[i], x) && !Hidden(g, x) && IsTracked(g, x) && !Makes(partitions[i], x)
    ensures Real(g.realName, x) in Alive(ViewOf(g), SignaturesOf(g, partitions, skips), init, i)
  {
    var c := Real(g.realName, x);
    ScheduledIsWellFormed(g, partitions, init);
    RunKeepsNeeded(ViewOf(g), MergeAll(partitions), skips, init, i);
    FlowUses(g, partitions, i, c);
    assert Accesses(g, partitions[i], c) by { assert Denotes(g, x, c); }
    FlowTracks(g, partitions, c);
    UsesAreAlive(FlowOfNodes(g, partitions), init, Alive(ViewOf(g), SignaturesOf(g, partitions, skips), init, i), i, c);
  }

  /** Safety of whole runs: whatever a node of a partition reads or writes is made by that partition or alive
      when the partition runs, and every graph output is alive at the end. */
  lemma RunIsSafe(g: Graph, partitions: seq<seq<Node>>, skips: seq<bool>, init: set<Name>)
    requires |partitions| == |skips| && Scheduled(g, partitions, init)
    ensures var v, sigs := ViewOf(g), SignaturesOf(g, partitions, skips);
            && (forall i, x :: 0 <= i < |partitions| && Touches(partitions[i], x) && !Hidden(g, x) && IsTracked(g, x) ==>
                  Makes(partitions[i], x) || Real(g.realName, x) in Alive(v, sigs, init, i))
            && (forall o :: o in g.outputs && IsTracked(g, o) ==>
                  Real(g.realName, o) in Alive(v, sigs, init, |partitions|))
  {
    var v, sigs := ViewOf(g), SignaturesOf(g, partitions, skips);
    forall i, x | 0 <= i < |partitions| && Touches(partitions[i], x) && !Hidden(g, x) && IsTracked(g, x)
      ensures Makes(partitions[i], x) || Real(g.realName, x) in Alive(v, sigs, init, i)
    {
      if !Makes(partitions[i], x) { AccessIsAlive(g, partitions, skips, init, i, x); }
    }
    ScheduledIsWellFormed(g, partitions, init);
    SignaturesAreSafe(v, MergeAll(partitions), skips, init);
    forall o | o in g.outputs && IsTracked(g, o) ensures o in Tracked(v) { FlowTracks(g, partitions, o); }
  }
}
