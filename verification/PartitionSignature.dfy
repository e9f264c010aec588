/**
 Signatures of compiled graph partitions (vllm/env_override.py).

 A backward pass over the partitions decides, for each one, which buffers it takes as
 inputs, which of those it frees, and which buffers it returns.  Running the signatures
 forward is the subject of `PartitionRun`.
 */
module PartitionSignature {
  import opened Wrappers

  datatype Name = Name(text: string)

  /** A scheduler node: the buffers it defines, touches, and uses for the last time. */
  datatype Node = Node(outputs: set<Name>, readNames: set<Name>, writeNames: set<Name>, lastUsage: set<Name>)

  /** The merged dependencies of the nodes of one partition. */
  datatype Partition = Partition(outs: set<Name>, touched: set<Name>, freed: set<Name>)

  datatype Buf = Buf(noneLayout: bool, mutationOutput: bool)

  /** What the pass reads from the scheduler and the graph.  `nodes` is the key set of
      `name_to_node`: the graph inputs and the outputs of all scheduler nodes. */
  datatype Graph = Graph(
    nodes: set<Name>,
    bufs: map<Name, Buf>,
    realName: map<Name, Name>,
    outputs: set<Name>,
    constants: set<Name>)

  datatype Signature = Signature(
    inputNodes: set<Name>,
    outputNodes: set<Name>,
    inputDeallocation: map<Name, bool>,
    skipCudagraph: bool,
    constantNames: set<Name>)

  datatype Error = KeyError

  function Real(realName: map<Name, Name>, n: Name): Name {
    if n in realName then realName[n] else n
  }

  /** The renaming of mutation outputs leads to a real buffer in one step. */
  ghost predicate Idempotent(realName: map<Name, Name>) {
    forall n :: n in realName ==> realName[n] !in realName
  }

  predicate IsNoneLayout(g: Graph, n: Name)
    requires Idempotent(g.realName)
    decreases if n in g.realName then 1 else 0
  {
    && n in g.bufs
    && g.bufs[n].noneLayout
    && if g.bufs[n].mutationOutput && n in g.realName && Real(g.realName, n).text != ""
       then IsNoneLayout(g, Real(g.realName, n))
       else true
  }

  /** A graph with the layout question answered for every buffer. */
  datatype View = View(
    nodes: set<Name>,
    realName: map<Name, Name>,
    hidden: set<Name>,
    outputs: set<Name>,
    constants: set<Name>)

  function ViewOf(g: Graph): View
    requires Idempotent(g.realName)
  {
    View(g.nodes, g.realName, (set n | n in g.bufs.Keys && IsNoneLayout(g, n)), g.outputs, g.constants)
  }

  // ---------------------------------------------------------------------------------
  // What the pass computes, partition by partition.

  ghost function Merge(nodes: seq<Node>): Partition {
    Partition(
      set node, n | node in nodes && n in node.outputs :: n,
      set node, n | node in nodes && n in node.readNames + node.writeNames :: n,
      set node, n | node in nodes && n in node.lastUsage :: n)
  }

  ghost function MergeAll(partitions: seq<seq<Node>>): seq<Partition> {
    seq(|partitions|, i requires 0 <= i < |partitions| => Merge(partitions[i]))
  }

  /** The real names of a set of names; `ImageIsComprehension` gives its meaning. */
  ghost function Image(realName: map<Name, Name>, s: set<Name>): set<Name> {
    if s == {} then {} else var x :| x in s; Image(realName, s - {x}) + {Real(realName, x)}
  }

  lemma {:induction false} ImageIsComprehension(realName: map<Name, Name>, s: set<Name>)
    ensures Image(realName, s) == set n | n in s :: Real(realName, n)
  {
    if s != {} {
      var x :| x in s && Image(realName, s) == Image(realName, s - {x}) + {Real(realName, x)};
      ImageIsComprehension(realName, s - {x});
    }
  }

  ghost function Inputs(v: View, p: Partition): set<Name> {
    Image(v.realName, p.touched - v.hidden - p.outs) + (p.freed - p.outs) * v.nodes
  }

  ghost function ExtraOutputs(v: View, p: Partition): set<Name> {
    Inputs(v, p) * v.nodes - p.freed
  }

  ghost function Returned(v: View, p: Partition, unmet: set<Name>): set<Name> {
    Image(v.realName, p.outs * unmet + ExtraOutputs(v, p))
  }

  ghost function SignatureOf(v: View, p: Partition, unmet: set<Name>, skip: bool): Signature {
    Signature(
      Inputs(v, p) * v.nodes,
      Returned(v, p, unmet) - v.hidden,
      map n | n in Inputs(v, p) * v.nodes :: n in p.freed,
      skip,
      Inputs(v, p) * v.constants)
  }

  /** The value of `unmet_output_names` once partitions `i..` have been processed. */
  ghost function Unmet(v: View, ps: seq<Partition>, i: nat): set<Name>
    requires i <= |ps|
    decreases |ps| - i
  {
    if i == |ps| then v.outputs
    else
      var rest := Unmet(v, ps, i + 1);
      Inputs(v, ps[i]) + (rest - Returned(v, ps[i], rest))
  }

  /** How many partitions get a signature: the two lists are zipped from their ends. */
  function Zipped<T>(partitions: seq<T>, skipCudagraphs: seq<bool>): nat {
    if |partitions| <= |skipCudagraphs| then |partitions| else |skipCudagraphs|
  }

  ghost function SignatureFor(v: View, ps: seq<Partition>, skips: seq<bool>, i: nat): Signature
    requires |ps| - Zipped(ps, skips) <= i < |ps|
  {
    SignatureOf(v, ps[i], Unmet(v, ps, i + 1), skips[|skips| - |ps| + i])
  }

  /** The signatures of partitions `i..`. */
  ghost function Signatures(v: View, ps: seq<Partition>, skips: seq<bool>, i: nat): (sigs: seq<Signature>)
    requires |ps| - Zipped(ps, skips) <= i <= |ps|
    ensures |sigs| == |ps| - i
  {
    seq(|ps| - i, k requires 0 <= k < |ps| - i => SignatureFor(v, ps, skips, i + k))
  }

  /** Partitions `i..` return only names that have a node: looking them up raises no `KeyError`. */
  ghost predicate AllKnown(v: View, ps: seq<Partition>, i: nat)
    requires i <= |ps|
    decreases |ps| - i
  {
    i < |ps| ==> Returned(v, ps[i], Unmet(v, ps, i + 1)) - v.hidden <= v.nodes && AllKnown(v, ps, i + 1)
  }

  lemma SignaturesStep(v: View, ps: seq<Partition>, skips: seq<bool>, i: nat, next: nat)
    requires |ps| - Zipped(ps, skips) <= i < next == i + 1 <= |ps|
    ensures Signatures(v, ps, skips, i) == [SignatureFor(v, ps, skips, i)] + Signatures(v, ps, skips, next)
  {
  }

  // ---------------------------------------------------------------------------------
  // The pass itself.

  method MergeNodes(nodes: seq<Node>) returns (p: Partition)
    ensures p == Merge(nodes)
  {
    var outs, touched, freed := {}, {}, {};
    for i := 0 to |nodes|
      invariant Partition(outs, touched, freed) == Merge(nodes[..i])
    {
      assert nodes[..i + 1] == nodes[..i] + [nodes[i]];
      outs := outs + nodes[i].outputs;
      touched := touched + (nodes[i].readNames + nodes[i].writeNames);
      freed := freed + nodes[i].lastUsage;
    }
    assert nodes[..|nodes|] == nodes;
    p := Partition(outs, touched, freed);
  }

  /** One iteration of the backward loop: from the state after partitions `next..` to that after `i..`. */
  method SignPartition(v: View, ghost ps: seq<Partition>, ghost skips: seq<bool>, ghost i: nat, ghost next: nat,
                       p: Partition, skip: bool, unmet: set<Name>)
    returns (sig: Signature, unmet': set<Name>)
    requires |ps| - Zipped(ps, skips) <= i < next == i + 1 <= |ps|
    requires p == ps[i] && skip == skips[|skips| - |ps| + i] && unmet == Unmet(v, ps, next)
    ensures sig == SignatureFor(v, ps, skips, i)
    ensures AllKnown(v, ps, i) <==> sig.outputNodes <= v.nodes && AllKnown(v, ps, next)
    ensures unmet' == Unmet(v, ps, i)
  {
    assert unmet == Unmet(v, ps, i + 1);
    var inputs := set n | n in p.touched - v.hidden - p.outs :: Real(v.realName, n);
    inputs := inputs + (p.freed - p.outs) * v.nodes;
    assert inputs == Inputs(v, p) by { ImageIsComprehension(v.realName, p.touched - v.hidden - p.outs); }
    var extra := inputs * v.nodes - p.freed;
    var returned := set n | n in p.outs * unmet + extra :: Real(v.realName, n);
    assert returned == Returned(v, p, unmet) by { ImageIsComprehension(v.realName, p.outs * unmet + extra); }
    unmet' := inputs + (unmet - returned);
    sig := Signature(
      inputs * v.nodes,
      returned - v.hidden,
      map n | n in inputs * v.nodes :: n in p.freed,
      skip,
      inputs * v.constants);
  }

  method GetGraphPartitionSignature(g: Graph, partitions: seq<seq<Node>>, skipCudagraphs: seq<bool>)
    returns (r: Result<seq<Signature>, Error>)
    requires Idempotent(g.realName)
    ensures var first := |partitions| - Zipped(partitions, skipCudagraphs);
            && (r.Success? <==> AllKnown(ViewOf(g), MergeAll(partitions), first))
            && (r.Success? ==> r.value == Signatures(ViewOf(g), MergeAll(partitions), skipCudagraphs, first))
  {
    var v := ViewOf(g);
    ghost var ps := MergeAll(partitions);
    var first := |partitions| - Zipped(partitions, skipCudagraphs);
    var signatures: seq<Signature> := [];
    var unmet := v.outputs;
    var i := |partitions|;
    while i > first
      invariant first <= i <= |partitions|
      invariant unmet == Unmet(v, ps, i)
      invariant signatures == Signatures(v, ps, skipCudagraphs, i)
      invariant AllKnown(v, ps, i)
    {
      ghost var next := i;
      i := i - 1;
      var p := MergeNodes(partitions[i]);
      var skip := skipCudagraphs[|skipCudagraphs| - |partitions| + i];
      var sig, unmet' := SignPartition(v, ps, skipCudagraphs, i, next, p, skip, unmet);
      if !(sig.outputNodes <= v.nodes) {
        if AllKnown(v, ps, first) { KnownLater(v, ps, first, i); }
        return Failure(KeyError);
      }
      SignaturesStep(v, ps, skipCudagraphs, i, next);
      signatures := [sig] + signatures;
      unmet := unmet';
    }
    r := Success(signatures);
  }

  lemma {:induction false} KnownLater(v: View, ps: seq<Partition>, i: nat, j: nat)
    requires i <= j <= |ps| && AllKnown(v, ps, i)
    ensures AllKnown(v, ps, j)
    decreases j - i
  {
    if i < j { KnownLater(v, ps, i + 1, j); }
  }
}
