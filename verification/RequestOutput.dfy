/**
 `RequestOutput.add` (vllm/outputs.py): later outputs of a request are merged into an earlier
 one, in place. The value of a request output is what its fields and its completions hold.
 */
module RequestOutput {
  import opened Wrappers
  import opened FlatLogprobs
  import opened OutputMerge
  import opened OutputNesting

  type Params = map<string, string>

  datatype Output = Output(finished: bool, kvTransferParams: Option<Params>, outputs: seq<Completion>)

  /** Merging on values; none when an assertion fails. */
  function Add(a: Output, b: Output, aggregate: bool): Option<Output> {
    var m := AddAll(a.outputs, b.outputs, aggregate);
    if m.ok then Some(Output(a.finished || b.finished, b.kvTransferParams, m.value)) else None
  }

  // ---------------------------------------------------------------------------------
  // Streams.

  function Run(first: Output, deltas: seq<Output>, aggregate: bool): Option<Output> {
    if deltas == [] then Some(first)
    else
      var before := Run(first, deltas[..|deltas| - 1], aggregate);
      if before.None? then None else Add(before.value, Last(deltas), aggregate)
  }

  /** Every completion of the later outputs, in order of arrival. */
  function Arrivals(deltas: seq<Output>): seq<Completion> {
    if deltas == [] then [] else Arrivals(deltas[..|deltas| - 1]) + Last(deltas).outputs
  }

  lemma {:induction false} RunMergesArrivals(first: Output, deltas: seq<Output>, aggregate: bool)
    ensures var m, r := AddAll(first.outputs, Arrivals(deltas), aggregate), Run(first, deltas, aggregate);
            (r.Some? <==> m.ok) && (r.Some? ==> r.value.outputs == m.value)
  {
    if deltas != [] {
      var before := deltas[..|deltas| - 1];
      RunMergesArrivals(first, before, aggregate);
      AddAppended(first.outputs, Arrivals(before), Last(deltas).outputs, aggregate);
    }
  }

  lemma {:induction false} RunClosingFields(first: Output, deltas: seq<Output>, aggregate: bool)
    requires Run(first, deltas, aggregate).Some?
    ensures var r := Run(first, deltas, aggregate).value;
            && (r.finished <==> first.finished || exists i :: 0 <= i < |deltas| && deltas[i].finished)
            && r.kvTransferParams == (if deltas == [] then first else Last(deltas)).kvTransferParams
  {
    if deltas != [] {
      var n := |deltas| - 1;
      RunClosingFields(first, deltas[..n], aggregate);
      if i :| 0 <= i < |deltas| && deltas[i].finished {
        assert i < n ==> deltas[..n][i].finished;
      }
    }
  }

  /** Folding `add`: with aggregation each output is the concatenation of its group, without it the latest of
      its group (`GroupsAre` says what the groups are); an assertion fails exactly when, with aggregation,
      some group begins without log probabilities and goes on with some. */
  lemma StreamOfOutputs(first: Output, deltas: seq<Output>, aggregate: bool)
    ensures var g, r := Groups(first.outputs, Arrivals(deltas)), Run(first, deltas, aggregate);
            && (r.Some? <==> (aggregate ==> AllFine(g)))
            && (r.Some? ==>
                  && r.value.outputs == CombineAll(g, aggregate)
                  && (r.value.finished <==> first.finished || exists i :: 0 <= i < |deltas| && deltas[i].finished)
                  && r.value.kvTransferParams == (if deltas == [] then first else Last(deltas)).kvTransferParams)
  {
    RunMergesArrivals(first, deltas, aggregate);
    StreamCombinesGroups(first.outputs, Arrivals(deltas), aggregate);
    if Run(first, deltas, aggregate).Some? { RunClosingFields(first, deltas, aggregate); }
  }

  // ---------------------------------------------------------------------------------
  // Grouping.

  function AddLeft(a: Output, b: Output, c: Output): Option<Output> {
    var ab := Add(a, b, true);
    if ab.None? then None else Add(ab.value, c, true)
  }

  function AddRight(a: Output, b: Output, c: Output): Option<Output> {
    var bc := Add(b, c, true);
    if bc.None? then None else Add(a, bc.value, true)
  }

  lemma LeftCombines(a: Output, b: Output, c: Output)
    ensures var g := Groups(a.outputs, b.outputs + c.outputs);
            && (AddLeft(a, b, c).Some? <==> AllFine(g))
            && (AddLeft(a, b, c).Some? ==> AddLeft(a, b, c).value.outputs == CombineAll(g, true))
  {
    AddAppended(a.outputs, b.outputs, c.outputs, true);
    StreamCombinesGroups(a.outputs, b.outputs + c.outputs, true);
  }

  lemma RightCombines(a: Output, b: Output, c: Output)
    requires AllFine(Groups(b.outputs, c.outputs))
    ensures var g := Groups(a.outputs, b.outputs + c.outputs);
            && (AddRight(a, b, c).Some? <==> AllFine(g))
            && (AddRight(a, b, c).Some? ==>
                  (AddRight(a, b, c).value.outputs == CombineAll(g, true) <==> Swappable(b.outputs, c.outputs)))
  {
    StreamCombinesGroups(b.outputs, c.outputs, true);
    StreamCombinesGroups(a.outputs, Both(b.outputs, c.outputs), true);
    NestedGroups(a.outputs, b.outputs, c.outputs);
  }

  /** `add` is associative exactly when the later two outputs can be merged and swapped, or all three cannot
      be merged. */
  lemma Associative(a: Output, b: Output, c: Output)
    ensures AddLeft(a, b, c) == AddRight(a, b, c) <==>
            || !AllFine(Groups(a.outputs, b.outputs + c.outputs))
            || (AllFine(Groups(b.outputs, c.outputs)) && Swappable(b.outputs, c.outputs))
  {
    StreamCombinesGroups(b.outputs, c.outputs, true);
    LeftCombines(a, b, c);
    if AllFine(Groups(b.outputs, c.outputs)) { RightCombines(a, b, c); }
  }

  /** Uniform log probabilities make every grouping succeed, with the same outcome if no index is repeated in
      the second output. */
  lemma UniformIsAssociative(a: Output, b: Output, c: Output)
    requires var all := a.outputs + (b.outputs + c.outputs);
             (forall x :: x in all ==> x.logprobs.Some?) || (forall x :: x in all ==> x.logprobs.None?)
    ensures AddLeft(a, b, c).Some? && AddRight(a, b, c).Some?
    ensures AddLeft(a, b, c) == AddRight(a, b, c) <==> Swappable(b.outputs, c.outputs)
    ensures DistinctIndices(b.outputs) ==> AddLeft(a, b, c) == AddRight(a, b, c)
  {
    UniformStreamIsFine(a.outputs, b.outputs + c.outputs);
    UniformStreamIsFine(b.outputs, c.outputs);
    LeftCombines(a, b, c);
    RightCombines(a, b, c);
    Associative(a, b, c);
    if DistinctIndices(b.outputs) { DistinctIsSwappable(b.outputs, c.outputs); }
  }

  /** Mixed log probabilities: merging one by one succeeds, merging the later two first fails. */
  lemma MixedLogprobs(a: Output, b: Output, c: Output)
    requires a == Output(false, None, [Completion(0, "a", [1], None, Some([map[]]), None, None)])
    requires b == Output(false, None, [Completion(0, "b", [2], None, None, None, None)])
    requires c == Output(true, None, [Completion(0, "c", [3], None, Some([map[]]), None, None)])
    ensures AddLeft(a, b, c).Some? && AddRight(a, b, c).None?
  {
    AddSingle(b.outputs, c.outputs[0]);
    AddSingle(a.outputs, b.outputs[0]);
    AddSingle(Add(a, b, true).value.outputs, c.outputs[0]);
  }

  function Text(s: string): Completion {
    Completion(0, s, [], None, None, None, None)
  }

  lemma AddText(s: string, t: string, rest: seq<Completion>)
    ensures AddOne([], Text(s), true) == Merged([Text(s)], true)
    ensures AddOne([Text(s)] + rest, Text(t), true) == Merged([Text(s + t)] + rest, true)
  {
    var outs := [Text(s)] + rest;
    assert Find(outs, 0) == 0;
    assert [] + [Text(s)] == [Text(s)] && Text(s).tokenIds + Text(t).tokenIds == [];
    assert MergeInto(Text(s), Text(t)) == Merged(Text(s + t), true);
    assert outs[0 := Text(s + t)] == [Text(s + t)] + rest;
  }

  /** A repeated index: merged one by one the texts arrive in order, merged from the right they do not. */
  lemma RepeatedIndexReorders(a: Output, b: Output, c: Output, x: string, y: string, z: string)
    requires a.outputs == [] && b.outputs == [Text(x), Text(y)] && c.outputs == [Text(z)]
    ensures AddLeft(a, b, c).Some? && AddLeft(a, b, c).value.outputs == [Text(x + y + z)]
    ensures AddRight(a, b, c).Some? && AddRight(a, b, c).value.outputs == [Text(x + z + y)]
  {
    assert [Text(x)] + [] == [Text(x)] && [Text(x + y)] + [] == [Text(x + y)] && [Text(x + z)] + [] == [Text(x + z)];
    AddPair([], Text(x), Text(y));
    AddText(x, y, []);
    AddSingle([Text(x + y)], Text(z));
    AddText(x + y, z, []);
    assert [Text(x)] + [Text(y)] == b.outputs;
    AddSingle(b.outputs, Text(z));
    AddText(x, z, [Text(y)]);
    assert [Text(x + z)] + [Text(y)] == [Text(x + z), Text(y)];
    AddPair([], Text(x + z), Text(y));
    AddText(x + z, y, []);
  }

  lemma AddSingle(outs: seq<Completion>, c: Completion)
    ensures AddAll(outs, [c], true) == AddOne(outs, c, true)
  {
    assert [c][..|[c]| - 1] == [];
    assert AddAll(outs, [], true) == Merged(outs, true);
  }

  lemma AddPair(outs: seq<Completion>, c: Completion, d: Completion)
    ensures var m := AddOne(outs, c, true);
            AddAll(outs, [c, d], true) == if m.ok then AddOne(m.value, d, true) else m
  {
    assert [c, d][..|[c, d]| - 1] == [c];
    AddSingle(outs, c);
  }

  // ---------------------------------------------------------------------------------
  // In place.

  class CompletionOutput {
    const index: int
    var text: string
    var tokenIds: seq<int>
    var cumulativeLogprob: Option<real>
    var logprobs: Option<seq<Dict>>
    var finishReason: Option<string>
    var stopReason: Option<StopReason>

    ghost function Value(): Completion
      reads this
    {
      Completion(index, text, tokenIds, cumulativeLogprob, logprobs, finishReason, stopReason)
    }

    /** Merges a completion with the same index, which may be the same object; an assertion may fail halfway. */
    method Merge(next: CompletionOutput) returns (ok: bool)
      modifies this
      ensures Merged(Value(), ok) == MergeInto(old(Value()), old(next.Value()))
    {
      text := text + next.text;
      tokenIds := tokenIds + next.tokenIds;
      if next.logprobs.Some? && next.logprobs.value != [] {
        if logprobs.None? { return false; }
        logprobs := Some(logprobs.value + next.logprobs.value);
      }
      cumulativeLogprob := next.cumulativeLogprob;
      finishReason := next.finishReason;
      stopReason := next.stopReason;
      ok := true;
    }
  }

  /** What the objects hold. */
  type Contents = map<CompletionOutput, Completion>

  /** A list of objects, what they and others hold, and whether the merging got through. */
  datatype Store = Store(outputs: seq<CompletionOutput>, contents: Contents, ok: bool)

  ghost function ValuesIn(s: seq<CompletionOutput>, contents: Contents): seq<Completion>
    requires forall c :: c in s ==> c in contents
  {
    seq(|s|, i requires 0 <= i < |s| => contents[s[i]])
  }

  /** Merging an object into a list of objects, whichever of them are shared. */
  ghost function StoreOne(s: Store, next: CompletionOutput, aggregate: bool): (r: Store)
    requires next in s.contents && forall c :: c in s.outputs ==> c in s.contents
    ensures r.contents.Keys == s.contents.Keys && forall c :: c in r.outputs ==> c in r.contents
  {
    var p := Find(ValuesIn(s.outputs, s.contents), s.contents[next].index);
    if p == |s.outputs| then Store(s.outputs + [next], s.contents, true)
    else if !aggregate then Store(s.outputs[p := next], s.contents, true)
    else
      var m := MergeInto(s.contents[s.outputs[p]], s.contents[next]);
      Store(s.outputs, s.contents[s.outputs[p] := m.value], m.ok)
  }

  ghost function StoreAll(s: Store, nexts: seq<CompletionOutput>, aggregate: bool): (r: Store)
    requires s.ok && forall c :: c in s.outputs + nexts ==> c in s.contents
    ensures r.contents.Keys == s.contents.Keys && forall c :: c in r.outputs ==> c in r.contents
  {
    if nexts == [] then s
    else
      var before := StoreAll(s, nexts[..|nexts| - 1], aggregate);
      if !before.ok then before else StoreOne(before, nexts[|nexts| - 1], aggregate)
  }

  lemma StoreStep(s: Store, nexts: seq<CompletionOutput>, i: nat, next: nat, aggregate: bool)
    requires s.ok && (forall c :: c in s.outputs + nexts ==> c in s.contents) && i < next == i + 1 <= |nexts|
    requires StoreAll(s, nexts[..i], aggregate).ok
    ensures StoreAll(s, nexts[..next], aggregate) == StoreOne(StoreAll(s, nexts[..i], aggregate), nexts[i], aggregate)
  {
    assert nexts[..next][..|nexts[..next]| - 1] == nexts[..i];
  }

  lemma {:induction false} StoreStops(s: Store, nexts: seq<CompletionOutput>, i: nat, aggregate: bool)
    requires s.ok && (forall c :: c in s.outputs + nexts ==> c in s.contents) && i <= |nexts|
    requires !StoreAll(s, nexts[..i], aggregate).ok
    ensures StoreAll(s, nexts, aggregate) == StoreAll(s, nexts[..i], aggregate)
  {
    if i == |nexts| {
      assert nexts[..i] == nexts;
    } else {
      var shorter := nexts[..|nexts| - 1];
      assert shorter[..i] == nexts[..i];
      StoreStops(s, shorter, i, aggregate);
    }
  }

  ghost predicate NoSharing(s: seq<CompletionOutput>) {
    forall i, j :: 0 <= i < j < |s| ==> s[i] != s[j]
  }

  lemma OneIsValue(s: Store, next: CompletionOutput, aggregate: bool)
    requires s.ok && next in s.contents && forall c :: c in s.outputs ==> c in s.contents
    requires NoSharing(s.outputs) && next !in s.outputs
    ensures var r := StoreOne(s, next, aggregate);
            && Merged(ValuesIn(r.outputs, r.contents), r.ok)
               == AddOne(ValuesIn(s.outputs, s.contents), s.contents[next], aggregate)
            && NoSharing(r.outputs)
            && (forall c :: c in r.outputs ==> c in s.outputs || c == next)
            && (forall c :: c in s.contents && c !in s.outputs ==> r.contents[c] == s.contents[c])
  {
    var r, was := StoreOne(s, next, aggregate), ValuesIn(s.outputs, s.contents);
    var p := Find(was, s.contents[next].index);
    if p == |s.outputs| {
      assert ValuesIn(r.outputs, r.contents) == was + [s.contents[next]];
    } else if !aggregate {
      assert ValuesIn(r.outputs, r.contents) == was[p := s.contents[next]];
    } else {
      var m := MergeInto(was[p], s.contents[next]);
      assert ValuesIn(r.outputs, r.contents) == was[p := m.value];
    }
  }

  ghost predicate Unshared(outputs: seq<CompletionOutput>, nexts: seq<CompletionOutput>) {
    NoSharing(outputs) && NoSharing(nexts) && forall k :: 0 <= k < |nexts| ==> nexts[k] !in outputs
  }

  /** When no object occurs twice, merging objects is merging what they hold. */
  lemma {:induction false} UnsharedIsValue(s: Store, nexts: seq<CompletionOutput>, aggregate: bool)
    requires s.ok && (forall c :: c in s.outputs + nexts ==> c in s.contents) && Unshared(s.outputs, nexts)
    ensures var r := StoreAll(s, nexts, aggregate);
            && Merged(ValuesIn(r.outputs, r.contents), r.ok)
               == AddAll(ValuesIn(s.outputs, s.contents), ValuesIn(nexts, s.contents), aggregate)
            && NoSharing(r.outputs)
            && (forall c :: c in r.outputs ==> c in s.outputs || c in nexts)
            && (forall c :: c in s.contents && c !in s.outputs && c !in nexts ==> r.contents[c] == s.contents[c])
  {
    if nexts != [] {
      var n := |nexts| - 1;
      var before, next := nexts[..n], nexts[n];
      UnsharedIsValue(s, before, aggregate);
      var b := StoreAll(s, before, aggregate);
      assert next !in before && next !in b.outputs;
      assert ValuesIn(nexts, s.contents)[..n] == ValuesIn(before, s.contents);
      if b.ok { OneIsValue(b, next, aggregate); }
    }
  }

  ghost function Objects(s: seq<CompletionOutput>): set<CompletionOutput> {
    set c | c in s
  }

  /** What the objects hold now. */
  ghost function Snapshot(s: set<CompletionOutput>): Contents
    reads s
  {
    map c | c in s :: c.Value()
  }

  class RequestOutput {
    var finished: bool
    var kvTransferParams: Option<Params>
    var outputs: seq<CompletionOutput>

    /** The body of the outer loop: merges one completion into the first one with its index, replaces that one,
        or appends it.  `all` holds the objects that may occur. */
    method AddCompletion(next: CompletionOutput, aggregate: bool, ghost all: set<CompletionOutput>) returns (ok: bool)
      requires next in all && forall c :: c in outputs ==> c in all
      modifies this`outputs, all
      ensures forall c :: c in outputs ==> c in all
      ensures Store(outputs, Snapshot(all), ok) == StoreOne(Store(old(outputs), old(Snapshot(all)), true), next, aggregate)
    {
      ghost var contents := Snapshot(all);
      ghost var was := ValuesIn(outputs, contents);
      for i := 0 to |outputs|
        invariant outputs == old(outputs) && Snapshot(all) == contents
        invariant forall k :: 0 <= k < i ==> was[k].index != next.index
      {
        if outputs[i].index == next.index {
          FindIsFirst(was, next.index, i);
          if aggregate {
            var completion := outputs[i];
            assert completion in all;
            ok := completion.Merge(next);
            assert Snapshot(all) == contents[completion := completion.Value()];
          } else {
            outputs := outputs[i := next];
            ok := true;
          }
          return;
        }
      }
      FindIsFirst(was, next.index, |was|);
      outputs := outputs + [next];
      ok := true;
    }

    /** The outer loop. */
    method AddEach(nexts: seq<CompletionOutput>, aggregate: bool, ghost all: set<CompletionOutput>) returns (ok: bool)
      requires all == Objects(outputs + nexts)
      modifies this`outputs, all
      ensures Store(outputs, Snapshot(all), ok) == StoreAll(Store(old(outputs), old(Snapshot(all)), true), nexts, aggregate)
    {
      ghost var s := Store(outputs, Snapshot(all), true);
      ok := true;
      var i := 0;
      while i < |nexts|
        invariant 0 <= i <= |nexts| && ok
        invariant forall c :: c in outputs ==> c in all
        invariant Store(outputs, Snapshot(all), true) == StoreAll(s, nexts[..i], aggregate)
      {
        var next := i + 1;
        assert nexts[i] in all;
        ok := AddCompletion(nexts[i], aggregate, all);
        StoreStep(s, nexts, i, next, aggregate);
        if !ok {
          StoreStops(s, nexts, next, aggregate);
          return;
        }
        i := next;
      }
      assert nexts[..i] == nexts;
    }

    /** Merges a later output, which may share completions with this one; an assertion may fail halfway. */
    method AddOutput(nextOutput: RequestOutput, aggregate: bool) returns (ok: bool)
      modifies this, outputs, nextOutput.outputs
      ensures finished == (old(finished) || old(nextOutput.finished))
      ensures kvTransferParams == old(nextOutput.kvTransferParams)
      ensures var all := Objects(old(outputs) + old(nextOutput.outputs));
              Store(outputs, Snapshot(all), ok)
              == StoreAll(Store(old(outputs), old(Snapshot(all)), true), old(nextOutput.outputs), aggregate)
      ensures var all := Objects(old(outputs) + old(nextOutput.outputs));
              old(Unshared(outputs, nextOutput.outputs)) ==>
                && (forall c :: c in outputs ==> c in all)
                && Merged(ValuesIn(outputs, Snapshot(all)), ok)
                   == AddAll(old(ValuesIn(outputs, Snapshot(all))), old(ValuesIn(nextOutput.outputs, Snapshot(all))), aggregate)
    {
      finished := finished || nextOutput.finished;
      kvTransferParams := nextOutput.kvTransferParams;
      ghost var all := Objects(outputs + nextOutput.outputs);
      assert Snapshot(all) == old(Snapshot(all));
      ghost var mine, nexts, s := outputs, nextOutput.outputs, Store(outputs, Snapshot(all), true);
      ok := AddEach(nextOutput.outputs, aggregate, all);
      if Unshared(mine, nexts) { UnsharedIsValue(s, nexts, aggregate); }
    }
  }
}
