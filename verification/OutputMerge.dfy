/**
 Merging streamed outputs of a request, on values (vllm/outputs.py): one completion after
 another into a list of completions, and the per-index concatenation that a whole stream of
 merges amounts to.
 */
module OutputMerge {
  import opened Wrappers
  import opened FlatLogprobs

  datatype StopReason = StopToken(id: int) | StopText(text: string)

  datatype Completion = Completion(
    index: int,
    text: string,
    tokenIds: seq<int>,
    cumulativeLogprob: Option<real>,
    logprobs: Option<seq<Dict>>,
    finishReason: Option<string>,
    stopReason: Option<StopReason>)

  /** What a merge leaves behind, and whether it got through; an assertion may fail halfway. */
  datatype Merged<T> = Merged(value: T, ok: bool)

  function PositionsOf(c: Completion): seq<Dict> {
    if c.logprobs.None? then [] else c.logprobs.value
  }

  function MergeInto(c: Completion, next: Completion): Merged<Completion> {
    var longer := c.(text := c.text + next.text, tokenIds := c.tokenIds + next.tokenIds);
    if PositionsOf(next) != [] && c.logprobs.None? then Merged(longer, false)
    else
      Merged(longer.(
        logprobs := if PositionsOf(next) != [] then Some(c.logprobs.value + next.logprobs.value) else c.logprobs,
        cumulativeLogprob := next.cumulativeLogprob,
        finishReason := next.finishReason,
        stopReason := next.stopReason), true)
  }

  /** The first position with the index; the length when there is none. */
  function Find(outs: seq<Completion>, index: int): (p: nat)
    ensures p <= |outs|
    ensures p < |outs| ==> outs[p].index == index
    ensures forall i :: 0 <= i < p ==> outs[i].index != index
  {
    if outs == [] then 0
    else if outs[0].index == index then 0
    else
      assert forall i :: 1 <= i < |outs| ==> outs[i] == outs[1..][i - 1];
      1 + Find(outs[1..], index)
  }

  /** Merging with aggregation, or replacing without. */
  function Update(c: Completion, next: Completion, aggregate: bool): Merged<Completion> {
    if aggregate then MergeInto(c, next) else Merged(next, true)
  }

  function AddOne(outs: seq<Completion>, next: Completion, aggregate: bool): Merged<seq<Completion>> {
    var p := Find(outs, next.index);
    if p == |outs| then Merged(outs + [next], true)
    else var m := Update(outs[p], next, aggregate); Merged(outs[p := m.value], m.ok)
  }

  function AddAll(outs: seq<Completion>, nexts: seq<Completion>, aggregate: bool): Merged<seq<Completion>> {
    if nexts == [] then Merged(outs, true)
    else
      var before := AddAll(outs, nexts[..|nexts| - 1], aggregate);
      if !before.ok then before else AddOne(before.value, nexts[|nexts| - 1], aggregate)
  }

  lemma FindIsFirst(outs: seq<Completion>, index: int, p: nat)
    requires p <= |outs| && (forall k :: 0 <= k < p ==> outs[k].index != index)
    requires p < |outs| ==> outs[p].index == index
    ensures Find(outs, index) == p
  {
  }

  lemma FindByIndices(a: seq<Completion>, b: seq<Completion>, index: int)
    requires |a| == |b| && forall i :: 0 <= i < |a| ==> a[i].index == b[i].index
    ensures Find(a, index) == Find(b, index)
  {
    FindIsFirst(b, index, Find(a, index));
  }

  // ---------------------------------------------------------------------------------
  // What completions that belong together amount to.

  function Last<T>(s: seq<T>): T
    requires s != []
  {
    s[|s| - 1]
  }

  function Concat<T>(part: Completion -> seq<T>, cs: seq<Completion>): seq<T> {
    if cs == [] then [] else Concat(part, cs[..|cs| - 1]) + part(Last(cs))
  }

  function TextOf(c: Completion): string { c.text }

  function TokensOf(c: Completion): seq<int> { c.tokenIds }

  function Texts(cs: seq<Completion>): string { Concat(TextOf, cs) }

  function Tokens(cs: seq<Completion>): seq<int> { Concat(TokensOf, cs) }

  function Positions(cs: seq<Completion>): seq<Dict> { Concat(PositionsOf, cs) }

  /** Everything concatenated in order of arrival, with the closing fields of the last one. */
  function Joined(cs: seq<Completion>): Completion
    requires cs != []
  {
    Completion(cs[0].index, Texts(cs), Tokens(cs), Last(cs).cumulativeLogprob,
               if cs[0].logprobs.None? then None else Some(Positions(cs)),
               Last(cs).finishReason, Last(cs).stopReason)
  }

  /** The first one carries log probabilities, or none does. */
  predicate Fine(cs: seq<Completion>) {
    cs == [] || cs[0].logprobs.Some? || Positions(cs) == []
  }

  function Combine(cs: seq<Completion>, aggregate: bool): Completion
    requires cs != []
  {
    if aggregate then Joined(cs) else Last(cs)
  }

  lemma ConcatSnoc<T>(part: Completion -> seq<T>, cs: seq<Completion>, c: Completion)
    ensures Concat(part, cs + [c]) == Concat(part, cs) + part(c)
  {
    assert (cs + [c])[..|cs + [c]| - 1] == cs && Last(cs + [c]) == c;
  }

  lemma ConcatSingle<T>(part: Completion -> seq<T>, c: Completion)
    ensures Concat(part, [c]) == part(c)
  {
    ConcatSnoc(part, [], c);
    assert [] + [c] == [c];
    assert Concat(part, []) + part(c) == part(c);
  }

  lemma JoinSingle(c: Completion)
    ensures Joined([c]) == c && Positions([c]) == PositionsOf(c) && Fine([c])
  {
    ConcatSingle(TextOf, c);
    ConcatSingle(TokensOf, c);
    ConcatSingle(PositionsOf, c);
  }

  /** Joining one more is merging it. */
  lemma JoinOne(cs: seq<Completion>, next: Completion)
    requires cs != [] && Fine(cs)
    ensures MergeInto(Joined(cs), next).ok <==> Fine(cs + [next])
    ensures Fine(cs + [next]) ==> MergeInto(Joined(cs), next).value == Joined(cs + [next])
  {
    ConcatSnoc(TextOf, cs, next);
    ConcatSnoc(TokensOf, cs, next);
    ConcatSnoc(PositionsOf, cs, next);
    if PositionsOf(next) == [] { assert Positions(cs) + [] == Positions(cs); }
  }

  lemma CombineOne(cs: seq<Completion>, next: Completion, aggregate: bool)
    requires cs != [] && (aggregate ==> Fine(cs))
    ensures Update(Combine(cs, aggregate), next, aggregate).ok <==> (aggregate ==> Fine(cs + [next]))
    ensures (aggregate ==> Fine(cs + [next])) ==>
              Update(Combine(cs, aggregate), next, aggregate).value == Combine(cs + [next], aggregate)
  {
    if aggregate { JoinOne(cs, next); }
  }

  lemma FineBefore(cs: seq<Completion>, next: Completion)
    requires Fine(cs + [next])
    ensures Fine(cs)
  {
    ConcatSnoc(PositionsOf, cs, next);
    if cs != [] { assert (cs + [next])[0] == cs[0]; }
  }

  // ---------------------------------------------------------------------------------
  // Which completions belong together.

  predicate NoneEmpty(g: seq<seq<Completion>>) {
    forall p :: 0 <= p < |g| ==> g[p] != []
  }

  function Heads(g: seq<seq<Completion>>): seq<Completion>
    requires NoneEmpty(g)
  {
    seq(|g|, p requires 0 <= p < |g| => g[p][0])
  }

  /** A completion joins the first group with its index, or starts a group of its own. */
  function JoinGroups(g: seq<seq<Completion>>, next: Completion): (r: seq<seq<Completion>>)
    requires NoneEmpty(g)
    ensures NoneEmpty(r)
  {
    var p := Find(Heads(g), next.index);
    if p == |g| then g + [[next]] else g[p := g[p] + [next]]
  }

  /** The groups in the order of the outputs: one for each output there was, and one for each new index. */
  function Groups(outs: seq<Completion>, xs: seq<Completion>): (g: seq<seq<Completion>>)
    ensures NoneEmpty(g)
  {
    if xs == [] then seq(|outs|, p requires 0 <= p < |outs| => [outs[p]])
    else JoinGroups(Groups(outs, xs[..|xs| - 1]), Last(xs))
  }

  function CombineAll(g: seq<seq<Completion>>, aggregate: bool): seq<Completion>
    requires NoneEmpty(g)
  {
    seq(|g|, p requires 0 <= p < |g| => Combine(g[p], aggregate))
  }

  ghost predicate AllFine(g: seq<seq<Completion>>) {
    forall p :: 0 <= p < |g| ==> Fine(g[p])
  }

  /** The completions of a group share their index. */
  ghost predicate Uniform(g: seq<seq<Completion>>)
    requires NoneEmpty(g)
  {
    forall p, c :: 0 <= p < |g| && c in g[p] ==> c.index == g[p][0].index
  }

  lemma JoinKeepsUniform(g: seq<seq<Completion>>, next: Completion)
    requires NoneEmpty(g) && Uniform(g)
    ensures Uniform(JoinGroups(g, next))
  {
    var p: nat := Find(Heads(g), next.index);
    var r: seq<seq<Completion>> := JoinGroups(g, next);
    forall q, c | 0 <= q < |r| && c in r[q] ensures c.index == r[q][0].index {
      if q == p && p < |g| { assert r[p][0] == g[p][0] && (c in g[p] || c == next); }
    }
  }

  lemma {:induction false} GroupsAreUniform(outs: seq<Completion>, xs: seq<Completion>)
    ensures Uniform(Groups(outs, xs))
  {
    if xs != [] {
      GroupsAreUniform(outs, xs[..|xs| - 1]);
      JoinKeepsUniform(Groups(outs, xs[..|xs| - 1]), Last(xs));
    }
  }

  lemma CombineKeepsIndex(g: seq<seq<Completion>>, aggregate: bool, p: nat)
    requires NoneEmpty(g) && Uniform(g) && p < |g|
    ensures CombineAll(g, aggregate)[p].index == Heads(g)[p].index
  {
    assert Last(g[p]) in g[p];
  }

  lemma FindGroup(g: seq<seq<Completion>>, aggregate: bool, index: int)
    requires NoneEmpty(g) && Uniform(g)
    ensures Find(CombineAll(g, aggregate), index) == Find(Heads(g), index)
  {
    forall p | 0 <= p < |g| ensures CombineAll(g, aggregate)[p].index == Heads(g)[p].index {
      CombineKeepsIndex(g, aggregate, p);
    }
    FindByIndices(CombineAll(g, aggregate), Heads(g), index);
  }

  // ---------------------------------------------------------------------------------
  // A stream of merges combines the groups.

  lemma FineGroupsBefore(g: seq<seq<Completion>>, next: Completion)
    requires NoneEmpty(g) && AllFine(JoinGroups(g, next))
    ensures AllFine(g)
  {
    var p: nat := Find(Heads(g), next.index);
    var r: seq<seq<Completion>> := JoinGroups(g, next);
    forall q | 0 <= q < |g| ensures Fine(g[q]) {
      if q == p {
        assert r[p] == g[p] + [next] && Fine(r[p]);
        FineBefore(g[p], next);
      } else {
        assert r[q] == g[q];
      }
    }
  }

  lemma JoinExisting(g: seq<seq<Completion>>, next: Completion, aggregate: bool, p: nat)
    requires NoneEmpty(g) && (aggregate ==> AllFine(g)) && p == Find(Heads(g), next.index) < |g|
    ensures var m, r := Update(CombineAll(g, aggregate)[p], next, aggregate), JoinGroups(g, next);
            && (m.ok <==> (aggregate ==> AllFine(r)))
            && (m.ok ==> CombineAll(g, aggregate)[p := m.value] == CombineAll(r, aggregate))
  {
    var r := JoinGroups(g, next);
    CombineOne(g[p], next, aggregate);
    assert r[p] == g[p] + [next] && forall q :: 0 <= q < |g| && q != p ==> r[q] == g[q];
  }

  lemma JoinNew(g: seq<seq<Completion>>, next: Completion, aggregate: bool)
    requires NoneEmpty(g) && (aggregate ==> AllFine(g)) && Find(Heads(g), next.index) == |g|
    ensures var r := JoinGroups(g, next);
            && (aggregate ==> AllFine(r))
            && CombineAll(g, aggregate) + [next] == CombineAll(r, aggregate)
  {
    JoinSingle(next);
    assert JoinGroups(g, next) == g + [[next]];
  }

  /** Merging a stream: with aggregation an assertion fails unless every group is fine; otherwise each
      output is what its group amounts to. */
  lemma {:induction false} StreamCombinesGroups(outs: seq<Completion>, xs: seq<Completion>, aggregate: bool)
    ensures AddAll(outs, xs, aggregate).ok <==> (aggregate ==> AllFine(Groups(outs, xs)))
    ensures AddAll(outs, xs, aggregate).ok ==> AddAll(outs, xs, aggregate).value == CombineAll(Groups(outs, xs), aggregate)
  {
    if xs == [] {
      SinglesCombine(outs, aggregate);
    } else {
      var before, next := xs[..|xs| - 1], Last(xs);
      var g := Groups(outs, before);
      StreamCombinesGroups(outs, before, aggregate);
      if aggregate && AllFine(JoinGroups(g, next)) { FineGroupsBefore(g, next); }
      if aggregate ==> AllFine(g) {
        GroupsAreUniform(outs, before);
        FindGroup(g, aggregate, next.index);
        var p := Find(Heads(g), next.index);
        if p < |g| { JoinExisting(g, next, aggregate, p); } else { JoinNew(g, next, aggregate); }
      }
    }
  }

  lemma SinglesCombine(outs: seq<Completion>, aggregate: bool)
    ensures AllFine(Groups(outs, [])) && CombineAll(Groups(outs, []), aggregate) == outs
  {
    forall p | 0 <= p < |outs| ensures Joined([outs[p]]) == outs[p] && Fine([outs[p]]) { JoinSingle(outs[p]); }
  }

  /** When every completion has log probabilities or none has, no assertion fails. */
  lemma {:induction false} UniformLogprobsAreFine(cs: seq<Completion>)
    requires (forall c :: c in cs ==> c.logprobs.Some?) || (forall c :: c in cs ==> c.logprobs.None?)
    ensures Fine(cs)
  {
    if cs != [] && cs[0].logprobs.None? { NoPositions(cs); }
  }

  lemma {:induction false} NoPositions(cs: seq<Completion>)
    requires forall c :: c in cs ==> c.logprobs.None?
    ensures Positions(cs) == []
  {
    if cs != [] { NoPositions(cs[..|cs| - 1]); }
  }

  lemma {:induction false} GroupsComeFrom(outs: seq<Completion>, xs: seq<Completion>)
    ensures forall p, c :: 0 <= p < |Groups(outs, xs)| && c in Groups(outs, xs)[p] ==> c in outs || c in xs
  {
    if xs != [] {
      GroupsComeFrom(outs, xs[..|xs| - 1]);
    }
  }

  lemma UniformStreamIsFine(outs: seq<Completion>, xs: seq<Completion>)
    requires (forall c :: c in outs + xs ==> c.logprobs.Some?) || (forall c :: c in outs + xs ==> c.logprobs.None?)
    ensures AllFine(Groups(outs, xs))
  {
    GroupsComeFrom(outs, xs);
    forall p | 0 <= p < |Groups(outs, xs)| ensures Fine(Groups(outs, xs)[p]) {
      UniformLogprobsAreFine(Groups(outs, xs)[p]);
    }
  }

  // ---------------------------------------------------------------------------------
  // The groups, index by index.

  /** What has arrived for the index. */
  function Only(k: int, xs: seq<Completion>): seq<Completion> {
    if xs == [] then []
    else Only(k, xs[..|xs| - 1]) + (if Last(xs).index == k then [Last(xs)] else [])
  }

  function IndexList(xs: seq<Completion>): seq<int> {
    seq(|xs|, i requires 0 <= i < |xs| => xs[i].index)
  }

  /** The numbers that are not known, in order of first appearance. */
  function Unknown(known: seq<int>, ks: seq<int>): seq<int> {
    if ks == [] then []
    else
      var before := Unknown(known, ks[..|ks| - 1]);
      if Last(ks) in known || Last(ks) in before then before else before + [Last(ks)]
  }

  /** The indices that no output has yet, in order of first appearance. */
  function New(outs: seq<Completion>, xs: seq<Completion>): seq<int> {
    Unknown(IndexList(outs), IndexList(xs))
  }

  /** No earlier number is the same. */
  ghost predicate FirstAt(list: seq<int>, q: nat)
    requires q < |list|
  {
    forall i :: 0 <= i < q ==> list[i] != list[q]
  }

  /** The group at position `q` of a list of indices: the output that was there, and everything that arrives
      for its index if no earlier position has that index. */
  ghost function Member(outs: seq<Completion>, xs: seq<Completion>, list: seq<int>, q: nat): seq<Completion>
    requires q < |list|
  {
    (if q < |outs| then [outs[q]] else []) + (if FirstAt(list, q) then Only(list[q], xs) else [])
  }

  lemma OnlySnoc(xs: seq<Completion>, before: seq<Completion>, next: Completion, k: int)
    requires xs == before + [next]
    ensures Only(k, xs) == Only(k, before) + (if next.index == k then [next] else [])
  {
    assert xs[..|xs| - 1] == before;
  }

  lemma UnknownSnoc(known: seq<int>, ks: seq<int>, k: int)
    ensures var before := Unknown(known, ks);
            Unknown(known, ks + [k]) == if k in known || k in before then before else before + [k]
  {
    assert (ks + [k])[..|ks + [k]| - 1] == ks && Last(ks + [k]) == k;
  }

  lemma NewSnoc(outs: seq<Completion>, xs: seq<Completion>, before: seq<Completion>, next: Completion)
    requires xs == before + [next]
    ensures var n := New(outs, before);
            New(outs, xs) == if next.index in IndexList(outs) || next.index in n then n else n + [next.index]
  {
    assert IndexList(xs) == IndexList(before) + [next.index];
    UnknownSnoc(IndexList(outs), IndexList(before), next.index);
  }

  lemma {:induction false} UnknownIsDistinct(known: seq<int>, ks: seq<int>)
    ensures forall i, j :: 0 <= i < j < |Unknown(known, ks)| ==> Unknown(known, ks)[i] != Unknown(known, ks)[j]
    ensures forall k :: k in Unknown(known, ks) ==> k !in known
  {
    if ks != [] { UnknownIsDistinct(known, ks[..|ks| - 1]); }
  }

  lemma {:induction false} UnknownCovers(known: seq<int>, ks: seq<int>, k: int)
    ensures k in known || (k in ks <==> k in Unknown(known, ks))
  {
    if ks != [] {
      UnknownCovers(known, ks[..|ks| - 1], k);
      assert ks == ks[..|ks| - 1] + [Last(ks)];
    }
  }

  lemma {:induction false} OnlyHasIndex(k: int, xs: seq<Completion>)
    ensures forall c :: c in Only(k, xs) ==> c.index == k
    ensures Only(k, xs) != [] <==> k in IndexList(xs)
  {
    if xs != [] {
      OnlyHasIndex(k, xs[..|xs| - 1]);
      assert IndexList(xs) == IndexList(xs[..|xs| - 1]) + [Last(xs).index];
    }
  }

  lemma FindInList(outs: seq<Completion>, k: int)
    ensures k in IndexList(outs) <==> Find(outs, k) < |outs|
    ensures Find(outs, k) < |outs| ==> IndexList(outs)[Find(outs, k)] == k && FirstAt(IndexList(outs), Find(outs, k))
  {
    var p := Find(outs, k);
    if p < |outs| { assert IndexList(outs)[p] == k; }
    if k in IndexList(outs) {
      var i :| 0 <= i < |outs| && IndexList(outs)[i] == k;
      assert outs[i].index == k;
    }
  }

  ghost function ListOf(g: seq<seq<Completion>>): seq<int>
    requires NoneEmpty(g)
  {
    IndexList(Heads(g))
  }

  lemma ListStep(g: seq<seq<Completion>>, next: Completion)
    requires NoneEmpty(g)
    ensures ListOf(JoinGroups(g, next)) == if next.index in ListOf(g) then ListOf(g) else ListOf(g) + [next.index]
  {
    FindInList(Heads(g), next.index);
    var r: seq<seq<Completion>> := JoinGroups(g, next);
    forall q | 0 <= q < |g| ensures r[q][0] == g[q][0] {}
  }

  lemma GroupsListStep(outs: seq<Completion>, xs: seq<Completion>, before: seq<Completion>, next: Completion)
    requires xs == before + [next] && ListOf(Groups(outs, before)) == IndexList(outs) + New(outs, before)
    ensures ListOf(JoinGroups(Groups(outs, before), next)) == IndexList(outs) + New(outs, xs)
  {
    ListStep(Groups(outs, before), next);
    NewSnoc(outs, xs, before, next);
    AppendNew(IndexList(outs), New(outs, before), next.index);
  }

  /** The groups stand for the indices of the outputs, followed by the new ones. */
  lemma {:induction false} GroupsList(outs: seq<Completion>, xs: seq<Completion>)
    ensures ListOf(Groups(outs, xs)) == IndexList(outs) + New(outs, xs)
  {
    if xs == [] {
      ListOfSingles(outs);
    } else {
      var before, next := xs[..|xs| - 1], Last(xs);
      assert xs == before + [next];
      GroupsList(outs, before);
      GroupsListStep(outs, xs, before, next);
    }
  }

  lemma ListOfSingles(outs: seq<Completion>)
    ensures ListOf(Groups(outs, [])) == IndexList(outs) + New(outs, [])
  {
    assert New(outs, []) == [];
  }

  lemma AppendNew(u: seq<int>, n: seq<int>, k: int)
    ensures (if k in u + n then u + n else (u + n) + [k]) == u + (if k in u || k in n then n else n + [k])
  {
  }

  lemma MemberStays(outs: seq<Completion>, xs: seq<Completion>, before: seq<Completion>, next: Completion,
                    list: seq<int>, q: nat)
    requires xs == before + [next] && q < |list| && !(list[q] == next.index && FirstAt(list, q))
    ensures Member(outs, xs, list, q) == Member(outs, before, list, q)
  {
    OnlySnoc(xs, before, next, list[q]);
  }

  lemma MemberGrows(outs: seq<Completion>, xs: seq<Completion>, before: seq<Completion>, next: Completion,
                    list: seq<int>, p: nat)
    requires xs == before + [next] && p < |list| && list[p] == next.index && FirstAt(list, p)
    ensures Member(outs, xs, list, p) == Member(outs, before, list, p) + [next]
  {
    OnlySnoc(xs, before, next, list[p]);
    var o := if p < |outs| then [outs[p]] else [];
    assert o + (Only(list[p], before) + [next]) == o + Only(list[p], before) + [next];
  }

  lemma MemberOfLonger(outs: seq<Completion>, xs: seq<Completion>, list: seq<int>, k: int, q: nat)
    requires q < |list|
    ensures Member(outs, xs, list + [k], q) == Member(outs, xs, list, q)
  {
    assert forall i :: 0 <= i < |list| ==> (list + [k])[i] == list[i];
  }

  ghost predicate Grouped(outs: seq<Completion>, xs: seq<Completion>, g: seq<seq<Completion>>, list: seq<int>) {
    |g| == |list| && forall q :: 0 <= q < |g| ==> g[q] == Member(outs, xs, list, q)
  }

  lemma GroupedJoin(outs: seq<Completion>, xs: seq<Completion>, before: seq<Completion>, next: Completion,
                    g: seq<seq<Completion>>, list: seq<int>, p: nat)
    requires xs == before + [next] && Grouped(outs, before, g, list)
    requires p < |list| && list[p] == next.index && FirstAt(list, p)
    ensures Grouped(outs, xs, g[p := g[p] + [next]], list)
  {
    forall q | 0 <= q < |g| ensures g[p := g[p] + [next]][q] == Member(outs, xs, list, q) {
      if q == p {
        MemberGrows(outs, xs, before, next, list, p);
      } else {
        assert !(list[q] == next.index && FirstAt(list, q)) by {
          if q < p { assert list[q] != list[p]; } else if FirstAt(list, q) { assert list[p] != list[q]; }
        }
        MemberStays(outs, xs, before, next, list, q);
      }
    }
  }

  lemma GroupedNew(outs: seq<Completion>, xs: seq<Completion>, before: seq<Completion>, next: Completion,
                   g: seq<seq<Completion>>, list: seq<int>)
    requires xs == before + [next] && Grouped(outs, before, g, list)
    requires next.index !in list && Only(next.index, before) == [] && |outs| <= |list|
    ensures Grouped(outs, xs, g + [[next]], list + [next.index])
  {
    var k := next.index;
    forall q | 0 <= q < |g| ensures g[q] == Member(outs, xs, list + [k], q) {
      MemberOfLonger(outs, xs, list, k, q);
      MemberStays(outs, xs, before, next, list, q);
    }
    OnlySnoc(xs, before, next, k);
    assert FirstAt(list + [k], |list|);
    assert Member(outs, xs, list + [k], |list|) == [] + [next];
  }

  /** The groups are what has arrived, index by index: at the first position that has an index, the output
      that was there, if any, and then everything that arrived for the index, in order. */
  lemma {:induction false} GroupsAre(outs: seq<Completion>, xs: seq<Completion>)
    ensures Grouped(outs, xs, Groups(outs, xs), IndexList(outs) + New(outs, xs))
  {
    if xs == [] {
      NothingArrived(outs);
    } else {
      var before, next := xs[..|xs| - 1], Last(xs);
      GroupsAre(outs, before);
      GroupsList(outs, before);
      GroupedStep(outs, xs, before, next, Groups(outs, before), IndexList(outs) + New(outs, before));
    }
  }

  lemma GroupedStep(outs: seq<Completion>, xs: seq<Completion>, before: seq<Completion>, next: Completion,
                    g: seq<seq<Completion>>, list: seq<int>)
    requires xs == before + [next] && NoneEmpty(g) && Grouped(outs, before, g, list)
    requires list == ListOf(g) == IndexList(outs) + New(outs, before)
    ensures Grouped(outs, xs, JoinGroups(g, next), IndexList(outs) + New(outs, xs))
  {
    NewSnoc(outs, xs, before, next);
    AppendNew(IndexList(outs), New(outs, before), next.index);
    FindInList(Heads(g), next.index);
    var p := Find(Heads(g), next.index);
    if p < |g| {
      GroupedJoin(outs, xs, before, next, g, list, p);
    } else {
      UnknownCovers(IndexList(outs), IndexList(before), next.index);
      OnlyHasIndex(next.index, before);
      GroupedNew(outs, xs, before, next, g, list);
    }
  }

  lemma NothingArrived(outs: seq<Completion>)
    ensures Grouped(outs, [], Groups(outs, []), IndexList(outs) + New(outs, []))
  {
    assert New(outs, []) == [] && IndexList(outs) + [] == IndexList(outs);
    forall q | 0 <= q < |outs| ensures Member(outs, [], IndexList(outs), q) == [outs[q]] {
      assert Only(IndexList(outs)[q], []) == [];
    }
  }
}
