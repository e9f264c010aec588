/**
 Merging in pieces (vllm/outputs.py): when merging what was merged before is merging
 everything.
 */
module OutputNesting {
  import opened Arithmetic
  import opened OutputMerge

  ghost predicate DistinctIndices(xs: seq<Completion>) {
    forall i, j :: 0 <= i < j < |xs| ==> xs[i].index != xs[j].index
  }

  lemma {:induction false} AddAppended(outs: seq<Completion>, xs: seq<Completion>, ys: seq<Completion>, aggregate: bool)
    ensures var first := AddAll(outs, xs, aggregate);
            AddAll(outs, xs + ys, aggregate) == if first.ok then AddAll(first.value, ys, aggregate) else first
  {
    if ys == [] {
      assert xs + ys == xs;
    } else {
      AddAppended(outs, xs, ys[..|ys| - 1], aggregate);
      assert (xs + ys)[..|xs + ys| - 1] == xs + ys[..|ys| - 1];
    }
  }

  // ---------------------------------------------------------------------------------
  // Joining in pieces.

  lemma {:induction false} ConcatAppended<T>(part: Completion -> seq<T>, cs: seq<Completion>, ds: seq<Completion>)
    ensures Concat(part, cs + ds) == Concat(part, cs) + Concat(part, ds)
  {
    if ds == [] {
      assert cs + ds == cs;
      assert Concat(part, cs) + [] == Concat(part, cs);
    } else {
      var init, last := ds[..|ds| - 1], Last(ds);
      ConcatAppended(part, cs, init);
      assert cs + ds == (cs + init) + [last];
      ConcatSnoc(part, cs + init, last);
      Associates(Concat(part, cs), Concat(part, init), part(last));
    }
  }

  /** Joining what was joined before is joining everything. */
  lemma JoinNested(cs: seq<Completion>, ds: seq<Completion>)
    requires ds != [] && Fine(ds)
    ensures Fine(cs + [Joined(ds)]) <==> Fine(cs + ds)
    ensures Joined(cs + [Joined(ds)]) == Joined(cs + ds)
  {
    ConcatAppended(TextOf, cs, ds);
    ConcatAppended(TokensOf, cs, ds);
    ConcatAppended(PositionsOf, cs, ds);
    ConcatSnoc(TextOf, cs, Joined(ds));
    ConcatSnoc(TokensOf, cs, Joined(ds));
    ConcatSnoc(PositionsOf, cs, Joined(ds));
    assert PositionsOf(Joined(ds)) == Positions(ds);
    HeadAndLast(cs, ds);
  }

  lemma HeadAndLast(cs: seq<Completion>, ds: seq<Completion>)
    requires ds != []
    ensures Last(cs + [Joined(ds)]) == Joined(ds) && Last(cs + ds) == Last(ds)
    ensures cs != [] ==> (cs + [Joined(ds)])[0] == (cs + ds)[0]
    ensures cs == [] ==> (cs + [Joined(ds)])[0] == Joined(ds) && (cs + ds)[0] == ds[0]
  {
  }

  /** The parts that a join is made of. */
  lemma JoinedAppended(cs: seq<Completion>, ds: seq<Completion>)
    requires cs != []
    ensures Texts(cs + ds) == Texts(cs) + Texts(ds)
    ensures Tokens(cs + ds) == Tokens(cs) + Tokens(ds)
    ensures Positions(cs + ds) == Positions(cs) + Positions(ds)
    ensures (cs + ds)[0] == cs[0] && Last(cs + ds) == if ds == [] then Last(cs) else Last(ds)
  {
    ConcatAppended(TextOf, cs, ds);
    ConcatAppended(TokensOf, cs, ds);
    ConcatAppended(PositionsOf, cs, ds);
    assert ds == [] ==> cs + ds == cs;
  }

  /** Joining on depends on what was joined so far only through the outcome. */
  lemma JoinOn(xs: seq<Completion>, ys: seq<Completion>, rest: seq<Completion>)
    requires xs != [] && ys != [] && Joined(xs) == Joined(ys) && Positions(xs) == Positions(ys)
    ensures Fine(xs + rest) <==> Fine(ys + rest)
    ensures Joined(xs + rest) == Joined(ys + rest)
  {
    JoinedAppended(xs, rest);
    JoinedAppended(ys, rest);
  }

  /** The closing fields, of which the last completion's stay. */
  predicate SameClosing(c: Completion, d: Completion) {
    c.cumulativeLogprob == d.cumulativeLogprob && c.finishReason == d.finishReason && c.stopReason == d.stopReason
  }

  /** It does not matter which of the two arrives first. */
  predicate Commute(xs: seq<Completion>, ys: seq<Completion>) {
    xs == [] || ys == [] ||
    (&& Texts(xs) + Texts(ys) == Texts(ys) + Texts(xs)
     && Tokens(xs) + Tokens(ys) == Tokens(ys) + Tokens(xs)
     && Positions(xs) + Positions(ys) == Positions(ys) + Positions(xs)
     && SameClosing(Last(xs), Last(ys)))
  }

  lemma Cancel<T>(p: seq<T>, s: seq<T>, t: seq<T>)
    ensures (p + s) + t == (p + t) + s <==> s + t == t + s
  {
    Associates(p, s, t);
    Associates(p, t, s);
    if p + (s + t) == p + (t + s) {
      assert (p + (s + t))[|p|..] == s + t && (p + (t + s))[|p|..] == t + s;
    }
  }

  /** After a beginning, two pieces can be swapped exactly when they commute. */
  lemma SwapPieces(pre: seq<Completion>, xs: seq<Completion>, ys: seq<Completion>)
    requires pre != []
    ensures Fine((pre + xs) + ys) <==> Fine((pre + ys) + xs)
    ensures Fine((pre + xs) + ys) ==> (Joined((pre + xs) + ys) == Joined((pre + ys) + xs) <==> Commute(xs, ys))
  {
    JoinedAppended(pre, xs);
    JoinedAppended(pre, ys);
    JoinedAppended(pre + xs, ys);
    JoinedAppended(pre + ys, xs);
    Cancel(Texts(pre), Texts(xs), Texts(ys));
    Cancel(Tokens(pre), Tokens(xs), Tokens(ys));
    Cancel(Positions(pre), Positions(xs), Positions(ys));
    assert xs == [] || ys == [] ==> (pre + xs) + ys == (pre + ys) + xs;
  }

  // ---------------------------------------------------------------------------------
  // The indices of what was merged before.

  lemma {:induction false} OnlyAppended(k: int, xs: seq<Completion>, ys: seq<Completion>)
    ensures Only(k, xs + ys) == Only(k, xs) + Only(k, ys)
  {
    if ys == [] {
      assert xs + ys == xs;
      assert Only(k, xs) + [] == Only(k, xs);
    } else {
      var before, next := ys[..|ys| - 1], Last(ys);
      OnlyAppended(k, xs, before);
      assert xs + ys == (xs + before) + [next];
      OnlySnoc(xs + ys, xs + before, next, k);
      OnlySnoc(ys, before, next, k);
      Associates(Only(k, xs), Only(k, before), if next.index == k then [next] else []);
    }
  }

  /** The first completion with the index comes first. */
  lemma OnlyFromFirst(k: int, xs: seq<Completion>, p: nat)
    requires p < |xs| && xs[p].index == k && forall i :: 0 <= i < p ==> xs[i].index != k
    ensures Only(k, xs) == [xs[p]] + Only(k, xs[p + 1..])
  {
    var pre, x, post := xs[..p], xs[p], xs[p + 1..];
    assert xs == (pre + [x]) + post;
    OnlyAppended(k, pre + [x], post);
    assert Only(k, pre + [x]) == [x] by {
      OnlySnoc(pre + [x], pre, x, k);
      NoneOf(k, pre);
    }
  }

  lemma NoneOf(k: int, xs: seq<Completion>)
    requires forall i :: 0 <= i < |xs| ==> xs[i].index != k
    ensures Only(k, xs) == []
  {
    OnlyHasIndex(k, xs);
  }

  lemma {:induction false} OnlyAgrees(k: int, xs: seq<Completion>, ys: seq<Completion>)
    requires |xs| == |ys| && forall i :: 0 <= i < |xs| ==> xs[i].index == ys[i].index
    requires forall i :: 0 <= i < |xs| && xs[i].index == k ==> xs[i] == ys[i]
    ensures Only(k, xs) == Only(k, ys)
  {
    if xs != [] {
      OnlyAgrees(k, xs[..|xs| - 1], ys[..|ys| - 1]);
    }
  }

  lemma SqueezeStep(known: seq<int>, u: seq<int>, before: seq<int>, k: int, passed: seq<int>)
    requires passed == Unknown(u, before) && Unknown(known, u + passed) == Unknown(known, u + before)
    ensures Unknown(known, u + Unknown(u, before + [k])) == Unknown(known, u + (before + [k]))
  {
    UnknownSnoc(u, before, k);
    Associates(u, before, [k]);
    UnknownSnoc(known, u + before, k);
    if k in u || k in passed {
      UnknownCovers(u, before, k);
      UnknownCovers(known, u + before, k);
    } else {
      Associates(u, passed, [k]);
      UnknownSnoc(known, u + passed, k);
    }
  }

  /** Passing on only the unknown numbers, once each, leaves the same numbers unknown. */
  lemma {:induction false} Squeeze(known: seq<int>, u: seq<int>, ks: seq<int>)
    ensures Unknown(known, u + Unknown(u, ks)) == Unknown(known, u + ks)
  {
    if ks != [] {
      var before, k := ks[..|ks| - 1], Last(ks);
      Squeeze(known, u, before);
      SqueezeStep(known, u, before, k, Unknown(u, before));
      assert ks == before + [k];
    }
  }

  /** The merged outputs of two pieces. */
  ghost function Both(xs: seq<Completion>, ys: seq<Completion>): seq<Completion> {
    CombineAll(Groups(xs, ys), true)
  }

  lemma BothList(xs: seq<Completion>, ys: seq<Completion>)
    ensures IndexList(Both(xs, ys)) == IndexList(xs) + New(xs, ys)
  {
    GroupsList(xs, ys);
    GroupsAreUniform(xs, ys);
    var g := Groups(xs, ys);
    forall p | 0 <= p < |g| ensures IndexList(CombineAll(g, true))[p] == ListOf(g)[p] { CombineKeepsIndex(g, true, p); }
  }

  lemma SameNew(a: seq<Completion>, b: seq<Completion>, c: seq<Completion>)
    ensures New(a, Both(b, c)) == New(a, b + c)
  {
    var u, ks := IndexList(b), IndexList(c);
    assert IndexList(Both(b, c)) == u + Unknown(u, ks) by { BothList(b, c); }
    assert IndexList(b + c) == u + ks;
    Squeeze(IndexList(a), u, ks);
  }

  /** What merging two pieces leaves for an index: what arrived in the second piece goes to the first
      completion of the first piece, and the others stay as they are. */
  function Nested(bs: seq<Completion>, cs: seq<Completion>): seq<Completion> {
    if bs != [] then [Joined([bs[0]] + cs)] + bs[1..]
    else if cs != [] then [Joined(cs)]
    else []
  }

  /** The merged output at a position. */
  lemma BothAt(b: seq<Completion>, c: seq<Completion>, list: seq<int>, q: nat)
    requires list == IndexList(b) + New(b, c) && q < |list|
    ensures |Both(b, c)| == |list| && Both(b, c)[q].index == list[q]
    ensures Member(b, c, list, q) != [] && Both(b, c)[q] == Joined(Member(b, c, list, q))
    ensures AllFine(Groups(b, c)) ==> Fine(Member(b, c, list, q))
    ensures q < |b| && !FirstAt(list, q) ==> Both(b, c)[q] == b[q]
  {
    BothList(b, c);
    GroupsAre(b, c);
    assert IndexList(Both(b, c))[q] == Both(b, c)[q].index;
    if q < |b| && !FirstAt(list, q) { JoinSingle(b[q]); }
  }

  /** `both` follows `b`: an output of `b` changes at the first position of its index only, and every index
      beyond `b` has one position. */
  ghost predicate Follows(both: seq<Completion>, b: seq<Completion>, list: seq<int>) {
    && |b| <= |list| == |both|
    && (forall q :: 0 <= q < |list| ==> both[q].index == list[q])
    && (forall q :: 0 <= q < |b| ==> b[q].index == list[q] && (FirstAt(list, q) || both[q] == b[q]))
    && (forall p, q :: 0 <= p < q < |list| && |b| <= q ==> list[p] != list[q])
  }

  lemma BothFollows(b: seq<Completion>, c: seq<Completion>, list: seq<int>)
    requires list == IndexList(b) + New(b, c)
    ensures Follows(Both(b, c), b, list)
  {
    BothList(b, c);
    forall q | 0 <= q < |list|
      ensures Both(b, c)[q].index == list[q] && (q < |b| && !FirstAt(list, q) ==> Both(b, c)[q] == b[q])
    {
      BothAt(b, c, list, q);
    }
    forall p, q | 0 <= p < q < |list| && |b| <= q ensures list[p] != list[q] { NewIsElsewhere(b, c, list, p, q); }
  }

  lemma NewIsElsewhere(b: seq<Completion>, c: seq<Completion>, list: seq<int>, p: nat, q: nat)
    requires list == IndexList(b) + New(b, c) && p < q < |list| && |b| <= q
    ensures list[p] != list[q]
  {
    UnknownIsDistinct(IndexList(b), IndexList(c));
    assert list[q] == New(b, c)[q - |b|] && list[q] in New(b, c);
    if p < |b| { assert list[p] in IndexList(b); } else { assert list[p] == New(b, c)[p - |b|]; }
  }

  /** Past its first position, an index has the completions of the first piece. */
  lemma OnlyAfterFirst(k: int, both: seq<Completion>, b: seq<Completion>, list: seq<int>, p: nat)
    requires Follows(both, b, list) && p < |list| && list[p] == k
    ensures Only(k, both[p + 1..]) == if p < |b| then Only(k, b[p + 1..]) else []
  {
    if p < |b| {
      var near, far := both[p + 1..|b|], both[|b|..];
      assert both[p + 1..] == near + far;
      OnlyAppended(k, near, far);
      OnlyAgrees(k, near, b[p + 1..]);
      NoneOf(k, far);
    } else {
      NoneOf(k, both[p + 1..]);
    }
  }

  lemma {:induction false} FirstPosition(list: seq<int>, k: int) returns (p: nat)
    requires k in list
    ensures p < |list| && list[p] == k && FirstAt(list, p)
  {
    if list[0] == k {
      p := 0;
    } else {
      p := FirstPosition(list[1..], k);
      assert forall i :: 1 <= i <= p ==> list[i] == list[1..][i - 1];
      p := p + 1;
    }
  }

  lemma OnlyFollows(k: int, both: seq<Completion>, b: seq<Completion>, list: seq<int>, p: nat)
    requires Follows(both, b, list) && p < |list| && list[p] == k && FirstAt(list, p)
    ensures if p < |b| then Only(k, b) != [] && Only(k, b)[0] == b[p] else Only(k, b) == []
    ensures Only(k, both) == [both[p]] + (if p < |b| then Only(k, b)[1..] else [])
  {
    OnlyFromFirst(k, both, p);
    OnlyAfterFirst(k, both, b, list, p);
    if p < |b| { OnlyFromFirst(k, b, p); } else { NoneOf(k, b); }
  }

  lemma NestedFollows(k: int, both: seq<Completion>, b: seq<Completion>, list: seq<int>, p: nat,
                      bs: seq<Completion>, cs: seq<Completion>, m: seq<Completion>)
    requires Follows(both, b, list) && p < |list| && list[p] == k && FirstAt(list, p) && bs == Only(k, b)
    requires m == (if p < |b| then [b[p]] else []) + cs && m != [] && both[p] == Joined(m)
    ensures Only(k, both) == Nested(bs, cs)
    ensures m == if bs == [] then cs else [bs[0]] + cs
  {
    OnlyFollows(k, both, b, list, p);
    if p >= |b| { assert m == cs && [both[p]] + [] == [both[p]]; }
  }

  lemma OnlyOfBothAt(k: int, b: seq<Completion>, c: seq<Completion>, list: seq<int>, p: nat)
    requires list == IndexList(b) + New(b, c) && p < |list| && list[p] == k && FirstAt(list, p)
    ensures Only(k, Both(b, c)) == Nested(Only(k, b), Only(k, c))
    ensures AllFine(Groups(b, c)) ==> Fine(if Only(k, b) == [] then Only(k, c) else [Only(k, b)[0]] + Only(k, c))
  {
    BothAt(b, c, list, p);
    BothFollows(b, c, list);
    NestedFollows(k, Both(b, c), b, list, p, Only(k, b), Only(k, c), Member(b, c, list, p));
  }

  /** What was merged before holds, for each index, what arrived for it in this order. */
  lemma OnlyOfBoth(k: int, b: seq<Completion>, c: seq<Completion>)
    ensures Only(k, Both(b, c)) == Nested(Only(k, b), Only(k, c))
    ensures AllFine(Groups(b, c)) ==> Fine(if Only(k, b) == [] then Only(k, c) else [Only(k, b)[0]] + Only(k, c))
  {
    var list := IndexList(b) + New(b, c);
    BothList(b, c);
    OnlyHasIndex(k, Both(b, c));
    OnlyHasIndex(k, b);
    OnlyHasIndex(k, c);
    UnknownCovers(IndexList(b), IndexList(c), k);
    if k in list {
      var p := FirstPosition(list, k);
      OnlyOfBothAt(k, b, c, list, p);
    }
  }

  /** The same, for a first completion that the second piece goes to and the rest after it. */
  lemma JoinWithRest(o: seq<Completion>, first: seq<Completion>, rest: seq<Completion>, cs: seq<Completion>)
    requires first != [] && Fine(first + cs)
    ensures Fine((o + [Joined(first + cs)]) + rest) <==> Fine(((o + first) + rest) + cs)
    ensures Fine(((o + first) + rest) + cs) ==>
              (Joined((o + [Joined(first + cs)]) + rest) == Joined(((o + first) + rest) + cs) <==> Commute(rest, cs))
  {
    var pre := o + first;
    Associates(o, first, cs);
    JoinNested(o, first + cs);
    SamePositions(o, first + cs);
    JoinOn(o + [Joined(first + cs)], pre + cs, rest);
    SwapPieces(pre, rest, cs);
  }

  lemma Regroup<T>(o: seq<T>, b: T, rest: seq<T>, cs: seq<T>)
    ensures o + (([b] + rest) + cs) == ((o + [b]) + rest) + cs
    ensures o + ([b] + rest) == (o + [b]) + rest
  {
  }

  /** Joining what was merged before is joining everything, exactly when the later completions of the first
      piece commute with the second piece. */
  lemma JoinOfNested(o: seq<Completion>, bs: seq<Completion>, cs: seq<Completion>)
    requires o + (bs + cs) != [] && Fine(if bs == [] then cs else [bs[0]] + cs)
    ensures o + Nested(bs, cs) != []
    ensures Fine(o + Nested(bs, cs)) <==> Fine(o + (bs + cs))
    ensures Fine(o + (bs + cs)) ==>
              (Joined(o + Nested(bs, cs)) == Joined(o + (bs + cs)) <==> bs == [] || Commute(bs[1..], cs))
  {
    if bs == [] {
      assert bs + cs == cs;
      if cs != [] { JoinNested(o, cs); }
    } else {
      var first, rest := bs[0], bs[1..];
      assert bs == [first] + rest;
      Regroup(o, first, rest, cs);
      Regroup(o, Joined([first] + cs), rest, cs);
      JoinWithRest(o, [first], rest, cs);
    }
  }

  lemma SamePositions(cs: seq<Completion>, ds: seq<Completion>)
    requires ds != [] && Fine(ds)
    ensures Positions(cs + [Joined(ds)]) == Positions(cs + ds)
  {
    ConcatAppended(PositionsOf, cs, ds);
    ConcatSnoc(PositionsOf, cs, Joined(ds));
  }

  /** The later completions of an index in the first piece commute with those in the second: as when the
      first piece repeats no index, or none that occurs in the second. */
  ghost predicate Swappable(b: seq<Completion>, c: seq<Completion>) {
    forall k :: Only(k, b) != [] ==> Commute(Only(k, b)[1..], Only(k, c))
  }

  lemma NestedMember(a: seq<Completion>, b: seq<Completion>, c: seq<Completion>, list: seq<int>, q: nat)
    requires AllFine(Groups(b, c)) && q < |list| && Member(a, b + c, list, q) != []
    ensures Member(a, Both(b, c), list, q) != []
    ensures Fine(Member(a, Both(b, c), list, q)) <==> Fine(Member(a, b + c, list, q))
    ensures Fine(Member(a, b + c, list, q)) ==>
              (Joined(Member(a, Both(b, c), list, q)) == Joined(Member(a, b + c, list, q)) <==>
               (FirstAt(list, q) && Only(list[q], b) != [] ==> Commute(Only(list[q], b)[1..], Only(list[q], c))))
  {
    var o, k := if q < |a| then [a[q]] else [], list[q];
    OnlyOfBoth(k, b, c);
    OnlyAppended(k, b, c);
    if FirstAt(list, q) { JoinOfNested(o, Only(k, b), Only(k, c)); }
  }

  /** Every index of a piece has a first position among the groups. */
  lemma IndexHasGroup(a: seq<Completion>, b: seq<Completion>, c: seq<Completion>, list: seq<int>, k: int) returns (q: nat)
    requires list == IndexList(a) + New(a, b + c) && Only(k, b) != []
    ensures q < |list| && list[q] == k && FirstAt(list, q)
  {
    OnlyHasIndex(k, b);
    assert IndexList(b + c) == IndexList(b) + IndexList(c);
    UnknownCovers(IndexList(a), IndexList(b + c), k);
    q := FirstPosition(list, k);
  }

  /** Merging what was merged before fails exactly when merging everything does, and is the same exactly when
      the pieces can be swapped. */
  lemma NestedGroups(a: seq<Completion>, b: seq<Completion>, c: seq<Completion>)
    requires AllFine(Groups(b, c))
    ensures AllFine(Groups(a, Both(b, c))) <==> AllFine(Groups(a, b + c))
    ensures AllFine(Groups(a, b + c)) ==>
              (CombineAll(Groups(a, Both(b, c)), true) == CombineAll(Groups(a, b + c), true) <==> Swappable(b, c))
  {
    var g, h, list := Groups(a, Both(b, c)), Groups(a, b + c), IndexList(a) + New(a, b + c);
    SameNew(a, b, c);
    GroupsAre(a, Both(b, c));
    GroupsAre(a, b + c);
    assert |g| == |h| == |list|;
    forall q | 0 <= q < |g| ensures Fine(g[q]) <==> Fine(h[q]) { NestedMember(a, b, c, list, q); }
    if AllFine(h) {
      if Swappable(b, c) {
        forall q | 0 <= q < |g| ensures Joined(g[q]) == Joined(h[q]) { NestedMember(a, b, c, list, q); }
      } else {
        var k :| Only(k, b) != [] && !Commute(Only(k, b)[1..], Only(k, c));
        var q := IndexHasGroup(a, b, c, list, k);
        NestedMember(a, b, c, list, q);
        assert CombineAll(g, true)[q] != CombineAll(h, true)[q];
      }
    }
  }

  /** A piece that repeats no index can always be swapped. */
  lemma DistinctIsSwappable(b: seq<Completion>, c: seq<Completion>)
    requires DistinctIndices(b)
    ensures Swappable(b, c)
  {
    forall k | Only(k, b) != [] ensures Commute(Only(k, b)[1..], Only(k, c)) {
      OnlyHasIndex(k, b);
      var p := FirstPosition(IndexList(b), k);
      forall i | 0 <= i < p ensures b[i].index != k { assert IndexList(b)[i] == b[i].index; }
      OnlyFromFirst(k, b, p);
      NoneOf(k, b[p + 1..]);
    }
  }
}
