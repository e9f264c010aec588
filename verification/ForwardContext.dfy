/**
 Token counts per rank for sequence parallelism and chunked execution
 (vllm/forward_context.py).
 */
module ForwardContext {
  import opened Arithmetic

  function CeilDiv(n: nat, d: nat): nat
    requires d > 0
  {
    (n + d - 1) / d
  }

  function Repeat<T>(x: T, n: nat): seq<T> {
    seq(n, _ => x)
  }

  /** `_compute_sp_num_tokens`: each data-parallel rank's tokens spread over its sequence-parallel ranks. */
  function SpNumTokens(numTokens: seq<nat>, spSize: nat): seq<nat>
    requires spSize > 0
  {
    if numTokens == [] then []
    else
      SpNumTokens(numTokens[..|numTokens| - 1], spSize)
      + Repeat(CeilDiv(numTokens[|numTokens| - 1], spSize), spSize)
  }

  /** `cu_tokens_across_sp`: the running sums. */
  function CuTokensAcrossSp(numTokens: seq<nat>, spSize: nat): seq<nat>
    requires spSize > 0
  {
    var tokens := SpNumTokens(numTokens, spSize);
    seq(|tokens|, i requires 0 <= i < |tokens| => Sum(tokens[..i + 1]))
  }

  /** A rank's share of chunk `chunk`: at least one token, even when it is done. */
  function LocalSize(tokens: int, maxNumTokens: int, chunk: nat): int {
    var left := tokens - maxNumTokens * chunk;
    var size := if maxNumTokens < left then maxNumTokens else left;
    if size <= 0 then 1 else size
  }

  method ComputeChunkedLocalNumTokens(numTokens: seq<nat>, spSize: nat, maxNumTokens: int, chunk: nat)
    returns (localSize: seq<int>)
    requires spSize > 0
    ensures |localSize| == |numTokens| * spSize
    ensures maxNumTokens >= 1 ==> forall i :: 0 <= i < |localSize| ==> 1 <= localSize[i] <= maxNumTokens
    ensures var tokens := SpNumTokens(numTokens, spSize);
            && |localSize| == |tokens|
            && forall i :: 0 <= i < |localSize| ==> localSize[i] == LocalSize(tokens[i], maxNumTokens, chunk)
  {
    var tokens := SpNumTokens(numTokens, spSize);
    SpLength(numTokens, spSize);
    localSize := Repeat(-1, |tokens|);
    for i := 0 to |tokens|
      invariant |localSize| == |tokens|
      invariant forall k :: 0 <= k < i ==> localSize[k] == LocalSize(tokens[k], maxNumTokens, chunk)
    {
      var left := tokens[i] - maxNumTokens * chunk;
      localSize := localSize[i := if maxNumTokens < left then maxNumTokens else left];
      if localSize[i] <= 0 {
        localSize := localSize[i := 1];
      }
    }
  }

  // ---------------------------------------------------------------------------------
  // Spreading over sequence-parallel ranks.

  lemma CeilCovers(n: nat, d: nat)
    requires d > 0
    ensures n <= d * CeilDiv(n, d) < n + d
  {
    var x := n + d - 1;
    assert x == d * (x / d) + x % d;
  }

  lemma {:induction false} SpLength(numTokens: seq<nat>, spSize: nat)
    requires spSize > 0
    ensures |SpNumTokens(numTokens, spSize)| == |numTokens| * spSize
  {
    if numTokens != [] {
      SpLength(numTokens[..|numTokens| - 1], spSize);
      var k := |numTokens| - 1;
      assert (k + 1) * spSize == k * spSize + spSize;
    }
  }

  lemma {:induction false} SumOfConcatenation(a: seq<nat>, b: seq<nat>)
    ensures Sum(a + b) == Sum(a) + Sum(b)
  {
    if b == [] {
      assert a + b == a;
    } else {
      SumOfConcatenation(a, b[..|b| - 1]);
      assert (a + b)[..|a + b| - 1] == a + b[..|b| - 1];
    }
  }

  lemma {:induction false} SumOfRepeat(x: nat, n: nat)
    ensures Sum(Repeat(x, n)) == n * x
  {
    if n > 0 {
      SumOfRepeat(x, n - 1);
      assert Repeat(x, n)[..n - 1] == Repeat(x, n - 1);
      assert (n - 1) * x + x == n * x;
    }
  }

  /** The pieces cover the tokens of all ranks, with less than one token of padding per piece. */
  lemma {:induction false} SpPiecesCover(numTokens: seq<nat>, spSize: nat)
    requires spSize > 0
    ensures Sum(numTokens) <= Sum(SpNumTokens(numTokens, spSize)) <= Sum(numTokens) + |numTokens| * (spSize - 1)
  {
    if numTokens != [] {
      var k := |numTokens| - 1;
      var init, n := numTokens[..k], numTokens[k];
      SpPiecesCover(init, spSize);
      SumOfConcatenation(SpNumTokens(init, spSize), Repeat(CeilDiv(n, spSize), spSize));
      SumOfRepeat(CeilDiv(n, spSize), spSize);
      CeilCovers(n, spSize);
      assert (k + 1) * (spSize - 1) == k * (spSize - 1) + (spSize - 1);
    }
  }

  /** The pieces of one rank are equal, and cover its tokens with less than `spSize` of padding. */
  lemma {:induction false} RankPieces(numTokens: seq<nat>, spSize: nat, r: nat, from: nat)
    requires spSize > 0 && r < |numTokens| && from == r * spSize
    ensures from + spSize <= |SpNumTokens(numTokens, spSize)|
    ensures var pieces := SpNumTokens(numTokens, spSize)[from..from + spSize];
            && (forall i :: 0 <= i < spSize ==> pieces[i] == CeilDiv(numTokens[r], spSize))
            && numTokens[r] <= Sum(pieces) < numTokens[r] + spSize
  {
    var k := |numTokens| - 1;
    var init, last := numTokens[..k], Repeat(CeilDiv(numTokens[k], spSize), spSize);
    var all := SpNumTokens(init, spSize);
    SpLength(init, spSize);
    if r < k {
      RankPieces(init, spSize, r, from);
      assert (all + last)[from..from + spSize] == all[from..from + spSize];
    } else {
      assert (all + last)[from..from + spSize] == last;
      SumOfRepeat(CeilDiv(numTokens[k], spSize), spSize);
      CeilCovers(numTokens[k], spSize);
    }
  }

  /** The tokens of the first ranks, each rounded up to a multiple of `spSize`. */
  function RoundedUp(numTokens: seq<nat>, spSize: nat): nat
    requires spSize > 0
  {
    if numTokens == [] then 0
    else RoundedUp(numTokens[..|numTokens| - 1], spSize) + spSize * CeilDiv(numTokens[|numTokens| - 1], spSize)
  }

  lemma {:induction false} PiecesSum(numTokens: seq<nat>, spSize: nat)
    requires spSize > 0
    ensures Sum(SpNumTokens(numTokens, spSize)) == RoundedUp(numTokens, spSize)
  {
    if numTokens != [] {
      var k := |numTokens| - 1;
      var init, c := numTokens[..k], CeilDiv(numTokens[k], spSize);
      PiecesSum(init, spSize);
      SumOfConcatenation(SpNumTokens(init, spSize), Repeat(c, spSize));
      SumOfRepeat(c, spSize);
    }
  }

  lemma {:induction false} PiecesOfPrefix(numTokens: seq<nat>, spSize: nat, r: nat)
    requires spSize > 0 && r <= |numTokens|
    ensures SpNumTokens(numTokens[..r], spSize) <= SpNumTokens(numTokens, spSize)
  {
    var n := |numTokens|;
    if r == n {
      assert numTokens[..r] == numTokens;
    } else {
      PiecesOfPrefix(numTokens[..n - 1], spSize, r);
      assert numTokens[..n - 1][..r] == numTokens[..r];
    }
  }

  lemma TakePieces(tokens: seq<nat>, before: seq<nat>, c: nat, n: nat)
    requires before <= tokens && |before| + n <= |tokens|
    requires forall k :: |before| <= k < |before| + n ==> tokens[k] == c
    ensures tokens[..|before| + n] == before + Repeat(c, n)
  {
  }

  lemma PieceAt(numTokens: seq<nat>, spSize: nat, r: nat, from: nat, k: nat)
    requires spSize > 0 && r < |numTokens| && from == r * spSize && from <= k < from + spSize
    ensures from + spSize <= |SpNumTokens(numTokens, spSize)|
    ensures SpNumTokens(numTokens, spSize)[k] == CeilDiv(numTokens[r], spSize)
  {
    RankPieces(numTokens, spSize, r, from);
    assert SpNumTokens(numTokens, spSize)[from..from + spSize][k - from] == SpNumTokens(numTokens, spSize)[k];
  }

  /** The pieces up to piece `i` of rank `r`: those of the earlier ranks, and then equal ones. */
  lemma PiecesUpTo(numTokens: seq<nat>, spSize: nat, r: nat, i: nat, from: nat)
    requires spSize > 0 && r < |numTokens| && i <= spSize && from == r * spSize
    ensures from + spSize <= |SpNumTokens(numTokens, spSize)|
    ensures SpNumTokens(numTokens, spSize)[..from + i]
         == SpNumTokens(numTokens[..r], spSize) + Repeat(CeilDiv(numTokens[r], spSize), i)
  {
    var tokens, c := SpNumTokens(numTokens, spSize), CeilDiv(numTokens[r], spSize);
    PieceAt(numTokens, spSize, r, from, from);
    PiecesOfPrefix(numTokens, spSize, r);
    SpLength(numTokens[..r], spSize);
    forall k | from <= k < from + spSize ensures tokens[k] == c { PieceAt(numTokens, spSize, r, from, k); }
    TakePieces(tokens, SpNumTokens(numTokens[..r], spSize), c, i);
  }

  lemma SumOfPieces(before: seq<nat>, c: nat, n: nat)
    ensures Sum(before + Repeat(c, n)) == Sum(before) + n * c
  {
    SumOfConcatenation(before, Repeat(c, n));
    SumOfRepeat(c, n);
  }

  /** Where a piece ends in the running sums: piece `i` of rank `r` comes after the rounded-up tokens of the
      earlier ranks and after the earlier pieces of its own rank. */
  lemma CuTokensOfPiece(numTokens: seq<nat>, spSize: nat, r: nat, i: nat, from: nat)
    requires spSize > 0 && r < |numTokens| && i < spSize && from == r * spSize
    ensures from + i < |CuTokensAcrossSp(numTokens, spSize)|
    ensures CuTokensAcrossSp(numTokens, spSize)[from + i]
         == RoundedUp(numTokens[..r], spSize) + (i + 1) * CeilDiv(numTokens[r], spSize)
  {
    PiecesUpTo(numTokens, spSize, r, i + 1, from);
    PiecesSum(numTokens[..r], spSize);
    SumOfPieces(SpNumTokens(numTokens[..r], spSize), CeilDiv(numTokens[r], spSize), i + 1);
  }

  /** The running sums end with all tokens, rounded up rank by rank. */
  lemma CuTokensEndWithTotal(numTokens: seq<nat>, spSize: nat)
    requires spSize > 0 && numTokens != []
    ensures var cu := CuTokensAcrossSp(numTokens, spSize);
            |cu| > 0 && cu[|cu| - 1] == RoundedUp(numTokens, spSize)
  {
    SpLength(numTokens, spSize);
    PiecesSum(numTokens, spSize);
    var tokens := SpNumTokens(numTokens, spSize);
    assert |numTokens| * spSize >= 1;
    assert tokens[..|tokens|] == tokens;
  }

  // ---------------------------------------------------------------------------------
  // Chunks in lockstep.

  ghost function TotalOverChunks(tokens: nat, maxNumTokens: nat, chunks: nat): int {
    if chunks == 0 then 0
    else TotalOverChunks(tokens, maxNumTokens, chunks - 1) + LocalSize(tokens, maxNumTokens, chunks - 1)
  }

  function Max(a: int, b: int): int { if a < b then b else a }

  /** A rank still has tokens left for chunk `c` exactly when `c` is below the rounded-up quotient. */
  lemma LeftIff(tokens: nat, m: nat, c: nat, q: nat)
    requires m >= 1 && q == CeilDiv(tokens, m)
    ensures c < q <==> m * c < tokens
  {
    CeilCovers(tokens, m);
    if c < q { MulLeq(c + 1, q, m); } else { MulLeq(q, c, m); }
  }

  lemma ChunkAdds(tokens: nat, m: nat, c: nat, q: nat, done: nat)
    requires m >= 1 && done == m * c && (c < q <==> done < tokens)
    ensures Min(done, tokens) + Max(0, c - q) + LocalSize(tokens, m, c)
         == Min(done + m, tokens) + Max(0, c + 1 - q)
  {
  }

  /** Over any number of chunks a rank gets its own tokens as far as they go, and one token for every
      chunk after it is done. */
  lemma {:induction false} ChunksConserveTokens(tokens: nat, m: nat, chunks: nat)
    requires m >= 1
    ensures TotalOverChunks(tokens, m, chunks) == Min(m * chunks, tokens) + Max(0, chunks - CeilDiv(tokens, m))
  {
    if chunks > 0 {
      var c, q := chunks - 1, CeilDiv(tokens, m);
      ChunksConserveTokens(tokens, m, c);
      LeftIff(tokens, m, c, q);
      ChunkAdds(tokens, m, c, q, m * c);
      assert m * chunks == m * c + m;
    }
  }
}
