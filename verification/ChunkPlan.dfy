/**
 Chunk arithmetic of the ROCm allocator (csrc/cumem_allocator.cpp), with the wrap-around of
 64-bit unsigned integers written out.
 */
module ChunkPlan {
  import opened Wrappers
  import opened Arithmetic

  const TWO64 := 0x1_0000_0000_0000_0000

  const MB := 1024 * 1024

  const DEFAULT_MEMCREATE_CHUNK_SIZE := 256 * MB

  datatype Error = DivisionByZero

  function Wrap(x: int): nat {
    x % TWO64
  }

  /** The chunk size in bytes for the environment's value in megabytes, if one could be parsed. */
  function MemcreateChunkSize(env: Option<nat>): (r: nat)
    ensures 0 < r < TWO64 && r % MB == 0
    ensures r == if env.Some? && 0 < env.value * MB < TWO64 then env.value * MB else DEFAULT_MEMCREATE_CHUNK_SIZE
  {
    if env.None? || env.value == 0 || env.value > (TWO64 - 1) / MB then DEFAULT_MEMCREATE_CHUNK_SIZE
    else env.value * MB
  }

  function AlignUp(n: nat, granularity: nat): nat
    requires granularity > 0
  {
    Wrap(Wrap(n + granularity - 1) / granularity * granularity)
  }

  function NumChunks(alignedSize: nat, chunkSize: nat): nat
    requires chunkSize > 0
  {
    Wrap(alignedSize + chunkSize - 1) / chunkSize
  }

  // ---------------------------------------------------------------------------------
  // Division facts.

  lemma DivideExactly(x: nat, d: nat)
    requires d > 0
    ensures x / d * d <= x < x / d * d + d
  {
    assert x == d * (x / d) + x % d;
  }

  lemma QuotientBelow(x: nat, d: nat)
    requires x < d
    ensures x / d == 0
  {
  }

  lemma OneMore(k: nat, d: nat)
    ensures (k + 1) * d == k * d + d
  {
  }

  lemma LeastMultiple(n: nat, d: nat, q: nat, k: nat)
    requires d > 0 && q * d < n + d && k * d >= n
    ensures q * d <= k * d
  {
    if k < q {
      MulLeq(k + 1, q, d);
      OneMore(k, d);
    } else {
      MulLeq(q, k, d);
    }
  }

  /** The shape of an aligned size: a quotient times the granularity. */
  lemma AlignUpShape(n: nat, g: nat) returns (q: nat)
    requires n < TWO64 && 0 < g < TWO64
    ensures AlignUp(n, g) == q * g
    ensures n + g - 1 < TWO64 ==> n <= q * g < n + g
    ensures n + g - 1 >= TWO64 ==> q == 0
  {
    var x := Wrap(n + g - 1);
    q := x / g;
    DivideExactly(x, g);
    assert 0 <= q * g <= x < TWO64;
    assert Wrap(q * g) == q * g;
    if n + g - 1 >= TWO64 {
      assert x == n + g - 1 - TWO64;
      QuotientBelow(x, g);
    }
  }

  /** Aligning gives the least multiple of the granularity that holds `n` bytes, exactly when the
      rounding sum does not wrap; otherwise it gives zero. */
  lemma AlignUpIsLeastMultiple(n: nat, g: nat)
    requires n < TWO64 && 0 < g < TWO64
    ensures AlignUp(n, g) % g == 0
    ensures n + g - 1 < TWO64 ==> n <= AlignUp(n, g) < n + g
    ensures n + g - 1 < TWO64 ==> forall k: nat {:trigger k * g} :: k * g >= n ==> AlignUp(n, g) <= k * g
    ensures n + g - 1 >= TWO64 ==> AlignUp(n, g) == 0
  {
    var q := AlignUpShape(n, g);
    MultipleRemainder(q, g);
    if n + g - 1 < TWO64 {
      forall k: nat {:trigger k * g} | k * g >= n ensures q * g <= k * g { LeastMultiple(n, g, q, k); }
    }
  }

  lemma MultipleRemainder(q: nat, d: nat)
    requires d > 0
    ensures (q * d) % d == 0
  {
    ModUnique(q * d, d, q, 0);
  }

  /** So an aligned size is at least the size it was computed for exactly when nothing wrapped. */
  lemma AlignUpCovers(n: nat, g: nat)
    requires 0 < n < TWO64 && 0 < g < TWO64
    ensures AlignUp(n, g) >= n <==> n + g - 1 < TWO64
  {
    AlignUpIsLeastMultiple(n, g);
  }

  // ---------------------------------------------------------------------------------
  // Splitting an aligned size into chunks.

  function ChunkAt(alignedSize: nat, chunkSize: nat, i: nat): nat {
    Min(Wrap(alignedSize - Wrap(i * chunkSize)), chunkSize)
  }

  /** Positive multiples of the granularity, all but the last of the full chunk size, adding up to the total. */
  ghost predicate Tiles(sizes: seq<nat>, total: nat, chunkSize: nat, granularity: nat)
    requires granularity > 0
  {
    && Sum(sizes) == total
    && (forall i :: 0 <= i < |sizes| ==> 0 < sizes[i] <= chunkSize && sizes[i] % granularity == 0)
    && (forall i :: 0 <= i < |sizes| - 1 ==> sizes[i] == chunkSize)
  }

  lemma NumChunksIsCeiling(a: nat, c: nat)
    requires a < TWO64 && 0 < c < TWO64
    ensures a + c - 1 < TWO64 ==> a <= NumChunks(a, c) * c < a + c
    ensures a + c - 1 >= TWO64 ==> NumChunks(a, c) == 0
  {
    var x := Wrap(a + c - 1);
    DivideExactly(x, c);
    if a + c - 1 >= TWO64 {
      assert x == a + c - 1 - TWO64;
      QuotientBelow(x, c);
    }
  }

  /** Before the last chunk the subtraction does not underflow: a full chunk, then what is left. */
  lemma ChunkAtValue(a: nat, c: nat, i: nat)
    requires a < TWO64 && 0 < c && i * c < a
    ensures ChunkAt(a, c, i) == if i * c + c <= a then c else a - i * c
    ensures ChunkAt(a, c, i) > 0
  {
    assert 0 <= i * c < TWO64;
    assert Wrap(i * c) == i * c;
    assert Wrap(a - i * c) == a - i * c;
  }

  lemma MultipleDifference(p: nat, q: nat, g: nat)
    requires g > 0 && p % g == 0 && q % g == 0 && q <= p
    ensures (p - q) % g == 0
  {
    var i, j := p / g, q / g;
    assert p == i * g && q == j * g;
    assert p - q == (i - j) * g;
    if i < j { MulLeq(i + 1, j, g); OneMore(i, g); }
    MultipleRemainder(i - j, g);
  }

  lemma MultipleOfMultiple(i: nat, c: nat, g: nat)
    requires g > 0 && c % g == 0
    ensures (i * c) % g == 0
  {
    var k := c / g;
    assert c == k * g;
    assert i * c == (i * k) * g;
    MultipleRemainder(i * k, g);
  }

  lemma ChunkIsMultiple(a: nat, c: nat, i: nat, g: nat)
    requires a < TWO64 && 0 < c && i * c < a && g > 0 && a % g == 0 && c % g == 0
    ensures ChunkAt(a, c, i) % g == 0
  {
    ChunkAtValue(a, c, i);
    MultipleOfMultiple(i, c, g);
    MultipleDifference(a, i * c, g);
  }

  ghost function Chunks(a: nat, c: nat): seq<nat>
    requires c > 0
  {
    seq(NumChunks(a, c), i requires i >= 0 => ChunkAt(a, c, i))
  }

  lemma {:induction false} ChunkSum(a: nat, c: nat, s: seq<nat>, i: nat)
    requires a < TWO64 && 0 < c && i <= |s| && (i > 0 ==> (i - 1) * c < a)
    requires forall k :: 0 <= k < i ==> s[k] == ChunkAt(a, c, k)
    ensures Sum(s[..i]) == Min(i * c, a)
  {
    if i > 0 {
      var p := i - 1;
      OneMore(p, c);
      if p > 0 { MulLeq(p - 1, p, c); }
      ChunkSum(a, c, s, p);
      ChunkAtValue(a, c, p);
      assert s[..i][..p] == s[..p];
    }
  }

  /** The chunks tile the aligned size exactly when the rounding sum for their number does not wrap
      (or there is nothing to map); when it wraps there are no chunks at all. */
  lemma ChunksTile(a: nat, c: nat, g: nat)
    requires a < TWO64 && 0 < c < TWO64 && g > 0 && a % g == 0 && c % g == 0
    ensures Tiles(Chunks(a, c), a, c, g) <==> a == 0 || a + c - 1 < TWO64
    ensures a + c - 1 >= TWO64 ==> Chunks(a, c) == []
  {
    var n, s := NumChunks(a, c), Chunks(a, c);
    NumChunksIsCeiling(a, c);
    if a + c - 1 < TWO64 {
      forall i | 0 <= i < n
        ensures i * c < a && 0 < s[i] <= c && s[i] % g == 0 && (i < n - 1 ==> s[i] == c)
      {
        OneMore(i, c);
        MulLeq(i + 1, n, c);
        if i < n - 1 {
          MulLeq(i + 2, n, c);
          OneMore(i + 1, c);
        }
        ChunkAtValue(a, c, i);
        ChunkIsMultiple(a, c, i, g);
      }
      ChunkSum(a, c, s, n);
      assert s[..n] == s;
    } else {
      assert s == [];
    }
  }

  /** The chunk computation of `my_malloc`.  A configured chunk size whose rounding sum wraps is aligned
      to zero, and the division that follows has no result. */
  method PlanChunks(size: nat, granularity: nat, env: Option<nat>)
    returns (alignedSize: nat, r: Result<seq<nat>, Error>)
    requires size < TWO64 && 0 < granularity < TWO64
    ensures alignedSize == AlignUp(size, granularity)
    ensures r.Failure? <==> MemcreateChunkSize(env) + granularity - 1 >= TWO64
    ensures r.Success? ==>
              var chunkSize := AlignUp(MemcreateChunkSize(env), granularity);
              && 0 < chunkSize < TWO64
              && r.value == Chunks(alignedSize, chunkSize)
              && (Tiles(r.value, alignedSize, chunkSize, granularity) <==>
                  alignedSize == 0 || alignedSize + chunkSize - 1 < TWO64)
  {
    alignedSize := AlignUp(size, granularity);
    var baseChunk := MemcreateChunkSize(env);
    var chunkSize := AlignUp(baseChunk, granularity);
    AlignUpIsLeastMultiple(size, granularity);
    AlignUpIsLeastMultiple(baseChunk, granularity);
    if chunkSize == 0 { return alignedSize, Failure(DivisionByZero); }
    var numChunks := NumChunks(alignedSize, chunkSize);
    var chunkSizes := new nat[numChunks];
    for i := 0 to numChunks
      invariant forall k :: 0 <= k < i ==> chunkSizes[k] == ChunkAt(alignedSize, chunkSize, k)
    {
      chunkSizes[i] := Min(Wrap(alignedSize - Wrap(i * chunkSize)), chunkSize);
    }
    assert chunkSizes[..] == Chunks(alignedSize, chunkSize);
    ChunksTile(alignedSize, chunkSize, granularity);
    r := Success(chunkSizes[..]);
  }

  /** The largest configurable chunk size passes the overflow guard of the environment parser and still
      aligns to zero at a granularity of two megabytes. */
  lemma LargestChunkSizeAlignsToZero()
    ensures var base := MemcreateChunkSize(Some((TWO64 - 1) / MB));
            base == TWO64 - MB && AlignUp(base, 2 * MB) == 0
  {
    AlignUpIsLeastMultiple(TWO64 - MB, 2 * MB);
  }

  /** A configured chunk size just below the largest number: it aligns to itself, and the number of chunks
      for four megabytes wraps to zero. */
  lemma HugeChunkSizeMapsNothing()
    ensures var base := MemcreateChunkSize(Some(TWO64 / MB - 2));
            && base == TWO64 - 2 * MB && AlignUp(base, 2 * MB) == base
            && AlignUp(4 * MB, 2 * MB) == 4 * MB
            && Chunks(4 * MB, base) == [] && !Tiles([], 4 * MB, base, 2 * MB)
  {
    AlignUpIsLeastMultiple(4 * MB, 2 * MB);
    NumChunksIsCeiling(4 * MB, TWO64 - 2 * MB);
  }
}
