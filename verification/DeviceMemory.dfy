/** Live handles and mapped ranges as values, and what mapping and unmapping a list of chunks does to them. */
module DeviceMemory {
  import opened Arithmetic
  import opened ChunkPlan

  datatype Mapping = Mapping(size: nat, handle: nat)

  ghost function Elements<T>(s: seq<T>): set<T> {
    set x | x in s
  }

  /** The address of chunk `i`. */
  function Address(base: nat, sizes: seq<nat>, i: nat): nat
    requires i <= |sizes|
  {
    base + Sum(sizes[..i])
  }

  ghost function Addresses(base: nat, sizes: seq<nat>, n: nat): set<nat>
    requires n <= |sizes|
  {
    set i | 0 <= i < n :: Address(base, sizes, i)
  }

  ghost function CreateAll(live: map<nat, nat>, sizes: seq<nat>, hs: seq<nat>, n: nat): map<nat, nat>
    requires n <= |hs| && n <= |sizes|
  {
    if n == 0 then live else CreateAll(live, sizes, hs, n - 1)[hs[n - 1] := sizes[n - 1]]
  }

  ghost function MapAll(mapped: map<nat, Mapping>, base: nat, sizes: seq<nat>, hs: seq<nat>, n: nat): map<nat, Mapping>
    requires n <= |hs| && n <= |sizes|
  {
    if n == 0 then mapped
    else MapAll(mapped, base, sizes, hs, n - 1)[Address(base, sizes, n - 1) := Mapping(sizes[n - 1], hs[n - 1])]
  }

  lemma MapAllStep(mapped: map<nat, Mapping>, base: nat, sizes: seq<nat>, hs: seq<nat>, i: nat, next: nat, address: nat)
    requires i < next == i + 1 <= |hs| && next <= |sizes| && address == Address(base, sizes, i)
    ensures MapAll(mapped, base, sizes, hs, next) == MapAll(mapped, base, sizes, hs, i)[address := Mapping(sizes[i], hs[i])]
  {
  }

  lemma AddressesStep(base: nat, sizes: seq<nat>, i: nat, next: nat, address: nat)
    requires i < next == i + 1 <= |sizes| && address == Address(base, sizes, i)
    ensures Addresses(base, sizes, next) == Addresses(base, sizes, i) + {address}
  {
  }

  /** The first `n` chunks are not empty and their addresses are free. */
  ghost predicate FreeAt(mapped: map<nat, Mapping>, base: nat, sizes: seq<nat>, n: nat)
    requires n <= |sizes|
  {
    forall k :: 0 <= k < n ==> sizes[k] > 0 && Address(base, sizes, k) !in mapped
  }

  lemma FreeStep(mapped: map<nat, Mapping>, base: nat, sizes: seq<nat>, i: nat, next: nat, address: nat)
    requires i < next == i + 1 <= |sizes| && FreeAt(mapped, base, sizes, i)
    requires sizes[i] > 0 && address == Address(base, sizes, i) && address !in mapped
    ensures FreeAt(mapped, base, sizes, next)
  {
  }

  lemma AddressStep(base: nat, sizes: seq<nat>, i: nat)
    requires i < |sizes|
    ensures Address(base, sizes, i + 1) == Address(base, sizes, i) + sizes[i]
  {
    assert sizes[..i + 1][..i] == sizes[..i];
  }

  lemma {:induction false} AddressesGrow(base: nat, sizes: seq<nat>, i: nat, j: nat)
    requires i <= j <= |sizes|
    ensures Address(base, sizes, i) <= Address(base, sizes, j)
    ensures (forall k :: i <= k < j ==> sizes[k] > 0) && i < j ==> Address(base, sizes, i) < Address(base, sizes, j)
    decreases j - i
  {
    if i < j {
      AddressesGrow(base, sizes, i, j - 1);
      AddressStep(base, sizes, j - 1);
    }
  }

  // ---------------------------------------------------------------------------------
  // Tiling.

  /** Chunk `i` holds the address `x`. */
  predicate Holds(base: nat, sizes: seq<nat>, i: nat, x: nat)
    requires i < |sizes|
  {
    Address(base, sizes, i) <= x < Address(base, sizes, i) + sizes[i]
  }

  lemma {:induction false} ChunkHolding(base: nat, sizes: seq<nat>, n: nat, x: nat) returns (i: nat)
    requires n <= |sizes| && base <= x < Address(base, sizes, n)
    ensures i < n && Holds(base, sizes, i, x)
  {
    i := n - 1;
    AddressStep(base, sizes, i);
    if x < Address(base, sizes, i) {
      i := ChunkHolding(base, sizes, n - 1, x);
    }
  }

  /** The mapped ranges tile the reserved range: every address lies in exactly one chunk. */
  lemma RangesTile(base: nat, sizes: seq<nat>, x: nat)
    requires base <= x < base + Sum(sizes)
    ensures exists i :: 0 <= i < |sizes| && Holds(base, sizes, i, x)
    ensures forall i, j :: 0 <= i < j < |sizes| ==> !(Holds(base, sizes, i, x) && Holds(base, sizes, j, x))
  {
    assert sizes[..|sizes|] == sizes;
    var k := ChunkHolding(base, sizes, |sizes|, x);
    forall i, j | 0 <= i < j < |sizes| ensures !(Holds(base, sizes, i, x) && Holds(base, sizes, j, x)) {
      AddressStep(base, sizes, i);
      AddressesGrow(base, sizes, i + 1, j);
    }
  }

  // ---------------------------------------------------------------------------------
  // Round trips.

  lemma {:induction false} CreateAllKeys(live: map<nat, nat>, sizes: seq<nat>, hs: seq<nat>, n: nat)
    requires n <= |hs| && n <= |sizes|
    ensures CreateAll(live, sizes, hs, n).Keys == live.Keys + Elements(hs[..n])
    ensures forall h :: h in live && h !in hs[..n] ==> CreateAll(live, sizes, hs, n)[h] == live[h]
  {
    if n > 0 {
      CreateAllKeys(live, sizes, hs, n - 1);
      assert hs[..n] == hs[..n - 1] + [hs[n - 1]];
    }
  }

  /** Releasing fresh handles undoes creating them. */
  lemma CreateThenRelease(live: map<nat, nat>, sizes: seq<nat>, hs: seq<nat>, n: nat)
    requires n <= |hs| && n <= |sizes|
    requires forall i :: 0 <= i < n ==> hs[i] !in live
    ensures CreateAll(live, sizes, hs, n) - Elements(hs[..n]) == live
  {
    CreateAllKeys(live, sizes, hs, n);
  }

  lemma {:induction false} MapAllKeys(mapped: map<nat, Mapping>, base: nat, sizes: seq<nat>, hs: seq<nat>, n: nat)
    requires n <= |hs| && n <= |sizes|
    ensures MapAll(mapped, base, sizes, hs, n).Keys == mapped.Keys + Addresses(base, sizes, n)
    ensures forall a :: a in mapped && a !in Addresses(base, sizes, n) ==> MapAll(mapped, base, sizes, hs, n)[a] == mapped[a]
  {
    if n > 0 {
      MapAllKeys(mapped, base, sizes, hs, n - 1);
      assert Addresses(base, sizes, n) == Addresses(base, sizes, n - 1) + {Address(base, sizes, n - 1)};
    }
  }

  /** Unmapping the chunk addresses undoes mapping them, when they were free before. */
  lemma MapThenUnmap(mapped: map<nat, Mapping>, base: nat, sizes: seq<nat>, hs: seq<nat>, n: nat)
    requires n <= |hs| && n <= |sizes|
    requires FreeAt(mapped, base, sizes, n)
    ensures MapAll(mapped, base, sizes, hs, n) - Addresses(base, sizes, n) == mapped
  {
    MapAllKeys(mapped, base, sizes, hs, n);
  }

  /** Every mapped chunk can be found at its address. */
  lemma {:induction false} MapAllAt(mapped: map<nat, Mapping>, base: nat, sizes: seq<nat>, hs: seq<nat>, n: nat, i: nat)
    requires i < n <= |hs| && n <= |sizes| && forall k :: 0 <= k < n ==> sizes[k] > 0
    ensures Address(base, sizes, i) in MapAll(mapped, base, sizes, hs, n)
    ensures MapAll(mapped, base, sizes, hs, n)[Address(base, sizes, i)] == Mapping(sizes[i], hs[i])
  {
    if i < n - 1 {
      MapAllAt(mapped, base, sizes, hs, n - 1, i);
      AddressesGrow(base, sizes, i, n - 1);
    }
  }

  lemma {:induction false} CreateAllAt(live: map<nat, nat>, sizes: seq<nat>, hs: seq<nat>, n: nat, i: nat)
    requires i < n <= |hs| && n <= |sizes| && forall j, k :: 0 <= j < k < n ==> hs[j] != hs[k]
    ensures hs[i] in CreateAll(live, sizes, hs, n) && CreateAll(live, sizes, hs, n)[hs[i]] == sizes[i]
  {
    if i < n - 1 { CreateAllAt(live, sizes, hs, n - 1, i); }
  }

  // ---------------------------------------------------------------------------------
  // Sleep and wake cycles.

  datatype Memory = Memory(live: map<nat, nat>, mapped: map<nat, Mapping>)

  /** `after` is `before` with every chunk created under a fresh handle and mapped at its free address. */
  ghost predicate ChunksMapped(before: Memory, after: Memory, base: nat, sizes: seq<nat>, hs: seq<nat>) {
    && |hs| == |sizes|
    && (forall i :: 0 <= i < |hs| ==> hs[i] !in before.live)
    && (forall i, j :: 0 <= i < j < |hs| ==> hs[i] != hs[j])
    && FreeAt(before.mapped, base, sizes, |sizes|)
    && after.live == CreateAll(before.live, sizes, hs, |sizes|)
    && after.mapped == MapAll(before.mapped, base, sizes, hs, |sizes|)
  }

  /** `after` is `before` without the chunk addresses and without the handles. */
  ghost predicate ChunksUnmapped(before: Memory, after: Memory, base: nat, sizes: seq<nat>, hs: seq<nat>) {
    && after.live == before.live - Elements(hs)
    && after.mapped == before.mapped - Addresses(base, sizes, |sizes|)
  }

  /** Unmapping undoes mapping. */
  lemma UnmapUndoesMap(m0: Memory, m1: Memory, m2: Memory, base: nat, sizes: seq<nat>, hs: seq<nat>)
    requires ChunksMapped(m0, m1, base, sizes, hs) && ChunksUnmapped(m1, m2, base, sizes, hs)
    ensures m2 == m0
  {
    assert hs[..|sizes|] == hs;
    CreateThenRelease(m0.live, sizes, hs, |sizes|);
    MapThenUnmap(m0.mapped, base, sizes, hs, |sizes|);
  }

  /** Any number of map and unmap cycles, each with its own handles, leaves the memory as it was. */
  lemma {:induction false} CyclesRestore(ms: seq<Memory>, base: nat, sizes: seq<nat>, hss: seq<seq<nat>>, k: nat)
    requires |ms| == 2 * k + 1 && |hss| == k
    requires forall c :: 0 <= c < k ==>
               ChunksMapped(ms[2 * c], ms[2 * c + 1], base, sizes, hss[c])
               && ChunksUnmapped(ms[2 * c + 1], ms[2 * c + 2], base, sizes, hss[c])
    ensures ms[2 * k] == ms[0]
  {
    if k > 0 {
      var p := k - 1;
      forall c | 0 <= c < p
        ensures ChunksMapped(ms[..2 * p + 1][2 * c], ms[..2 * p + 1][2 * c + 1], base, sizes, hss[..p][c])
        ensures ChunksUnmapped(ms[..2 * p + 1][2 * c + 1], ms[..2 * p + 1][2 * c + 2], base, sizes, hss[..p][c])
      {
        assert hss[..p][c] == hss[c];
      }
      CyclesRestore(ms[..2 * p + 1], base, sizes, hss[..p], p);
      assert hss[p] == hss[p];
      UnmapUndoesMap(ms[2 * p], ms[2 * p + 1], ms[2 * p + 2], base, sizes, hss[p]);
    }
  }
}
