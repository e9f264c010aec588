/**
 Creating, mapping, unmapping and releasing chunks of device memory
 (csrc/cumem_allocator.cpp, ROCm branch).

 The driver is part of the model: each call reports a status that is given in advance by
 `outcomes`, so that every statement below is about every pattern of failures.  A call that
 reports an error has no effect, and the driver rejects impossible requests.
 */
module CumemAllocator {
  import opened Arithmetic
  import opened ChunkPlan
  import opened DeviceMemory

  const NO_ERROR := 0
  const INVALID_VALUE := 1

  /** A clean-up call as the driver saw it. */
  datatype Call = Unmapped(address: nat, size: nat, status: int) | Released(handle: nat, status: int)

  /** How `CreateAndMap` ended. */
  datatype Outcome =
    | Complete                      // every chunk is mapped and accessible
    | CreateFailed(chunk: nat)
    | MapFailed(chunk: nat)
    | AccessFailed                  // every chunk is mapped, but access was not granted
    | Stale(created: bool)          // an error was pending on entry

  /** The first error in a list of statuses. */
  function FirstError(statuses: seq<int>): int {
    if statuses == [] then NO_ERROR
    else
      var e := FirstError(statuses[..|statuses| - 1]);
      if e != NO_ERROR then e else statuses[|statuses| - 1]
  }

  /** One unmap call per chunk, at the address where the chunk was mapped. */
  ghost function UnmapCalls(base: nat, sizes: seq<nat>, statuses: seq<int>): seq<Call>
    requires |statuses| <= |sizes|
  {
    if statuses == [] then []
    else
      var k := |statuses| - 1;
      UnmapCalls(base, sizes, statuses[..k]) + [Unmapped(Address(base, sizes, k), sizes[k], statuses[k])]
  }

  /** The addresses of the chunks whose unmap call succeeded. */
  ghost function UnmappedAt(base: nat, sizes: seq<nat>, statuses: seq<int>): set<nat>
    requires |statuses| <= |sizes|
  {
    if statuses == [] then {}
    else
      var k := |statuses| - 1;
      UnmappedAt(base, sizes, statuses[..k]) + if statuses[k] == NO_ERROR then {Address(base, sizes, k)} else {}
  }

  /** The handles whose release call succeeded. */
  ghost function ReleasedOf(hs: seq<nat>, statuses: seq<int>): set<nat>
    requires |statuses| <= |hs|
  {
    if statuses == [] then {}
    else
      var k := |statuses| - 1;
      ReleasedOf(hs, statuses[..k]) + if statuses[k] == NO_ERROR then {hs[k]} else {}
  }

  lemma UnmappedStep(base: nat, sizes: seq<nat>, statuses: seq<int>, i: nat, address: nat, status: int)
    requires i == |statuses| < |sizes| && address == Address(base, sizes, i)
    ensures UnmappedAt(base, sizes, statuses + [status])
         == UnmappedAt(base, sizes, statuses) + if status == NO_ERROR then {address} else {}
  {
    assert (statuses + [status])[..i] == statuses;
  }

  lemma ReleasedStep(hs: seq<nat>, statuses: seq<int>, i: nat, status: int)
    requires i == |statuses| < |hs|
    ensures ReleasedOf(hs, statuses + [status]) == ReleasedOf(hs, statuses) + if status == NO_ERROR then {hs[i]} else {}
  {
    assert (statuses + [status])[..i] == statuses;
  }

  /** When every unmap call succeeds, every chunk is gone. */
  lemma {:induction false} AllUnmapped(base: nat, sizes: seq<nat>, statuses: seq<int>)
    requires |statuses| <= |sizes| && FirstError(statuses) == NO_ERROR
    ensures UnmappedAt(base, sizes, statuses) == Addresses(base, sizes, |statuses|)
  {
    if statuses != [] {
      var k := |statuses| - 1;
      AllUnmapped(base, sizes, statuses[..k]);
      AddressesStep(base, sizes, k, k + 1, Address(base, sizes, k));
    }
  }

  /** When every release call succeeds, every handle is gone. */
  lemma {:induction false} AllReleased(hs: seq<nat>, statuses: seq<int>)
    requires |statuses| <= |hs| && FirstError(statuses) == NO_ERROR
    ensures ReleasedOf(hs, statuses) == Elements(hs[..|statuses|])
  {
    if statuses != [] {
      var k := |statuses| - 1;
      AllReleased(hs, statuses[..k]);
      assert hs[..k + 1] == hs[..k] + [hs[k]];
    }
  }

  /** One release call per handle. */
  ghost function ReleaseCalls(hs: seq<nat>, statuses: seq<int>): seq<Call>
    requires |statuses| <= |hs|
  {
    if statuses == [] then []
    else
      var k := |statuses| - 1;
      ReleaseCalls(hs, statuses[..k]) + [Released(hs[k], statuses[k])]
  }

  lemma UnmapCallsStep(base: nat, sizes: seq<nat>, statuses: seq<int>, i: nat, address: nat, status: int)
    requires i == |statuses| < |sizes| && address == Address(base, sizes, i)
    ensures UnmapCalls(base, sizes, statuses + [status]) ==
            UnmapCalls(base, sizes, statuses) + [Unmapped(address, sizes[i], status)]
    ensures FirstError(statuses + [status]) == if FirstError(statuses) != NO_ERROR then FirstError(statuses) else status
  {
    assert (statuses + [status])[..i] == statuses;
  }

  lemma ReleaseCallsStep(hs: seq<nat>, statuses: seq<int>, i: nat, status: int)
    requires i == |statuses| < |hs|
    ensures ReleaseCalls(hs, statuses + [status]) == ReleaseCalls(hs, statuses) + [Released(hs[i], status)]
    ensures FirstError(statuses + [status]) == if FirstError(statuses) != NO_ERROR then FirstError(statuses) else status
  {
    assert (statuses + [status])[..i] == statuses;
  }

  lemma {:induction false} FirstErrorOfBoth(a: seq<int>, b: seq<int>)
    ensures FirstError(a + b) == if FirstError(a) != NO_ERROR then FirstError(a) else FirstError(b)
  {
    if b == [] {
      assert a + b == a;
    } else {
      FirstErrorOfBoth(a, b[..|b| - 1]);
      assert (a + b)[..|a + b| - 1] == a + b[..|b| - 1];
    }
  }

  predicate Overlaps(mapped: map<nat, Mapping>, address: nat, size: nat) {
    exists a :: a in mapped && a < address + size && address < a + mapped[a].size
  }

  /** A request that a driver can grant. */
  predicate Mappable(live: map<nat, nat>, mapped: map<nat, Mapping>, address: nat, size: nat, h: nat) {
    size > 0 && h in live && live[h] == size && address !in mapped && !Overlaps(mapped, address, size)
  }

  /** The address lies in a mapped range. */
  predicate IsMapped(mapped: map<nat, Mapping>, x: nat) {
    exists a :: a in mapped && a <= x < a + mapped[a].size
  }

  /** There is a range, and all of it is mapped. */
  predicate Backed(mapped: map<nat, Mapping>, address: nat, size: nat) {
    size > 0 && forall x :: address <= x < address + size ==> IsMapped(mapped, x)
  }

  /** A range overlaps what is mapped exactly when they share an address. */
  lemma OverlapIsShared(mapped: map<nat, Mapping>, address: nat, size: nat)
    requires size > 0 && forall a :: a in mapped ==> mapped[a].size > 0
    ensures Overlaps(mapped, address, size) <==> exists x :: address <= x < address + size && IsMapped(mapped, x)
  {
    if Overlaps(mapped, address, size) {
      var a :| a in mapped && a < address + size && address < a + mapped[a].size;
      var x := if a < address then address else a;
      assert IsMapped(mapped, x);
    }
  }

  /** Nothing is mapped in the range that the chunks are to fill. */
  ghost predicate RangeFree(mapped: map<nat, Mapping>, base: nat, sizes: seq<nat>) {
    && (forall i :: 0 <= i < |sizes| ==> sizes[i] > 0)
    && forall a :: a in mapped ==> (a < base && a + mapped[a].size <= base) || base + Sum(sizes) <= a
  }

  /** The range is free, and each chunk has a handle of its size. */
  ghost predicate Prepared(live: map<nat, nat>, mapped: map<nat, Mapping>, base: nat, sizes: seq<nat>, hs: seq<nat>) {
    && |hs| == |sizes| && RangeFree(mapped, base, sizes)
    && forall i :: 0 <= i < |sizes| ==> hs[i] in live && live[hs[i]] == sizes[i]
  }

  /** After `i` chunks the next map request is possible. */
  lemma NextIsMappable(live: map<nat, nat>, mapped: map<nat, Mapping>, base: nat, sizes: seq<nat>, hs: seq<nat>,
                       i: nat, address: nat)
    requires Prepared(live, mapped, base, sizes, hs) && i < |sizes| && address == Address(base, sizes, i)
    ensures Mappable(live, MapAll(mapped, base, sizes, hs, i), address, sizes[i], hs[i])
  {
    var m := MapAll(mapped, base, sizes, hs, i);
    MapAllKeys(mapped, base, sizes, hs, i);
    AddressWithin(base, sizes, i);
    forall a | a in m ensures a != address && (a + m[a].size <= address || address + sizes[i] <= a) {
      if a in Addresses(base, sizes, i) {
        var k :| 0 <= k < i && a == Address(base, sizes, k);
        EarlierChunk(mapped, base, sizes, hs, i, k);
      }
    }
  }

  lemma EarlierChunk(mapped: map<nat, Mapping>, base: nat, sizes: seq<nat>, hs: seq<nat>, i: nat, k: nat)
    requires k < i <= |sizes| && |hs| == |sizes| && forall j :: 0 <= j < |sizes| ==> sizes[j] > 0
    ensures var m, a := MapAll(mapped, base, sizes, hs, i), Address(base, sizes, k);
            a in m && a < a + m[a].size <= Address(base, sizes, i)
  {
    MapAllAt(mapped, base, sizes, hs, i, k);
    AddressStep(base, sizes, k);
    AddressesGrow(base, sizes, k + 1, i);
  }

  /** What mapping one more chunk does to the bookkeeping. */
  lemma MapStep(before: map<nat, Mapping>, mapped: map<nat, Mapping>, base: nat, sizes: seq<nat>, hs: seq<nat>,
                i: nat, next: nat, address: nat)
    requires i + 1 == next <= |sizes| && |hs| == |sizes| && address == Address(base, sizes, i)
    requires mapped == MapAll(before, base, sizes, hs, i) && FreeAt(before, base, sizes, i)
    ensures MapAll(before, base, sizes, hs, next) == mapped[address := Mapping(sizes[i], hs[i])]
    ensures sizes[i] > 0 && address !in mapped ==> FreeAt(before, base, sizes, next)
    ensures Address(base, sizes, next) == address + sizes[i]
  {
    MapAllStep(before, base, sizes, hs, i, next, address);
    AddressStep(base, sizes, i);
    if sizes[i] > 0 && address !in mapped {
      StillThere(before, base, sizes, hs, i, address);
      FreeStep(before, base, sizes, i, next, address);
    }
  }

  lemma StillThere(before: map<nat, Mapping>, base: nat, sizes: seq<nat>, hs: seq<nat>, i: nat, address: nat)
    requires i <= |sizes| && |hs| == |sizes| && address !in MapAll(before, base, sizes, hs, i)
    ensures address !in before
  {
    MapAllKeys(before, base, sizes, hs, i);
  }

  /** The mapped chunks back the whole range. */
  lemma ChunksBack(before: map<nat, Mapping>, base: nat, sizes: seq<nat>, hs: seq<nat>)
    requires |hs| == |sizes| && FreeAt(before, base, sizes, |sizes|) && Sum(sizes) > 0
    ensures Backed(MapAll(before, base, sizes, hs, |sizes|), base, Sum(sizes))
  {
    var m := MapAll(before, base, sizes, hs, |sizes|);
    forall x | base <= x < base + Sum(sizes) ensures IsMapped(m, x) {
      RangesTile(base, sizes, x);
      var i :| 0 <= i < |sizes| && Holds(base, sizes, i, x);
      MapAllAt(before, base, sizes, hs, |sizes|, i);
      assert Address(base, sizes, i) in m;
    }
  }

  lemma AddressWithin(base: nat, sizes: seq<nat>, i: nat)
    requires i < |sizes|
    ensures base <= Address(base, sizes, i) && Address(base, sizes, i) + sizes[i] <= base + Sum(sizes)
  {
    AddressStep(base, sizes, i);
    AddressesGrow(base, sizes, i + 1, |sizes|);
    AddressesGrow(base, sizes, 0, i);
    assert sizes[..|sizes|] == sizes;
  }

  /** Chunks `i..` are mapped at their addresses. */
  ghost predicate Placed(mapped: map<nat, Mapping>, base: nat, sizes: seq<nat>, i: nat) {
    forall k :: i <= k < |sizes| ==>
      sizes[k] > 0 && Address(base, sizes, k) in mapped && mapped[Address(base, sizes, k)].size == sizes[k]
  }

  lemma PlacedApart(mapped: map<nat, Mapping>, base: nat, sizes: seq<nat>, i: nat, next: nat, address: nat)
    requires i + 1 == next <= |sizes| && Placed(mapped, base, sizes, i) && address == Address(base, sizes, i)
    ensures address in mapped && mapped[address].size == sizes[i]
    ensures Placed(mapped, base, sizes, next) && Placed(mapped - {address}, base, sizes, next)
  {
    forall k | next <= k < |sizes| ensures Address(base, sizes, k) != address { AddressesGrow(base, sizes, i, k); }
  }

  /** Handles `i..` are live and distinct. */
  ghost predicate AllLive(live: map<nat, nat>, hs: seq<nat>, i: nat) {
    && (forall k :: i <= k < |hs| ==> hs[k] in live)
    && forall j, k :: i <= j < k < |hs| ==> hs[j] != hs[k]
  }

  /** Chunks that were mapped can be unmapped and released: nothing is missing, and no handle occurs twice. */
  lemma MappedChunksAreThere(before: Memory, after: Memory, base: nat, sizes: seq<nat>, hs: seq<nat>)
    requires ChunksMapped(before, after, base, sizes, hs)
    ensures Placed(after.mapped, base, sizes, 0) && AllLive(after.live, hs, 0)
  {
    forall k | 0 <= k < |sizes|
      ensures sizes[k] > 0 && Address(base, sizes, k) in after.mapped
      ensures after.mapped[Address(base, sizes, k)].size == sizes[k] && hs[k] in after.live
    {
      MapAllAt(before.mapped, base, sizes, hs, |sizes|, k);
      CreateAllAt(before.live, sizes, hs, |sizes|, k);
    }
  }

  /** The first `n` create calls succeeded: each handle is new, and holds its size. */
  ghost predicate Created(before: map<nat, nat>, first: nat, sizes: seq<nat>, hs: seq<nat>, n: nat,
                          live: map<nat, nat>, next: nat)
  {
    && n <= |hs| == |sizes| && first <= next
    && live == CreateAll(before, sizes, hs, n)
    && (forall k :: 0 <= k < n ==> first <= hs[k] < next)
    && (forall j, k :: 0 <= j < k < n ==> hs[j] != hs[k])
  }

  lemma CreatedStep(before: map<nat, nat>, first: nat, sizes: seq<nat>, hs: seq<nat>, i: nat, next: nat,
                    live: map<nat, nat>, was: nat, h: nat, now: nat)
    requires Created(before, first, sizes, hs, i, live, was) && i < next == i + 1 <= |sizes| && was <= h < now
    ensures Created(before, first, sizes, hs[i := h], next, live[h := sizes[i]], now)
  {
    CreateAllPrefix(before, sizes, hs, hs[i := h], i);
  }

  lemma LiveApart(live: map<nat, nat>, hs: seq<nat>, i: nat, next: nat)
    requires i + 1 == next <= |hs| && AllLive(live, hs, i)
    ensures hs[i] in live && AllLive(live, hs, next) && AllLive(live - {hs[i]}, hs, next)
  {
  }

  lemma CreatedIsLive(before: map<nat, nat>, sizes: seq<nat>, hs: seq<nat>, live: map<nat, nat>)
    requires |hs| == |sizes| && live == CreateAll(before, sizes, hs, |sizes|)
    requires forall i, j :: 0 <= i < j < |hs| ==> hs[i] != hs[j]
    ensures AllLive(live, hs, 0)
    ensures forall mapped, base :: RangeFree(mapped, base, sizes) ==> Prepared(live, mapped, base, sizes, hs)
  {
    forall i | 0 <= i < |sizes| ensures hs[i] in live && live[hs[i]] == sizes[i] {
      CreateAllAt(before, sizes, hs, |sizes|, i);
    }
  }

  class Allocator {
    var live: map<nat, nat>            // live handles and their sizes
    var mapped: map<nat, Mapping>      // mapped ranges by start address
    var accessible: set<(nat, nat)>    // ranges with access rights: start address and size
    var nextHandle: nat
    var errorCode: int
    var hasContext: bool
    const outcomes: nat -> int
    var calls: nat
    ghost var log: seq<Call>           // every unmap and release call
    ghost var failedFrees: nat         // how many of them reported an error
    ghost var refused: nat             // how many of the other calls reported an error
    ghost var impossible: nat          // how many of those could not have been granted
    ghost var badFrees: nat            // how many of them named something that was not there

    ghost predicate Valid()
      reads this
    {
      forall h :: h in live ==> h < nextHandle
    }

    constructor (outcomes: nat -> int)
      ensures Valid() && live == map[] && mapped == map[] && errorCode == NO_ERROR && log == []
    {
      live, mapped, accessible, nextHandle := map[], map[], {}, 0;
      errorCode, hasContext, calls := NO_ERROR, false, 0;
      log, failedFrees, refused, impossible, badFrees := [], 0, 0, 0, 0;
      this.outcomes := outcomes;
    }

    // -------------------------------------------------------------------------------
    // The driver.

    method NextStatus() returns (status: int)
      modifies this`calls
    {
      status := outcomes(calls);
      calls := calls + 1;
    }

    method MemCreate(size: nat) returns (status: int, h: nat)
      requires Valid()
      modifies this`calls, this`live, this`nextHandle, this`refused
      ensures Valid() && nextHandle >= old(nextHandle)
      ensures refused == old(refused) + if status == NO_ERROR then 0 else 1
      ensures status == NO_ERROR ==> old(nextHandle) <= h < nextHandle && live == old(live)[h := size]
      ensures status != NO_ERROR ==> live == old(live)
    {
      status := NextStatus();
      h := nextHandle;
      if status == NO_ERROR {
        live, nextHandle := live[h := size], nextHandle + 1;
      } else {
        refused := refused + 1;
      }
    }

    method MemMap(address: nat, size: nat, h: nat) returns (status: int)
      modifies this`calls, this`mapped, this`refused, this`impossible
      ensures refused == old(refused) + if status == NO_ERROR then 0 else 1
      ensures impossible == old(impossible) + if Mappable(live, old(mapped), address, size, h) then 0 else 1
      ensures status == NO_ERROR ==>
                && size > 0 && address !in old(mapped) && !Overlaps(old(mapped), address, size)
                && mapped == old(mapped)[address := Mapping(size, h)]
      ensures status != NO_ERROR ==> mapped == old(mapped)
    {
      status := NextStatus();
      if !Mappable(live, mapped, address, size, h) {
        impossible := impossible + 1;
        status := INVALID_VALUE;
      } else if status == NO_ERROR {
        mapped := mapped[address := Mapping(size, h)];
      }
      if status != NO_ERROR { refused := refused + 1; }
    }

    method MemUnmap(address: nat, size: nat) returns (status: int)
      modifies this`calls, this`mapped, this`log, this`failedFrees, this`badFrees
      ensures log == old(log) + [Unmapped(address, size, status)]
      ensures status == NO_ERROR ==> address in old(mapped) && mapped == old(mapped) - {address}
      ensures status != NO_ERROR ==> mapped == old(mapped)
      ensures failedFrees == old(failedFrees) + if status == NO_ERROR then 0 else 1
      ensures address in old(mapped) && old(mapped)[address].size == size ==> badFrees == old(badFrees)
    {
      status := NextStatus();
      if address !in mapped || mapped[address].size != size {
        badFrees := badFrees + 1;
        status := INVALID_VALUE;
      } else if status == NO_ERROR {
        mapped := mapped - {address};
      }
      log := log + [Unmapped(address, size, status)];
      if status != NO_ERROR { failedFrees := failedFrees + 1; }
    }

    method MemRelease(h: nat) returns (status: int)
      requires Valid()
      modifies this`calls, this`live, this`log, this`failedFrees, this`badFrees
      ensures Valid()
      ensures log == old(log) + [Released(h, status)]
      ensures status == NO_ERROR ==> h in old(live) && live == old(live) - {h}
      ensures status != NO_ERROR ==> live == old(live)
      ensures failedFrees == old(failedFrees) + if status == NO_ERROR then 0 else 1
      ensures h in old(live) ==> badFrees == old(badFrees)
    {
      status := NextStatus();
      if h !in live {
        badFrees := badFrees + 1;
        status := INVALID_VALUE;
      } else if status == NO_ERROR {
        live := live - {h};
      }
      log := log + [Released(h, status)];
      if status != NO_ERROR { failedFrees := failedFrees + 1; }
    }

    /** `CUDA_CHECK`: remembers an error and never clears one. */
    method Check(status: int)
      modifies this`errorCode
      ensures errorCode == if status != NO_ERROR then status else old(errorCode)
    {
      if status != NO_ERROR { errorCode := status; }
    }

    /** A call that only reports a status. */
    method Request() returns (status: int)
      modifies this`calls, this`refused
      ensures refused == old(refused) + if status == NO_ERROR then 0 else 1
    {
      status := NextStatus();
      if status != NO_ERROR { refused := refused + 1; }
    }

    method MemSetAccess(address: nat, size: nat) returns (status: int)
      modifies this`calls, this`accessible, this`refused, this`impossible
      ensures refused == old(refused) + if status == NO_ERROR then 0 else 1
      ensures impossible == old(impossible) + if Backed(mapped, address, size) then 0 else 1
      ensures status == NO_ERROR ==> Backed(mapped, address, size)
      ensures accessible == old(accessible) + if status == NO_ERROR then {(address, size)} else {}
    {
      status := NextStatus();
      if !Backed(mapped, address, size) {
        impossible := impossible + 1;
        status := INVALID_VALUE;
      }
      if status == NO_ERROR { accessible := accessible + {(address, size)}; } else { refused := refused + 1; }
    }

    method EnsureContext()
      modifies this`calls, this`errorCode, this`hasContext, this`refused
      ensures refused >= old(refused)
      ensures errorCode == NO_ERROR <==> old(errorCode) == NO_ERROR && refused == old(refused)
      ensures errorCode == NO_ERROR || old(hasContext) ==> hasContext
    {
      var status := Request();
      Check(status);
      if !hasContext {
        var retained := Request();
        Check(retained);
        status := Request();
        Check(status);
        hasContext := retained == NO_ERROR && status == NO_ERROR;
      }
    }

    // -------------------------------------------------------------------------------
    // Rolling back.

    /** Releases the first `n` handles, whatever the driver says. */
    method RollBackHandles(handles: array<nat>, n: nat)
      requires Valid() && n <= handles.Length
      requires forall i :: 0 <= i < n ==> handles[i] in live
      requires forall i, j :: 0 <= i < j < n ==> handles[i] != handles[j]
      modifies this`calls, this`live, this`log, this`failedFrees, this`badFrees
      ensures Valid() && badFrees == old(badFrees) && old(failedFrees) <= failedFrees <= old(failedFrees) + n
      ensures failedFrees == old(failedFrees) ==> live == old(live) - Elements(handles[..n])
    {
      var j := 0;
      while j < n
        invariant 0 <= j <= n && Valid()
        invariant badFrees == old(badFrees) && old(failedFrees) <= failedFrees <= old(failedFrees) + j
        invariant forall i :: j <= i < n ==> handles[i] in live
        invariant failedFrees == old(failedFrees) ==> live == old(live) - Elements(handles[..j])
      {
        var status := MemRelease(handles[j]);
        assert handles[..j + 1] == handles[..j] + [handles[j]];
        j := j + 1;
      }
    }

    /** Unmaps the first `n` chunks, whatever the driver says. */
    method RollBackMappings(dMem: nat, sizes: seq<nat>, n: nat)
      requires n <= |sizes| && forall i :: 0 <= i < n ==> sizes[i] > 0
      requires forall i :: 0 <= i < n ==>
                 Address(dMem, sizes, i) in mapped && mapped[Address(dMem, sizes, i)].size == sizes[i]
      modifies this`calls, this`mapped, this`log, this`failedFrees, this`badFrees
      ensures badFrees == old(badFrees) && failedFrees >= old(failedFrees)
      ensures failedFrees == old(failedFrees) ==> mapped == old(mapped) - Addresses(dMem, sizes, n)
    {
      var unmappedSize := 0;
      var j := 0;
      while j < n
        invariant 0 <= j <= n && dMem + unmappedSize == Address(dMem, sizes, j)
        invariant badFrees == old(badFrees) && failedFrees >= old(failedFrees)
        invariant forall i :: j <= i < n ==>
          Address(dMem, sizes, i) in mapped && mapped[Address(dMem, sizes, i)].size == sizes[i]
        invariant failedFrees == old(failedFrees) ==> mapped == old(mapped) - Addresses(dMem, sizes, j)
      {
        forall i | j < i < n ensures Address(dMem, sizes, i) != Address(dMem, sizes, j) {
          AddressesGrow(dMem, sizes, j, i);
        }
        var status := MemUnmap(dMem + unmappedSize, sizes[j]);
        AddressStep(dMem, sizes, j);
        assert Addresses(dMem, sizes, j + 1) == Addresses(dMem, sizes, j) + {Address(dMem, sizes, j)};
        unmappedSize := unmappedSize + sizes[j];
        j := j + 1;
      }
    }

    // -------------------------------------------------------------------------------
    // Creating and mapping.

    /** The first loop: one handle per chunk, or none.  The loop looks at the global error code, so a
        pending error ends it after its first create call, and what that call created stays. */
    method CreateHandles(sizes: seq<nat>, handles: array<nat>) returns (ok: bool, ghost outcome: Outcome)
      requires Valid() && handles.Length == |sizes|
      modifies this`calls, this`live, this`nextHandle, this`errorCode, this`log, this`failedFrees, this`badFrees,
               this`refused, handles
      ensures Valid() && badFrees == old(badFrees) && failedFrees >= old(failedFrees)
      ensures ok ==> refused == old(refused)
      ensures refused >= old(refused) && (!ok && old(errorCode) == NO_ERROR ==> refused > old(refused))
      ensures ok ==> errorCode == if sizes == [] then old(errorCode) else NO_ERROR
      ensures ok ==> failedFrees == old(failedFrees) && live == CreateAll(old(live), sizes, handles[..], |sizes|)
      ensures ok ==> forall i :: 0 <= i < |sizes| ==> handles[i] !in old(live)
      ensures ok ==> forall i, j :: 0 <= i < j < |sizes| ==> handles[i] != handles[j]
      ensures !ok ==> sizes != [] && errorCode != NO_ERROR
      ensures !ok && old(errorCode) == NO_ERROR ==>
                outcome.CreateFailed? && (failedFrees == old(failedFrees) ==> live == old(live))
      ensures !ok && old(errorCode) != NO_ERROR ==>
                && outcome.Stale? && failedFrees == old(failedFrees)
                && (!outcome.created ==> live == old(live))
                && (outcome.created ==> handles[0] !in old(live) && live == old(live)[handles[0] := sizes[0]])
      ensures old(errorCode) != NO_ERROR && sizes != [] ==> !ok
    {
      ghost var live0, next0 := live, nextHandle;
      var i := 0;
      while i < |sizes|
        invariant 0 <= i <= |sizes| && Valid() && nextHandle >= next0
        invariant errorCode == if i == 0 then old(errorCode) else NO_ERROR
        invariant old(errorCode) != NO_ERROR ==> i == 0
        invariant badFrees == old(badFrees) && failedFrees == old(failedFrees) && refused == old(refused)
        invariant Created(live0, next0, sizes, handles[..], i, live, nextHandle)
      {
        ghost var hs, liveBefore, nextBefore := handles[..], live, nextHandle;
        var status, h := MemCreate(sizes[i]);
        if status == NO_ERROR {
          CreatedStep(live0, next0, sizes, hs, i, i + 1, liveBefore, nextBefore, h, nextHandle);
          handles[i] := h;
        }
        Check(status);
        if errorCode != NO_ERROR {
          ok := false;
          outcome := if old(errorCode) != NO_ERROR then Stale(status == NO_ERROR) else CreateFailed(i);
          if i > 0 { UndoHandles(sizes, handles, i, live0, next0); }
          return;
        }
        i := i + 1;
      }
      assert i == |sizes|;
      ok, outcome := true, Complete;
    }

    /** Releases what the first `n` create calls created. */
    method UndoHandles(sizes: seq<nat>, handles: array<nat>, n: nat, ghost live0: map<nat, nat>, ghost next0: nat)
      requires Valid() && n <= handles.Length == |sizes| && (forall h :: h in live0 ==> h < next0)
      requires Created(live0, next0, sizes, handles[..], n, live, nextHandle)
      modifies this`calls, this`live, this`log, this`failedFrees, this`badFrees
      ensures Valid() && badFrees == old(badFrees) && failedFrees >= old(failedFrees)
      ensures failedFrees == old(failedFrees) ==> live == live0
    {
      forall k | 0 <= k < n ensures handles[k] in live { CreateAllAt(live0, sizes, handles[..], n, k); }
      RollBackHandles(handles, n);
      CreateThenRelease(live0, sizes, handles[..], n);
      assert handles[..][..n] == handles[..n];
    }

    /** Undoes the second loop after the first `n` chunks were mapped, and the first loop with it. */
    method RollBackChunks(dMem: nat, sizes: seq<nat>, handles: array<nat>, n: nat, ghost mapped0: map<nat, Mapping>)
      requires Valid() && handles.Length == |sizes| && n <= |sizes| && AllLive(live, handles[..], 0)
      requires FreeAt(mapped0, dMem, sizes, n) && mapped == MapAll(mapped0, dMem, sizes, handles[..], n)
      modifies this`calls, this`live, this`mapped, this`log, this`failedFrees, this`badFrees
      ensures Valid() && badFrees == old(badFrees) && failedFrees >= old(failedFrees)
      ensures failedFrees == old(failedFrees) ==> mapped == mapped0 && live == old(live) - Elements(handles[..])
    {
      ghost var hs := handles[..];
      forall k | 0 <= k < n
        ensures Address(dMem, sizes, k) in mapped && mapped[Address(dMem, sizes, k)].size == sizes[k]
      {
        MapAllAt(mapped0, dMem, sizes, hs, n, k);
      }
      assert forall k :: 0 <= k < |sizes| ==> hs[k] == handles[k];
      RollBackMappings(dMem, sizes, n);
      MapThenUnmap(mapped0, dMem, sizes, hs, n);
      RollBackHandles(handles, |sizes|);
      assert handles[..|sizes|] == handles[..];
    }

    /** The second loop: every chunk mapped at its place, or nothing mapped and every handle released. */
    method MapChunks(dMem: nat, sizes: seq<nat>, handles: array<nat>) returns (ok: bool, ghost outcome: Outcome)
      requires Valid() && handles.Length == |sizes| && (sizes != [] ==> errorCode == NO_ERROR)
      requires AllLive(live, handles[..], 0)
      modifies this`calls, this`live, this`mapped, this`errorCode, this`log, this`failedFrees, this`badFrees,
               this`refused, this`impossible
      ensures Valid() && badFrees == old(badFrees) && failedFrees >= old(failedFrees)
      ensures ok ==> refused == old(refused)
      ensures !ok ==> refused > old(refused)
      ensures Prepared(old(live), old(mapped), dMem, sizes, handles[..]) ==> impossible == old(impossible)
      ensures ok ==> failedFrees == old(failedFrees) && live == old(live) && errorCode == old(errorCode)
      ensures ok ==> mapped == MapAll(old(mapped), dMem, sizes, handles[..], |sizes|)
      ensures ok ==> FreeAt(old(mapped), dMem, sizes, |sizes|)
      ensures !ok ==> sizes != [] && outcome.MapFailed? && errorCode != NO_ERROR
      ensures !ok && failedFrees == old(failedFrees) ==>
                mapped == old(mapped) && live == old(live) - Elements(handles[..])
    {
      ghost var mapped0, hs := mapped, handles[..];
      ghost var prepared := Prepared(live, mapped0, dMem, sizes, hs);
      var allocatedSize := 0;
      var i := 0;
      while i < |sizes|
        invariant 0 <= i <= |sizes| && dMem + allocatedSize == Address(dMem, sizes, i)
        invariant live == old(live) && errorCode == old(errorCode)
        invariant badFrees == old(badFrees) && failedFrees == old(failedFrees) && refused == old(refused)
        invariant prepared ==> impossible == old(impossible)
        invariant mapped == MapAll(mapped0, dMem, sizes, hs, i)
        invariant FreeAt(mapped0, dMem, sizes, i)
      {
        var address, next := dMem + allocatedSize, i + 1;
        MapStep(mapped0, mapped, dMem, sizes, hs, i, next, address);
        if prepared { NextIsMappable(live, mapped0, dMem, sizes, hs, i, address); }
        var status := MemMap(address, sizes[i], handles[i]);
        Check(status);
        if errorCode != NO_ERROR {
          ok, outcome := false, MapFailed(i);
          RollBackChunks(dMem, sizes, handles, i, mapped0);
          return;
        }
        allocatedSize := allocatedSize + sizes[i];
        i := next;
      }
      assert i == |sizes|;
      ok, outcome := true, Complete;
    }

    ghost function State(): Memory
      reads this
    {
      Memory(live, mapped)
    }

    /** Maps the created chunks and asks for access; `live0` holds the handles that were live before them. */
    method MapAndGrant(size: nat, dMem: nat, sizes: seq<nat>, handles: array<nat>, ghost live0: map<nat, nat>)
      returns (ghost outcome: Outcome)
      requires Valid() && handles.Length == |sizes| && (sizes != [] ==> errorCode == NO_ERROR)
      requires live == CreateAll(live0, sizes, handles[..], |sizes|)
      requires forall i :: 0 <= i < |sizes| ==> handles[i] !in live0
      requires forall i, j :: 0 <= i < j < |sizes| ==> handles[i] != handles[j]
      modifies this
      ensures Valid() && badFrees == old(badFrees) && refused >= old(refused)
      ensures outcome.Complete? || outcome.MapFailed? || outcome.AccessFailed?
      ensures outcome.Complete? <==> refused == old(refused)
      ensures errorCode == NO_ERROR <==> old(errorCode) == NO_ERROR && outcome.Complete?
      ensures RangeFree(old(mapped), dMem, sizes) && size == Sum(sizes) > 0 ==> impossible == old(impossible)
      ensures outcome.Complete? ==> Backed(mapped, dMem, size) && accessible == old(accessible) + {(dMem, size)}
      ensures !outcome.Complete? ==> accessible == old(accessible)
      ensures outcome.MapFailed? ==> sizes != [] && failedFrees >= old(failedFrees)
      ensures outcome.MapFailed? && failedFrees == old(failedFrees) ==> live == live0 && mapped == old(mapped)
      ensures !outcome.MapFailed? ==> failedFrees == old(failedFrees) && live == old(live)
      ensures !outcome.MapFailed? ==> mapped == MapAll(old(mapped), dMem, sizes, handles[..], |sizes|)
      ensures !outcome.MapFailed? ==> FreeAt(old(mapped), dMem, sizes, |sizes|)
    {
      ghost var mapped0 := mapped;
      CreatedIsLive(live0, sizes, handles[..], live);
      var ok;
      ok, outcome := MapChunks(dMem, sizes, handles);
      if !ok {
        assert handles[..][..|sizes|] == handles[..];
        CreateThenRelease(live0, sizes, handles[..], |sizes|);
        return;
      }
      if size == Sum(sizes) > 0 { ChunksBack(mapped0, dMem, sizes, handles[..]); }
      var status := MemSetAccess(dMem, size);
      Check(status);
      outcome := if status != NO_ERROR then AccessFailed else Complete;
    }

    /** Creates and maps every chunk.  `pending` is the error code that the loops start from. */
    method CreateAndMap(size: nat, dMem: nat, sizes: seq<nat>, handles: array<nat>)
      returns (ghost pending: int, ghost outcome: Outcome)
      requires Valid() && handles.Length == |sizes|
      modifies this, handles
      ensures Valid() && badFrees == old(badFrees)
      ensures old(errorCode) != NO_ERROR ==> pending != NO_ERROR
      ensures outcome.Stale? <==> pending != NO_ERROR
      ensures outcome.Complete? <==> errorCode == NO_ERROR
      ensures outcome.Complete? <==> old(errorCode) == NO_ERROR && refused == old(refused)
      ensures RangeFree(old(mapped), dMem, sizes) && size == Sum(sizes) > 0 ==> impossible == old(impossible)
      ensures outcome.Complete? ==> Backed(mapped, dMem, size) && accessible == old(accessible) + {(dMem, size)}
      ensures !outcome.Complete? && !outcome.Stale? ==> accessible == old(accessible)
      ensures outcome.Complete? || outcome.AccessFailed? ==>
                ChunksMapped(old(State()), State(), dMem, sizes, handles[..])
      ensures (outcome.CreateFailed? || outcome.MapFailed?) && failedFrees == old(failedFrees) ==>
                State() == old(State())
      ensures outcome.Stale? && !outcome.created ==> State() == old(State())
      ensures outcome.Stale? && outcome.created ==>
                && sizes != [] && handles[0] !in old(live)
                && live == old(live)[handles[0] := sizes[0]] && mapped == old(mapped)
    {
      EnsureContext();
      pending := errorCode;
      var ok;
      ghost var live0 := live;
      ok, outcome := CreateHandles(sizes, handles);
      if !ok { return; }
      outcome := MapAndGrant(size, dMem, sizes, handles, live0);
      if pending != NO_ERROR { outcome := Stale(false); }
    }

    // -------------------------------------------------------------------------------
    // Unmapping and releasing.

    method UnmapChunks(dMem: nat, sizes: seq<nat>) returns (firstError: int, ghost statuses: seq<int>)
      modifies this`calls, this`mapped, this`log, this`failedFrees, this`badFrees
      ensures |statuses| == |sizes| && firstError == FirstError(statuses)
      ensures Placed(old(mapped), dMem, sizes, 0) ==> badFrees == old(badFrees)
      ensures log == old(log) + UnmapCalls(dMem, sizes, statuses)
      ensures mapped == old(mapped) - UnmappedAt(dMem, sizes, statuses)
    {
      firstError, statuses := NO_ERROR, [];
      var allocatedSize, i := 0, 0;
      ghost var placed := Placed(mapped, dMem, sizes, 0);
      while i < |sizes|
        invariant 0 <= i <= |sizes| && i == |statuses| && dMem + allocatedSize == Address(dMem, sizes, i)
        invariant log == old(log) + UnmapCalls(dMem, sizes, statuses)
        invariant firstError == FirstError(statuses)
        invariant mapped == old(mapped) - UnmappedAt(dMem, sizes, statuses)
        invariant placed ==> Placed(mapped, dMem, sizes, i) && badFrees == old(badFrees)
      {
        var address := dMem + allocatedSize;
        if placed { PlacedApart(mapped, dMem, sizes, i, i + 1, address); }
        var status := MemUnmap(address, sizes[i]);
        if status != NO_ERROR && firstError == NO_ERROR { firstError := status; }
        UnmapCallsStep(dMem, sizes, statuses, i, address, status);
        UnmappedStep(dMem, sizes, statuses, i, address, status);
        AddressStep(dMem, sizes, i);
        statuses := statuses + [status];
        allocatedSize := allocatedSize + sizes[i];
        i := i + 1;
      }
      assert i == |sizes|;
    }

    method ReleaseHandles(handles: array<nat>) returns (firstError: int, ghost statuses: seq<int>)
      requires Valid()
      modifies this`calls, this`live, this`log, this`failedFrees, this`badFrees
      ensures Valid() && |statuses| == handles.Length && firstError == FirstError(statuses)
      ensures AllLive(old(live), handles[..], 0) ==> badFrees == old(badFrees)
      ensures log == old(log) + ReleaseCalls(handles[..], statuses)
      ensures live == old(live) - ReleasedOf(handles[..], statuses)
    {
      firstError, statuses := NO_ERROR, [];
      ghost var hs, allLive := handles[..], AllLive(live, handles[..], 0);
      var i := 0;
      while i < handles.Length
        invariant 0 <= i <= handles.Length && i == |statuses| && Valid()
        invariant log == old(log) + ReleaseCalls(hs, statuses)
        invariant firstError == FirstError(statuses)
        invariant live == old(live) - ReleasedOf(hs, statuses)
        invariant allLive ==> AllLive(live, hs, i) && badFrees == old(badFrees)
      {
        if allLive { LiveApart(live, hs, i, i + 1); }
        var status := MemRelease(handles[i]);
        if status != NO_ERROR && firstError == NO_ERROR { firstError := status; }
        ReleaseCallsStep(hs, statuses, i, status);
        ReleasedStep(hs, statuses, i, status);
        statuses := statuses + [status];
        i := i + 1;
      }
      assert hs[..i] == handles[..];
    }

    /** Unmaps and releases every chunk.  Every call is attempted, at the right address or handle,
        whatever failed before, and the first error is the one reported. */
    method UnmapAndRelease(dMem: nat, sizes: seq<nat>, handles: array<nat>)
      returns (ghost pending: int, ghost statuses: seq<int>)
      requires Valid() && handles.Length == |sizes|
      modifies this
      ensures Valid() && |statuses| == 2 * |sizes|
      ensures Placed(old(mapped), dMem, sizes, 0) && AllLive(old(live), handles[..], 0) ==> badFrees == old(badFrees)
      ensures log == old(log) + UnmapCalls(dMem, sizes, statuses[..|sizes|]) + ReleaseCalls(handles[..], statuses[|sizes|..])
      ensures errorCode == if FirstError(statuses) != NO_ERROR then FirstError(statuses) else pending
      ensures pending == NO_ERROR <==> old(errorCode) == NO_ERROR && refused == old(refused)
      ensures live == old(live) - ReleasedOf(handles[..], statuses[|sizes|..])
      ensures mapped == old(mapped) - UnmappedAt(dMem, sizes, statuses[..|sizes|])
      ensures FirstError(statuses) == NO_ERROR ==>
                ChunksUnmapped(old(State()), State(), dMem, sizes, handles[..])
    {
      EnsureContext();
      pending := errorCode;
      var unmapError, releaseError;
      ghost var unmaps, releases;
      unmapError, unmaps := UnmapChunks(dMem, sizes);
      releaseError, releases := ReleaseHandles(handles);
      statuses := unmaps + releases;
      FirstErrorOfBoth(unmaps, releases);
      if FirstError(statuses) == NO_ERROR {
        AllUnmapped(dMem, sizes, unmaps);
        AllReleased(handles[..], releases);
        assert handles[..][..|releases|] == handles[..];
      }
      assert statuses[..|sizes|] == unmaps && statuses[|sizes|..] == releases;
      var firstError := if unmapError != NO_ERROR then unmapError else releaseError;
      if firstError != NO_ERROR { Check(firstError); }
    }
  }

  /** What has been created depends only on the handles used so far. */
  lemma {:induction false} CreateAllPrefix(live: map<nat, nat>, sizes: seq<nat>, hs: seq<nat>, hs': seq<nat>, n: nat)
    requires n <= |hs| && n <= |hs'| && n <= |sizes| && forall k :: 0 <= k < n ==> hs[k] == hs'[k]
    ensures CreateAll(live, sizes, hs, n) == CreateAll(live, sizes, hs', n)
  {
    if n > 0 { CreateAllPrefix(live, sizes, hs, hs', n - 1); }
  }
}
