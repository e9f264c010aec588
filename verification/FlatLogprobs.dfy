/**
 Flattened log probabilities (vllm/logprobs.py): six parallel lists that stand for a list
 of dictionaries, one per position.
 */
module FlatLogprobs {
  import opened Wrappers
  import opened Arithmetic

  datatype Logprob = Logprob(logprob: real, rank: Option<int>, decodedToken: Option<string>)

  /** One entry of a dictionary, in insertion order. */
  datatype Item = Item(tokenId: int, logprob: Logprob)

  type Dict = map<int, Logprob>

  /** The dictionary that results from inserting the items one by one: the last one wins. */
  ghost function DictOf(items: seq<Item>): Dict {
    if items == [] then map[]
    else DictOf(items[..|items| - 1])[items[|items| - 1].tokenId := items[|items| - 1].logprob]
  }

  /** Of several items with the same token, the dictionary holds the last one. */
  lemma {:induction false} DictOfItem(items: seq<Item>, k: nat)
    requires k < |items| && forall j :: k < j < |items| ==> items[j].tokenId != items[k].tokenId
    ensures items[k].tokenId in DictOf(items) && DictOf(items)[items[k].tokenId] == items[k].logprob
  {
    if k < |items| - 1 { DictOfItem(items[..|items| - 1], k); }
  }

  lemma {:induction false} DictOfKeys(items: seq<Item>, t: int)
    ensures t in DictOf(items) <==> exists k :: 0 <= k < |items| && items[k].tokenId == t
  {
    if items != [] {
      var n := |items| - 1;
      DictOfKeys(items[..n], t);
      if items[n].tokenId != t && exists k :: 0 <= k < |items| && items[k].tokenId == t {
        var k :| 0 <= k < |items| && items[k].tokenId == t;
        assert items[..n][k].tokenId == t;
      }
    }
  }

  datatype Flat = Flat(
    startIndices: seq<int>,
    endIndices: seq<int>,
    tokenIds: seq<int>,
    logprobs: seq<real>,
    ranks: seq<Option<int>>,
    decodedTokens: seq<Option<string>>)
  {
    ghost predicate Aligned() {
      |startIndices| == |endIndices| && |tokenIds| == |logprobs| == |ranks| == |decodedTokens|
    }

    ghost predicate Valid() {
      && Aligned()
      && (forall i :: 0 <= i < |startIndices| ==> 0 <= startIndices[i] <= endIndices[i] <= |tokenIds|)
      && (forall i, j :: 0 <= i < j < |startIndices| ==> endIndices[i] <= startIndices[j])
    }

    ghost function Cell(i: nat): Item
      requires Aligned() && i < |tokenIds|
    {
      Item(tokenIds[i], Logprob(logprobs[i], ranks[i], decodedTokens[i]))
    }

    ghost function Cells(): (s: seq<Item>)
      requires Aligned()
      ensures |s| == |tokenIds|
    {
      seq(|tokenIds|, i requires 0 <= i < |tokenIds| => Cell(i))
    }

    /** The list of dictionaries that the container stands for. */
    ghost function Denote(): seq<Dict>
      requires Valid()
    {
      seq(|startIndices|, p requires 0 <= p < |startIndices| => DictOf(Cells()[startIndices[p]..endIndices[p]]))
    }
  }

  const EMPTY := Flat([], [], [], [], [], [])

  // ---------------------------------------------------------------------------------
  // Reading, with the indexing rules of Python lists.

  /** The list index that `i` refers to. */
  function ListIndex(i: int, len: nat): Option<nat> {
    if 0 <= i < len then Some(i) else if 0 - len <= i < 0 then Some(len + i) else None
  }

  /** The dictionary built from the flat entries `a..b`; none when an index is out of range. */
  ghost function ReadRange(f: Flat, a: int, b: int): Option<Dict>
    requires f.Aligned()
    decreases b - a
  {
    if a >= b then Some(map[])
    else
      var before, at := ReadRange(f, a, b - 1), ListIndex(b - 1, |f.tokenIds|);
      if before.None? || at.None? then None
      else Some(before.value[f.Cell(at.value).tokenId := f.Cell(at.value).logprob])
  }

  /** `flat[p]` for a position `p`. */
  method GetItem(f: Flat, index: int) returns (r: Option<Dict>)
    requires f.Aligned()
    ensures var p := ListIndex(index, |f.startIndices|);
            r == if p.None? then None else ReadRange(f, f.startIndices[p.value], f.endIndices[p.value])
    ensures var n := |f.startIndices|;
            f.Valid() ==>
              r == if 0 <= index < n then Some(f.Denote()[index])
                   else if -n <= index < 0 then Some(f.Denote()[n + index])
                   else None
  {
    if f.Valid() {
      forall p | 0 <= p < |f.startIndices|
        ensures ReadRange(f, f.startIndices[p], f.endIndices[p]) == Some(f.Denote()[p])
      {
        ReadDenotes(f, p);
      }
    }
    var p := ListIndex(index, |f.startIndices|);
    if p.None? { return None; }
    var a, b := f.startIndices[p.value], f.endIndices[p.value];
    var d: Dict := map[];
    var i := a;
    while i < b
      invariant a <= i && (if a < b then i <= b else i == a)
      invariant ReadRange(f, a, i) == Some(d)
    {
      var at := ListIndex(i, |f.tokenIds|);
      if at.None? {
        assert ReadRange(f, a, i + 1) == None;
        ReadRangeFails(f, a, i + 1, b);
        return None;
      }
      var k := at.value;
      d := d[f.tokenIds[k] := Logprob(f.logprobs[k], f.ranks[k], f.decodedTokens[k])];
      i := i + 1;
    }
    r := Some(d);
  }

  lemma {:induction false} ReadRangeFails(f: Flat, a: int, m: int, b: int)
    requires f.Aligned() && m <= b && ReadRange(f, a, m) == None
    ensures ReadRange(f, a, b) == None
    decreases b - m
  {
    assert a < m;
    if m < b { ReadRangeFails(f, a, m, b - 1); }
  }

  lemma {:induction false} ReadRangeInBounds(f: Flat, a: int, b: int)
    requires f.Aligned() && 0 <= a <= b <= |f.tokenIds|
    ensures ReadRange(f, a, b) == Some(DictOf(f.Cells()[a..b]))
    decreases b - a
  {
    if a < b {
      ReadRangeInBounds(f, a, b - 1);
      assert f.Cells()[a..b][..b - 1 - a] == f.Cells()[a..b - 1];
      assert f.Cells()[a..b][b - 1 - a] == f.Cell(b - 1);
    }
  }

  /** Reading a position gives the dictionary that the container stands for there. */
  lemma ReadDenotes(f: Flat, p: nat)
    requires f.Valid() && p < |f.startIndices|
    ensures ReadRange(f, f.startIndices[p], f.endIndices[p]) == Some(f.Denote()[p])
  {
    ReadRangeInBounds(f, f.startIndices[p], f.endIndices[p]);
  }

  // ---------------------------------------------------------------------------------
  // Growing.

  ghost function TokenIds(items: seq<Item>): seq<int> {
    seq(|items|, i requires 0 <= i < |items| => items[i].tokenId)
  }

  ghost function Logprobs(items: seq<Item>): seq<real> {
    seq(|items|, i requires 0 <= i < |items| => items[i].logprob.logprob)
  }

  ghost function Ranks(items: seq<Item>): seq<Option<int>> {
    seq(|items|, i requires 0 <= i < |items| => items[i].logprob.rank)
  }

  ghost function DecodedTokens(items: seq<Item>): seq<Option<string>> {
    seq(|items|, i requires 0 <= i < |items| => items[i].logprob.decodedToken)
  }

  /** The container with one more position, which holds the items. */
  ghost function Appended(f: Flat, items: seq<Item>): Flat {
    Flat(f.startIndices + [|f.logprobs|],
         f.endIndices + [|f.logprobs| + |items|],
         f.tokenIds + TokenIds(items),
         f.logprobs + Logprobs(items),
         f.ranks + Ranks(items),
         f.decodedTokens + DecodedTokens(items))
  }

  lemma AppendedIsValid(f: Flat, items: seq<Item>)
    requires f.Valid()
    ensures Appended(f, items).Valid() && Appended(f, items).Cells() == f.Cells() + items
  {
  }

  lemma DenotesAt(f: Flat, p: nat, cells: seq<Item>)
    requires f.Valid() && p < |f.startIndices| && f.Cells()[f.startIndices[p]..f.endIndices[p]] == cells
    ensures f.Denote()[p] == DictOf(cells)
  {
  }

  lemma SliceOfPrefix<T>(s: seq<T>, t: seq<T>, a: nat, b: nat)
    requires a <= b <= |s|
    ensures (s + t)[a..b] == s[a..b]
  {
  }

  lemma AppendedAt(f: Flat, items: seq<Item>, g: Flat, p: nat)
    requires f.Valid() && g == Appended(f, items) && g.Valid() && g.Cells() == f.Cells() + items
    requires p < |g.startIndices|
    ensures g.Denote()[p] == if p < |f.startIndices| then f.Denote()[p] else DictOf(items)
  {
    if p < |f.startIndices| {
      SliceOfPrefix(f.Cells(), items, f.startIndices[p], f.endIndices[p]);
      DenotesAt(g, p, f.Cells()[f.startIndices[p]..f.endIndices[p]]);
    } else {
      var n := |f.tokenIds|;
      assert (f.Cells() + items)[n..n + |items|] == items;
      DenotesAt(g, p, items);
    }
  }

  /** Appending denotes appending the dictionary of the items. */
  lemma AppendedDenotes(f: Flat, items: seq<Item>)
    requires f.Valid()
    ensures Appended(f, items).Valid()
    ensures Appended(f, items).Denote() == f.Denote() + [DictOf(items)]
  {
    AppendedIsValid(f, items);
    var g := Appended(f, items);
    forall p | 0 <= p < |g.startIndices|
      ensures g.Denote()[p] == (f.Denote() + [DictOf(items)])[p]
    {
      AppendedAt(f, items, g, p);
    }
  }

  function ZipLength(tokenIds: seq<int>, logprobs: seq<real>, ranks: seq<Option<int>>, decoded: seq<Option<string>>): nat {
    Min(Min(|tokenIds|, |logprobs|), Min(|ranks|, |decoded|))
  }

  /** Python's `zip`, which stops with the shortest list. */
  ghost function Zip(tokenIds: seq<int>, logprobs: seq<real>, ranks: seq<Option<int>>, decoded: seq<Option<string>>): seq<Item> {
    var n := ZipLength(tokenIds, logprobs, ranks, decoded);
    seq(n, i requires 0 <= i < n => Item(tokenIds[i], Logprob(logprobs[i], ranks[i], decoded[i])))
  }

  ghost function ItemsOf(logprobsOnePosition: Option<seq<Item>>): seq<Item> {
    if logprobsOnePosition.None? then [] else logprobsOnePosition.value
  }

  ghost function Extended(f: Flat, many: seq<Option<seq<Item>>>): Flat {
    if many == [] then f else Appended(Extended(f, many[..|many| - 1]), ItemsOf(many[|many| - 1]))
  }

  /** One more item makes each of the four lists one longer. */
  lemma ListsGrow(items: seq<Item>, i: nat, f: Flat)
    requires i < |items|
    ensures f.tokenIds + TokenIds(items[..i + 1]) == f.tokenIds + TokenIds(items[..i]) + [items[i].tokenId]
    ensures f.logprobs + Logprobs(items[..i + 1]) == f.logprobs + Logprobs(items[..i]) + [items[i].logprob.logprob]
    ensures f.ranks + Ranks(items[..i + 1]) == f.ranks + Ranks(items[..i]) + [items[i].logprob.rank]
    ensures f.decodedTokens + DecodedTokens(items[..i + 1]) ==
            f.decodedTokens + DecodedTokens(items[..i]) + [items[i].logprob.decodedToken]
  {
  }

  class FlatLogprobs {
    var startIndices: seq<int>
    var endIndices: seq<int>
    var tokenIds: seq<int>
    var logprobs: seq<real>
    var ranks: seq<Option<int>>
    var decodedTokens: seq<Option<string>>

    ghost function View(): Flat
      reads this
    {
      Flat(startIndices, endIndices, tokenIds, logprobs, ranks, decodedTokens)
    }

    constructor ()
      ensures View() == EMPTY
    {
      startIndices, endIndices, tokenIds, logprobs, ranks, decodedTokens := [], [], [], [], [], [];
    }

    method AppendCell(tokenId: int, logprob: real, rank: Option<int>, decodedToken: Option<string>)
      modifies this`tokenIds, this`logprobs, this`ranks, this`decodedTokens
      ensures tokenIds == old(tokenIds) + [tokenId] && logprobs == old(logprobs) + [logprob]
      ensures ranks == old(ranks) + [rank] && decodedTokens == old(decodedTokens) + [decodedToken]
    {
      tokenIds := tokenIds + [tokenId];
      logprobs := logprobs + [logprob];
      ranks := ranks + [rank];
      decodedTokens := decodedTokens + [decodedToken];
    }

    method Append(logprobsOnePosition: Option<seq<Item>>)
      modifies this
      ensures View() == Appended(old(View()), ItemsOf(logprobsOnePosition))
    {
      startIndices := startIndices + [|logprobs|];
      if logprobsOnePosition.Some? {
        var items := logprobsOnePosition.value;
        for i := 0 to |items|
          invariant startIndices == old(startIndices) + [|old(logprobs)|] && endIndices == old(endIndices)
          invariant tokenIds == old(tokenIds) + TokenIds(items[..i])
          invariant logprobs == old(logprobs) + Logprobs(items[..i])
          invariant ranks == old(ranks) + Ranks(items[..i])
          invariant decodedTokens == old(decodedTokens) + DecodedTokens(items[..i])
        {
          var lp := items[i].logprob;
          AppendCell(items[i].tokenId, lp.logprob, lp.rank, lp.decodedToken);
          ListsGrow(items, i, old(View()));
        }
        assert items[..|items|] == items;
      }
      endIndices := endIndices + [|logprobs|];
    }

    method AppendFast(newTokenIds: seq<int>, newLogprobs: seq<real>, newRanks: seq<Option<int>>,
                      newDecoded: seq<Option<string>>)
      modifies this
      ensures View() == Appended(old(View()), Zip(newTokenIds, newLogprobs, newRanks, newDecoded))
    {
      ghost var items := Zip(newTokenIds, newLogprobs, newRanks, newDecoded);
      startIndices := startIndices + [|logprobs|];
      var n := ZipLength(newTokenIds, newLogprobs, newRanks, newDecoded);
      for i := 0 to n
        invariant startIndices == old(startIndices) + [|old(logprobs)|] && endIndices == old(endIndices)
        invariant tokenIds == old(tokenIds) + TokenIds(items[..i])
        invariant logprobs == old(logprobs) + Logprobs(items[..i])
        invariant ranks == old(ranks) + Ranks(items[..i])
        invariant decodedTokens == old(decodedTokens) + DecodedTokens(items[..i])
      {
        AppendCell(newTokenIds[i], newLogprobs[i], newRanks[i], newDecoded[i]);
        ListsGrow(items, i, old(View()));
      }
      assert items[..n] == items;
      endIndices := endIndices + [|logprobs|];
    }

    method Extend(many: seq<Option<seq<Item>>>)
      modifies this
      ensures View() == Extended(old(View()), many)
    {
      for i := 0 to |many|
        invariant View() == Extended(old(View()), many[..i])
      {
        Append(many[i]);
        assert many[..i + 1][..i] == many[..i];
      }
      assert many[..|many|] == many;
    }
  }

  // ---------------------------------------------------------------------------------
  // Slicing.

  /** `s[a:b]` for bounds within the list. */
  function ListSlice<T>(s: seq<T>, a: int, b: int): seq<T>
    requires 0 <= a <= |s| && 0 <= b <= |s|
  {
    if a < b then s[a..b] else []
  }

  ghost predicate InRange(sel: seq<int>, n: nat) {
    forall k :: 0 <= k < |sel| ==> 0 <= sel[k] < n
  }

  ghost predicate Increasing(sel: seq<int>) {
    forall i, j :: 0 <= i < j < |sel| ==> sel[i] < sel[j]
  }

  ghost predicate Decreasing(sel: seq<int>) {
    forall i, j :: 0 <= i < j < |sel| ==> sel[i] > sel[j]
  }

  /** The slice that selects the positions `sel`; selecting nothing raises `IndexError`. */
  function Slice(f: Flat, sel: seq<int>): (r: Option<Flat>)
    requires f.Valid() && InRange(sel, |f.startIndices|)
    ensures r.None? <==> sel == []
  {
    if sel == [] then None
    else
      var min, max := f.startIndices[sel[0]], f.endIndices[sel[|sel| - 1]];
      Some(Flat(
        seq(|sel|, k requires 0 <= k < |sel| => f.startIndices[sel[k]] - min),
        seq(|sel|, k requires 0 <= k < |sel| => f.endIndices[sel[k]] - min),
        ListSlice(f.tokenIds, min, max),
        ListSlice(f.logprobs, min, max),
        ListSlice(f.ranks, min, max),
        ListSlice(f.decodedTokens, min, max)))
  }

  ghost function Select<T>(s: seq<T>, sel: seq<int>): seq<T>
    requires InRange(sel, |s|)
  {
    seq(|sel|, k requires 0 <= k < |sel| => s[sel[k]])
  }

  lemma SliceBounds(f: Flat, sel: seq<int>, k: nat)
    requires f.Valid() && InRange(sel, |f.startIndices|) && Increasing(sel) && k < |sel|
    ensures f.startIndices[sel[0]] <= f.startIndices[sel[k]] <= f.endIndices[sel[k]] <= f.endIndices[sel[|sel| - 1]]
  {
    if k > 0 { assert sel[0] < sel[k]; }
    if k < |sel| - 1 { assert sel[k] < sel[|sel| - 1]; }
  }

  lemma SliceIsValid(f: Flat, sel: seq<int>)
    requires f.Valid() && InRange(sel, |f.startIndices|) && Increasing(sel) && sel != []
    ensures Slice(f, sel).value.Valid()
    ensures Slice(f, sel).value.Cells() == f.Cells()[f.startIndices[sel[0]]..f.endIndices[sel[|sel| - 1]]]
  {
    var g, min := Slice(f, sel).value, f.startIndices[sel[0]];
    SliceBounds(f, sel, 0);
    forall k | 0 <= k < |sel| ensures 0 <= g.startIndices[k] <= g.endIndices[k] <= |g.tokenIds| {
      SliceBounds(f, sel, k);
    }
    forall i, j | 0 <= i < j < |sel| ensures g.endIndices[i] <= g.startIndices[j] {
      assert sel[i] < sel[j];
    }
  }

  lemma WindowAt(f: Flat, g: Flat, min: nat, max: nat, k: nat, p: nat, a: nat, b: nat)
    requires f.Valid() && g.Valid() && k < |g.startIndices| && p < |f.startIndices|
    requires a == f.startIndices[p] && b == f.endIndices[p] && min <= a <= b <= max <= |f.tokenIds|
    requires g.startIndices[k] == a - min && g.endIndices[k] == b - min && g.Cells() == f.Cells()[min..max]
    ensures g.Denote()[k] == f.Denote()[p]
  {
    SliceOfSlice(f.Cells(), min, max, a, b);
    DenotesAt(g, k, f.Cells()[a..b]);
  }

  lemma SliceAt(f: Flat, sel: seq<int>, g: Flat, k: nat, p: nat)
    requires f.Valid() && InRange(sel, |f.startIndices|) && Increasing(sel) && k < |sel| && p == sel[k]
    requires Slice(f, sel) == Some(g) && g.Valid()
    requires g.Cells() == f.Cells()[f.startIndices[sel[0]]..f.endIndices[sel[|sel| - 1]]]
    ensures g.Denote()[k] == f.Denote()[p]
  {
    SliceBounds(f, sel, k);
    WindowAt(f, g, f.startIndices[sel[0]], f.endIndices[sel[|sel| - 1]], k, p, f.startIndices[p], f.endIndices[p]);
  }

  /** A slice with positive step denotes the same slice of the list of dictionaries. */
  lemma SliceDenotes(f: Flat, sel: seq<int>)
    requires f.Valid() && InRange(sel, |f.startIndices|) && Increasing(sel) && sel != []
    ensures Slice(f, sel).value.Valid()
    ensures Slice(f, sel).value.Denote() == Select(f.Denote(), sel)
  {
    SliceIsValid(f, sel);
    var g := Slice(f, sel).value;
    forall k | 0 <= k < |sel| ensures g.Denote()[k] == Select(f.Denote(), sel)[k] {
      SliceAt(f, sel, g, k, sel[k]);
    }
  }

  lemma SliceOfSlice<T>(s: seq<T>, min: nat, max: nat, a: nat, b: nat)
    requires min <= a <= b <= max <= |s|
    ensures s[min..max][a - min..b - min] == s[a..b]
  {
    var t, n := s[min..max][a - min..b - min], b - a;
    forall k | 0 <= k < n ensures t[k] == s[a..b][k] {
      assert s[min..max][a - min + k] == s[min + (a - min + k)];
    }
  }

  /** A slice with negative step that selects two or more positions reads back right exactly when all
      of them are empty: the flat lists of the slice are empty. */
  lemma ReverseSliceReads(f: Flat, sel: seq<int>)
    requires f.Valid() && InRange(sel, |f.startIndices|) && Decreasing(sel) && |sel| >= 2
    ensures Slice(f, sel).value.Aligned()
    ensures (forall k :: 0 <= k < |sel| ==> ReadsAs(Slice(f, sel).value, k, f.Denote()[sel[k]])) <==>
            (forall k :: 0 <= k < |sel| ==> f.startIndices[sel[k]] == f.endIndices[sel[k]])
  {
    var g := Slice(f, sel).value;
    assert sel[|sel| - 1] < sel[0];
    assert f.endIndices[sel[|sel| - 1]] <= f.startIndices[sel[0]];
    assert g.tokenIds == [];
    forall k | 0 <= k < |sel|
      ensures ReadsAs(g, k, f.Denote()[sel[k]]) <==> f.startIndices[sel[k]] == f.endIndices[sel[k]]
    {
      if f.startIndices[sel[k]] == f.endIndices[sel[k]] {
        assert f.Cells()[f.startIndices[sel[k]]..f.endIndices[sel[k]]] == [];
      } else {
        NothingToRead(g, g.startIndices[k], g.endIndices[k]);
      }
    }
  }

  ghost predicate ReadsAs(f: Flat, p: nat, d: Dict)
    requires f.Aligned() && p < |f.startIndices|
  {
    ReadRange(f, f.startIndices[p], f.endIndices[p]) == Some(d)
  }

  lemma NothingToRead(f: Flat, a: int, b: int)
    requires f.Aligned() && f.tokenIds == [] && a < b
    ensures ReadRange(f, a, b) == None
  {
  }

  /** The positions `lo, lo + step, ...` up to but not including `hi`. */
  function Positions(lo: int, hi: int, step: int): (sel: seq<int>)
    requires step != 0
    ensures forall k :: 0 <= k < |sel| ==> if step > 0 then lo <= sel[k] < hi else hi < sel[k] <= lo
    ensures sel == [] <==> if step > 0 then lo >= hi else lo <= hi
    decreases if step > 0 then hi - lo else lo - hi
  {
    if (if step > 0 then lo >= hi else lo <= hi) then [] else [lo] + Positions(lo + step, hi, step)
  }

  lemma {:induction false} PositionsAreMonotone(lo: int, hi: int, step: int)
    requires step != 0
    ensures step > 0 ==> Increasing(Positions(lo, hi, step))
    ensures step < 0 ==> Decreasing(Positions(lo, hi, step))
    decreases if step > 0 then hi - lo else lo - hi
  {
    if Positions(lo, hi, step) != [] { PositionsAreMonotone(lo + step, hi, step); }
  }

  /** A bound of a slice over a list, adjusted as Python does. */
  function Adjusted(bound: int, len: nat, step: int): (r: int)
    ensures if step > 0 then 0 <= r <= len else -1 <= r < len
  {
    if bound < 0 then
      if bound + len < 0 then (if step > 0 then 0 else -1) else bound + len
    else if bound >= len then (if step > 0 then len else len - 1)
    else bound
  }

  /** The positions that `[start:stop:step]` selects in a list. */
  function Selected(start: Option<int>, stop: Option<int>, step: int, len: nat): (sel: seq<int>)
    requires step != 0
    ensures InRange(sel, len)
  {
    var lo := if start.Some? then Adjusted(start.value, len, step) else if step > 0 then 0 else len - 1;
    var hi := if stop.Some? then Adjusted(stop.value, len, step) else if step > 0 then len else -1;
    Positions(lo, hi, step)
  }

  lemma SelectedIsMonotone(start: Option<int>, stop: Option<int>, step: int, len: nat)
    requires step != 0
    ensures step > 0 ==> Increasing(Selected(start, stop, step, len))
    ensures step < 0 ==> Decreasing(Selected(start, stop, step, len))
  {
    var lo := if start.Some? then Adjusted(start.value, len, step) else if step > 0 then 0 else len - 1;
    var hi := if stop.Some? then Adjusted(stop.value, len, step) else if step > 0 then len else -1;
    PositionsAreMonotone(lo, hi, step);
  }

  ghost predicate AllEmpty(f: Flat, sel: seq<int>)
    requires f.Aligned() && InRange(sel, |f.startIndices|)
  {
    forall k :: 0 <= k < |sel| ==> f.startIndices[sel[k]] == f.endIndices[sel[k]]
  }

  /** Exactly when a slice of the container reads like the slice of the list. */
  lemma SliceReadsAsList(f: Flat, start: Option<int>, stop: Option<int>, step: int)
    requires f.Valid() && step != 0
    ensures var sel := Selected(start, stop, step, |f.startIndices|);
            var r := Slice(f, sel);
            sel != [] ==>
              && r.value.Aligned()
              && ((forall k :: 0 <= k < |sel| ==> ReadsAs(r.value, k, f.Denote()[sel[k]])) <==>
                  step > 0 || |sel| == 1 || AllEmpty(f, sel))
  {
    var sel := Selected(start, stop, step, |f.startIndices|);
    SelectedIsMonotone(start, stop, step, |f.startIndices|);
    if sel != [] {
      if step > 0 || |sel| == 1 {
        SliceDenotes(f, sel);
        var g := Slice(f, sel).value;
        forall k | 0 <= k < |sel| ensures ReadsAs(g, k, f.Denote()[sel[k]]) { ReadDenotes(g, k); }
      } else {
        ReverseSliceReads(f, sel);
      }
    }
  }

  /** Two positions with one entry each: `[::-1]` cannot be read back. */
  lemma ReversedPairIsLost(f: Flat)
    requires f.Valid() && f.startIndices == [0, 1] && f.endIndices == [1, 2]
    ensures var sel := Selected(None, None, -1, 2);
            && sel == [1, 0] && Slice(f, sel).Some? && Slice(f, sel).value.Aligned()
            && Slice(f, sel).value.tokenIds == [] && !ReadsAs(Slice(f, sel).value, 0, f.Denote()[1])
  {
    var sel := Selected(None, None, -1, 2);
    assert Positions(-1, -1, -1) == [] && Positions(0, -1, -1) == [0] && Positions(1, -1, -1) == [1, 0];
    var g := Slice(f, sel).value;
    assert g.startIndices[0] == 0 && g.endIndices[0] == 1;
    NothingToRead(g, 0, 1);
  }

  // ---------------------------------------------------------------------------------
  // One position at a time, into either container.

  /** The rank of the sampled token, then the ranks of the top tokens. */
  ghost function RanksFor(rank: int, numLogprobs: int, available: nat): seq<Option<int>> {
    var num := if numLogprobs == -1 then available else numLogprobs;
    [Some(rank)] + seq(if num < 0 then 0 else num, i => Some(i + 1))
  }

  method BuildRanks(rank: int, numLogprobs: int, available: nat) returns (ranks: seq<Option<int>>)
    ensures ranks == RanksFor(rank, numLogprobs, available)
  {
    var num := if numLogprobs == -1 then available else numLogprobs;
    ranks := [Some(rank)] + seq(if num < 0 then 0 else num, i => Some(i + 1));
  }

  /** How many entries a new position gets: as many as the shortest list has, where the ranks are that of the
      sampled token and those of the top tokens. */
  ghost predicate IsEntryCount(n: nat, tokenIds: seq<int>, logprobs: seq<real>, decoded: seq<Option<string>>,
                               numLogprobs: int)
  {
    var ranks := 1 + if numLogprobs == -1 then |logprobs| else if numLogprobs < 0 then 0 else numLogprobs;
    && n <= |tokenIds| && n <= |logprobs| && n <= |decoded| && n <= ranks
    && (n == |tokenIds| || n == |logprobs| || n == |decoded| || n == ranks)
  }

  /** Entry `k` of a new position: the sampled token comes first, and the others are ranked from 1. */
  ghost function EntryAt(k: nat, tokenIds: seq<int>, logprobs: seq<real>, decoded: seq<Option<string>>, rank: int): Item
    requires k < |tokenIds| && k < |logprobs| && k < |decoded|
  {
    Item(tokenIds[k], Logprob(logprobs[k], Some(if k == 0 then rank else k), decoded[k]))
  }

  /** The items are the entries of a new position, in order. */
  ghost predicate AreEntries(items: seq<Item>, tokenIds: seq<int>, logprobs: seq<real>, decoded: seq<Option<string>>,
                             rank: int, numLogprobs: int)
  {
    && IsEntryCount(|items|, tokenIds, logprobs, decoded, numLogprobs)
    && forall k :: 0 <= k < |items| ==> items[k] == EntryAt(k, tokenIds, logprobs, decoded, rank)
  }

  lemma ZipEntries(tokenIds: seq<int>, logprobs: seq<real>, decoded: seq<Option<string>>, rank: int, numLogprobs: int)
    ensures AreEntries(Zip(tokenIds, logprobs, RanksFor(rank, numLogprobs, |logprobs|), decoded),
                       tokenIds, logprobs, decoded, rank, numLogprobs)
  {
  }

  /** Position `p` of the container, which begins at `a`, holds the items and ends the container. */
  ghost predicate EndsWith(f: Flat, p: nat, a: nat, items: seq<Item>) {
    && f.Aligned() && |f.startIndices| == p + 1 && f.startIndices[p] == a
    && f.endIndices[p] == a + |items| == |f.tokenIds|
    && forall k :: 0 <= k < |items| ==> f.Cell(a + k) == items[k]
  }

  lemma AppendedEnds(f: Flat, items: seq<Item>)
    requires f.Aligned()
    ensures EndsWith(Appended(f, items), |f.startIndices|, |f.logprobs|, items)
  {
  }

  /** A token maps to the data of its last occurrence among the entries. */
  ghost predicate MapsToLast(d: Dict, items: seq<Item>) {
    && (forall t :: t in d <==> exists k :: 0 <= k < |items| && items[k].tokenId == t)
    && (forall k :: 0 <= k < |items| && (forall j :: k < j < |items| ==> items[j].tokenId != items[k].tokenId) ==>
          items[k].tokenId in d && d[items[k].tokenId] == items[k].logprob)
  }

  lemma DictOfMapsToLast(items: seq<Item>)
    ensures MapsToLast(DictOf(items), items)
  {
    forall t ensures t in DictOf(items) <==> exists k :: 0 <= k < |items| && items[k].tokenId == t {
      DictOfKeys(items, t);
    }
    forall k | 0 <= k < |items| && forall j :: k < j < |items| ==> items[j].tokenId != items[k].tokenId
      ensures items[k].tokenId in DictOf(items) && DictOf(items)[items[k].tokenId] == items[k].logprob
    {
      DictOfItem(items, k);
    }
  }

  /** The branch for the flat container. */
  method AppendForNextPosition(flat: FlatLogprobs, tokenIds: seq<int>, logprobs: seq<real>,
                               decoded: seq<Option<string>>, rank: int, numLogprobs: int)
    returns (ghost items: seq<Item>)
    modifies flat
    ensures AreEntries(items, tokenIds, logprobs, decoded, rank, numLogprobs)
    ensures flat.View() == Appended(old(flat.View()), items)
    ensures old(flat.View()).Aligned() ==>
              EndsWith(flat.View(), |old(flat.startIndices)|, |old(flat.logprobs)|, items)
  {
    var ranks := BuildRanks(rank, numLogprobs, |logprobs|);
    flat.AppendFast(tokenIds, logprobs, ranks, decoded);
    items := Zip(tokenIds, logprobs, ranks, decoded);
    ZipEntries(tokenIds, logprobs, decoded, rank, numLogprobs);
    if old(flat.View()).Aligned() { AppendedEnds(old(flat.View()), items); }
  }

  method BuildDict(tokenIds: seq<int>, logprobs: seq<real>, ranks: seq<Option<int>>, decoded: seq<Option<string>>)
    returns (d: Dict)
    ensures d == DictOf(Zip(tokenIds, logprobs, ranks, decoded))
  {
    var n := ZipLength(tokenIds, logprobs, ranks, decoded);
    ghost var items := Zip(tokenIds, logprobs, ranks, decoded);
    d := map[];
    for i := 0 to n
      invariant d == DictOf(items[..i])
    {
      d := d[tokenIds[i] := Logprob(logprobs[i], ranks[i], decoded[i])];
      assert items[..i + 1][..i] == items[..i];
    }
    assert items[..n] == items;
  }

  /** The branch for the list, which grows by what the flat container comes to denote. */
  method AppendToList(list: seq<Dict>, tokenIds: seq<int>, logprobs: seq<real>,
                      decoded: seq<Option<string>>, rank: int, numLogprobs: int)
    returns (r: seq<Dict>, ghost items: seq<Item>)
    ensures AreEntries(items, tokenIds, logprobs, decoded, rank, numLogprobs)
    ensures |r| == |list| + 1 && r[..|list|] == list && MapsToLast(r[|list|], items)
    ensures forall f: Flat :: f.Valid() && f.Denote() == list ==>
              Appended(f, items).Valid() && Appended(f, items).Denote() == r
  {
    var ranks := BuildRanks(rank, numLogprobs, |logprobs|);
    var d := BuildDict(tokenIds, logprobs, ranks, decoded);
    items := Zip(tokenIds, logprobs, ranks, decoded);
    ZipEntries(tokenIds, logprobs, decoded, rank, numLogprobs);
    DictOfMapsToLast(items);
    r := list + [d];
    forall f: Flat | f.Valid() && f.Denote() == list
      ensures Appended(f, items).Valid() && Appended(f, items).Denote() == r
    {
      AppendedDenotes(f, items);
    }
  }

  // ---------------------------------------------------------------------------------
  // Whole runs.

  datatype Op =
    | AppendOp(items: seq<Item>)
    | ExtendOp(many: seq<Option<seq<Item>>>)
    | SliceOp(start: Option<int>, stop: Option<int>, step: nat)
  {
    ghost predicate Forward() { SliceOp? ==> step > 0 }
  }

  ghost function DictsOf(many: seq<Option<seq<Item>>>): seq<Dict> {
    seq(|many|, k requires 0 <= k < |many| => DictOf(ItemsOf(many[k])))
  }

  /** Extending denotes appending one dictionary per position. */
  lemma {:induction false} ExtendedDenotes(f: Flat, many: seq<Option<seq<Item>>>)
    requires f.Valid()
    ensures Extended(f, many).Valid()
    ensures Extended(f, many).Denote() == f.Denote() + DictsOf(many)
  {
    if many != [] {
      var m := many[..|many| - 1];
      ExtendedDenotes(f, m);
      AppendedDenotes(Extended(f, m), ItemsOf(many[|many| - 1]));
      assert DictsOf(many) == DictsOf(m) + [DictOf(ItemsOf(many[|many| - 1]))];
    }
  }

  /** One operation on the container; a slice that selects nothing raises. */
  ghost function FlatStep(f: Flat, op: Op): Option<Flat>
    requires f.Valid() && op.Forward()
  {
    match op
    case AppendOp(items) => Some(Appended(f, items))
    case ExtendOp(many) => Some(Extended(f, many))
    case SliceOp(start, stop, step) => Slice(f, Selected(start, stop, step, |f.startIndices|))
  }

  /** The same operation on a list of dictionaries, where an empty slice is allowed. */
  ghost function ListStep(l: seq<Dict>, op: Op): seq<Dict>
    requires op.Forward()
  {
    match op
    case AppendOp(items) => l + [DictOf(items)]
    case ExtendOp(many) => l + DictsOf(many)
    case SliceOp(start, stop, step) => Select(l, Selected(start, stop, step, |l|))
  }

  lemma StepDenotes(f: Flat, op: Op)
    requires f.Valid() && op.Forward()
    ensures FlatStep(f, op).None? <==> op.SliceOp? && ListStep(f.Denote(), op) == []
    ensures FlatStep(f, op).Some? ==> FlatStep(f, op).value.Valid()
    ensures FlatStep(f, op).Some? ==> FlatStep(f, op).value.Denote() == ListStep(f.Denote(), op)
  {
    match op
    case AppendOp(items) => AppendedDenotes(f, items);
    case ExtendOp(many) => ExtendedDenotes(f, many);
    case SliceOp(start, stop, step) =>
      var sel := Selected(start, stop, step, |f.startIndices|);
      SelectedIsMonotone(start, stop, step, |f.startIndices|);
      if sel != [] { SliceDenotes(f, sel); }
  }

  ghost predicate AllForward(ops: seq<Op>) {
    forall i :: 0 <= i < |ops| ==> ops[i].Forward()
  }

  ghost function ListRun(ops: seq<Op>): seq<Dict>
    requires AllForward(ops)
  {
    if ops == [] then [] else ListStep(ListRun(ops[..|ops| - 1]), ops[|ops| - 1])
  }

  /** The container after a run that starts with an empty one; none once an operation has raised. */
  ghost function FlatRun(ops: seq<Op>): (r: Option<Flat>)
    requires AllForward(ops)
    ensures r.Some? ==> r.value.Valid()
  {
    if ops == [] then Some(EMPTY)
    else
      var before := FlatRun(ops[..|ops| - 1]);
      if before.None? then None
      else StepDenotes(before.value, ops[|ops| - 1]); FlatStep(before.value, ops[|ops| - 1])
  }

  /** Every slice of the run selects something. */
  ghost predicate NoEmptySlice(ops: seq<Op>)
    requires AllForward(ops)
  {
    ops != [] ==>
      NoEmptySlice(ops[..|ops| - 1]) && (ops[|ops| - 1].SliceOp? ==> ListRun(ops) != [])
  }

  /** The container goes on standing for the list, and a run raises exactly when it takes an empty slice. */
  lemma {:induction false} RunDenotes(ops: seq<Op>)
    requires AllForward(ops)
    ensures FlatRun(ops).Some? <==> NoEmptySlice(ops)
    ensures FlatRun(ops).Some? ==> FlatRun(ops).value.Denote() == ListRun(ops)
  {
    if ops != [] {
      var before := ops[..|ops| - 1];
      RunDenotes(before);
      if FlatRun(before).Some? { StepDenotes(FlatRun(before).value, ops[|ops| - 1]); }
    }
  }
}
