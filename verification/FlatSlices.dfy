/**
 What Python's `[start:stop:step]` selects in a container of log probabilities
 (vllm/logprobs.py), stated on the bounds as they are written.
 */
module FlatSlices {
  import opened Wrappers
  import opened Arithmetic
  import opened FlatLogprobs

  // ---------------------------------------------------------------------------------
  // Bounds.

  /** A negative bound counts from the end. */
  lemma NegativeBoundCountsFromEnd(b: int, other: Option<int>, step: int, len: nat)
    requires step != 0 && 0 - len <= b < 0
    ensures Selected(Some(b), other, step, len) == Selected(Some(b + len), other, step, len)
    ensures Selected(other, Some(b), step, len) == Selected(other, Some(b + len), step, len)
  {
  }

  /** A bound beyond the end where a slice begins or stops anyway is no bound. */
  lemma BoundBeyondEnd(b: int, other: Option<int>, step: int, len: nat)
    requires step != 0
    ensures (if step > 0 then b < 0 - len else b >= len) ==>
              Selected(Some(b), other, step, len) == Selected(None, other, step, len)
    ensures (if step > 0 then b >= len else b < 0 - len) ==>
              Selected(other, Some(b), step, len) == Selected(other, None, step, len)
  {
  }

  /** Starting beyond the far end, or stopping before the near one, selects nothing. */
  lemma BoundBeyondOtherEnd(b: int, other: Option<int>, step: int, len: nat)
    requires step != 0
    ensures (if step > 0 then b >= len else b < 0 - len) ==> Selected(Some(b), other, step, len) == []
    ensures (if step > 0 then b < 0 - len else b >= len) ==> Selected(other, Some(b), step, len) == []
  {
  }

  /** Without a start, a slice starts at the end it moves away from. */
  lemma NoStart(stop: Option<int>, step: int, len: nat)
    requires step != 0 && len > 0
    ensures Selected(None, stop, step, len) == Selected(Some(if step > 0 then 0 else len - 1), stop, step, len)
  {
  }

  // ---------------------------------------------------------------------------------
  // Positions.

  lemma StepBack(d: int, step: nat)
    requires step > 0
    ensures (d - step) % step == d % step
    ensures 0 < d < step ==> d % step != 0
  {
    var q, r := d / step, d % step;
    assert d == q * step + r;
    assert d - step == (q - 1) * step + r;
    ModUnique(d - step, step, q - 1, r);
  }

  lemma {:induction false} ForwardPositions(lo: int, hi: int, step: nat, p: int)
    requires step > 0
    ensures p in Positions(lo, hi, step) <==> lo <= p < hi && (p - lo) % step == 0
    decreases hi - lo
  {
    if lo < hi {
      ForwardPositions(lo + step, hi, step, p);
      StepBack(p - lo, step);
    }
  }

  lemma {:induction false} BackwardPositions(lo: int, hi: int, step: nat, p: int)
    requires step > 0
    ensures p in Positions(lo, hi, 0 - step) <==> hi < p <= lo && (lo - p) % step == 0
    decreases lo - hi
  {
    if lo > hi {
      BackwardPositions(lo - step, hi, step, p);
      StepBack(lo - p, step);
    }
  }

  /** With a positive step: the positions from `a` on that are whole steps away, up to but not including `b`,
      or up to the end. */
  lemma ForwardSlice(a: nat, b: nat, step: nat, len: nat, p: int)
    requires step > 0 && a < len && b < len
    ensures p in Selected(Some(a), Some(b), step, len) <==> a <= p < b && (p - a) % step == 0
    ensures p in Selected(Some(a), None, step, len) <==> a <= p < len && (p - a) % step == 0
  {
    ForwardPositions(a, b, step, p);
    ForwardPositions(a, len, step, p);
  }

  /** With a negative step: the positions from `a` down that are whole steps away, down to but not including
      `b`, or down to the first. */
  lemma BackwardSlice(a: nat, b: nat, step: nat, len: nat, p: int)
    requires step > 0 && a < len && b < len
    ensures p in Selected(Some(a), Some(b), 0 - step, len) <==> b < p <= a && (a - p) % step == 0
    ensures p in Selected(Some(a), None, 0 - step, len) <==> 0 <= p <= a && (a - p) % step == 0
  {
    BackwardPositions(a, b, step, p);
    BackwardPositions(a, -1, step, p);
  }

  // ---------------------------------------------------------------------------------
  // The last positions.

  lemma {:induction false} Consecutive(lo: int, hi: int)
    requires lo <= hi
    ensures Positions(lo, hi, 1) == seq(hi - lo, k => lo + k)
    decreases hi - lo
  {
    if lo < hi { Consecutive(lo + 1, hi); }
  }

  /** How many positions `[-n:]` selects: the last `n`, or all of them when there are fewer, and when `n` is 0. */
  function LastCount(n: nat, len: nat): nat {
    if n == 0 || n > len then len else n
  }

  lemma LastPositions(n: nat, len: nat)
    ensures var m := LastCount(n, len);
            Selected(Some(0 - n), None, 1, len) == seq(m, k => len - m + k)
  {
    Consecutive(len - LastCount(n, len), len);
  }

  lemma SelectLast<T>(s: seq<T>, sel: seq<int>, m: nat)
    requires m <= |s| && sel == seq(m, k => |s| - m + k)
    ensures InRange(sel, |s|) && Increasing(sel) && Select(s, sel) == s[|s| - m..]
  {
  }

  /** `[-n:]` of the container denotes the end of the list of dictionaries. */
  lemma LastPositionsDenote(f: Flat, n: nat)
    requires f.Valid() && f.startIndices != []
    ensures var len := |f.startIndices|;
            var r := Slice(f, Selected(Some(0 - n), None, 1, len));
            r.Some? && r.value.Valid() && r.value.Denote() == f.Denote()[len - LastCount(n, len)..]
  {
    var len := |f.startIndices|;
    var sel := Selected(Some(0 - n), None, 1, len);
    LastPositions(n, len);
    SelectLast(f.Denote(), sel, LastCount(n, len));
    SliceDenotes(f, sel);
  }
}
