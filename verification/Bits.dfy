/**
 Shifts and bitwise operators on Python integers, and the arithmetic they stand for.
 */
module Bits {
  import opened Arithmetic

  function Pow2(n: nat): (r: nat)
    ensures r > 0
  {
    if n == 0 then 1 else 2 * Pow2(n - 1)
  }

  /** `x << n` for a non-negative `x`. */
  function Shl(x: nat, n: nat): nat {
    x * Pow2(n)
  }

  /** `a | b` for non-negative operands. */
  function Or(a: nat, b: nat): nat {
    if a == 0 then b
    else if b == 0 then a
    else 2 * Or(a / 2, b / 2) + (if a % 2 == 1 || b % 2 == 1 then 1 else 0)
  }

  /** `x & mask`, where a negative `x` has two's complement bits. */
  function And(x: int, mask: nat): nat
    decreases mask
  {
    if mask == 0 then 0
    else 2 * And(x / 2, mask / 2) + (if x % 2 == 1 && mask % 2 == 1 then 1 else 0)
  }

  lemma {:induction false} Pow2Add(a: nat, b: nat)
    ensures Pow2(a + b) == Pow2(a) * Pow2(b)
  {
    if a > 0 {
      Pow2Add(a - 1, b);
      assert Pow2(a + b) == 2 * Pow2(a - 1 + b);
    }
  }

  lemma {:induction false} Pow2Monotone(a: nat, b: nat)
    requires a <= b
    ensures Pow2(a) <= Pow2(b)
  {
    if a < b { Pow2Monotone(a, b - 1); }
  }

  /** Reducing modulo `2 * m` takes the last bit and reduces the rest modulo `m`. */
  lemma ModDouble(x: int, m: nat)
    requires m > 0
    ensures x % (2 * m) == 2 * ((x / 2) % m) + x % 2
  {
    var h := x / 2;
    var q, r := h / m, h % m;
    assert h == q * m + r;
    assert x == 2 * (q * m + r) + x % 2;
    assert x == q * (2 * m) + (2 * r + x % 2);
    ModUnique(x, 2 * m, q, 2 * r + x % 2);
  }

  lemma AndStep(x: int, p: nat, m: nat)
    requires p > 0 && m == 2 * p && And(x / 2, p - 1) == (x / 2) % p
    ensures And(x, m - 1) == x % m
  {
    assert (m - 1) / 2 == p - 1 && (m - 1) % 2 == 1;
    ModDouble(x, p);
  }

  lemma AndNothing(x: int)
    ensures And(x, 0) == 0 == x % 1
  {
  }

  /** Masking with `(1 << width) - 1` reduces modulo `1 << width`, for negative numbers too. */
  lemma {:induction false} AndMask(x: int, width: nat)
    ensures And(x, Pow2(width) - 1) == x % Pow2(width)
    decreases width
  {
    if width == 0 {
      AndNothing(x);
    } else {
      AndMask(x / 2, width - 1);
      AndStep(x, Pow2(width - 1), Pow2(width));
    }
  }

  lemma OrStep(a: nat, c: nat)
    requires a > 0 && c > 0
    ensures Or(a, 2 * c) == 2 * Or(a / 2, c) + a % 2
  {
    assert (2 * c) / 2 == c && (2 * c) % 2 == 0;
  }

  /** Bits that do not overlap are added. */
  lemma {:induction false} OrAdds(a: nat, b: nat, k: nat)
    requires a < Pow2(k)
    ensures Or(a, Shl(b, k)) == a + Shl(b, k)
  {
    if a > 0 && b > 0 {
      var c := Shl(b, k - 1);
      HalfFits(a, k);
      OrAdds(a / 2, b, k - 1);
      ShlStep(b, k);
      OrStep(a, c);
    }
  }

  lemma HalfFits(a: nat, k: nat)
    requires 0 < a < Pow2(k)
    ensures k > 0 && a / 2 < Pow2(k - 1)
  {
  }

  lemma ShlStep(b: nat, k: nat)
    requires b > 0 && k > 0
    ensures Shl(b, k) == 2 * Shl(b, k - 1) && Shl(b, k - 1) > 0
  {
    Twice(b, Pow2(k - 1));
  }

  lemma Twice(b: nat, p: nat)
    requires b > 0 && p > 0
    ensures b * (2 * p) == 2 * (b * p) && b * p > 0
  {
  }
}
