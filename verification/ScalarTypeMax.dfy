/**
 The largest finite value of a floating-point format, built as the bits of an IEEE double
 (vllm/scalar_type.py). Values are counted in units of 2^-1074, the smallest positive double,
 of which every value of every format with at most 11 exponent and 52 mantissa bits is a
 whole number.
 */
module ScalarTypeMax {
  import opened Wrappers
  import opened Arithmetic
  import opened Bits
  import opened ScalarTypeId

  function MaxMantissa(t: ScalarType): int
    requires t.mantissa >= 0
  {
    Shl(1, t.mantissa) - 1 - (if t.nanRepr == ExtdRangeMaxMin then 1 else 0)
  }

  /** The largest exponent, moved from the bias of the format to that of a double. */
  function MaxExponentDouble(t: ScalarType): (r: nat)
    requires t.exponent >= 1
  {
    var maxExponent := Shl(1, t.exponent) - 2 + (if Extended(t) then 1 else 0);
    var exponentBias := Shl(1, t.exponent - 1) - 1;
    var exponentBiasDouble := Shl(1, 10) - 1;
    maxExponent - exponentBias + exponentBiasDouble
  }

  /** `_floating_point_max_int`, packed into 64 bits: an assertion can fail, a shift count can be negative,
      and a negative number cannot be packed. */
  function MaxRaw(t: ScalarType): Result<nat, Error> {
    if !(t.mantissa <= 52 && t.exponent <= 11) then Failure(AssertionError)
    else if t.mantissa < 0 || t.exponent < 0 then Failure(ValueError)
    else if Extended(t) && !(t.exponent < 11) then Failure(AssertionError)
    else if t.exponent < 1 then Failure(ValueError)
    else if MaxMantissa(t) < 0 then Failure(StructError)
    else Success(Or(Shl(MaxMantissa(t), 52 - t.mantissa), Shl(MaxExponentDouble(t), 52)))
  }

  /** The raw minimum: the same bits under a sign bit. */
  function MinRaw(t: ScalarType): Result<nat, Error> {
    if !t.signed then Failure(AssertionError)
    else if MaxRaw(t).Failure? then MaxRaw(t)
    else Success(Or(MaxRaw(t).value, Shl(1, 63)))
  }

  /** The NaN representations that leave the top exponent to numbers. */
  predicate Extended(t: ScalarType) { t.nanRepr != Ieee754 }

  // ---------------------------------------------------------------------------------
  // What encodings mean (section 3.4 of IEEE 754-2019).

  /** The format with `e` exponent and `m` mantissa bits. */
  datatype Format = Format(e: nat, m: nat)
  {
    predicate Fits() { 1 <= e <= 11 && m <= 52 }

    function Bias(): nat
      requires e >= 1
    {
      Pow2(e - 1) - 1
    }

    /** The weight of the last mantissa bit under exponent field `E`, as a power of two. */
    function Scale(E: nat): nat
      requires Fits()
    {
      BiasFits(this);
      (if E == 0 then 1 else E) - Bias() - m + 1074
    }

    /** The value of the encoding with exponent field `E` and mantissa field `M`. */
    function Value(E: nat, M: nat): nat
      requires Fits()
    {
      (if E == 0 then M else Pow2(m) + M) * Pow2(Scale(E))
    }
  }

  const DOUBLE := Format(11, 52)

  lemma BiasFits(f: Format)
    requires f.Fits()
    ensures f.Bias() <= 1023
  {
    Pow2Monotone(f.e - 1, 10);
    assert Pow2(10) == 1024 by { Pow2Add(5, 5); }
  }

  function FormatOf(t: ScalarType): Format
    requires t.exponent >= 1 && t.mantissa >= 0
  {
    Format(t.exponent, t.mantissa)
  }

  /** Which encodings of a type are finite numbers. */
  predicate Finite(t: ScalarType, E: nat, M: nat)
    requires t.exponent >= 1 && t.mantissa >= 0
  {
    && E < Pow2(t.exponent) && M < Pow2(t.mantissa)
    && match t.nanRepr
       case NoNans => true
       case Ieee754 => E != Pow2(t.exponent) - 1
       case ExtdRangeMaxMin => !(E == Pow2(t.exponent) - 1 && M == Pow2(t.mantissa) - 1)
  }

  const P52: nat := 0x10_0000_0000_0000
  const P63: nat := 0x8000_0000_0000_0000

  lemma DoubleWidths()
    ensures Pow2(11) == 2048 && Pow2(52) == P52 && Pow2(63) == P63
  {
    assert Pow2(4) == 16;
    Pow2Add(4, 4);
    Pow2Add(8, 3);
    Pow2Add(8, 8);
    Pow2Add(16, 16);
    Pow2Add(32, 16);
    Pow2Add(48, 4);
    Pow2Add(52, 11);
  }

  /** The number that the 64 bits of a double stand for; none for infinities and NaNs. */
  function DoubleValue(raw: nat): Option<int>
    requires raw < 2 * P63
  {
    var rest := raw % P63;
    var E, M := rest / P52, rest % P52;
    if E == 2047 then None
    else
      var v := DOUBLE.Value(E, M);
      Some(if raw >= P63 then 0 - v else v)
  }

  ghost predicate IsLargest(t: ScalarType, v: int)
    requires t.exponent >= 1 && t.mantissa >= 0 && FormatOf(t).Fits()
  {
    && (exists E: nat, M: nat :: Finite(t, E, M) && v == FormatOf(t).Value(E, M))
    && (forall E: nat, M: nat :: Finite(t, E, M) ==> FormatOf(t).Value(E, M) <= v)
  }

  // ---------------------------------------------------------------------------------
  // Encodings are ordered by exponent, then by mantissa.

  lemma SameExponent(f: Format, E: nat, M: nat, N: nat)
    requires f.Fits() && M <= N
    ensures f.Value(E, M) <= f.Value(E, N)
  {
    MulLeq(if E == 0 then M else Pow2(f.m) + M, if E == 0 then N else Pow2(f.m) + N, Pow2(f.Scale(E)));
  }

  lemma ScaleStep(f: Format, E: nat, next: nat)
    requires f.Fits() && next == E + 1
    ensures Pow2(f.Scale(next)) == if E == 0 then Pow2(f.Scale(E)) else 2 * Pow2(f.Scale(E))
  {
  }

  lemma Carry(a: nat, M: nat, p: nat)
    requires M < a
    ensures M * p <= a * p && (a + M) * p <= a * (2 * p)
  {
    MulLeq(M, a, p);
    assert (a + M) * p == a * p + M * p;
    assert a * (2 * p) == a * p + a * p;
  }

  lemma NextExponent(f: Format, E: nat, M: nat, next: nat)
    requires f.Fits() && M < Pow2(f.m) && next == E + 1
    ensures f.Value(E, M) <= f.Value(next, 0)
  {
    ScaleStep(f, E, next);
    Carry(Pow2(f.m), M, Pow2(f.Scale(E)));
  }

  lemma {:induction false} Ordered(f: Format, E: nat, M: nat, F: nat, N: nat)
    requires f.Fits() && M < Pow2(f.m)
    requires E < F || (E == F && M <= N)
    ensures f.Value(E, M) <= f.Value(F, N)
    decreases F - E
  {
    if E == F {
      SameExponent(f, E, M, N);
    } else {
      NextExponent(f, E, M, E + 1);
      Ordered(f, E + 1, 0, F, N);
    }
  }

  // ---------------------------------------------------------------------------------
  // The bits of the maximum.

  function TopExponent(t: ScalarType): nat
    requires t.exponent >= 1
  {
    Pow2(t.exponent) - (if Extended(t) then 1 else 2)
  }

  function TopMantissa(t: ScalarType): nat
    requires t.mantissa >= 1 || (t.mantissa == 0 && t.nanRepr != ExtdRangeMaxMin)
  {
    Pow2(t.mantissa) - (if t.nanRepr == ExtdRangeMaxMin then 2 else 1)
  }

  /** The exponent field of the double. */
  function DoubleExponent(t: ScalarType): nat
    requires t.exponent >= 1
  {
    Pow2(t.exponent - 1) + (if Extended(t) then 1023 else 1022)
  }

  function LowBits(t: ScalarType): nat
    requires Representable(t)
  {
    Shl(TopMantissa(t), 52 - t.mantissa)
  }

  /** The types whose maximum fits a double. */
  predicate Representable(t: ScalarType) {
    && 0 <= t.mantissa <= 52 && 1 <= t.exponent <= (if Extended(t) then 10 else 11)
    && !(t.nanRepr == ExtdRangeMaxMin && t.mantissa == 0)
  }

  /** Exactly when there is a maximum to return, and the fields it is made of. */
  lemma MaxFields(t: ScalarType)
    ensures MaxRaw(t).Success? <==> Representable(t)
    ensures Representable(t) ==> MaxRaw(t).value == Or(LowBits(t), Shl(DoubleExponent(t), 52))
  {
    if t.mantissa >= 0 { MantissaField(t); }
    if t.exponent >= 1 { ExponentField(t); }
  }

  lemma MantissaField(t: ScalarType)
    requires t.mantissa >= 0
    ensures MaxMantissa(t) < 0 <==> t.mantissa == 0 && t.nanRepr == ExtdRangeMaxMin
    ensures MaxMantissa(t) >= 0 ==> MaxMantissa(t) == TopMantissa(t)
  {
    if t.mantissa > 0 { assert Pow2(t.mantissa) == 2 * Pow2(t.mantissa - 1); }
  }

  lemma ExponentField(t: ScalarType)
    requires t.exponent >= 1
    ensures MaxExponentDouble(t) == DoubleExponent(t)
  {
    assert Pow2(10) == 1024 by { Pow2Add(5, 5); }
    assert Pow2(t.exponent) == 2 * Pow2(t.exponent - 1);
  }

  lemma DoubleExponentFits(t: ScalarType)
    requires Representable(t)
    ensures 1023 <= DoubleExponent(t) < 2047
  {
    assert Pow2(9) == 512;
    assert Pow2(10) == 1024;
    Pow2Monotone(t.exponent - 1, if Extended(t) then 9 else 10);
  }

  lemma LowBitsFit(t: ScalarType)
    requires Representable(t)
    ensures LowBits(t) < P52
  {
    DoubleWidths();
    ShiftedFits(TopMantissa(t), t.mantissa, 52 - t.mantissa);
  }

  lemma ShiftedFits(x: nat, m: nat, k: nat)
    requires x < Pow2(m)
    ensures Shl(x, k) < Pow2(m + k)
  {
    Pow2Add(m, k);
    MulLeq(x + 1, Pow2(m), Pow2(k));
  }

  lemma BitsAdd(low: nat, high: nat)
    requires low < P52
    ensures Or(low, Shl(high, 52)) == low + high * P52
  {
    DoubleWidths();
    OrAdds(low, high, 52);
  }

  /** The number that the fields of a double stand for. */
  lemma DoubleOf(raw: nat, E: nat, M: nat)
    requires raw == M + E * P52 && M < P52 && E < 2047
    ensures raw < P63 && DoubleValue(raw) == Some(DOUBLE.Value(E, M))
    ensures DoubleValue(raw + P63) == Some(0 - DOUBLE.Value(E, M))
  {
    ModUnique(raw, P52, E, M);
    ModUnique(raw, P63, 0, raw);
    ModUnique(raw + P63, P63, 1, raw);
  }

  lemma DoubleScale(d: nat)
    requires d >= 1
    ensures DOUBLE.Scale(d) == d - 1
  {
    assert Pow2(10) == 1024 by { Pow2Add(5, 5); }
  }

  lemma Regroup(a: nat, b: nat, c: nat, d: nat)
    ensures (a * c + b * c) * d == (a + b) * (c * d)
  {
    assert a * c + b * c == (a + b) * c;
  }

  /** The value of the double: that of a normal encoding with the top mantissa. */
  function Top(t: ScalarType): nat
    requires Representable(t)
  {
    (Pow2(t.mantissa) + TopMantissa(t)) * Pow2(TopScale(t))
  }

  function TopScale(t: ScalarType): nat
    requires Representable(t)
  {
    DoubleExponent(t) + 51 - t.mantissa
  }

  lemma DoubleCounts(m: nat, top: nat, d: nat, k: nat, scale: nat)
    requires d >= 1 && m + k == 52 && k + (d - 1) == scale
    ensures DOUBLE.Value(d, Shl(top, k)) == (Pow2(m) + top) * Pow2(scale)
  {
    DoubleScale(d);
    Pow2Add(m, k);
    Pow2Add(k, d - 1);
    Regroup(Pow2(m), top, Pow2(k), Pow2(d - 1));
  }

  lemma MaxSum(t: ScalarType) returns (raw: nat)
    requires Representable(t)
    ensures MaxRaw(t) == Success(raw) && raw == LowBits(t) + DoubleExponent(t) * P52
  {
    MaxFields(t);
    LowBitsFit(t);
    BitsAdd(LowBits(t), DoubleExponent(t));
    raw := LowBits(t) + DoubleExponent(t) * P52;
  }

  lemma TopAsDouble(t: ScalarType)
    requires Representable(t)
    ensures DOUBLE.Value(DoubleExponent(t), LowBits(t)) == Top(t)
  {
    DoubleCounts(t.mantissa, TopMantissa(t), DoubleExponent(t), 52 - t.mantissa, TopScale(t));
  }

  lemma RawValue(t: ScalarType, raw: nat, E: nat, M: nat)
    requires Representable(t) && E == DoubleExponent(t) && M == LowBits(t) && raw == M + E * P52
    ensures raw < P63 && DoubleValue(raw) == Some(Top(t)) && DoubleValue(raw + P63) == Some(0 - Top(t))
  {
    LowBitsFit(t);
    DoubleExponentFits(t);
    DoubleOf(raw, E, M);
    TopAsDouble(t);
  }

  /** The bits that are returned, and the value they stand for. */
  lemma MaxBits(t: ScalarType) returns (raw: nat)
    requires Representable(t)
    ensures MaxRaw(t) == Success(raw) && raw < P63
    ensures DoubleValue(raw) == Some(Top(t)) && DoubleValue(raw + P63) == Some(0 - Top(t))
  {
    raw := MaxSum(t);
    RawValue(t, raw, DoubleExponent(t), LowBits(t));
  }

  lemma TopIsNormal(t: ScalarType)
    requires t.exponent >= 1 && !(t.nanRepr == Ieee754 && t.exponent == 1)
    ensures TopExponent(t) >= 1
  {
    assert Pow2(t.exponent) == 2 * Pow2(t.exponent - 1);
    if t.exponent > 1 { assert Pow2(t.exponent - 1) == 2 * Pow2(t.exponent - 2); }
  }

  lemma TopScales(t: ScalarType)
    requires Representable(t) && TopExponent(t) >= 1
    ensures FormatOf(t).Scale(TopExponent(t)) == TopScale(t)
  {
    assert Pow2(t.exponent) == 2 * Pow2(t.exponent - 1);
  }

  lemma TopIsValue(t: ScalarType, f: Format, E: nat, M: nat)
    requires Representable(t) && f == FormatOf(t) && E == TopExponent(t) && M == TopMantissa(t) && E >= 1
    ensures Top(t) == f.Value(E, M)
  {
    TopScales(t);
  }

  /** No finite encoding comes after the top one. */
  lemma TopIsLargest(t: ScalarType, f: Format, E: nat, M: nat)
    requires Representable(t) && f == FormatOf(t) && E == TopExponent(t) && M == TopMantissa(t) && E >= 1
    ensures IsLargest(t, f.Value(E, M))
  {
    assert Finite(t, E, M);
    forall F: nat, N: nat | Finite(t, F, N) ensures f.Value(F, N) <= f.Value(E, M) {
      Ordered(f, F, N, E, M);
    }
  }

  /** With one exponent bit, IEEE conventions leave only subnormal numbers, and the double is above them all. */
  lemma OneExponentBit(t: ScalarType, m: nat)
    requires Representable(t) && t.exponent == 1 && t.nanRepr == Ieee754 && t.mantissa == m
    ensures !IsLargest(t, Top(t))
  {
    var p := Pow2(1074 - m);
    assert Pow2(1) == 2 && Pow2(0) == 1;
    assert Top(t) == (2 * Pow2(m) - 1) * p;
    forall E: nat, M: nat | Finite(t, E, M) ensures FormatOf(t).Value(E, M) < Top(t) {
      assert E == 0 && FormatOf(t).Scale(0) == 1075 - m;
      assert FormatOf(t).Value(E, M) == M * (2 * p);
      MulLeq(M, Pow2(m) - 1, 2 * p);
      Below(Pow2(m), p);
    }
  }

  lemma Below(a: nat, p: nat)
    requires a >= 1 && p >= 1
    ensures (a - 1) * (2 * p) < (2 * a - 1) * p
  {
    assert (2 * a - 1) * p == (2 * a - 2) * p + p;
  }

  lemma LargestIff(t: ScalarType)
    requires Representable(t)
    ensures IsLargest(t, Top(t)) <==> !(t.nanRepr == Ieee754 && t.exponent == 1)
  {
    if t.nanRepr == Ieee754 && t.exponent == 1 {
      OneExponentBit(t, t.mantissa);
    } else {
      TopIsNormal(t);
      TopIsValue(t, FormatOf(t), TopExponent(t), TopMantissa(t));
      TopIsLargest(t, FormatOf(t), TopExponent(t), TopMantissa(t));
    }
  }

  /** The double is finite, and the largest finite value of the format unless the format follows IEEE
      conventions with a single exponent bit. */
  lemma MaxIsLargest(t: ScalarType)
    requires MaxRaw(t).Success?
    ensures Representable(t) && MaxRaw(t).value < P63 && DoubleValue(MaxRaw(t).value).Some?
    ensures IsLargest(t, DoubleValue(MaxRaw(t).value).value) <==> !(t.nanRepr == Ieee754 && t.exponent == 1)
  {
    MaxFields(t);
    var raw := MaxBits(t);
    LargestIff(t);
  }

  /** The raw minimum is the exact negation of the raw maximum. */
  lemma MinIsNegated(t: ScalarType)
    ensures MinRaw(t).Success? <==> t.signed && MaxRaw(t).Success?
    ensures MinRaw(t).Success? ==>
              && MaxRaw(t).value < P63 && MinRaw(t).value < 2 * P63
              && DoubleValue(MaxRaw(t).value).Some? && DoubleValue(MinRaw(t).value).Some?
              && DoubleValue(MinRaw(t).value).value == 0 - DoubleValue(MaxRaw(t).value).value
  {
    if MinRaw(t).Success? {
      MaxFields(t);
      var raw := MaxBits(t);
      SignBit(raw);
    }
  }

  lemma SignBit(raw: nat)
    requires raw < P63
    ensures Or(raw, Shl(1, 63)) == raw + P63
  {
    DoubleWidths();
    OrAdds(raw, 1, 63);
  }

  /** Without mantissa bits, and with the top encoding taken by NaN, the largest mantissa comes out as -1 and
      the bits cannot be packed. */
  lemma NoMantissaHasNoMaximum(t: ScalarType)
    requires t == ScalarType(8, 0, false, 0, true, ExtdRangeMaxMin)
    ensures MaxRaw(t) == Failure(StructError)
  {
    MantissaField(t);
  }

  /** For one exponent and one mantissa bit, the code gives 1.5 where the largest finite value is 1. */
  lemma SmallestIeeeFormat(t: ScalarType)
    requires t == ScalarType(1, 1, true, 0, false, Ieee754)
    ensures MaxRaw(t).Success? && MaxRaw(t).value < P63
    ensures DoubleValue(MaxRaw(t).value) == Some(3 * Pow2(1073))
    ensures IsLargest(t, 2 * Pow2(1073))
  {
    var raw := MaxBits(t);
    TopOfSmallest(t);
    LargestOfSmallest(t, FormatOf(t));
  }

  lemma TopOfSmallest(t: ScalarType)
    requires t == ScalarType(1, 1, true, 0, false, Ieee754)
    ensures Top(t) == 3 * Pow2(1073)
  {
    assert Pow2(1) == 2 && Pow2(0) == 1;
    assert TopScale(t) == 1073 && TopMantissa(t) == 1;
  }

  lemma LargestOfSmallest(t: ScalarType, f: Format)
    requires t == ScalarType(1, 1, true, 0, false, Ieee754) && f == FormatOf(t)
    ensures IsLargest(t, 2 * Pow2(1073))
  {
    assert Pow2(1) == 2 && Pow2(0) == 1;
    assert f.Scale(0) == 1074;
    assert Finite(t, 0, 1) && f.Value(0, 1) == Pow2(1074);
    forall E: nat, M: nat | Finite(t, E, M) ensures f.Value(E, M) <= 2 * Pow2(1073) {
      SameExponent(f, 0, M, 1);
    }
  }
}
