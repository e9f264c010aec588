/**
 The integer code of a scalar type (vllm/scalar_type.py), the registry that decodes it, and
 the decoder on the C++ side (csrc/core/scalar_type.hpp).
 */
module ScalarTypeId {
  import opened Wrappers
  import opened Arithmetic
  import opened Bits

  datatype Error = AssertionError | ValueError | StructError

  datatype NanRepr = NoNans | Ieee754 | ExtdRangeMaxMin
  {
    function Value(): (v: nat)
      ensures v < 3
    {
      match this
      case NoNans => 0
      case Ieee754 => 1
      case ExtdRangeMaxMin => 2
    }
  }

  function NanReprOf(code: nat): Option<NanRepr> {
    if code == 0 then Some(NoNans) else if code == 1 then Some(Ieee754)
    else if code == 2 then Some(ExtdRangeMaxMin) else None
  }

  datatype ScalarType = ScalarType(
    exponent: int,
    mantissa: int,
    signed: bool,
    bias: int,
    finiteValuesOnly: bool,
    nanRepr: NanRepr)
  {
    function SizeBits(): int { exponent + mantissa + ToInt(signed) }

    predicate IsInteger() { exponent == 0 }

    /** Every field fits its C++ type. */
    predicate Fits() {
      0 <= exponent < 0x100 && 0 <= mantissa < 0x100 && -0x8000_0000 <= bias < 0x8000_0000
    }

    /** The type that the C++ side would store: fields cut to their widths. */
    function Truncated(): (t: ScalarType)
      ensures t.Fits()
    {
      this.(exponent := exponent % 0x100, mantissa := mantissa % 0x100, bias := ToInt32(bias % 0x1_0000_0000))
    }
  }

  function ToInt32(v: nat): int {
    if v < 0x8000_0000 then v else v - 0x1_0000_0000
  }

  function ToInt(b: bool): nat {
    if b then 1 else 0
  }

  /** The fields of a code: 8, 8, 1, 32, 1 and 8 bits, the first one lowest. */
  datatype Digits = Digits(exponent: nat, mantissa: nat, signed: nat, bias: nat, finite: nat, nanRepr: nat)
  {
    predicate Fit() {
      && exponent < 0x100 && mantissa < 0x100 && signed < 2 && bias < 0x1_0000_0000 && finite < 2
      && nanRepr < 0x100
    }

    function Number(): nat {
      exponent + 0x100 * mantissa + 0x1_0000 * signed + 0x2_0000 * bias
      + 0x2_0000_0000_0000 * finite + 0x4_0000_0000_0000 * nanRepr
    }
  }

  function DigitsOf(t: ScalarType): (d: Digits)
    ensures d.Fit()
  {
    Digits(t.exponent % 0x100, t.mantissa % 0x100, ToInt(t.signed), t.bias % 0x1_0000_0000,
           ToInt(t.finiteValuesOnly), t.nanRepr.Value())
  }

  /** The code of a type. */
  function IdOf(t: ScalarType): nat {
    DigitsOf(t).Number()
  }

  /** Adds a field above the bits that are taken: a digit of base `m`, worth `q`. */
  method OrAndAdvance(val: nat, offset: nat, member: int, bitWidth: nat, ghost q: nat, ghost m: nat)
    returns (newVal: nat, newOffset: nat)
    requires q == Pow2(offset) && m == Pow2(bitWidth) && val < q
    ensures newOffset == offset + bitWidth && newVal < Pow2(newOffset)
    ensures newVal == val + (member % m) * q
  {
    var bitMask := Shl(1, bitWidth) - 1;
    newVal := Or(val, Shl(And(member, bitMask), offset));
    newOffset := offset + bitWidth;
    AndMask(member, bitWidth);
    OrAdds(val, And(member, bitMask), offset);
    DigitFits(val, offset, member % m, bitWidth);
  }

  lemma DigitFits(val: nat, offset: nat, digit: nat, width: nat)
    requires val < Pow2(offset) && digit < Pow2(width)
    ensures val + digit * Pow2(offset) < Pow2(offset + width)
  {
    Pow2Add(offset, width);
    assert (digit + 1) * Pow2(offset) <= Pow2(width) * Pow2(offset) by { MulLeq(digit + 1, Pow2(width), Pow2(offset)); }
  }

  lemma Widths()
    ensures Pow2(0) == 1 && Pow2(1) == 2 && Pow2(8) == 0x100 && Pow2(16) == 0x1_0000 && Pow2(17) == 0x2_0000
    ensures Pow2(32) == 0x1_0000_0000
    ensures Pow2(49) == 0x2_0000_0000_0000 && Pow2(50) == 0x4_0000_0000_0000 && Pow2(58) == 0x400_0000_0000_0000
  {
    assert Pow2(4) == 16;
    Pow2Add(4, 4);
    Pow2Add(8, 8);
    Pow2Add(16, 1);
    Pow2Add(16, 16);
    Pow2Add(32, 17);
    Pow2Add(49, 1);
    Pow2Add(50, 8);
  }

  /** The code, field by field: where each field begins, and how the NaN representations are numbered. */
  lemma IdFields(t: ScalarType)
    ensures IdOf(t) == t.exponent % 0x100 + t.mantissa % 0x100 * 0x100 + (if t.signed then 0x1_0000 else 0)
                       + t.bias % 0x1_0000_0000 * 0x2_0000 + (if t.finiteValuesOnly then 0x2_0000_0000_0000 else 0)
                       + (match t.nanRepr
                          case NoNans => 0
                          case Ieee754 => 0x4_0000_0000_0000
                          case ExtdRangeMaxMin => 0x8_0000_0000_0000)
  {
  }

  lemma IdIsSum(t: ScalarType)
    ensures IdOf(t) == 0 + (t.exponent % 0x100) * 1 + (t.mantissa % 0x100) * 0x100 + (ToInt(t.signed) % 2) * 0x1_0000
                       + (t.bias % 0x1_0000_0000) * 0x2_0000 + (ToInt(t.finiteValuesOnly) % 2) * 0x2_0000_0000_0000
                       + (t.nanRepr.Value() % 0x100) * 0x4_0000_0000_0000
  {
  }

  method PackFields(t: ScalarType) returns (val: nat)
    ensures val == IdOf(t) && val < Pow2(58)
  {
    Widths();
    var offset;
    val, offset := OrAndAdvance(0, 0, t.exponent, 8, 1, 0x100);
    val, offset := OrAndAdvance(val, offset, t.mantissa, 8, 0x100, 0x100);
    val, offset := OrAndAdvance(val, offset, ToInt(t.signed), 1, 0x1_0000, 2);
    val, offset := OrAndAdvance(val, offset, t.bias, 32, 0x2_0000, 0x1_0000_0000);
    val, offset := OrAndAdvance(val, offset, ToInt(t.finiteValuesOnly), 1, 0x2_0000_0000_0000, 2);
    val, offset := OrAndAdvance(val, offset, t.nanRepr.Value(), 8, 0x4_0000_0000_0000, 0x100);
    assert offset == 58;
    IdIsSum(t);
  }

  // ---------------------------------------------------------------------------------
  // Decoding on the C++ side.

  function Field(id: nat, offset: nat, width: nat): nat {
    And(id / Pow2(offset), Pow2(width) - 1)
  }

  function DigitsIn(id: nat): Digits {
    Digits(Field(id, 0, 8), Field(id, 8, 8), Field(id, 16, 1), Field(id, 17, 32), Field(id, 49, 1), Field(id, 50, 8))
  }

  /** The type with these fields; none when the code of the NaN representation is not an enumerator. */
  function TypeOf(d: Digits): Option<ScalarType> {
    var nanRepr := NanReprOf(d.nanRepr);
    if nanRepr.None? then None
    else Some(ScalarType(d.exponent, d.mantissa, d.signed != 0, ToInt32(d.bias), d.finite != 0, nanRepr.value))
  }

  /** The C++ `from_id`. */
  function Unpack(id: nat): Option<ScalarType> {
    TypeOf(DigitsIn(id))
  }

  lemma FieldIs(id: nat, offset: nat, width: nat, q: nat, m: nat, low: nat, digit: nat, rest: nat)
    requires Pow2(offset) == q && Pow2(width) == m
    requires id == (rest * m + digit) * q + low && low < q && digit < m
    ensures Field(id, offset, width) == digit
  {
    ModUnique(id, q, rest * m + digit, low);
    AndMask(rest * m + digit, width);
    ModUnique(rest * m + digit, m, rest, digit);
  }

  /** Extracting the fields of a number undoes putting it together. */
  lemma DigitsOfNumber(d: Digits)
    requires d.Fit()
    ensures DigitsIn(d.Number()) == d
  {
    var id := d.Number();
    var r4 := d.finite + 2 * d.nanRepr;
    var r3 := d.bias + 0x1_0000_0000 * r4;
    var r2 := d.signed + 2 * r3;
    var r1 := d.mantissa + 0x100 * r2;
    Widths();
    FieldIs(id, 0, 8, 1, 0x100, 0, d.exponent, r1);
    FieldIs(id, 8, 8, 0x100, 0x100, d.exponent, d.mantissa, r2);
    FieldIs(id, 16, 1, 0x1_0000, 2, d.exponent + 0x100 * d.mantissa, d.signed, r3);
    FieldIs(id, 17, 32, 0x2_0000, 0x1_0000_0000, d.exponent + 0x100 * d.mantissa + 0x1_0000 * d.signed, d.bias, r4);
    FieldIs(id, 49, 1, 0x2_0000_0000_0000, 2, id - 0x2_0000_0000_0000 * r4, d.finite, d.nanRepr);
    FieldIs(id, 50, 8, 0x4_0000_0000_0000, 0x100, id - 0x4_0000_0000_0000 * d.nanRepr, d.nanRepr, 0);
  }

  /** Every number of 58 bits is put together from its fields. */
  lemma NumberOfDigits(id: nat)
    requires id < 0x400_0000_0000_0000
    ensures DigitsIn(id).Fit() && DigitsIn(id).Number() == id
  {
    var r1 := id / 0x100;
    var r2 := r1 / 0x100;
    var r3 := r2 / 2;
    var r4 := r3 / 0x1_0000_0000;
    var r5 := r4 / 2;
    var d := Digits(id % 0x100, r1 % 0x100, r2 % 2, r3 % 0x1_0000_0000, r4 % 2, r5);
    assert d.Number() == id;
    assert d.Fit();
    DigitsOfNumber(d);
  }

  /** What the C++ side decodes from a code is the type with its fields cut to their widths. */
  lemma UnpackId(t: ScalarType)
    ensures Unpack(IdOf(t)) == Some(t.Truncated())
  {
    DigitsOfNumber(DigitsOf(t));
    TypeOfDigits(t);
  }

  lemma TypeOfDigits(t: ScalarType)
    ensures TypeOf(DigitsOf(t)) == Some(t.Truncated())
  {
  }

  lemma DigitsOfType(d: Digits)
    requires d.Fit() && TypeOf(d).Some?
    ensures TypeOf(d).value.Fits() && DigitsOf(TypeOf(d).value) == d
  {
    if d.bias >= 0x8000_0000 { ModUnique(d.bias - 0x1_0000_0000, 0x1_0000_0000, -1, d.bias); }
  }

  /** The code is exact on the types whose fields fit: it decodes to the type, and to nothing else. */
  lemma RoundTrips(t: ScalarType, id: nat)
    ensures t.Fits() <==> Unpack(IdOf(t)) == Some(t)
    ensures id < Pow2(58) && Unpack(id).Some? ==> Unpack(id).value.Fits() && IdOf(Unpack(id).value) == id
  {
    UnpackId(t);
    TruncatedFits(t);
    if id < Pow2(58) && Unpack(id).Some? {
      Widths();
      NumberOfDigits(id);
      DigitsOfType(DigitsIn(id));
    }
  }

  lemma TruncatedFits(t: ScalarType)
    ensures t.Fits() <==> t.Truncated() == t
    ensures DigitsOf(t.Truncated()) == DigitsOf(t)
  {
    DigitsOfType(DigitsOf(t));
    TypeOfDigits(t);
  }

  /** Two types share a code exactly when they agree after cutting; so types that fit never do. */
  lemma IdsCollide(t: ScalarType, u: ScalarType)
    ensures IdOf(t) == IdOf(u) <==> t.Truncated() == u.Truncated()
    ensures t.Fits() && u.Fits() && IdOf(t) == IdOf(u) ==> t == u
  {
    UnpackId(t);
    UnpackId(u);
    TruncatedFits(t);
    TruncatedFits(u);
  }

  // ---------------------------------------------------------------------------------
  // The registry on the Python side.

  /** The map after the codes of the types were computed, in this order. */
  ghost function MapAfter(types: seq<ScalarType>): map<nat, ScalarType> {
    if types == [] then map[]
    else MapAfter(types[..|types| - 1])[IdOf(types[|types| - 1]) := types[|types| - 1]]
  }

  ghost predicate IsLastWith(types: seq<ScalarType>, i: nat, id: nat)
    requires i < |types|
  {
    IdOf(types[i]) == id && forall j :: i < j < |types| ==> IdOf(types[j]) != id
  }

  lemma MapAfterStep(types: seq<ScalarType>, t: ScalarType)
    ensures MapAfter(types + [t]) == MapAfter(types)[IdOf(t) := t]
  {
    assert (types + [t])[..|types + [t]| - 1] == types;
  }

  /** The codes in the map are those of the types so far, and a code belongs to the last type that has it. */
  lemma {:induction false} MapKeys(types: seq<ScalarType>, id: nat)
    ensures id in MapAfter(types) <==> exists i :: 0 <= i < |types| && IdOf(types[i]) == id
    ensures id in MapAfter(types) ==> exists i :: 0 <= i < |types| && IsLastWith(types, i, id) && MapAfter(types)[id] == types[i]
  {
    if types != [] {
      var n := |types| - 1;
      var before := types[..n];
      MapKeys(before, id);
      if IdOf(types[n]) == id {
        assert IsLastWith(types, n, id) && MapAfter(types)[id] == types[n];
      } else {
        LastBefore(types, before, id);
      }
    }
  }

  lemma LastBefore(types: seq<ScalarType>, before: seq<ScalarType>, id: nat)
    requires types != [] && before == types[..|types| - 1] && IdOf(types[|types| - 1]) != id
    ensures forall i :: 0 <= i < |before| ==> types[i] == before[i]
    ensures forall i :: 0 <= i < |before| && IsLastWith(before, i, id) ==> IsLastWith(types, i, id)
  {
  }

  ghost predicate AllFit(types: seq<ScalarType>) {
    forall i :: 0 <= i < |types| ==> types[i].Fits()
  }

  ghost predicate NoCollision(types: seq<ScalarType>) {
    forall i, j :: 0 <= i < |types| && 0 <= j < |types| && IdOf(types[i]) == IdOf(types[j]) ==> types[i] == types[j]
  }

  lemma FitMeansNoCollision(types: seq<ScalarType>)
    ensures AllFit(types) ==> NoCollision(types)
  {
    if AllFit(types) {
      forall i, j | 0 <= i < |types| && 0 <= j < |types| && IdOf(types[i]) == IdOf(types[j])
        ensures types[i] == types[j]
      {
        IdsCollide(types[i], types[j]);
      }
    }
  }

  ghost predicate Decodes(types: seq<ScalarType>, t: ScalarType) {
    IdOf(t) in MapAfter(types) && MapAfter(types)[IdOf(t)] == t
  }

  /** `from_id` gives back every type whose code was computed exactly when no two of them collide. */
  lemma FromIdInverts(types: seq<ScalarType>)
    ensures (forall i :: 0 <= i < |types| ==> Decodes(types, types[i])) <==> NoCollision(types)
    ensures AllFit(types) ==> NoCollision(types)
  {
    FitMeansNoCollision(types);
    forall i | 0 <= i < |types| && NoCollision(types) ensures Decodes(types, types[i]) {
      MapKeys(types, IdOf(types[i]));
    }
  }

  /** The registry; `history` holds the types whose codes were computed, in order. */
  class Registry {
    var idMap: map<nat, ScalarType>
    ghost var history: seq<ScalarType>

    ghost predicate Valid()
      reads this
    {
      idMap == MapAfter(history)
    }

    constructor ()
      ensures Valid() && history == []
    {
      idMap, history := map[], [];
    }

    method Id(t: ScalarType) returns (val: nat)
      requires Valid()
      modifies this
      ensures Valid() && history == old(history) + [t]
      ensures val == IdOf(t) && val < Pow2(58)
    {
      val := PackFields(t);
      idMap := idMap[val := t];
      MapAfterStep(history, t);
      history := history + [t];
    }

    /** The last type with the code; as long as no two types collide, that is the type itself. */
    method FromId(id: nat) returns (r: Result<ScalarType, Error>)
      requires Valid()
      ensures r.Failure? <==> forall i :: 0 <= i < |history| ==> IdOf(history[i]) != id
      ensures r.Failure? ==> r.error == ValueError
      ensures r.Success? ==> exists i :: 0 <= i < |history| && IsLastWith(history, i, id) && r.value == history[i]
      ensures NoCollision(history) ==> forall i :: 0 <= i < |history| && IdOf(history[i]) == id ==> r == Success(history[i])
      ensures AllFit(history) ==> NoCollision(history)
    {
      MapKeys(history, id);
      FitMeansNoCollision(history);
      if id !in idMap { return Failure(ValueError); }
      r := Success(idMap[id]);
    }

    method Int(sizeBits: int, bias: Option<int>) returns (t: ScalarType)
      requires Valid()
      modifies this
      ensures Valid() && history == old(history) + [t]
      ensures t.IsInteger() && t.signed && t.SizeBits() == sizeBits
      ensures t.bias == (if bias.None? then 0 else bias.value) && !t.finiteValuesOnly && t.nanRepr == Ieee754
    {
      t := ScalarType(0, sizeBits - 1, true, if bias.None? then 0 else bias.value, false, Ieee754);
      var _ := Id(t);
    }

    method Uint(sizeBits: int, bias: Option<int>) returns (t: ScalarType)
      requires Valid()
      modifies this
      ensures Valid() && history == old(history) + [t]
      ensures t.IsInteger() && !t.signed && t.SizeBits() == sizeBits
      ensures t.bias == (if bias.None? then 0 else bias.value) && !t.finiteValuesOnly && t.nanRepr == Ieee754
    {
      t := ScalarType(0, sizeBits, false, if bias.None? then 0 else bias.value, false, Ieee754);
      var _ := Id(t);
    }

    method FloatIeee754(exponent: int, mantissa: int) returns (r: Result<ScalarType, Error>)
      requires Valid()
      modifies this
      ensures Valid() && history == old(history) + (if r.Success? then [r.value] else [])
      ensures r.Success? <==> mantissa > 0 && exponent > 0
      ensures r.Success? ==>
                var t := r.value;
                && t.exponent == exponent && !t.IsInteger() && t.signed && t.SizeBits() == exponent + mantissa + 1
                && t.bias == 0 && !t.finiteValuesOnly && t.nanRepr == Ieee754
    {
      if !(mantissa > 0 && exponent > 0) { return Failure(AssertionError); }
      var t := ScalarType(exponent, mantissa, true, 0, false, Ieee754);
      var _ := Id(t);
      r := Success(t);
    }

    method Float(exponent: int, mantissa: int, finiteValuesOnly: bool, nanRepr: NanRepr)
      returns (r: Result<ScalarType, Error>)
      requires Valid()
      modifies this
      ensures Valid() && history == old(history) + (if r.Success? then [r.value] else [])
      ensures r.Success? <==> mantissa > 0 && exponent > 0 && nanRepr != Ieee754
      ensures r.Success? ==>
                var t := r.value;
                && t.exponent == exponent && !t.IsInteger() && t.signed && t.SizeBits() == exponent + mantissa + 1
                && t.bias == 0 && t.finiteValuesOnly == finiteValuesOnly && t.nanRepr == nanRepr
    {
      if !(mantissa > 0 && exponent > 0) { return Failure(AssertionError); }
      if nanRepr == Ieee754 { return Failure(AssertionError); }
      var t := ScalarType(exponent, mantissa, true, 0, finiteValuesOnly, nanRepr);
      var _ := Id(t);
      r := Success(t);
    }
  }
}
