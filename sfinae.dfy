/** The `ceil_div` overloads of src/template/SFINAE.cpp, selected by the
    signedness of the integral type `T`. */
module Sfinae {
  import opened IntArith

  datatype Width = W32 | W64

  /** An integral C++ type of rank `int` or wider, by signedness and width.
      Narrower types are promoted to `int` before any arithmetic. */
  datatype IntType = IntType(signed: bool, width: Width) {
    /** 2^bits: unsigned arithmetic is carried out modulo this. */
    function Modulus(): nat {
      match width
      case W32 => 0x1_0000_0000
      case W64 => 0x1_0000_0000_0000_0000
    }

    function Min(): int {
      if signed then -(Modulus() / 2) else 0
    }

    function Max(): int {
      if signed then Modulus() / 2 - 1 else Modulus() - 1
    }

    predicate Holds(x: int) {
      Min() <= x <= Max()
    }

    /** The value an unsigned computation leaves behind. */
    function Wrap(x: int): (r: int)
      requires !signed
      ensures Holds(r)
      ensures Holds(x) ==> r == x
    {
      x % Modulus()
    }
  }

  const Int32 := IntType(true, W32)
  const UInt32 := IntType(false, W32)

  /** The overload enabled for signed `T`. `value + div - 1` is evaluated as
      `(value + div) - 1`, so signed overflow of the sum `value + div` and the
      quotient `MIN / -1` are undefined behaviour, hence excluded. */
  function CeilDivSigned(t: IntType, value: int, div: int): (r: int)
    requires t.signed && t.Holds(value) && t.Holds(div) && div != 0
    requires value > 0 && div > 0 ==> value + div <= t.Max()
    requires !(value == t.Min() && div == -1)
    ensures t.Holds(r)
    ensures !(value < 0 && div < 0) ==> IsCeilingOf(r, value, div)
    ensures value < 0 && div < 0 ==> IsFloorOf(r, value, div)
  {
    if value > 0 && div > 0 then
      OffsetQuotientIsCeiling(value, div);
      DivIsSmaller(value + div - 1, div);
      TruncDivNonNegative(value + div - 1, div);
      TruncDiv(value + div - 1, div)
    else
      SignedQuotientInRange(t, value, div);
      if value < 0 && div < 0 then
        TruncDivIsFloor(value, div);
        TruncDiv(value, div)
      else
        TruncDivIsCeiling(value, div);
        TruncDiv(value, div)
  }

  /** A truncated signed quotient is representable unless it is `MIN / -1`. */
  lemma SignedQuotientInRange(t: IntType, value: int, div: int)
    requires t.signed && t.Holds(value) && t.Holds(div) && div != 0
    requires !(value == t.Min() && div == -1)
    ensures t.Holds(TruncDiv(value, div))
  {
    var q := TruncDiv(value, div);
    var half := t.Modulus() / 2;
    assert t.Min() == -half && t.Max() == half - 1;
    TruncDivBound(value, div);
    if div == 1 {
      assert q == value;
    } else if div == -1 {
      assert q == -value;
    } else {
      assert Abs(div) >= 2;
      assert 2 * Abs(q) <= Abs(value) <= half;
    }
  }

  /** The overload enabled for unsigned `T`: `value + div - 1` is computed
      modulo 2^bits (wrapping after `+` and again after `-` gives the same
      residue as wrapping once), then divided; both operands are non-negative,
      so C++ division and Dafny division agree. */
  function CeilDivUnsigned(t: IntType, value: int, div: int): (r: int)
    requires !t.signed && t.Holds(value) && t.Holds(div) && div != 0
    ensures t.Holds(r)
    ensures value + div - 1 <= t.Max() ==> IsCeilingOf(r, value, div)
    ensures value + div - 1 > t.Max() ==> r == 0
  {
    var w := t.Wrap(value + div - 1);
    if value + div - 1 <= t.Max() then
      OffsetQuotientIsCeiling(value, div);
      DivIsSmaller(w, div);
      w / div
    else
      ModOnce(value + div - 1, t.Modulus());
      DivIsSmaller(w, div);
      w / div
  }

  /** The overload whose return type is `enable_if_t<is_integral_v<T>, T>`:
      the signed body, instantiated for any integral `T`. */
  function CeilDivIntegral(t: IntType, value: int, div: int): (r: int)
    requires t.Holds(value) && t.Holds(div) && div != 0
    requires t.signed ==> (value > 0 && div > 0 ==> value + div <= t.Max())
    requires t.signed ==> !(value == t.Min() && div == -1)
    ensures t.Holds(r)
    ensures !(value < 0 && div < 0) && (t.signed || value + div - 1 <= t.Max()) ==> IsCeilingOf(r, value, div)
    ensures value < 0 && div < 0 ==> IsFloorOf(r, value, div)
    ensures !t.signed && value + div - 1 > t.Max() ==> r == 0
  {
    if value > 0 && div > 0 then
      var sum := if t.signed then value + div - 1 else t.Wrap(value + div - 1);
      TruncDivNonNegative(sum, div);
      assert t.signed ==> TruncDiv(sum, div) == CeilDivSigned(t, value, div);
      assert !t.signed ==> TruncDiv(sum, div) == CeilDivUnsigned(t, value, div);
      TruncDiv(sum, div)
    else
      assert t.signed ==> TruncDiv(value, div) == CeilDivSigned(t, value, div);
      assert !t.signed ==> value == 0 && TruncDiv(value, div) == 0;
      TruncDiv(value, div)
  }

  /** The `enable_if` return-type overload computes what the hidden-parameter
      overload for the same signedness computes. */
  lemma {:induction false} IntegralAgreesWithOverloads(t: IntType, value: int, div: int)
    requires t.Holds(value) && t.Holds(div) && div != 0
    requires t.signed ==> (value > 0 && div > 0 ==> value + div <= t.Max())
    requires t.signed ==> !(value == t.Min() && div == -1)
    ensures t.signed ==> CeilDivIntegral(t, value, div) == CeilDivSigned(t, value, div)
    ensures !t.signed ==> CeilDivIntegral(t, value, div) == CeilDivUnsigned(t, value, div)
  {
    if !t.signed && !(value > 0) {
      assert value == 0;
      DivIsSmaller(div - 1, div);
    }
  }

  /** Unsigned `ceil_div` with `value + div - 1` past the maximum wraps to 0,
      which is never the ceiling of a positive quotient. */
  lemma UnsignedWrapExample()
    ensures CeilDivUnsigned(UInt32, 0xffff_ffff, 2) == 0
    ensures !IsCeilingOf(0, 0xffff_ffff, 2) && IsCeilingOf(0x8000_0000, 0xffff_ffff, 2)
  {
  }

  /** Signed `ceil_div` of two negatives truncates, i.e. rounds down:
      `ceil_div(-3, -2)` is 1 while the ceiling of 1.5 is 2. */
  lemma SignedNegativeExample()
    ensures CeilDivSigned(Int32, -3, -2) == 1
    ensures !IsCeilingOf(1, -3, -2) && IsCeilingOf(2, -3, -2)
  {
  }

  /** Ceiling division for unsigned `T` without the intermediate sum, so that
      it cannot wrap: the quotient, plus one when there is a remainder. */
  function CeilDivUnsignedIntended(t: IntType, value: int, div: int): (r: int)
    requires !t.signed && t.Holds(value) && t.Holds(div) && div != 0
    ensures t.Holds(r) && IsCeilingOf(r, value, div)
  {
    var q := value / div;
    assert value == q * div + value % div;
    assert (q + 1) * div == q * div + div;
    if value % div == 0 then q else
      LessTimes(1, div, q);
      q + 1
  }

  /** Ceiling division for signed `T` with every sign combination rounded up:
      the truncated quotient, plus one when it was rounded down. */
  function CeilDivSignedIntended(t: IntType, value: int, div: int): (r: int)
    requires t.signed && t.Holds(value) && t.Holds(div) && div != 0
    requires !(value == t.Min() && div == -1)
    ensures t.Holds(r) && IsCeilingOf(r, value, div)
  {
    var q := TruncDiv(value, div);
    TruncDivBound(value, div);
    if (value > 0) == (div > 0) && value != 0 then
      TruncDivIsFloor(value, div);
      if q * div == value then
        assert (q - 1) * div == q * div - div;
        q
      else
        assert Abs(div) >= 2 by {
          if div == 1 || div == -1 { TruncDivIsTruncation(value, div); }
        }
        assert (q + 1) * div == q * div + div;
        q + 1
    else
      TruncDivIsCeiling(value, div);
      q
  }

  /** Where the signed overload does round up, the corrected one agrees. */
  lemma {:induction false} SignedIntendedExtendsSigned(t: IntType, value: int, div: int)
    requires t.signed && t.Holds(value) && t.Holds(div) && div != 0
    requires value > 0 && div > 0 ==> value + div <= t.Max()
    requires !(value == t.Min() && div == -1)
    requires !(value < 0 && div < 0)
    ensures CeilDivSignedIntended(t, value, div) == CeilDivSigned(t, value, div)
  {
    CeilingUnique(CeilDivSignedIntended(t, value, div), CeilDivSigned(t, value, div), value, div);
  }
}
