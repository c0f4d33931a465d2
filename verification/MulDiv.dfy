/** Exact bit-serial `factor * multiplier / divisor` without an overflowing product. */
module MulDiv {
  import opened Arithmetic
  import opened Domain

  ghost function Pow2(n: nat): nat {
    if n == 0 then 1 else 2 * Pow2(n - 1)
  }

  /** Doubling modulo `modulus`, with the carry; every intermediate fits 128 bits. */
  function ModularDouble(value: u128, modulus: u128): (r: (u128, u64))
    requires value < modulus
    ensures r.1 * modulus + r.0 == 2 * value && r.0 < modulus && r.1 <= 1
  {
    var complement: u128 := modulus - value;
    if value >= complement then (value - complement, 1) else (value + value, 0)
  }

  /** Addition modulo `modulus`, with the carry; every intermediate fits 128 bits. */
  function ModularAdd(left: u128, right: u128, modulus: u128): (r: (u128, u64))
    requires left < modulus && right < modulus
    ensures r.1 * modulus + r.0 == left + right && r.0 < modulus && r.1 <= 1
  {
    var complement: u128 := modulus - right;
    if left >= complement then (left - complement, 1) else (left + right, 0)
  }

  function ShiftRight(factor: nat, bits: nat): nat {
    if bits == 0 then factor else ShiftRight(factor, bits - 1) / 2
  }

  predicate BitSet(factor: u64, bit: nat) {
    ShiftRight(factor, bit) % 2 == 1
  }

  lemma {:induction false} ShiftBounds(factor: nat, bits: nat, width: nat)
    requires bits <= width && factor < Pow2(width)
    ensures ShiftRight(factor, bits) <= factor && ShiftRight(factor, bits) < Pow2(width - bits)
  {
    if bits > 0 {
      ShiftBounds(factor, bits - 1, width);
    }
  }

  lemma {:induction false} PowAdd(m: nat, n: nat)
    ensures Pow2(m + n) == Pow2(m) * Pow2(n)
  {
    if m > 0 {
      PowAdd(m - 1, n);
      assert Pow2(m) * Pow2(n) == 2 * (Pow2(m - 1) * Pow2(n));
    }
  }

  lemma WordWidth()
    ensures Pow2(64) == U64_MAX + 1
  {
    assert Pow2(8) == 256;
    PowAdd(8, 8);
    assert Pow2(16) == 0x1_0000;
    PowAdd(16, 16);
    assert Pow2(32) == 0x1_0000_0000;
    PowAdd(32, 32);
  }

  /** A quotient by `divisor` of something below `high * divisor` stays at most `high`. */
  lemma QuotientBound(quotient: nat, divisor: nat, remainder: nat, high: nat, multiplier: nat)
    requires quotient * divisor + remainder == high * multiplier && multiplier < divisor
    ensures quotient <= high
  {
    ScaleIsMonotone(high + 1, quotient, divisor);
    ScaleIsMonotone(multiplier, divisor, high);
    assert (high + 1) * divisor == divisor * high + divisor;
  }

  lemma StepIdentity(quotient: nat, divisor: nat, remainder: nat, high: nat, multiplier: nat,
                     doubled: nat, doubleCarry: nat, added: nat, addCarry: nat, bit: nat)
    requires quotient * divisor + remainder == high * multiplier
    requires doubleCarry * divisor + doubled == 2 * remainder
    requires addCarry * divisor + added == doubled + bit * multiplier
    ensures (2 * quotient + (doubleCarry + addCarry)) * divisor + added == (2 * high + bit) * multiplier
  {
    calc {
      (2 * quotient + (doubleCarry + addCarry)) * divisor + added;
      2 * (quotient * divisor) + doubleCarry * divisor + (addCarry * divisor + added);
      2 * (quotient * divisor) + doubleCarry * divisor + doubled + bit * multiplier;
      2 * (quotient * divisor + remainder) + bit * multiplier;
      2 * (high * multiplier) + bit * multiplier;
      (2 * high + bit) * multiplier;
    }
  }

  method ExactMulDivFloor(factor: u64, multiplier: u128, divisor: u128) returns (r: Option<u64>)
    ensures divisor == 0 || multiplier >= divisor ==> r == None
    ensures multiplier < divisor ==> r.Some? && r.value == factor * multiplier / divisor
  {
    if divisor == 0 || multiplier >= divisor {
      return None;
    }
    var quotient: u64 := 0;
    var remainder: u128 := 0;
    WordWidth();
    ShiftBounds(factor, 64, 64);
    for bit := 64 downto 0
      invariant remainder < divisor
      invariant quotient * divisor + remainder == ShiftRight(factor, bit) * multiplier
    {
      ShiftBounds(factor, bit, 64);
      ghost var high := ShiftRight(factor, bit + 1);
      ghost var before := remainder;
      var (doubled, doubleCarry) := ModularDouble(remainder, divisor);
      remainder := doubled;
      var carry: u64 := doubleCarry;
      ghost var addCarryUsed := 0;
      if BitSet(factor, bit) {
        var (added, addCarry) := ModularAdd(remainder, multiplier, divisor);
        remainder := added;
        carry := carry + addCarry;
        addCarryUsed := addCarry;
      }
      StepIdentity(quotient, divisor, before, high, multiplier, doubled, doubleCarry, remainder, addCarryUsed,
                   if BitSet(factor, bit) then 1 else 0);
      QuotientBound(2 * quotient + carry, divisor, remainder, ShiftRight(factor, bit), multiplier);
      quotient := 2 * quotient + carry;
    }
    QuotientIs(factor * multiplier, divisor, quotient, remainder);
    return Some(quotient);
  }
}
