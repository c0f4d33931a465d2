/** Validated scalars shared by every layer. Machine integers are subset types over `int`,
    so that every assignment to one carries the proof that it does not overflow. */
module Domain {
  const I64_MIN: int := -0x8000_0000_0000_0000
  const I64_MAX: int := 0x7FFF_FFFF_FFFF_FFFF
  const U16_MAX: int := 0xFFFF
  const U64_MAX: int := 0xFFFF_FFFF_FFFF_FFFF
  const U128_MAX: int := 0xFFFF_FFFF_FFFF_FFFF_FFFF_FFFF_FFFF_FFFF

  type i64 = x: int | I64_MIN <= x <= I64_MAX
  type u16 = x: int | 0 <= x <= U16_MAX
  type u64 = x: int | 0 <= x <= U64_MAX
  type u128 = x: int | 0 <= x <= U128_MAX

  /** `usize` on a 64-bit target. */
  type usize = x: int | 0 <= x <= U64_MAX

  /** A non-zero identifier; zero is the reserved invalid sentinel. */
  type Id = x: int | 1 <= x <= U64_MAX witness 1

  type OrderId = Id
  type AccountId = Id
  type AuctionId = Id
  type CommandId = Id
  type TradeId = Id

  /** A price in instrument quanta; negative prices are admissible. */
  type Price = i64

  /** A strictly positive quantity in lots. */
  type Quantity = x: int | 1 <= x <= U64_MAX witness 1

  datatype Option<+T> = None | Some(value: T)

  datatype Result<+T, +E> = Ok(value: T) | Err(error: E) {
    predicate IsFailure() { Err? }

    function PropagateFailure<U>(): Result<U, E>
      requires Err?
    {
      Err(error)
    }

    function Extract(): T
      requires Ok?
    {
      value
    }
  }

  datatype Side = Buy | Sell

  /** A market order is eligible at every price, a limit order only at prices it permits. */
  datatype AuctionOrderConstraint = Market | Limit(price: Price)

  function CheckedAddU64(a: u64, b: u64): Option<u64> {
    if a + b <= U64_MAX then Some(a + b) else None
  }

  function CheckedAddU128(a: u128, b: u128): Option<u128> {
    if a + b <= U128_MAX then Some(a + b) else None
  }

  function CheckedSubU128(a: u128, b: u128): Option<u128> {
    if b <= a then Some(a - b) else None
  }

  function Min(a: int, b: int): int {
    if a <= b then a else b
  }

  function Max(a: int, b: int): int {
    if a >= b then a else b
  }

  function AbsDiff(a: int, b: int): nat {
    if a >= b then a - b else b - a
  }
}
