/** Machine integers with explicit bounds, and the result type carried by every
    operation that can fail. */
module MachineInts {

  const U64_MAX := 0xFFFF_FFFF_FFFF_FFFF
  const U128_MAX := 0xFFFF_FFFF_FFFF_FFFF_FFFF_FFFF_FFFF_FFFF
  const I64_MAX := 0x7FFF_FFFF_FFFF_FFFF
  const I64_MIN := -0x8000_0000_0000_0000

  type u8 = x: int | 0 <= x < 0x100
  type u32 = x: int | 0 <= x < 0x1_0000_0000
  type i32 = x: int | -0x8000_0000 <= x < 0x8000_0000
  type u64 = x: int | 0 <= x <= U64_MAX
  type u128 = x: int | 0 <= x <= U128_MAX
  type i64 = x: int | I64_MIN <= x <= I64_MAX

  datatype Option<+T> = None | Some(value: T)

  /** Failure-compatible result; `:-` plays the part of the source's `?`. */
  datatype Result<+T, +E> = Ok(value: T) | Err(error: E) {
    predicate IsFailure() {
      Err?
    }

    function PropagateFailure<U>(): Result<U, E>
      requires Err?
    {
      Err(error)
    }

    function Extract(): T
      requires Ok?
    {
      value
    }
  }

  /** The errors of the program's own arithmetic and of its level-op rules. */
  datatype ArcherError =
    | ArithmeticOverflow
    | ArithmeticUnderflow
    | QuoteOverflow
    | PriceOverflow
    | FeeOverflow
    | InvalidParams
    | InvalidPrice
    | InvalidInstructionData
    | InsufficientBalance
    | LevelSizeMismatch
    | MakerBookSideFull

  function CheckedU64(x: int, error: ArcherError): Result<u64, ArcherError> {
    if 0 <= x <= U64_MAX then Ok(x) else Err(error)
  }

  function CheckedU128(x: int, error: ArcherError): Result<u128, ArcherError> {
    if 0 <= x <= U128_MAX then Ok(x) else Err(error)
  }

  function CheckedI64(x: int, error: ArcherError): Result<i64, ArcherError> {
    if I64_MIN <= x <= I64_MAX then Ok(x) else Err(error)
  }

  function Min(x: int, y: int): int {
    if x <= y then x else y
  }

  function Max(x: int, y: int): int {
    if x <= y then y else x
  }

  /** Saturating u64 arithmetic on a non-negative exact value. */
  function SaturateU64(x: nat): u64 {
    Min(x, U64_MAX)
  }

  function SaturateU128(x: nat): u128 {
    Min(x, U128_MAX)
  }

  function Sum(xs: seq<u64>): nat {
    if xs == [] then 0 else Sum(xs[..|xs| - 1]) + xs[|xs| - 1]
  }
}
