/** Machine words, program errors and the failure-compatible result types the handlers use. */
module Outcomes {

  const U16_MAX: int := 0xFFFF
  const U64_MAX: int := 0xFFFF_FFFF_FFFF_FFFF
  const U128_MAX: int := 0xFFFF_FFFF_FFFF_FFFF_FFFF_FFFF_FFFF_FFFF

  type u16 = x: int | 0 <= x <= U16_MAX
  type u64 = x: int | 0 <= x <= U64_MAX

  /** The program's error codes, followed by four that the runtime raises on its behalf:
      `Underflow` is the abort of an unchecked subtraction, `TransferFailed` a refused token
      transfer, `AccountMissing` an account that does not exist and `AccountInUse` one that
      exists already. An abort on overflow is reported as `MathOverflow`, like the program's
      own overflow checks. */
  datatype Error =
    | Unauthorized
    | Paused
    | StalePrice
    | InvalidPrice
    | ExceedsMaxLtv
    | NotLiquidatable
    | ExceedsCloseFactor
    | InsufficientLiquidity
    | PoolUtilizationCap
    | InsufficientCollateral
    | InvalidRiskParams
    | MathOverflow
    | ZeroAmount
    | WrongOracle
    | MarketBlocked
    | Underflow
    | TransferFailed
    | AccountMissing
    | AccountInUse

  datatype Option<+T> = None | Some(value: T)

  datatype Result<+T> = Ok(value: T) | Err(error: Error) {
    predicate IsFailure() { Err? }

    function PropagateFailure<U>(): Result<U>
      requires Err?
    {
      Err(error)
    }

    function Extract(): T
      requires Ok?
    {
      value
    }
  }

  /** The outcome of a guard, carrying no value. */
  datatype Check = Pass | Refuse(error: Error) {
    predicate IsFailure() { Refuse? }

    function PropagateFailure<U>(): Result<U>
      requires Refuse?
    {
      Err(error)
    }
  }

  function Need(condition: bool, error: Error): Check {
    if condition then Pass else Refuse(error)
  }

  /** `u64::try_from`. */
  function Narrow(n: nat): Result<u64> {
    if n <= U64_MAX then Ok(n) else Err(MathOverflow)
  }

  /** `checked_add` on u64. */
  function Add(a: u64, b: u64): Result<u64> {
    Narrow(a + b)
  }

  /** The bare `-` on u64, which aborts below zero. */
  function Minus(a: u64, b: u64): Result<u64> {
    if b <= a then Ok(a - b) else Err(Underflow)
  }
}
