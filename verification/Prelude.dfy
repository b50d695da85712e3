/** Shared vocabulary: optional values, results, instants and small arithmetic. */
module Prelude {

  datatype Option<+T> = None | Some(value: T)

  /** `UnknownId` is Python's KeyError, `Rejected` its ValueError, `Broken` its RuntimeError. */
  datatype Error = UnknownId | Rejected | Broken

  datatype Result<+T> = Ok(value: T) | Err(error: Error)

  /** Instants and durations are exact, in seconds. */
  type Time = real

  /** The tolerance the source adds to every comparison of amounts and tokens. */
  const EPSILON: real := 0.000000001

  function Min(a: int, b: int): int { if a <= b then a else b }

  function Max(a: int, b: int): int { if a >= b then a else b }

  function MinReal(a: real, b: real): real { if a <= b then a else b }

  function MaxReal(a: real, b: real): real { if a >= b then a else b }
}
