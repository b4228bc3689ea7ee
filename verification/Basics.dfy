/** Shared small types: identifiers, optional values and results. */
module Basics {
  /** A uuid. Only equality and the byte order (here the numeric order) matter. */
  type Id = nat

  /** uuid.Nil */
  const NIL: Id := 0

  /** Clock readings and durations, in microseconds (the resolution of a Postgres timestamp). */
  type Time = int
  const SECOND: Time := 1_000_000

  datatype Option<+T> = None | Some(value: T)

  datatype Result<+T, +E> = Ok(value: T) | Err(error: E)

  function Min(a: int, b: int): int {
    if a <= b then a else b
  }

  function Max(a: int, b: int): int {
    if a <= b then b else a
  }
}
