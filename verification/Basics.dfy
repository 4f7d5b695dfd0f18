/** Units of time and the optional value, shared by all modules. */
module Basics {

  // Instants and durations are integer nanoseconds.
  const SECOND: int := 1_000_000_000
  const MINUTE: int := 60 * SECOND

  datatype Option<+T> = None | Some(value: T)
}
