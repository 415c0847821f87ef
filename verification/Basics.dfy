/** What several components share. */
module Basics {

  datatype Option<T> = None | Some(value: T)

  /** In nanoseconds. */
  const SECOND: int := 1_000_000_000

  /** One more than the largest 32-bit number. */
  const SPAN: int := 0x1_0000_0000

  /** Longest path and longest file name of the system. */
  const PATH_MAX: int := 4096
  const NAME_MAX: int := 255

  function Max(a: int, b: int): int { if a < b then b else a }

  function Min(a: int, b: int): int { if a < b then a else b }
}
