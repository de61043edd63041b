/** Optional values and two-sided results, as the source takes them from fp-ts. */
module Wrappers {

  /** fp-ts `Option`: `O.none` or `O.some(value)`. */
  datatype Option<+T> = None | Some(value: T)

  /** fp-ts `Either`: `E.left(left)` for a rejected value, `E.right(right)` for an accepted one. */
  datatype Either<+L, +R> = Left(left: L) | Right(right: R)
}
