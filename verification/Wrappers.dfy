/** The result types used wherever the program returns an optional value or raises an error. */
module Wrappers {
  datatype Option<+T> = None | Some(value: T)

  datatype Result<+T> = Ok(value: T) | Raised

  /**
   * Always true. A quantifier over it, as in `forall b {:trigger Unfold(b)} :: Unfold(b) ==> P`, keeps `P` out of
   * proofs that do not ask for it by `assert Unfold(true)`.
   */
  predicate Unfold(b: bool) { true }
}
