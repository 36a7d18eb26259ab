/** Option and Result, the two failure-carrying datatypes the model uses in
    place of Ruby's `nil` and raised exceptions. */
module Wrappers {

  /** `None` stands for Ruby's `nil`. */
  datatype Option<+T> = None | Some(value: T)

  /** `Failure` stands for a raised exception; usable with `:-`. */
  datatype Result<+T, +E> = Success(value: T) | Failure(error: E) {

    predicate IsFailure() {
      Failure?
    }

    function PropagateFailure<U>(): Result<U, E>
      requires Failure?
    {
      Failure(error)
    }

    function Extract(): T
      requires Success?
    {
      value
    }
  }
}
