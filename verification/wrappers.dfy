/** The two result types of the model: an optional value and a value-or-error. */
module Wrappers {

  /** Rust's `Option`. */
  datatype Option<+T> = None | Some(value: T) {

    /** Rust's `unwrap_or`: the value, or `default` when there is none. */
    function GetOr(default: T): T {
      match this
      case Some(v) => v
      case None => default
    }
  }

  /** Rust's `Result`; usable with `:-`, which stops at the first `Failure`. */
  datatype Result<+R, +E> = Success(value: R) | Failure(error: E) {

    predicate IsFailure() {
      Failure?
    }

    function PropagateFailure<U>(): Result<U, E>
      requires Failure?
    {
      Failure(error)
    }

    function Extract(): R
      requires Success?
    {
      value
    }
  }
}
