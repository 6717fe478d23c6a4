/** Small failure-carrying datatypes shared by the model. */
module Wrappers {

  datatype Option<+T> = None | Some(value: T)

  /** Stands for Rust's `Result<T, E>`. */
  datatype Result<+T, +E> = Ok(value: T) | Err(error: E)

  /**
   * The outcome of a computation that draws random numbers and is bounded by fuel:
   * either a value together with the index of the next unused random draw, or
   * the report that the fuel bound was reached before the computation finished.
   */
  datatype Outcome<+T> = Done(value: T, next: nat) | OutOfFuel
}
