/** Failure-compatible wrappers used across the model. */
module Wrappers {

  /** An optional value: `None` stands for JavaScript's `null`/`undefined` and Rust's `None`. */
  datatype Option<+T> = None | Some(value: T)

  /** The outcome of an operation that can throw: `Fail` carries the thrown message. */
  datatype Outcome = Pass | Fail(message: string)
}
