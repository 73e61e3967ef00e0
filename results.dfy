/** Failure-carrying wrappers used across the model: a C# `null` becomes
    `None`, a thrown exception becomes `Failure`. */
module Results {

  datatype Option<+T> = None | Some(value: T)

  datatype Result<+T, +E> = Success(value: T) | Failure(error: E)

  /** The outcome of an operation that returns nothing (a C# `void` that may throw). */
  datatype Outcome<+E> = Pass | Fail(error: E)
}
