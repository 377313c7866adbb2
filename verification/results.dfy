/** Wrappers standing in for Java's null references and thrown exceptions. */
module Results {

  /** A reference that may be null. */
  datatype Option<+T> = None | Some(value: T)

  /** The outcome of a constructor that may throw. */
  datatype Result<+T, +E> = Success(value: T) | Failure(error: E)
}
