/** C# `null` and thrown exceptions, as values. */
module Maybe {

  /** A reference or value that may be `null`. */
  datatype Option<+T> = None | Some(value: T)

  /** The exceptions the generators can throw on their own (not through a foreign call). */
  datatype Exception =
    | ArgumentOutOfRange   // a switch over an enum reached its `default` arm
    | InvalidCast          // an explicit cast to a syntax type that the node does not have

  /** The outcome of a computation that may throw. */
  datatype Result<+T> = Success(value: T) | Failure(error: Exception)
}
