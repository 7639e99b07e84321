/** Failure values for the Java code being modelled: a call either yields a value
    or throws one of the few exceptions the handler's helpers can raise. */
module Outcomes {

  /** The exceptions the modelled helpers can raise. */
  datatype Exception =
    | NullPointer        // unboxing or dereferencing an absent map entry
    | IndexOutOfBounds   // List.get past the end
    | IllegalState       // Collectors.toMap meeting a duplicate key
    | ClassCast          // a JSON node cast to ArrayNode that is not an array

  /** A call that either returns normally or throws. */
  datatype Outcome<T> = Ok(value: T) | Thrown(exception: Exception)

  /** A value that may be absent (a Java field left at null). */
  datatype Option<T> = None | Some(value: T)
}
