/** Failure-carrying wrappers shared by every module of the model. */
module Common {

  /** A value that may be absent: Java's null or an empty Optional. */
  datatype Option<T> = None | Some(value: T)

  /** Either a value or the error the Java code would throw instead. */
  datatype Result<T, E> = Success(value: T) | Failure(error: E)
}
