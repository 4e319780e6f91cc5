/** The outcome of an operation that may fail with a reported error instead of a value. */
module Results {

  datatype Result<T, E> = Ok(value: T) | Err(error: E)
}
