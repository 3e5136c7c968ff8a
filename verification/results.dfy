/** The `Result` type that the store and the aggregate contract return. */
module Results {

  /** Either a value (`Ok`) or an error (`Err`), as Rust's `Result`. */
  datatype Result<+T, +E> = Ok(value: T) | Err(error: E)
}
