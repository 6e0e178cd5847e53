/** The two result types the other modules share: a value that may be missing, and a
    computation that may be refused. */
module Options {
  datatype Option<+T> = None | Some(value: T)

  datatype Result<+T, +E> = Ok(value: T) | Err(error: E)
}
