/** An optional value. */
module Options {
  datatype Option<T> = None | Some(value: T)
}

/** What an operation that may refuse returns. */
module Results {
  datatype Result<T> = Ok(value: T) | Err
}
