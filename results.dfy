/** Option and Result values used for the lookups and operations that can fail. */
module Results {

  datatype Option<T> = None | Some(value: T)

  datatype Result<T, E> = Ok(value: T) | Err(error: E)
}
