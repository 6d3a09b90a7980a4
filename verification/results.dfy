/** Failure-carrying values shared by the tile model: Python's `None` returns
    and raised exceptions become explicit cases here. */
module Results {

  datatype Option<+T> = None | Some(value: T)

  datatype Result<+T, +E> = Ok(value: T) | Err(error: E)
}
