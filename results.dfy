/** Optional values and error-carrying results, used for the `None` globals and for the
    exceptions the Python code raises. */
module Results {

  datatype Option<+T> = None | Some(value: T)

  datatype Result<+T, +E> = Ok(value: T) | Err(error: E)
}
