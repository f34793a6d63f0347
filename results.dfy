/** Success/failure values shared by the notebook and service modules. */
module Results {

  datatype Option<+T> = None | Some(value: T)

  /** A computation that either produced `value` or raised `error`. */
  datatype Result<+T, +E> = Ok(value: T) | Err(error: E)
}
