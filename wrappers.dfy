/** Error paths of the booking engine as values: a constraint that raises
    becomes a `Fail`, a record that cannot be found a `None`. */
module Wrappers {
  datatype Option<+T> = None | Some(value: T)

  datatype Result<+T, +E> = Ok(value: T) | Err(error: E)

  datatype Outcome<+E> = Pass | Fail(error: E)
}
