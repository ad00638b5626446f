/** The two shapes the repository's `Option`/`Result` values and raised errors take here. */
module Outcomes {
  datatype Option<+T> = None | Some(value: T)

  datatype Result<+T, +E> = Ok(value: T) | Err(error: E)
}
