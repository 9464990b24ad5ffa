/** Failure-carrying values shared by every module of the model.
    Go functions that return `(value, error)` are modelled as `Result`,
    and library parsers whose error value is only ever compared with `nil`
    as `Option`. */
module Results {

  datatype Option<+T> = None | Some(value: T)

  datatype Result<+T, +E> = Ok(value: T) | Err(error: E)
}
