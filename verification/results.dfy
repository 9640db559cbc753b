/** The wrappers used throughout the model: `Option` for the values Python
    represents with `None`, `Result` for operations whose Python counterpart
    raises an exception. */
module Results {

  datatype Option<+T> = None | Some(value: T)

  datatype Result<+R, +E> = Success(value: R) | Failure(error: E)
}
