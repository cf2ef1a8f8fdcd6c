/** Error kinds raised by the statistics engine and the result type that
    carries them in place of a C++ exception. */
module Results {

  /** std::invalid_argument and std::out_of_range, the two exceptions the
      engine raises. */
  datatype Error = InvalidArgument | OutOfRange

  datatype Result<T> = Ok(value: T) | Err(error: Error)

  datatype Option<T> = None | Some(value: T)
}
