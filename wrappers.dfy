/** Option and Result values standing for Python's None and for the
    exceptions (failed asserts, unpacking errors) the program raises. */
module Wrappers {

  datatype Option<+T> = None | Some(value: T)

  datatype Result<+T, +E> = Ok(value: T) | Err(error: E)
}
