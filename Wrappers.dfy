/** Option values and the outcome of a Python call that may raise. */
module Wrappers {

  datatype Option<+T> = None | Some(value: T)

  /** The exceptions the modelled code raises or lets escape. `sys.exit(n)`
      raises `SystemExit(n)` and is modelled the same way. */
  datatype PyError =
    | FileNotFoundError
    | NotADirectoryError
    | FileExistsError
    | IsADirectoryError
    | OSError
    | CalledProcessError
    | ValueError
    | NameError
    | SystemExit(code: int)

  /** A Python call either returns a value or raises an exception. */
  datatype Outcome<+T> = Ok(value: T) | Raised(error: PyError)
}
