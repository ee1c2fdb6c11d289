/** Runtime vocabulary shared by every part of the model: optional values,
    the PHP scalars that travel between requests, models and the database,
    the exceptions the framework raises, and a result type that carries them. */
module Php {

  /** Some value or nothing; PHP's `null` return. */
  datatype Option<+T> = None | Some(value: T)

  /** A PHP scalar as stored in a model attribute, a request field or a row column. */
  datatype Value = Null | Bool(b: bool) | Int(i: int) | Str(s: string)

  /** The exception classes the framework throws. `FatalError` stands for the
      engine error raised when a method is called on `false`. */
  datatype Exception =
    | PDOException(message: string)
    | LogicException(message: string)
    | InvalidArgumentException(message: string)
    | BaseException(message: string)
    | FatalError(message: string)

  /** A computation that either returns a value or throws. */
  datatype Result<+T> = Ok(value: T) | Throw(error: Exception)
}
