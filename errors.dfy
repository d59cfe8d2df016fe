/** Error kinds raised by the triangulator library, and the result wrappers that carry them. */
module Errors {

  /** The Python exception classes the library raises. */
  datatype Error =
    | IndexError    // a slot index outside [0, length)
    | ValueError    // a duplicate, a missing value, an invalid triangle or malformed bytes
    | TypeError     // an equality comparison against a value of another type
    | StructError   // a count or index that does not fit the unsigned 32-bit wire field

  /** Either a value or the exception raised instead. */
  datatype Result<T> = Ok(value: T) | Err(error: Error)

  datatype Option<T> = None | Some(value: T)

  /** The outcome of an operation that returns nothing (Python `None`) or raises. */
  datatype Outcome = Pass | Fail(error: Error)

  /** The right-hand operand of an `__eq__` call: an instance of the same class, or any other value. */
  datatype Operand<T> = Instance(value: T) | Foreign
}
