/** Exceptions thrown by the modelled plug-ins, as values. */
module Errors {

  /** `Failed`, `InvalidArguments` and `CommandNotSupported` are the error
      codes of `openrave_exception`; `OutOfRange` stands for the
      `std::out_of_range` of a failed `at()` and `LengthError` for the
      `std::length_error` of a `resize` to a negative size. `DivideByZero`
      is an integer division by zero, which traps on the usual platforms. */
  datatype ErrorCode = Failed | InvalidArguments | CommandNotSupported | OutOfRange | LengthError | DivideByZero

  /** The outcome of a call that may throw. */
  datatype Outcome<T> = Return(value: T) | Throw(error: ErrorCode)
}
