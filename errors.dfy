/** The exceptions the FT231X serial port raises, and the Result and Outcome
    values the model returns in place of throwing them. */
module Errors {

  /** Why an exception was raised: one value per `throw` site of the port. */
  datatype Cause =
    | InvalidBaudRate       // a baud rate of zero or less
    | BaudRateTooHigh       // above 3,500,000 baud
    | BaudRateTooLow        // the divisor does not fit in 14 bits
    | BaudRateDeviation     // the achievable rate is 3.1 % or more away
    | UnsupportedDataBits   // 5 or 6 data bits
    | InvalidDataBits       // any other value but 7 or 8
    | UnknownParity         // a value outside the Parity enumeration
    | UnsupportedStopBits   // 1.5 stop bits
    | UnknownStopBits       // StopBits.None or a value outside the enumeration
    | ResetFailed
    | SetBaudRateFailed
    | SetParametersFailed

  /** The exception classes the port throws. An IOException carries the
      non-zero result code of the control transfer that failed. */
  datatype Exception =
    | NotConnectedException
    | ConnectFailedException
    | IllegalArgumentException(cause: Cause)
    | UnsupportedOperationException(cause: Cause)
    | IOException(cause: Cause, result: int)

  /** A value, or the exception raised instead of returning it. */
  datatype Result<T> = Ok(value: T) | Err(error: Exception)

  /** Normal completion of a void operation, or the exception it raised. */
  datatype Outcome = Pass | Fail(error: Exception)
}
