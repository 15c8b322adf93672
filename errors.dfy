/** The driver's error values. The source represents every error as a
    `CustomError` string; the model keeps one constructor per distinct
    message, and `Message` gives the text that `Error()` returns. */
module Errors {

  datatype CustomError =
    | SpiNotInitialized
    | FailedToConfigureSpi
    | InvalidDriverAddress
    | FailedToWriteRegister
    | FailedToReadRegister
    | UartNotInitialized
    | FailedToConfigureUart
    | WriteTimeout
    | ReadTimeout
    | ChecksumError

  /** `CustomError.Error()`: the message text carried by the error. */
  function Message(e: CustomError): (s: string)
    ensures |s| > 0
  {
    match e
    case SpiNotInitialized => "SPI not initialized"
    case FailedToConfigureSpi => "Failed to configure SPI"
    case InvalidDriverAddress => "Invalid driver address"
    case FailedToWriteRegister => "Failed to write register"
    case FailedToReadRegister => "Failed to read register"
    case UartNotInitialized => "UART not initialized"
    case FailedToConfigureUart => "Failed to configure UART"
    case WriteTimeout => "write timeout"
    case ReadTimeout => "read timeout"
    case ChecksumError => "checksum error"
  }

  /** Distinct errors carry distinct messages, so a caller that compares
      message strings can tell every error apart. */
  lemma MessageInjective(e1: CustomError, e2: CustomError)
    requires Message(e1) == Message(e2)
    ensures e1 == e2
  {
  }
}
