/** Shared value types: bytes, optional values and the outcome of a device operation. */
module Types {

  /** One byte as the HID transport delivers it (a Python int in 0..255). */
  type Byte = x: int | 0 <= x < 256

  datatype Option<+T> = None | Some(value: T)

  /** The exceptions the protocol layer raises. `IOError` and `ValueError` are
      caught together by every caller, so the kind only documents the cause. */
  datatype Error =
    | NotOpen            // IOError: the handle was closed
    | IOFailure          // IOError raised by the HID library (stalled or failed transfer)
    | UnexpectedValue    // ValueError: a reply of the wrong length
    | SendFailed         // IOError: a feature report was not sent in full
    | ValueTooLarge      // ValueError: a timeout or frequency above its byte width
    | AlreadySet         // ValueError: the serial number is no longer the blank sentinel
    | NotAlphanumeric    // ValueError: the serial number does not match [\w-]+
    | WrongLength        // ValueError: the serial number is not 20 characters long
    | NotAByte           // the HID library cannot convert a value outside 0..255
    | AttributeMissing   // AttributeError: an option the sub-command does not define

  datatype Result<+T> = Success(value: T) | Failure(error: Error)
}
