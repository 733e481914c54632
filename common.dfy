/** Small value types shared by the recorder's modules. */
module Common {

  /** A value that may be absent (JavaScript `undefined`, `null`, or NaN where a number is expected). */
  datatype Option<+T> = None | Some(value: T) {
    function GetOr(default: T): T {
      match this
      case Some(v) => v
      case None => default
    }
  }

  /** The outcome of an operation that returns a value or throws. */
  datatype Result<+R, +E> = Ok(value: R) | Err(error: E)

  /**
   * One reading of the wall clock: milliseconds since the epoch (`Date.now()`),
   * and the local hour, minute and weekday (`getHours`, `getMinutes`,
   * `getDay`, 0 = Sunday) of that same instant.
   */
  datatype Clock = Clock(ms: int, hour: int, minute: int, weekday: int)
}
