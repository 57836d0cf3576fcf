/** Shared value types: optional values and instants. */
module Basics {

  datatype Option<+T> = None | Some(value: T)

  /** Seconds since the Unix epoch, as the clock reports them. */
  type Time = t: real | 0.0 <= t

  /** `timedelta(hours=h)` in seconds. */
  function Hours(h: int): real {
    3600.0 * h as real
  }
}
