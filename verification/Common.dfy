/** Values every component uses: an optional value, and time in milliseconds. */
module Common {
  datatype Option<+T> = None | Some(value: T)

  /** Milliseconds since the epoch, as `Date.getTime()` gives them. */
  type Time = int

  const HOUR: Time := 60 * 60 * 1000

  function Max(a: Time, b: Time): Time {
    if a < b then b else a
  }
}
