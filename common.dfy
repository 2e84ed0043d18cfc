/** Small shared vocabulary: the optional value that stands for JavaScript's null/undefined. */
module Common {

  /** `None` is JavaScript's `null` (or `undefined`); `Some(v)` a present value. */
  datatype Option<+T> = None | Some(value: T)
  {
    /** The `x ?? d` operator: the value when present, the default otherwise. */
    function OrElse(d: T): T
    {
      match this
      case Some(v) => v
      case None => d
    }
  }

  /** How a call that does not catch ends: with a value, or by throwing (a blocked
      `localStorage`, a missing context provider). */
  datatype Outcome<+T> = Returned(value: T) | Threw
}
