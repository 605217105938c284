/** Small value types shared by the other modules. */
module Prelude {

  /** The conventional optional value (Rust's `Option`). */
  datatype Option<+T> = None | Some(value: T) {
    /** Rust's `unwrap_or`: the carried value, or `default` when there is none. */
    function GetOr(default: T): (r: T)
      ensures Some? ==> r == value
      ensures None? ==> r == default
    {
      match this
      case Some(v) => v
      case None => default
    }
  }

  /** Rust's `i64`. */
  type i64 = x: int | -0x8000_0000_0000_0000 <= x < 0x8000_0000_0000_0000

  /** An IEEE-754 double, kept as its 64-bit pattern; no arithmetic is ever done on it. */
  type f64 = x: int | 0 <= x < 0x1_0000_0000_0000_0000
}
