/** Machine-integer ranges, saturating arithmetic and an optional value, shared by
    every model in this project. */
module Base {

  const U64_LIMIT: int := 0x1_0000_0000_0000_0000
  /** Nanoseconds per second, the resolution of Rust's `Duration` and clocks. */
  const NANOS_PER_SEC: nat := 1_000_000_000

  /** Rust's `u32`. */
  type u32 = x: int | 0 <= x < 0x1_0000_0000

  /** Rust's `u64`. */
  type u64 = x: int | 0 <= x < 0x1_0000_0000_0000_0000

  /** Rust's `Option<T>`. */
  datatype Option<T> = None | Some(value: T) {

    /** `unwrap_or(default)` */
    function GetOr(default: T): T {
      match this
      case Some(v) => v
      case None => default
    }
  }

  /** `a.saturating_sub(b)` on an unsigned integer: never goes below zero. */
  function SaturatingSub(a: nat, b: nat): (r: nat)
    ensures r <= a
    ensures b <= a ==> r + b == a
    ensures a <= b ==> r == 0
  {
    if b <= a then a - b else 0
  }
}
