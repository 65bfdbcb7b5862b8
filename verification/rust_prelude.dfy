/** The few pieces of Rust's core semantics that the timer code relies on:
    `Option`, the width of `u32`, and the panics that debug builds raise on
    unsigned underflow and on out-of-bounds indexing. */
module RustPrelude {

  /** Rust's `u32`. The model never increments such a value, so only the
      range matters. */
  type U32 = x: nat | x < 0x1_0000_0000

  /** Rust's `Option<T>`. */
  datatype Option<+T> = None | Some(value: T)

  /** Why a Rust computation aborted. */
  datatype PanicReason =
    /** `a - b` on an unsigned integer with `b > a` ("attempt to subtract with overflow") */
    | SubtractOverflow
    /** `v[index]` on a vector of length `len <= index` */
    | IndexOutOfBounds(index: nat, len: nat)

  /** A value, or the panic that prevented computing it. */
  datatype Checked<+T> = Ok(value: T) | Panic(reason: PanicReason)
}
