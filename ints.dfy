/** Rust's `u32`, the width of every number the application stores or computes. */
module Ints {
  /** 2^32: the first value that no longer fits in a `u32`. */
  const U32_LIMIT: int := 0x1_0000_0000

  /** A value of Rust's `u32`. Assigning a result to a `u32` variable obliges
      the verifier to show it neither underflows nor overflows, which is where
      a debug build of the source would panic. */
  type u32 = x: int | 0 <= x < U32_LIMIT
}
