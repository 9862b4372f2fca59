/**
 * Kernel-level scalar conventions shared by the models: fixed-width
 * unsigned arithmetic written out explicitly (Dafny integers are unbounded),
 * the errno values the drivers return, and an Option type for C pointers
 * that may be NULL.
 */
module KernelTypes {

  datatype Option<+T> = None | Some(value: T)

  const U16_LIMIT: nat := 0x1_0000
  const U32_LIMIT: nat := 0x1_0000_0000
  const U64_LIMIT: nat := 0x1_0000_0000_0000_0000

  type u16 = x: nat | x < U16_LIMIT
  type u32 = x: nat | x < U32_LIMIT
  type u64 = x: nat | x < U64_LIMIT

  /** Linux errno numbers (asm-generic/errno-base.h); drivers return their negation. */
  const EWOULDBLOCK: int := 11  // EWOULDBLOCK is defined as EAGAIN
  const ENOMEM: int := 12
  const EFAULT: int := 14
  const EINVAL: int := 22

  /** An error code carried by an ERR_PTR: 1 ..= MAX_ERRNO. */
  type ErrorNumber = e: nat | 1 <= e <= 4095 witness 22

  /**
   * The product and quotient of two naturals.  Typed `nat`, so an expression
   * built from them needs no sign reasoning about products or quotients.
   */
  function Product(a: nat, b: nat): nat
  {
    a * b
  }

  function Quotient(a: nat, d: nat): nat
    requires d != 0
  {
    a / d
  }

  /** C `u32` truncation of a non-negative value. */
  function Trunc32(x: nat): (r: u32)
    ensures x < U32_LIMIT ==> r == x
  {
    x % U32_LIMIT
  }

  /** C `u16` truncation of a non-negative value. */
  function Trunc16(x: nat): (r: u16)
    ensures x < U16_LIMIT ==> r == x
  {
    x % U16_LIMIT
  }

  /** C `u64` truncation of a non-negative value. */
  function Trunc64(x: nat): (r: u64)
    ensures x < U64_LIMIT ==> r == x
  {
    x % U64_LIMIT
  }

  /** C `a - b` on u32 operands: wraps below zero. */
  function Sub32(a: u32, b: u32): (r: u32)
    ensures b <= a ==> r == a - b
    ensures a < b ==> r == U32_LIMIT + a - b
  {
    (a - b) % U32_LIMIT
  }

  /** C `a - b` on u64 operands: wraps below zero. */
  function Sub64(a: u64, b: u64): (r: u64)
    ensures b <= a ==> r == a - b
    ensures a < b ==> r == U64_LIMIT + a - b
  {
    (a - b) % U64_LIMIT
  }
}
