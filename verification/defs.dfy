/**
  Basic types shared by the memory and processor models: the emulator's
  16-bit word and 8-bit byte, and an absent-value marker for reads that fail.
 */
module Defs {

  /** One past the largest value a 16-bit unsigned word can hold. */
  const WordLimit: nat := 0x1_0000

  /** A 16-bit word as stored in registers and the status word. */
  type Word = bv16

  /** An 8-bit byte as stored in core memory. */
  type Byte = bv8

  /** A 16-bit unsigned word read as an integer. Sizes, offsets and lengths
      have this type; sums of two of them are computed after promotion to
      a wider integer and so never wrap around. */
  type UWord = n: nat | n < WordLimit

  /** The result of a read that may be rejected. */
  datatype Option<+T> = None | Some(value: T)
}
