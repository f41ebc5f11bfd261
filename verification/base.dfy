/** Shared vocabulary of the model: failure-carrying results and the fixed-width
    integer types of the original program. */
module Base {

  /** An optional value; `None` stands for a `None` of the original program or
      for a panic that the original raises instead of returning a value. */
  datatype Option<+T> = None | Some(value: T)

  /** A value or an error. */
  datatype Result<+T, +E> = Ok(value: T) | Err(error: E)

  /** Unsigned 8-bit and 32-bit integers. */
  type u8 = x: int | 0 <= x < 0x100
  type u32 = x: int | 0 <= x < 0x1_0000_0000

  /** A 32-bit float, kept only as its bit pattern: the model never computes with it. */
  datatype F32 = F32(bits: bv32)
}
