/** Shared value types. */
module Prelude {

  datatype Option<+T> = None | Some(value: T)

  datatype Result<+T, +E> = Ok(value: T) | Err(error: E)

  const U32_LIMIT: nat := 0x1_0000_0000
  const U64_LIMIT: nat := 0x1_0000_0000_0000_0000

  /** A 32-byte hash read big-endian, so that byte order is numeric order. */
  type Hash32 = nat

  /** Only points on the curve are usable x-only public keys. */
  datatype PublicKey = Point(x: nat) | OffCurve(x: nat)

  type Byte = b: nat | b < 256
}
