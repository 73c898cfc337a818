/** Results, machine integers and fixed-width byte strings shared by every component. */
module Prelude {

  datatype Option<+T> = None | Some(value: T)

  datatype Result<+T, +E> = Ok(value: T) | Err(error: E)

  const U16_MAX: nat := 0xFFFF
  const U32_MAX: nat := 0xFFFF_FFFF
  const U64_MAX: nat := 0xFFFF_FFFF_FFFF_FFFF

  type u16 = n: nat | n <= U16_MAX
  type u32 = n: nat | n <= U32_MAX
  type u64 = n: nat | n <= U64_MAX

  // The gateway and the core are modelled on a 64-bit target.
  type usize = u64

  type byte = n: nat | n < 256
  type Bytes = seq<byte>

  const ID_LIMIT: nat := 0x1_00000000_00000000_00000000_00000000
  const KEY_LIMIT: nat := ID_LIMIT * ID_LIMIT

  /** A 16-byte identifier (device, message, conversation, request, nonce), read as a big-endian number. */
  type Id = n: nat | n < ID_LIMIT

  /** A 32-byte key or public key, read as a big-endian number. */
  type Key = n: nat | n < KEY_LIMIT

  function SatAdd(a: u64, b: u64): u64 {
    if a + b > U64_MAX then U64_MAX else a + b
  }

  function SatSub(a: u64, b: u64): u64 {
    if b > a then 0 else a - b
  }
}
