/** Notions the C sources share. */
module Basics {
  type Byte = x: int | 0 <= x < 256

  /** Addresses; 0 is NULL. */
  type Addr = nat

  /** `size_t` arithmetic is modulo this. */
  const SIZE_MODULUS: nat := 0x1_0000_0000_0000_0000

  /** talloc refuses requests of this size and above. */
  const MAX_TALLOC_SIZE: nat := 0x10000000

  /** A pointer result that may be NULL, or a match that may fail. */
  datatype Option<T> = None | Some(value: T)
}
