/** Bytes, file numbers and the widths of machine integers. */
module Machine {
  newtype Byte = x: int | 0 <= x < 256
  type Bytes = seq<Byte>

  /** The number of a file on its file system. */
  type Ino = nat

  const U32_MAX: nat := 0xFFFF_FFFF
  const U64_MAX: nat := 0xFFFF_FFFF_FFFF_FFFF
}
