/** Bytes. */
module ByteSeq {
  type Byte = x: int | 0 <= x < 0x100
}
