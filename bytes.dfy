/// The byte type shared by the SPI and UART buffers, and the one fact about
/// converting small integers to it that the record proofs rely on.
module Bytes {
  type byte = bv8

  /** An integer that fits in a byte survives the round trip through `byte`. */
  lemma ByteOfInt(q: int)
    requires 0 <= q < 256
    ensures (q as byte) as int == q
  {
  }
}
