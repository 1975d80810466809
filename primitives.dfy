/** Fixed-width Java values the client works with. */
module Primitives {

  /** A byte as the encoder reads it: Java's signed byte masked with `& 0xff`. */
  newtype byte = b: int | 0 <= b < 0x100

  /** Java's 32-bit `int`. */
  newtype int32 = x: int | -0x8000_0000 <= x < 0x8000_0000
}
