module Bytes {
  /** What a file is made of. */
  type byte = x: int | 0 <= x < 256
}
