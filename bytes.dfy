/** Go's `byte` (an unsigned 8-bit integer) as an integer subset type. */
module Bytes {

  type byte = x: int | 0 <= x < 256
}
