/** The byte, shared by the parts that read or write them. */
module Bytes {

  type byte = x: nat | x < 256
}
