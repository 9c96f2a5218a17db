/** Shared vocabulary: optional values and the octets of Go strings and HTTP bodies. */
module Prelude {

  datatype Option<+T> = None | Some(value: T)

  // One byte of a Go string or of a response body, written as a character.
  type Octet = c: char | c as int < 256 witness ' '

  type Bytes = seq<Octet>
}
