/** A value that may be missing. */
module Wrappers {
  datatype Option<T> = None | Some(value: T)
}

/** Bytes and Ethernet addresses where only their values matter. */
module Octets {
  type byte = b: nat | b < 256
  type Mac = m: seq<byte> | |m| == 6 witness [0, 0, 0, 0, 0, 0]
}
