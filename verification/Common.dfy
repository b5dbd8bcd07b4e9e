/** Small shared vocabulary: optional values, bytes, the states of a TCP connection. */
module Common {

  datatype Option<+T> = None | Some(value: T)

  newtype Byte = x: int | 0 <= x < 256

  datatype ConnState = Connecting | Connected | Disconnecting | Disconnected

  function Max(a: int, b: int): int {
    if a < b then b else a
  }
}
