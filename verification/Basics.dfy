/** Types and constants that several parts share. */
module Basics {

  datatype Option<T> = None | Some(value: T)

  type Byte = x: int | 0 <= x < 256

  /** sizeof(PacketHeader) */
  const HEADER_SIZE := 4

  const MAX_PLAIN_PACKET_SIZE := 1280
}
