/** The packet flags and sizes of the multiplexer. */
module MuxPackets {
  import opened Common

  const PING: Byte := 0
  const NEW_CONN_OK: Byte := 1
  const NEW_CONN_FAIL: Byte := 2
  const NEW_MSG: Byte := 3
  const NEW_MSG_PART: Byte := 4
  const MSG_SEND_OK: Byte := 5
  const NEW_CONN: Byte := 6
  const PING_RETURN: Byte := 8

  /** poolSizeWindowBuffer, the size of every pooled buffer. */
  const BUFFER_SIZE: nat := 4096
  /** maximumSegmentSize = poolSizeWindow. */
  const SEGMENT_MAX: nat := 4085
}
