/** The protocol constants the model uses, with the values of the PJON v4.2 constant file. */
module PjonConstants {
  type byte = bv8

  // Protocol symbols. A code is what `receive`, `send_string` and a packet's state hold.
  const ACK: int := 6
  const NAK: int := 21
  const FAIL: int := 0x100
  const BUSY: int := 666
  const TO_BE_SENT: int := 74

  const ACK_BYTE: byte := 6
  const ACQUIRE_ID: byte := 63
  const BROADCAST: byte := 0

  // Header bits
  const MODE_BIT: byte := 1
  const SENDER_INFO_BIT: byte := 2
  const ACK_REQUEST_BIT: byte := 4

  // Constraints
  const MAX_ATTEMPTS: nat := 125
  const MAX_PACKETS: nat := 128
  const PACKET_MAX_LENGTH: nat := 50
  const RECEIVED_PACKETS_BUFFER_LENGTH: nat := 32

  // Error codes
  const CONNECTION_LOST: int := 101
  const PACKETS_BUFFER_FULL: int := 102

  datatype Option<+T> = None | Some(value: T)
}
