/** Attribute Protocol (ATT) wire format used by the client: the opcodes it
    sends and recognises, the fixed sizes, and the layout of a write PDU
    (Bluetooth Core Specification, Vol 3, Part F, sections 3.4.5.1 and
    3.4.5.3; Handle Value Notification in section 3.4.7.1). */
module Att {

  /** One octet on the wire. */
  newtype byte = x: int | 0 <= x < 0x100

  /** A 16-bit attribute handle (uint16_t). */
  newtype u16 = x: int | 0 <= x < 0x1_0000

  const ATT_OP_WRITE_REQ: byte := 0x12
  const ATT_OP_WRITE_CMD: byte := 0x52
  const ATT_OP_HANDLE_VALUE_NOTI: byte := 0x1B

  const ATT_DEFAULT_MTU: nat := 23
  /** Largest value carried by one Write Command: the MTU minus the 3-byte header. */
  const ATT_MAX_PAYLOAD: nat := ATT_DEFAULT_MTU - 3
  /** Size of the receive buffer and the bound the encoders check. */
  const MAX_LINE: nat := 512
  /** Opcode byte plus the two handle bytes. */
  const HEADER_LEN: nat := 3

  /** `handle & 0xFF` */
  function LowByte(handle: u16): byte
  {
    (handle as int % 0x100) as byte
  }

  /** `(handle >> 8) & 0xFF` */
  function HighByte(handle: u16): byte
  {
    (handle as int / 0x100 % 0x100) as byte
  }

  /** The handle a receiver reads back from bytes 1 and 2 (little-endian). */
  function HandleOf(frame: seq<byte>): int
    requires |frame| >= HEADER_LEN
  {
    frame[1] as int + 0x100 * frame[2] as int
  }

  /** The write PDU `opcode, handle_lo, handle_hi, data...`. A receiver
      recovers the opcode, the handle and the data from it unchanged. */
  function EncodeWrite(opcode: byte, handle: u16, data: seq<byte>): (frame: seq<byte>)
    ensures |frame| == HEADER_LEN + |data|
    ensures frame[0] == opcode
    ensures frame[1] as int == handle as int % 0x100
    ensures HandleOf(frame) == handle as int
    ensures frame[HEADER_LEN..] == data
  {
    [opcode, LowByte(handle), HighByte(handle)] + data
  }

  /** A received PDU the reader acts on: a Handle Value Notification that
      carries at least one byte of value after its header. */
  predicate IsNotification(frame: seq<byte>)
  {
    |frame| > HEADER_LEN && frame[0] == ATT_OP_HANDLE_VALUE_NOTI
  }

  /** A notification laid out like a write PDU is recognised exactly when it
      carries a value, and its value is read back unchanged. */
  lemma NotificationRoundTrip(handle: u16, value: seq<byte>)
    ensures IsNotification(EncodeWrite(ATT_OP_HANDLE_VALUE_NOTI, handle, value)) <==> |value| > 0
    ensures EncodeWrite(ATT_OP_HANDLE_VALUE_NOTI, handle, value)[HEADER_LEN..] == value
  {
  }
}
