/** Machine integers, sequence-number arithmetic and the packet record shared by all components. */
module Types {
  const TWO16: int := 0x1_0000
  const TWO32: int := 0x1_0000_0000
  const TWO64: int := 0x1_0000_0000_0000_0000

  type byte = x: int | 0 <= x < 0x100
  type u16 = x: int | 0 <= x < 0x1_0000
  type u32 = x: int | 0 <= x < 0x1_0000_0000
  type u64 = x: int | 0 <= x < 0x1_0000_0000_0000_0000
  type bytes = seq<byte>

  datatype Option<+T> = None | Some(value: T)

  /** One datagram: every fragment of a chunk carries the chunk's sequence number. */
  datatype Packet = Packet(streamId: u64, seqno: u32, timestamp: u64, content: bytes)

  /** `u32` addition and subtraction, with the wrap-around of an optimised build. */
  function WrapAdd(a: u32, b: nat): (r: u32) {
    (a + b) % TWO32
  }

  function WrapSub(a: u32, b: nat): (r: u32) {
    (a - b) % TWO32
  }
}
