/** Datagram and content headers (src/datagram/packet.rs). */
module PacketCodec {
  import opened Types
  import opened Wire

  const PACKET_WIRE_HEADER_SIZE: nat := 20
  const SINGLE_CONTENT_OVERHEAD: nat := 1
  const FRAG_CONTENT_OVERHEAD: nat := 5

  datatype Content =
    | Single(payload: bytes)
    | Fragment(fragIndex: u16, totalFrags: u16, payload: bytes)

  function SerializePacket(p: Packet): bytes {
    U64Bytes(p.streamId) + (U32Bytes(p.seqno) + (U64Bytes(p.timestamp) + p.content))
  }

  /** `None` where the source's `get_*` calls run off the end of the datagram and panic. */
  function ParsePacket(b: bytes): Option<Packet> {
    match GetU64(b)
    case Short => None
    case Got(id, b1) =>
      match GetU32(b1)
      case Short => None
      case Got(s, b2) =>
        match GetU64(b2)
        case Short => None
        case Got(ts, rest) => Some(Packet(id, s, ts, rest))
  }

  function EncodeContent(c: Content): bytes {
    match c
    case Single(payload) => [0x00] + payload
    case Fragment(i, total, payload) => [0x01] + (U16Bytes(i) + (U16Bytes(total) + payload))
  }

  function DecodeContent(b: bytes): Option<Content> {
    if b == [] then None
    else if b[0] == 0x00 then Some(Single(b[1..]))
    else if b[0] == 0x01 then
      match GetU16(b[1..])
      case Short => None
      case Got(i, b1) =>
        match GetU16(b1)
        case Short => None
        case Got(total, payload) => Some(Fragment(i, total, payload))
    else None
  }

  /** A datagram parses to `p` exactly when it is the serialization of `p`. */
  lemma PacketInverse(b: bytes, p: Packet)
    ensures ParsePacket(b) == Some(p) <==> b == SerializePacket(p)
  {
    var b2 := U64Bytes(p.timestamp) + p.content;
    var b1 := U32Bytes(p.seqno) + b2;
    U64Inverse(b, p.streamId, b1);
    U32Inverse(b1, p.seqno, b2);
    U64Inverse(b2, p.timestamp, p.content);
    if ParsePacket(b) == Some(p) {
      var g := GetU64(b);
      U64Inverse(b, g.value, g.rest);
      var h := GetU32(g.rest);
      U32Inverse(g.rest, h.value, h.rest);
      U64Inverse(h.rest, p.timestamp, p.content);
    }
  }

  /** Content bytes decode to `c` exactly when they are the encoding of `c`. */
  lemma ContentInverse(b: bytes, c: Content)
    ensures DecodeContent(b) == Some(c) <==> b == EncodeContent(c)
  {
    match c
    case Single(payload) =>
      if b != [] {
        assert b == [b[0]] + b[1..];
      }
    case Fragment(i, total, payload) =>
      var b1 := U16Bytes(total) + payload;
      if b != [] {
        assert b == [b[0]] + b[1..];
        U16Inverse(b[1..], i, b1);
        U16Inverse(b1, total, payload);
        if b[0] == 0x01 && GetU16(b[1..]).Got? {
          var g := GetU16(b[1..]);
          U16Inverse(b[1..], g.value, g.rest);
          U16Inverse(g.rest, total, payload);
        }
      }
  }

  /** Where the fields of a datagram are: 8, 4 and 8 bytes in network byte order, then the content. */
  lemma PacketLayout(p: Packet)
    ensures var b := SerializePacket(p);
            && |b| == PACKET_WIRE_HEADER_SIZE + |p.content|
            && BigEndian(b[..8]) == p.streamId && BigEndian(b[8..12]) == p.seqno && BigEndian(b[12..20]) == p.timestamp
            && b[20..] == p.content
  {
    var b, id, s, ts := SerializePacket(p), U64Bytes(p.streamId), U32Bytes(p.seqno), U64Bytes(p.timestamp);
    assert b[..8] == id && b[8..12] == s && b[12..20] == ts;
    IntegersAreBigEndian(0, 0, p.streamId);
    IntegersAreBigEndian(0, p.seqno, p.timestamp);
    hide BigEndian, U64Bytes, U32Bytes;
  }

  /** Where the fields of a datagram's content are. */
  lemma ContentLayout(c: Content)
    ensures var b := EncodeContent(c);
            match c
            case Single(payload) => |b| == SINGLE_CONTENT_OVERHEAD + |payload| && b[0] == 0 && b[1..] == payload
            case Fragment(i, total, payload) =>
              && |b| == FRAG_CONTENT_OVERHEAD + |payload| && b[0] == 1
              && BigEndian(b[1..3]) == i && BigEndian(b[3..5]) == total && b[5..] == payload
  {
    if c.Fragment? {
      var b, i, total := EncodeContent(c), U16Bytes(c.fragIndex), U16Bytes(c.totalFrags);
      assert b[1..3] == i && b[3..5] == total;
      IntegersAreBigEndian(c.fragIndex, 0, 0);
      IntegersAreBigEndian(c.totalFrags, 0, 0);
      hide BigEndian, U16Bytes;
    }
  }

  method SerializePacketBytes(p: Packet) returns (b: bytes)
    ensures b == SerializePacket(p)
  {
    var buf := new ByteBuffer();
    buf.PutU64(p.streamId);
    buf.PutU32(p.seqno);
    buf.PutU64(p.timestamp);
    buf.PutSlice(p.content);
    b := buf.data;
  }

  /** `None` stands for the panic, which only a datagram shorter than the header causes. */
  method ParsePacketBytes(b: bytes) returns (r: Option<Packet>)
    ensures r == ParsePacket(b)
    ensures r == None <==> |b| < PACKET_WIRE_HEADER_SIZE
  {
    var cur := new ByteCursor(b);
    var id := cur.TryGetU64();
    if id == None { return None; }
    var s := cur.TryGetU32();
    if s == None { return None; }
    var ts := cur.TryGetU64();
    if ts == None { return None; }
    r := Some(Packet(id.value, s.value, ts.value, cur.Remaining()));
  }
}
