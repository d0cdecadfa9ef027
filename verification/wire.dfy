/** Big-endian integers, and the growing buffer and read cursor the codecs are written with. */
module Wire {
  import opened Types

  function U16Bytes(x: u16): (b: bytes)
    ensures |b| == 2
  {
    [x / 0x100, x % 0x100]
  }

  function U32Bytes(x: u32): (b: bytes)
    ensures |b| == 4
  {
    U16Bytes(x / TWO16) + U16Bytes(x % TWO16)
  }

  function U64Bytes(x: u64): (b: bytes)
    ensures |b| == 8
  {
    U32Bytes(x / TWO32) + U32Bytes(x % TWO32)
  }

  /** A value read from the front of some bytes, and the bytes after it. */
  datatype Got<T> = Got(value: T, rest: bytes) | Short

  function GetU8(b: bytes): Got<byte> {
    if |b| < 1 then Short else Got(b[0], b[1..])
  }

  function Shift8(hi: int, lo: byte): int {
    hi * 0x100 + lo
  }

  function GetU16(b: bytes): Got<u16> {
    if |b| < 2 then Short else Got(Shift8(b[0], b[1]), b[2..])
  }

  function U32Of(b: bytes): u32
    requires |b| >= 4
  {
    Shift8(b[0], b[1]) * TWO16 + Shift8(b[2], b[3])
  }

  function GetU32(b: bytes): Got<u32> {
    if |b| < 4 then Short else Got(U32Of(b), b[4..])
  }

  function GetU64(b: bytes): Got<u64> {
    if |b| < 8 then Short else Got(U32Of(b) * TWO32 + U32Of(b[4..]), b[8..])
  }

  function GetBytes(n: nat, b: bytes): Got<bytes> {
    if |b| < n then Short else Got(b[..n], b[n..])
  }

  // Reading back what was written, and writing back what was read.

  lemma U8Inverse(b: bytes, x: byte, t: bytes)
    ensures GetU8(b) == Got(x, t) <==> b == [x] + t
  {
  }

  lemma U16Inverse(b: bytes, x: u16, t: bytes)
    ensures GetU16(b) == Got(x, t) <==> b == U16Bytes(x) + t
  {
    if |b| >= 2 && GetU16(b) == Got(x, t) {
      assert b == [b[0], b[1]] + b[2..];
    }
  }

  lemma Halves(hi: byte, lo: byte, x: u16)
    ensures Shift8(hi, lo) == x <==> hi == x / 0x100 && lo == x % 0x100
  {
  }

  lemma U32OfBytes(b: bytes, x: u32)
    requires |b| >= 4
    ensures U32Of(b) == x <==> b[..4] == U32Bytes(x)
  {
    var hi: u16, lo: u16 := x / TWO16, x % TWO16;
    var h: u16, l: u16 := Shift8(b[0], b[1]), Shift8(b[2], b[3]);
    assert U32Of(b) == x <==> h == hi && l == lo;
    Halves(b[0], b[1], hi);
    Halves(b[2], b[3], lo);
    var c := U32Bytes(x);
    assert c[0] == hi / 0x100 && c[1] == hi % 0x100 && c[2] == lo / 0x100 && c[3] == lo % 0x100;
    assert b[..4] == c <==> b[0] == c[0] && b[1] == c[1] && b[2] == c[2] && b[3] == c[3];
  }

  lemma U32Inverse(b: bytes, x: u32, t: bytes)
    ensures GetU32(b) == Got(x, t) <==> b == U32Bytes(x) + t
  {
    if |b| >= 4 {
      U32OfBytes(b, x);
      assert b == b[..4] + b[4..];
    }
  }

  lemma U64Inverse(b: bytes, x: u64, t: bytes)
    ensures GetU64(b) == Got(x, t) <==> b == U64Bytes(x) + t
  {
    if |b| >= 8 {
      U32OfBytes(b, x / TWO32);
      U32OfBytes(b[4..], x % TWO32);
      assert b == b[..4] + b[4..][..4] + b[8..];
    }
  }

  lemma BytesInverse(n: nat, b: bytes, x: bytes, t: bytes)
    ensures GetBytes(n, b) == Got(x, t) <==> |x| == n && b == x + t
  {
    if |b| >= n {
      assert b == b[..n] + b[n..];
    }
  }

  // Network byte order, most significant byte first.

  function BigEndian(b: bytes): nat {
    if b == [] then 0 else BigEndian(b[..|b| - 1]) * 0x100 + b[|b| - 1]
  }

  lemma BigEndianSnoc(b: bytes, x: byte)
    ensures BigEndian(b + [x]) == BigEndian(b) * 0x100 + x
  {
    assert (b + [x])[..|b|] == b;
  }

  lemma BigEndianPair(b: bytes, x: u16)
    ensures BigEndian(b + U16Bytes(x)) == BigEndian(b) * TWO16 + x
  {
    hide BigEndian;
    var hi: byte, lo: byte := x / 0x100, x % 0x100;
    BigEndianSnoc(b, hi);
    BigEndianSnoc(b + [hi], lo);
    assert b + [hi] + [lo] == b + U16Bytes(x);
    assert hi * 0x100 + lo == x;
  }

  lemma BigEndianQuad(b: bytes, x: u32)
    ensures BigEndian(b + U32Bytes(x)) == BigEndian(b) * TWO32 + x
  {
    hide BigEndian;
    BigEndianPair(b, x / TWO16);
    BigEndianPair(b + U16Bytes(x / TWO16), x % TWO16);
    assert b + U16Bytes(x / TWO16) + U16Bytes(x % TWO16) == b + U32Bytes(x);
  }

  /** Every integer goes out most significant byte first. */
  lemma IntegersAreBigEndian(x: u16, y: u32, z: u64)
    ensures BigEndian(U16Bytes(x)) == x && BigEndian(U32Bytes(y)) == y && BigEndian(U64Bytes(z)) == z
  {
    assert BigEndian([]) == 0;
    hide BigEndian;
    BigEndianPair([], x);
    BigEndianQuad([], y);
    BigEndianQuad([], z / TWO32);
    BigEndianQuad(U32Bytes(z / TWO32), z % TWO32);
    assert [] + U16Bytes(x) == U16Bytes(x) && [] + U32Bytes(y) == U32Bytes(y);
    assert [] + U32Bytes(z / TWO32) == U32Bytes(z / TWO32);
  }

  /** `bytes::BytesMut` as the serializers use it. */
  class ByteBuffer {
    var data: bytes

    constructor ()
      ensures data == []
    {
      data := [];
    }

    method PutU8(x: byte)
      modifies this
      ensures data == old(data) + [x]
    {
      data := data + [x];
    }

    method PutU16(x: u16)
      modifies this
      ensures data == old(data) + U16Bytes(x)
    {
      data := data + U16Bytes(x);
    }

    method PutU32(x: u32)
      modifies this
      ensures data == old(data) + U32Bytes(x)
    {
      data := data + U32Bytes(x);
    }

    method PutU64(x: u64)
      modifies this
      ensures data == old(data) + U64Bytes(x)
    {
      data := data + U64Bytes(x);
    }

    method PutSlice(b: bytes)
      modifies this
      ensures data == old(data) + b
    {
      data := data + b;
    }
  }

  /** `std::io::Cursor<Bytes>`: the `try_get` family leaves the cursor alone when data is short. */
  class ByteCursor {
    const data: bytes
    var pos: nat

    constructor (data: bytes)
      ensures Valid() && Remaining() == data
    {
      this.data := data;
      pos := 0;
    }

    ghost predicate Valid()
      reads this
    {
      pos <= |data|
    }

    function Remaining(): bytes
      requires Valid()
      reads this
    {
      data[pos..]
    }

    method TryGetU8() returns (r: Option<byte>)
      requires Valid()
      modifies this
      ensures Valid()
      ensures Stepped(GetU8(old(Remaining())), r, old(Remaining()), Remaining())
    {
      if |data| - pos < 1 {
        return None;
      }
      r := Some(data[pos]);
      pos := pos + 1;
    }

    method TryGetU16() returns (r: Option<u16>)
      requires Valid()
      modifies this
      ensures Valid()
      ensures Stepped(GetU16(old(Remaining())), r, old(Remaining()), Remaining())
    {
      if |data| - pos < 2 {
        return None;
      }
      r := Some(Shift8(data[pos], data[pos + 1]));
      pos := pos + 2;
    }

    method TryGetU32() returns (r: Option<u32>)
      requires Valid()
      modifies this
      ensures Valid()
      ensures Stepped(GetU32(old(Remaining())), r, old(Remaining()), Remaining())
    {
      if |data| - pos < 4 {
        return None;
      }
      r := Some(U32Of(data[pos..]));
      pos := pos + 4;
    }

    method TryGetU64() returns (r: Option<u64>)
      requires Valid()
      modifies this
      ensures Valid()
      ensures Stepped(GetU64(old(Remaining())), r, old(Remaining()), Remaining())
    {
      if |data| - pos < 8 {
        return None;
      }
      ghost var b := Remaining();
      assert b[4..] == data[pos + 4..];
      r := Some(U32Of(data[pos..]) * TWO32 + U32Of(data[pos + 4..]));
      pos := pos + 8;
    }

    method TryGetBytes(n: nat) returns (r: Option<bytes>)
      requires Valid()
      modifies this
      ensures Valid()
      ensures Stepped(GetBytes(n, old(Remaining())), r, old(Remaining()), Remaining())
    {
      if |data| - pos < n {
        return None;
      }
      r := Some(data[pos..pos + n]);
      assert Remaining()[..n] == data[pos..pos + n];
      pos := pos + n;
    }
  }

  ghost predicate Stepped<T>(g: Got<T>, r: Option<T>, before: bytes, after: bytes) {
    match g
    case Got(x, rest) => r == Some(x) && after == rest
    case Short => r == None && after == before
  }
}
