/** The control messages of a Mani stream on the wire (src/mani/codec.rs), one whole frame at a time. */
module ManiCodec {
  import opened Types
  import opened Wire
  import opened Messages

  datatype ParseError = InvalidMessageType(code: byte) | InvalidMessageFormat | UnexpectedEndOfMessage

  datatype Parsed = Parsed(message: ManiMessage) | Failed(error: ParseError)

  // ---------------------------------------------------------------- enumerations

  function ModeByte(m: TransferMode): byte {
    match m case Dual => 0x00 case UnreliableOnly => 0x01
  }

  function ModeOf(b: byte): (r: Option<TransferMode>)
    ensures forall m :: r == Some(m) <==> b == ModeByte(m)
  {
    match b case 0 => Some(Dual) case 1 => Some(UnreliableOnly) case _ => None
  }

  function ErrorCodeOf(c: TransferErrorCode): u16 {
    match c case UnsupportedCompression => 0x0001 case InternalError => 0x0002
  }

  function ErrorOf(x: u16): (r: Option<TransferErrorCode>)
    ensures forall c :: r == Some(c) <==> x == ErrorCodeOf(c)
  {
    match x case 1 => Some(UnsupportedCompression) case 2 => Some(InternalError) case _ => None
  }

  function TypeByte(m: ManiMessage): byte {
    match m
    case Hello(_) => 0x00
    case PayloadMessage(_) => 0x01
    case NackMessage(_) => 0x02
    case Retrans(_, _, _) => 0x03
    case TransferStart(_, _, _, _) => 0x04
    case TransferEnd(_) => 0x05
    case TransferEndAck => 0x06
    case TransferError(_) => 0x07
    case EndOfStream => 0x08
    case CreditsUpdate(_) => 0x09
    case CreditsRequest => 0x0A
  }

  // ---------------------------------------------------------------- writing

  function NumbersBytes(xs: seq<u32>): bytes {
    if xs == [] then [] else NumbersBytes(xs[..|xs| - 1]) + U32Bytes(xs[|xs| - 1])
  }

  function DataSizeBytes(d: Option<u64>): bytes {
    match d case None => [0] case Some(x) => [1] + U64Bytes(x)
  }

  /** What follows the type byte. Counts and credits are cut to 32 bits. */
  function Body(m: ManiMessage): bytes {
    match m
    case Hello(c) => [CompressionByte(c)]
    case PayloadMessage(payload) => payload
    case NackMessage(xs) => U32Bytes(|xs| % TWO32) + NumbersBytes(xs)
    case Retrans(s, ts, payload) => U32Bytes(s) + (U64Bytes(ts) + payload)
    case TransferStart(mode, c, initial, size) => [ModeByte(mode)] + ([CompressionByte(c)]
        + (U32Bytes(initial) + DataSizeBytes(size)))
    case TransferEnd(final) => U32Bytes(final)
    case TransferError(code) => U16Bytes(ErrorCodeOf(code))
    case CreditsUpdate(n) => U32Bytes(n % TWO32)
    case _ => []
  }

  function Serialize(m: ManiMessage): bytes {
    [TypeByte(m)] + Body(m)
  }

  // ---------------------------------------------------------------- reading

  function GetNumbers(n: nat, b: bytes): Got<seq<u32>> {
    if n == 0 then Got([], b) else
    match GetNumbers(n - 1, b)
    case Short => Short
    case Got(xs, rest) =>
      match GetU32(rest)
      case Short => Short
      case Got(x, after) => Got(xs + [x], after)
  }

  function ParseHello(b: bytes): Parsed {
    match GetU8(b)
    case Short => Failed(UnexpectedEndOfMessage)
    case Got(x, _) =>
      match CompressionOf(x)
      case None => Failed(InvalidMessageFormat)
      case Some(c) => Parsed(Hello(c))
  }

  function ParseNack(b: bytes): Parsed {
    match GetU32(b)
    case Short => Failed(UnexpectedEndOfMessage)
    case Got(n, rest) =>
      match GetNumbers(n, rest)
      case Short => Failed(UnexpectedEndOfMessage)
      case Got(xs, _) => Parsed(NackMessage(xs))
  }

  function ParseRetrans(b: bytes): Parsed {
    match GetU32(b)
    case Short => Failed(UnexpectedEndOfMessage)
    case Got(s, rest) =>
      match GetU64(rest)
      case Short => Failed(UnexpectedEndOfMessage)
      case Got(ts, payload) => Parsed(Retrans(s, ts, payload))
  }

  function GetDataSize(b: bytes): Got<Option<u64>> {
    match GetU8(b)
    case Short => Short
    case Got(flag, rest) =>
      if flag == 0 then Got(None, rest) else
      match GetU64(rest)
      case Short => Short
      case Got(x, after) => Got(Some(x), after)
  }

  /** The bad mode or compression is only noticed once everything has been read. */
  function ParseTransferStart(b: bytes): Parsed {
    match GetU8(b)
    case Short => Failed(UnexpectedEndOfMessage)
    case Got(mode, b1) =>
      match GetU8(b1)
      case Short => Failed(UnexpectedEndOfMessage)
      case Got(compression, b2) =>
        match GetU32(b2)
        case Short => Failed(UnexpectedEndOfMessage)
        case Got(initial, b3) =>
          match GetDataSize(b3)
          case Short => Failed(UnexpectedEndOfMessage)
          case Got(size, _) =>
            if ModeOf(mode) == None || CompressionOf(compression) == None then Failed(InvalidMessageFormat)
            else Parsed(TransferStart(ModeOf(mode).value, CompressionOf(compression).value, initial, size))
  }

  function ParseTransferEnd(b: bytes): Parsed {
    match GetU32(b)
    case Short => Failed(UnexpectedEndOfMessage)
    case Got(final, _) => Parsed(TransferEnd(final))
  }

  function ParseTransferError(b: bytes): Parsed {
    match GetU16(b)
    case Short => Failed(UnexpectedEndOfMessage)
    case Got(x, _) =>
      match ErrorOf(x)
      case None => Failed(InvalidMessageFormat)
      case Some(code) => Parsed(TransferError(code))
  }

  function ParseCreditsUpdate(b: bytes): Parsed {
    match GetU32(b)
    case Short => Failed(UnexpectedEndOfMessage)
    case Got(n, _) => Parsed(CreditsUpdate(n))
  }

  function ParseBody(code: byte, b: bytes): Parsed {
    match code
    case 0x00 => ParseHello(b)
    case 0x01 => Parsed(PayloadMessage(b))
    case 0x02 => ParseNack(b)
    case 0x03 => ParseRetrans(b)
    case 0x04 => ParseTransferStart(b)
    case 0x05 => ParseTransferEnd(b)
    case 0x06 => Parsed(TransferEndAck)
    case 0x07 => ParseTransferError(b)
    case 0x08 => Parsed(EndOfStream)
    case 0x09 => ParseCreditsUpdate(b)
    case 0x0A => Parsed(CreditsRequest)
    case _ => Failed(InvalidMessageType(code))
  }

  function Parse(b: bytes): Parsed {
    match GetU8(b)
    case Short => Failed(UnexpectedEndOfMessage)
    case Got(code, rest) => ParseBody(code, rest)
  }

  // ---------------------------------------------------------------- reading back

  /** Counts and credits that survive the cut to 32 bits. */
  predicate InRange(m: ManiMessage) {
    match m
    case NackMessage(xs) => |xs| < TWO32
    case CreditsUpdate(n) => n < TWO32
    case _ => true
  }

  /** Bytes with the data-size flag of a TransferStart, its seventh body byte, normalised to 0 or 1. */
  function Normalised(code: byte, b: bytes): bytes {
    if code == 0x04 && |b| > 6 && b[6] != 0 then b[6 := 1] else b
  }

  /** Messages whose last field takes all that remains. */
  predicate TakesAll(m: ManiMessage) {
    m.PayloadMessage? || m.Retrans?
  }

  /** `b` carries `m` behind the type byte, up to the flag and what trails it. */
  ghost predicate Carries(code: byte, b: bytes, m: ManiMessage) {
    code == TypeByte(m) && InRange(m) && if TakesAll(m) then b == Body(m) else Body(m) <= Normalised(code, b)
  }

  lemma PrefixIs(s: bytes, b: bytes)
    ensures s <= b <==> |s| <= |b| && b == s + b[|s|..]
  {
    if s <= b {
      assert b == b[..|s|] + b[|s|..];
    }
  }

  lemma {:induction false} NumbersInverse(n: nat, b: bytes, xs: seq<u32>, t: bytes)
    ensures GetNumbers(n, b) == Got(xs, t) <==> |xs| == n && b == NumbersBytes(xs) + t
  {
    if n == 0 {
      assert xs == [] ==> NumbersBytes(xs) + t == t;
    } else if |xs| == n {
      var init, last := xs[..n - 1], xs[n - 1];
      NumbersInverse(n - 1, b, init, U32Bytes(last) + t);
      U32Inverse(U32Bytes(last) + t, last, t);
      assert NumbersBytes(xs) + t == NumbersBytes(init) + (U32Bytes(last) + t);
      assert xs == init + [last];
      var g := GetNumbers(n - 1, b);
      GotLength(n - 1, b);
      if g.Got? && GetU32(g.rest).Got? {
        U32Inverse(g.rest, last, t);
        assert (g.value + [GetU32(g.rest).value])[..n - 1] == g.value;
      }
    } else {
      GotLength(n, b);
    }
  }

  lemma {:induction false} GotLength(n: nat, b: bytes)
    ensures GetNumbers(n, b).Got? ==> |GetNumbers(n, b).value| == n
  {
    if n > 0 {
      GotLength(n - 1, b);
    }
  }

  lemma HelloCarried(b: bytes, m: ManiMessage)
    ensures ParseHello(b) == Parsed(m) <==> m.Hello? && Body(m) <= b
  {
    if m.Hello? {
      PrefixIs(Body(m), b);
      if b != [] {
        U8Inverse(b, CompressionByte(m.compressionType), b[1..]);
      }
    }
  }

  lemma NackCarried(b: bytes, m: ManiMessage)
    ensures ParseNack(b) == Parsed(m) <==> m.NackMessage? && |m.sequenceNumbers| < TWO32 && Body(m) <= b
  {
    hide Body, ParseNack;
    if m.NackMessage? && |m.sequenceNumbers| < TWO32 && Body(m) <= b {
      CarriedNackIsParsed(b, m.sequenceNumbers);
    }
    ParsedNackIsCarried(b);
  }

  lemma CarriedNackIsParsed(b: bytes, xs: seq<u32>)
    requires |xs| < TWO32 && Body(NackMessage(xs)) <= b
    ensures ParseNack(b) == Parsed(NackMessage(xs))
  {
    hide NumbersBytes, GetNumbers, U32Bytes, GetU32;
    var body := Body(NackMessage(xs));
    PrefixIs(body, b);
    var t := b[|body|..];
    Regroup(U32Bytes(|xs|), NumbersBytes(xs), t);
    U32Inverse(b, |xs|, NumbersBytes(xs) + t);
    NumbersInverse(|xs|, NumbersBytes(xs) + t, xs, t);
  }

  lemma Regroup(a: bytes, b: bytes, c: bytes)
    ensures (a + b) + c == a + (b + c)
  {
  }

  lemma ParsedNackIsCarried(b: bytes)
    ensures ParseNack(b).Parsed? ==>
              var m := ParseNack(b).message; m.NackMessage? && |m.sequenceNumbers| < TWO32 && Body(m) <= b
  {
    hide NumbersBytes, GetNumbers, U32Bytes, GetU32;
    var g := GetU32(b);
    if g.Got? {
      U32Inverse(b, g.value, g.rest);
      GotLength(g.value, g.rest);
      var h := GetNumbers(g.value, g.rest);
      if h.Got? {
        NumbersInverse(g.value, g.rest, h.value, h.rest);
        assert b == (U32Bytes(g.value) + NumbersBytes(h.value)) + h.rest;
      }
    }
  }

  lemma RetransCarried(b: bytes, m: ManiMessage)
    ensures ParseRetrans(b) == Parsed(m) <==> m.Retrans? && b == Body(m)
  {
    if m.Retrans? {
      var rest := U64Bytes(m.timestamp) + m.content;
      U32Inverse(b, m.sequenceNumber, rest);
      U64Inverse(rest, m.timestamp, m.content);
      var g := GetU32(b);
      if g.Got? {
        U32Inverse(b, g.value, g.rest);
        U64Inverse(g.rest, m.timestamp, m.content);
      }
    }
  }

  /** Reading the optional size, whatever nonzero value the flag has. */
  lemma DataSizeInverse(b: bytes, d: Option<u64>, t: bytes)
    ensures GetDataSize(b) == Got(d, t) <==> b != [] && (if b[0] != 0 then b[0 := 1] else b) == DataSizeBytes(d) + t
  {
    hide U64Bytes, GetU64;
    if b != [] {
      assert b == [b[0]] + b[1..] && b[0 := 1] == [1] + b[1..];
      match d
      case None => assert (DataSizeBytes(d) + t)[0] == 0 && (DataSizeBytes(d) + t)[1..] == t;
      case Some(x) =>
        U64Inverse(b[1..], x, t);
        assert DataSizeBytes(d) + t == [1] + (U64Bytes(x) + t);
        assert ([1] + (U64Bytes(x) + t))[1..] == U64Bytes(x) + t;
    }
  }

  lemma TransferStartCarried(b: bytes, m: ManiMessage)
    ensures ParseTransferStart(b) == Parsed(m) <==> m.TransferStart? && Body(m) <= Normalised(0x04, b)
  {
    if |b| < 7 {
      ShortStart(b, m);
    } else {
      var tail, initial := b[6..], U32Of(b[2..]);
      var normal := if tail[0] != 0 then tail[0 := 1] else tail;
      StartIsRead(b, tail);
      StartIsWritten(b, tail, normal, m);
      hide ParseTransferStart, GetDataSize, Body, Normalised, ModeOf, CompressionOf, ModeByte, CompressionByte,
          DataSizeBytes, U32Of, U32Bytes;
      var g := GetDataSize(tail);
      if g.Got? {
        DataSizeInverse(tail, g.value, g.rest);
        PrefixIs(DataSizeBytes(g.value), normal);
      }
      if m.TransferStart? && DataSizeBytes(m.dataSize) <= normal {
        PrefixIs(DataSizeBytes(m.dataSize), normal);
        DataSizeInverse(tail, m.dataSize, normal[|DataSizeBytes(m.dataSize)|..]);
      }
    }
  }

  lemma ShortStart(b: bytes, m: ManiMessage)
    requires |b| < 7
    ensures ParseTransferStart(b).Failed?
    ensures m.TransferStart? ==> !(Body(m) <= Normalised(0x04, b))
  {
  }

  lemma StartIsRead(b: bytes, tail: bytes)
    requires |b| >= 7 && tail == b[6..]
    ensures ParseTransferStart(b) ==
            match GetDataSize(tail)
            case Short => Failed(UnexpectedEndOfMessage)
            case Got(size, _) =>
              if ModeOf(b[0]) == None || CompressionOf(b[1]) == None then Failed(InvalidMessageFormat)
              else Parsed(TransferStart(ModeOf(b[0]).value, CompressionOf(b[1]).value, U32Of(b[2..]), size))
  {
    hide GetDataSize, ModeOf, CompressionOf, U32Of;
    assert b[1..][1..] == b[2..] && b[2..][4..] == tail && b[1..][0] == b[1];
  }

  /** A TransferStart body, field by field. */
  lemma StartIsWritten(b: bytes, tail: bytes, normal: bytes, m: ManiMessage)
    requires |b| >= 7 && tail == b[6..] && normal == if tail[0] != 0 then tail[0 := 1] else tail
    ensures m.TransferStart? ==>
              (Body(m) <= Normalised(0x04, b) <==>
                && ModeOf(b[0]) == Some(m.mode) && CompressionOf(b[1]) == Some(m.compression)
                && U32Of(b[2..]) == m.initialSequenceNumber && DataSizeBytes(m.dataSize) <= normal)
  {
    if m.TransferStart? {
      assert Normalised(0x04, b) == [b[0]] + ([b[1]] + (b[2..6] + normal));
      StartFields(b[0], b[1], b[2..6], normal, m);
      U32OfBytes(b[2..], m.initialSequenceNumber);
      assert b[2..][..4] == b[2..6];
    }
  }

  lemma StartFields(mode: byte, compression: byte, initial: bytes, normal: bytes, m: ManiMessage)
    requires |initial| == 4 && m.TransferStart?
    ensures Body(m) <= [mode] + ([compression] + (initial + normal)) <==>
              && mode == ModeByte(m.mode) && compression == CompressionByte(m.compression)
              && initial == U32Bytes(m.initialSequenceNumber) && DataSizeBytes(m.dataSize) <= normal
  {
    hide ModeByte, CompressionByte, DataSizeBytes, U32Bytes;
    var size := DataSizeBytes(m.dataSize);
    PrefixBoth([mode], [ModeByte(m.mode)], [compression] + (initial + normal), [CompressionByte(m.compression)]
        + (U32Bytes(m.initialSequenceNumber) + size));
    PrefixBoth([compression], [CompressionByte(m.compression)], initial + normal, U32Bytes(m.initialSequenceNumber) + size);
    PrefixBoth(initial, U32Bytes(m.initialSequenceNumber), normal, size);
  }

  lemma PrefixBoth(a: bytes, x: bytes, b: bytes, y: bytes)
    requires |a| == |x|
    ensures x + y <= a + b <==> x == a && y <= b
  {
    if x + y <= a + b {
      assert (x + y)[..|x|] == x && (a + b)[..|x|] == a;
      assert (x + y)[|x|..] == y && (a + b)[|x|..] == b;
      PrefixIs(x + y, a + b);
      var t := (a + b)[|x + y|..];
      assert a + b == x + (y + t);
      assert b == y + t;
    }
  }

  lemma ErrorCarried(b: bytes, m: ManiMessage)
    ensures ParseTransferError(b) == Parsed(m) <==> m.TransferError? && Body(m) <= b
  {
    if m.TransferError? {
      PrefixIs(Body(m), b);
      if |b| >= 2 {
        U16Inverse(b, ErrorCodeOf(m.errorCode), b[2..]);
      }
    }
  }

  lemma NumberCarried(b: bytes, x: u32)
    ensures (GetU32(b).Got? && GetU32(b).value == x) <==> U32Bytes(x) <= b
  {
    PrefixIs(U32Bytes(x), b);
    if |b| >= 4 {
      U32Inverse(b, x, b[4..]);
    }
  }

  lemma EndCarried(b: bytes, m: ManiMessage)
    ensures ParseTransferEnd(b) == Parsed(m) <==> m.TransferEnd? && Body(m) <= b
    ensures ParseCreditsUpdate(b) == Parsed(m) <==> m.CreditsUpdate? && m.additionalCredits < TWO32 && Body(m) <= b
  {
    match m
    case TransferEnd(final) => NumberCarried(b, final);
    case CreditsUpdate(n) => NumberCarried(b, n % TWO32);
    case _ =>
  }

  lemma BodyCarried(code: byte, b: bytes, m: ManiMessage)
    ensures ParseBody(code, b) == Parsed(m) <==> Carries(code, b, m)
  {
    hide ParseHello, ParseNack, ParseRetrans, ParseTransferStart, ParseTransferError, ParseTransferEnd, ParseCreditsUpdate;
    HelloCarried(b, m);
    NackCarried(b, m);
    RetransCarried(b, m);
    TransferStartCarried(b, m);
    ErrorCarried(b, m);
    EndCarried(b, m);
  }

  /** A frame without the type byte's own quirk: its data-size flag normalised. */
  function NormalisedFrame(b: bytes): bytes {
    if b == [] then b else [b[0]] + Normalised(b[0], b[1..])
  }

  /** Both directions at once. A frame parses to `m` exactly when `m` is in range and its serialization is
      the start of the frame, a nonzero data-size flag counting as 1; for the two messages that end in a
      payload it is the whole frame. */
  lemma ParsedIffSerialized(b: bytes, m: ManiMessage)
    ensures Parse(b) == Parsed(m) <==>
              InRange(m) && Serialize(m) <= NormalisedFrame(b) && (TakesAll(m) ==> b == Serialize(m))
  {
    hide Body, Normalised, ParseBody;
    if b != [] {
      BodyCarried(b[0], b[1..], m);
      PrefixBoth([b[0]], [TypeByte(m)], Normalised(b[0], b[1..]), Body(m));
      assert b == [b[0]] + b[1..];
      WholeFrame(b, m);
    }
  }

  lemma WholeFrame(b: bytes, m: ManiMessage)
    requires b != []
    ensures b == Serialize(m) <==> b[0] == TypeByte(m) && b[1..] == Body(m)
    ensures TakesAll(m) && b == Serialize(m) ==> Body(m) <= Normalised(b[0], b[1..])
  {
    hide Body;
    assert b == [b[0]] + b[1..];
  }

  lemma SerializedIsNormal(m: ManiMessage)
    ensures NormalisedFrame(Serialize(m)) == Serialize(m)
  {
    assert Serialize(m)[1..] == Body(m);
    if m.TransferStart? {
      assert Body(m)[6] == DataSizeBytes(m.dataSize)[0];
    }
  }

  /** The round trip, for messages of all eleven kinds and NACKs of any length below 2^32: exactly those
      in range come back. */
  lemma RoundTripIffInRange(m: ManiMessage)
    ensures Parse(Serialize(m)) == Parsed(m) <==> InRange(m)
  {
    ParsedIffSerialized(Serialize(m), m);
    SerializedIsNormal(m);
    hide Serialize, Parse, NormalisedFrame;
  }

  // ---------------------------------------------------------------- the layout

  lemma {:induction false} NumbersLayout(xs: seq<u32>, i: nat)
    requires i < |xs|
    ensures |NumbersBytes(xs)| == 4 * |xs| && NumbersBytes(xs)[4 * i..4 * i + 4] == U32Bytes(xs[i])
  {
    hide U32Bytes;
    var init, last := xs[..|xs| - 1], xs[|xs| - 1];
    NumbersLength(init);
    var b := NumbersBytes(init) + U32Bytes(last);
    if i < |init| {
      NumbersLayout(init, i);
      assert b[4 * i..4 * i + 4] == NumbersBytes(init)[4 * i..4 * i + 4];
    } else {
      assert b[4 * i..4 * i + 4] == U32Bytes(last);
    }
  }

  lemma {:induction false} NumbersLength(xs: seq<u32>)
    ensures |NumbersBytes(xs)| == 4 * |xs|
  {
    if xs != [] {
      NumbersLength(xs[..|xs| - 1]);
    }
  }

  /** The code of each enumeration value. */
  lemma Codes()
    ensures CompressionByte(NoCompression) == 0 && CompressionByte(Gzip) == 1
            && CompressionByte(Zstd) == 2 && CompressionByte(Lz4) == 3
    ensures ModeByte(Dual) == 0 && ModeByte(UnreliableOnly) == 1
    ensures ErrorCodeOf(UnsupportedCompression) == 1 && ErrorCodeOf(InternalError) == 2
  {
  }

  /** Where the fields of each message are, integers in network byte order. */
  ghost predicate Laid(m: ManiMessage, b: bytes) {
    match m
    case Hello(c) => |b| == 2 && b[0] == 0x00 && b[1] == CompressionByte(c)
    case PayloadMessage(payload) => |b| == 1 + |payload| && b[0] == 0x01 && b[1..] == payload
    case NackMessage(xs) =>
      && |b| == 5 + 4 * |xs| && b[0] == 0x02 && BigEndian(b[1..5]) == |xs|
      && forall i :: 0 <= i < |xs| ==> BigEndian(b[5..][4 * i..4 * i + 4]) == xs[i]
    case Retrans(s, ts, payload) =>
      && |b| == 13 + |payload| && b[0] == 0x03
      && BigEndian(b[1..5]) == s && BigEndian(b[5..13]) == ts && b[13..] == payload
    case TransferStart(mode, c, initial, size) =>
      && |b| == (if size.Some? then 16 else 8) && b[0] == 0x04 && b[1] == ModeByte(mode) && b[2] == CompressionByte(c)
      && BigEndian(b[3..7]) == initial && b[7] == (if size.Some? then 1 else 0)
      && (size.Some? ==> BigEndian(b[8..16]) == size.value)
    case TransferEnd(final) => |b| == 5 && b[0] == 0x05 && BigEndian(b[1..5]) == final
    case TransferEndAck => b == [0x06]
    case TransferError(code) => |b| == 3 && b[0] == 0x07 && BigEndian(b[1..3]) == ErrorCodeOf(code)
    case EndOfStream => b == [0x08]
    case CreditsUpdate(n) => |b| == 5 && b[0] == 0x09 && BigEndian(b[1..5]) == n
    case CreditsRequest => b == [0x0A]
  }

  lemma NumbersAreBigEndian(xs: seq<u32>)
    ensures |NumbersBytes(xs)| == 4 * |xs|
    ensures forall i :: 0 <= i < |xs| ==> BigEndian(NumbersBytes(xs)[4 * i..4 * i + 4]) == xs[i]
  {
    hide NumbersBytes, U32Bytes, BigEndian;
    NumbersLength(xs);
    forall i | 0 <= i < |xs|
      ensures BigEndian(NumbersBytes(xs)[4 * i..4 * i + 4]) == xs[i]
    {
      NumbersLayout(xs, i);
      IntegersAreBigEndian(0, xs[i], 0);
    }
  }

  lemma NackLayout(xs: seq<u32>)
    requires |xs| < TWO32
    ensures Laid(NackMessage(xs), Serialize(NackMessage(xs)))
  {
    hide NumbersBytes, U32Bytes, BigEndian;
    NumbersAreBigEndian(xs);
    IntegersAreBigEndian(0, |xs|, 0);
    var b, count, numbers := Serialize(NackMessage(xs)), U32Bytes(|xs|), NumbersBytes(xs);
    assert b == [2] + (count + numbers);
    assert b[1..] == count + numbers;
    assert b[1..5] == b[1..][..4] == count && b[5..] == b[1..][4..] == numbers;
  }

  lemma TransferStartLayout(m: ManiMessage)
    requires m.TransferStart?
    ensures Laid(m, Serialize(m))
  {
    var b := Serialize(m);
    IntegersAreBigEndian(0, m.initialSequenceNumber, if m.dataSize.Some? then m.dataSize.value else 0);
    hide U32Bytes, U64Bytes, BigEndian, ModeByte, CompressionByte;
    assert b[3..7] == U32Bytes(m.initialSequenceNumber);
    if m.dataSize.Some? {
      assert b[8..16] == U64Bytes(m.dataSize.value);
    }
  }

  lemma RetransLayout(m: ManiMessage)
    requires m.Retrans?
    ensures Laid(m, Serialize(m))
  {
    var b := Serialize(m);
    IntegersAreBigEndian(0, m.sequenceNumber, m.timestamp);
    hide U32Bytes, U64Bytes, BigEndian;
    assert b[1..5] == U32Bytes(m.sequenceNumber) && b[5..13] == U64Bytes(m.timestamp);
  }

  lemma NumberLayout(m: ManiMessage)
    requires m.TransferEnd? || m.TransferError? || (m.CreditsUpdate? && m.additionalCredits < TWO32)
    ensures Laid(m, Serialize(m))
  {
    var b := Serialize(m);
    hide U32Bytes, U16Bytes, BigEndian, ErrorCodeOf;
    match m
    case TransferEnd(final) =>
      IntegersAreBigEndian(0, final, 0);
      assert b[1..5] == U32Bytes(final);
    case TransferError(code) =>
      IntegersAreBigEndian(ErrorCodeOf(code), 0, 0);
      assert b[1..3] == U16Bytes(ErrorCodeOf(code));
    case CreditsUpdate(n) =>
      IntegersAreBigEndian(0, n, 0);
      assert b[1..5] == U32Bytes(n);
  }

  /** The serialization of every in-range message has this layout. */
  lemma SerializedIsLaid(m: ManiMessage)
    requires InRange(m)
    ensures Laid(m, Serialize(m))
  {
    if m.NackMessage? {
      NackLayout(m.sequenceNumbers);
    } else if m.Retrans? {
      RetransLayout(m);
    } else if m.TransferStart? {
      TransferStartLayout(m);
    } else if m.TransferEnd? || m.TransferError? || m.CreditsUpdate? {
      NumberLayout(m);
    }
    hide BigEndian, NumbersBytes, U32Bytes, U64Bytes;
  }

  // ---------------------------------------------------------------- the errors

  /** How many bytes a frame needs, as far as its fixed fields tell. */
  ghost function Needed(b: bytes): nat {
    if b == [] then 1
    else match b[0]
         case 0x00 => 2
         case 0x02 => if |b| < 5 then 5 else 5 + 4 * U32Of(b[1..])
         case 0x03 => 13
         case 0x04 => if |b| < 8 || b[7] == 0 then 8 else 16
         case 0x05 => 5
         case 0x07 => 3
         case 0x09 => 5
         case _ => 1
  }

  lemma {:induction false} NumbersNeed(n: nat, b: bytes)
    ensures GetNumbers(n, b).Got? <==> |b| >= 4 * n
    ensures GetNumbers(n, b).Got? ==> |GetNumbers(n, b).rest| == |b| - 4 * n
  {
    if n > 0 {
      NumbersNeed(n - 1, b);
    }
  }

  /** Which error a frame gets: an unknown type code, too few bytes for its fields, or enough bytes but a
      value outside its enumeration. */
  lemma ErrorsAreExact(b: bytes)
    ensures forall code :: Parse(b) == Failed(InvalidMessageType(code)) <==> b != [] && b[0] == code && code > 0x0A
    ensures Parse(b) == Failed(UnexpectedEndOfMessage) <==> |b| < Needed(b)
  {
    hide U32Of, CompressionOf, ModeOf, ErrorOf;
    if b != [] {
      if b[0] == 0x02 && |b| >= 5 {
        NumbersNeed(U32Of(b[1..]), b[5..]);
        hide GetNumbers;
        assert b[1..][4..] == b[5..];
      } else if b[0] == 0x04 {
        StartErrors(b[1..]);
        hide ParseTransferStart;
      }
    }
  }

  lemma StartErrors(b: bytes)
    ensures ParseTransferStart(b) == Failed(UnexpectedEndOfMessage) <==> |b| < (if |b| < 7 || b[6] == 0 then 7 else 15)
    ensures ParseTransferStart(b).Failed? ==> !ParseTransferStart(b).error.InvalidMessageType?
  {
    hide U32Of, CompressionOf, ModeOf;
  }

  // ---------------------------------------------------------------- the codec itself

  method SerializeNack(buf: ByteBuffer, numbers: seq<u32>)
    modifies buf
    ensures buf.data == old(buf.data) + Serialize(NackMessage(numbers))
  {
    buf.PutU8(0x02);
    buf.PutU32(|numbers| % TWO32);
    ghost var head := buf.data;
    for i := 0 to |numbers|
      invariant buf.data == head + NumbersBytes(numbers[..i])
    {
      buf.PutU32(numbers[i]);
      assert numbers[..i + 1][..i] == numbers[..i];
      assert head + NumbersBytes(numbers[..i]) + U32Bytes(numbers[i]) == head
          + (NumbersBytes(numbers[..i]) + U32Bytes(numbers[i]));
    }
    assert numbers[..|numbers|] == numbers;
    assert buf.data == old(buf.data) + ([0x02] + (U32Bytes(|numbers| % TWO32) + NumbersBytes(numbers)));
  }

  method SerializeTransferStart(buf: ByteBuffer, mode: TransferMode, compression: CompressionType, initial: u32,
      size: Option<u64>)
    modifies buf
    ensures buf.data == old(buf.data) + Serialize(TransferStart(mode, compression, initial, size))
  {
    hide ModeByte, CompressionByte, U32Bytes, U64Bytes;
    buf.PutU8(0x04);
    buf.PutU8(ModeByte(mode));
    buf.PutU8(CompressionByte(compression));
    buf.PutU32(initial);
    ghost var head := buf.data;
    if size.Some? {
      buf.PutU8(1);
      buf.PutU64(size.value);
      assert buf.data == head + DataSizeBytes(size);
    } else {
      buf.PutU8(0);
    }
    assert head == old(buf.data) + ([0x04] + ([ModeByte(mode)] + ([CompressionByte(compression)] + U32Bytes(initial))));
    hide DataSizeBytes;
    assert buf.data == old(buf.data) + ([0x04] + ([ModeByte(mode)] + ([CompressionByte(compression)]
        + (U32Bytes(initial) + DataSizeBytes(size)))));
  }

  method SerializeManiMessage(m: ManiMessage) returns (b: bytes)
    ensures b == Serialize(m)
  {
    var buf := new ByteBuffer();
    match m {
      case Hello(c) =>
        buf.PutU8(0x00);
        buf.PutU8(CompressionByte(c));
      case PayloadMessage(payload) =>
        buf.PutU8(0x01);
        buf.PutSlice(payload);
      case NackMessage(numbers) => SerializeNack(buf, numbers);
      case Retrans(s, ts, payload) =>
        buf.PutU8(0x03);
        buf.PutU32(s);
        buf.PutU64(ts);
        buf.PutSlice(payload);
        assert buf.data == [0x03] + (U32Bytes(s) + (U64Bytes(ts) + payload));
      case TransferStart(mode, c, initial, size) => SerializeTransferStart(buf, mode, c, initial, size);
      case TransferEnd(final) =>
        buf.PutU8(0x05);
        buf.PutU32(final);
      case TransferEndAck => buf.PutU8(0x06);
      case TransferError(code) =>
        buf.PutU8(0x07);
        buf.PutU16(ErrorCodeOf(code));
      case EndOfStream => buf.PutU8(0x08);
      case CreditsUpdate(n) =>
        buf.PutU8(0x09);
        buf.PutU32(n % TWO32);
      case CreditsRequest => buf.PutU8(0x0A);
    }
    b := buf.data;
  }

  method ParseNackMessage(cur: ByteCursor) returns (r: Parsed)
    requires cur.Valid()
    modifies cur
    ensures r == ParseNack(old(cur.Remaining()))
  {
    var count := cur.TryGetU32();
    if count == None {
      return Failed(UnexpectedEndOfMessage);
    }
    ghost var rest := cur.Remaining();
    var numbers: seq<u32> := [];
    for i := 0 to count.value
      invariant cur.Valid() && GetNumbers(i, rest) == Got(numbers, cur.Remaining())
    {
      var x := cur.TryGetU32();
      if x == None {
        ShortStaysShort(i + 1, count.value, rest);
        return Failed(UnexpectedEndOfMessage);
      }
      numbers := numbers + [x.value];
    }
    r := Parsed(NackMessage(numbers));
  }

  lemma {:induction false} ShortStaysShort(k: nat, n: nat, b: bytes)
    requires k <= n && GetNumbers(k, b).Short?
    ensures GetNumbers(n, b).Short?
  {
    if k < n {
      ShortStaysShort(k, n - 1, b);
    }
  }

  method ParseTransferStartMessage(cur: ByteCursor) returns (r: Parsed)
    requires cur.Valid()
    modifies cur
    ensures r == ParseTransferStart(old(cur.Remaining()))
  {
    hide GetU32, GetU64, ModeOf, CompressionOf;
    var mode := cur.TryGetU8();
    if mode == None { return Failed(UnexpectedEndOfMessage); }
    var compression := cur.TryGetU8();
    if compression == None { return Failed(UnexpectedEndOfMessage); }
    var initial := cur.TryGetU32();
    if initial == None { return Failed(UnexpectedEndOfMessage); }
    var flag := cur.TryGetU8();
    if flag == None { return Failed(UnexpectedEndOfMessage); }
    var size: Option<u64> := None;
    if flag.value != 0 {
      var x := cur.TryGetU64();
      if x == None { return Failed(UnexpectedEndOfMessage); }
      size := x;
    }
    if ModeOf(mode.value) == None || CompressionOf(compression.value) == None {
      return Failed(InvalidMessageFormat);
    }
    r := Parsed(TransferStart(ModeOf(mode.value).value, CompressionOf(compression.value).value, initial.value, size));
  }

  method ParseManiMessage(b: bytes) returns (r: Parsed)
    ensures r == Parse(b)
  {
    var cur := new ByteCursor(b);
    var code := cur.TryGetU8();
    if code == None {
      return Failed(UnexpectedEndOfMessage);
    }
    match code.value {
      case 0x00 =>
        var c := cur.TryGetU8();
        r := if c == None then Failed(UnexpectedEndOfMessage)
             else if CompressionOf(c.value) == None then Failed(InvalidMessageFormat)
             else Parsed(Hello(CompressionOf(c.value).value));
      case 0x01 => r := Parsed(PayloadMessage(cur.Remaining()));
      case 0x02 => r := ParseNackMessage(cur);
      case 0x03 =>
        var s := cur.TryGetU32();
        if s == None { return Failed(UnexpectedEndOfMessage); }
        var ts := cur.TryGetU64();
        if ts == None { return Failed(UnexpectedEndOfMessage); }
        r := Parsed(Retrans(s.value, ts.value, cur.Remaining()));
      case 0x04 => r := ParseTransferStartMessage(cur);
      case 0x05 =>
        var final := cur.TryGetU32();
        r := if final == None then Failed(UnexpectedEndOfMessage) else Parsed(TransferEnd(final.value));
      case 0x06 => r := Parsed(TransferEndAck);
      case 0x07 =>
        var x := cur.TryGetU16();
        r := if x == None then Failed(UnexpectedEndOfMessage)
             else if ErrorOf(x.value) == None then Failed(InvalidMessageFormat)
             else Parsed(TransferError(ErrorOf(x.value).value));
      case 0x08 => r := Parsed(EndOfStream);
      case 0x09 =>
        var n := cur.TryGetU32();
        r := if n == None then Failed(UnexpectedEndOfMessage) else Parsed(CreditsUpdate(n.value));
      case 0x0A => r := Parsed(CreditsRequest);
      case _ => r := Failed(InvalidMessageType(code.value));
    }
  }
}
