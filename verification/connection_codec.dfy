/** The control messages of a connection on the wire (src/connection/codec.rs, src/connection/message.rs),
    one whole frame at a time. */
module ConnectionCodec {
  import opened Types
  import opened Wire
  import opened Messages
  import opened Utf8

  /** A Rust `String`, as its bytes. */
  type Str = b: bytes | ValidUtf8(b) witness []

  type Headers = map<Str, bytes>

  datatype ConnectionMessage =
    | ClientHello(version: u16, host: Str, headers: Headers, available: seq<CompressionType>, keepaliveMinMs: u32,
        keepaliveMaxMs: u32)
    | ServerHello(version: u16, headers: Headers, compression: CompressionType, keepaliveIntervalMs: u32)
    | Keepalive
    | KeepaliveAck
    | ErrorMessage(code: u16, message: Str, close: bool)
    | Close

  datatype ParseError = InvalidMessageType(code: byte) | InvalidMessageFormat | StringDecodeError | UnexpectedEndOfMessage

  /** A value read and the bytes after it, or the error that ends the parse. */
  datatype Read<+T> = Took(value: T, rest: bytes) | Refused(error: ParseError)

  function OrEnd<T>(g: Got<T>): Read<T> {
    match g case Got(x, rest) => Took(x, rest) case Short => Refused(UnexpectedEndOfMessage)
  }

  // ---------------------------------------------------------------- writing

  function StringBytes(s: bytes): bytes {
    U16Bytes(|s| % TWO16) + s
  }

  function EntryBytes(k: Str, v: bytes): bytes {
    StringBytes(k) + StringBytes(v)
  }

  function EntriesBytes(order: seq<Str>, headers: Headers): bytes
    requires forall i :: 0 <= i < |order| ==> order[i] in headers
  {
    if order == [] then [] else
    EntriesBytes(order[..|order| - 1], headers) + EntryBytes(order[|order| - 1], headers[order[|order| - 1]])
  }

  /** The order in which the hash map happens to be walked: any one that visits every key once. */
  ghost predicate Enumerates(order: seq<Str>, headers: Headers) {
    && |order| == |headers|
    && (forall i :: 0 <= i < |order| ==> order[i] in headers)
    && forall k :: k in headers ==> k in order
  }

  function HeadersBytes(order: seq<Str>, headers: Headers): bytes
    requires forall i :: 0 <= i < |order| ==> order[i] in headers
  {
    U16Bytes(|headers| % TWO16) + EntriesBytes(order, headers)
  }

  function CompressionsBytes(cs: seq<CompressionType>): bytes {
    if cs == [] then [] else CompressionsBytes(cs[..|cs| - 1]) + [CompressionByte(cs[|cs| - 1])]
  }

  function AvailableBytes(cs: seq<CompressionType>): bytes {
    [|cs| % 0x100] + CompressionsBytes(cs)
  }

  ghost predicate Orders(order: seq<Str>, m: ConnectionMessage) {
    m.ClientHello? || m.ServerHello? ==> Enumerates(order, m.headers)
  }

  ghost function Serialize(m: ConnectionMessage, order: seq<Str>): bytes
    requires Orders(order, m)
  {
    match m
    case ClientHello(version, host, headers, available, lo, hi) =>
      [0x01] + (U16Bytes(version) + (StringBytes(host) + (HeadersBytes(order, headers) + (AvailableBytes(available)
          + (U32Bytes(lo) + U32Bytes(hi))))))
    case ServerHello(version, headers, compression, interval) =>
      [0x02] + (U16Bytes(version) + (HeadersBytes(order, headers) + ([CompressionByte(compression)] + U32Bytes(interval))))
    case Keepalive => [0x03]
    case KeepaliveAck => [0x04]
    case ErrorMessage(code, message, close) =>
      [0x05] + (U16Bytes(code) + (StringBytes(message) + [if close then 1 else 0]))
    case Close => [0x06]
  }

  // ---------------------------------------------------------------- reading

  /** A 16-bit length and that many bytes. */
  function GetSized(b: bytes): Read<bytes> {
    match GetU16(b)
    case Short => Refused(UnexpectedEndOfMessage)
    case Got(n, rest) => OrEnd(GetBytes(n, rest))
  }

  function GetString(b: bytes): Read<Str> {
    match GetSized(b)
    case Refused(e) => Refused(e)
    case Took(s, rest) => if ValidUtf8(s) then Took(s, rest) else Refused(StringDecodeError)
  }

  function GetEntry(b: bytes): Read<(Str, bytes)> {
    match GetString(b)
    case Refused(e) => Refused(e)
    case Took(k, rest) =>
      match GetSized(rest)
      case Refused(e) => Refused(e)
      case Took(v, after) => Took((k, v), after)
  }

  function GetEntries(n: nat, b: bytes): Read<Headers> {
    if n == 0 then Took(map[], b) else
    match GetEntries(n - 1, b)
    case Refused(e) => Refused(e)
    case Took(m, rest) =>
      match GetEntry(rest)
      case Refused(e) => Refused(e)
      case Took(kv, after) => Took(m[kv.0 := kv.1], after)
  }

  function GetHeaders(b: bytes): Read<Headers> {
    match GetU16(b)
    case Short => Refused(UnexpectedEndOfMessage)
    case Got(n, rest) => GetEntries(n, rest)
  }

  function GetCompression(b: bytes): Read<CompressionType> {
    match GetU8(b)
    case Short => Refused(UnexpectedEndOfMessage)
    case Got(x, rest) =>
      match CompressionOf(x)
      case None => Refused(InvalidMessageFormat)
      case Some(c) => Took(c, rest)
  }

  function GetCompressions(n: nat, b: bytes): Read<seq<CompressionType>> {
    if n == 0 then Took([], b) else
    match GetCompressions(n - 1, b)
    case Refused(e) => Refused(e)
    case Took(cs, rest) =>
      match GetCompression(rest)
      case Refused(e) => Refused(e)
      case Took(c, after) => Took(cs + [c], after)
  }

  function GetAvailable(b: bytes): Read<seq<CompressionType>> {
    match GetU8(b)
    case Short => Refused(UnexpectedEndOfMessage)
    case Got(n, rest) => GetCompressions(n, rest)
  }

  datatype Parsed = Parsed(message: ConnectionMessage) | Failed(error: ParseError)

  function ParseLimits(version: u16, host: Str, headers: Headers, available: seq<CompressionType>, b: bytes): Parsed {
    match GetU32(b)
    case Short => Failed(UnexpectedEndOfMessage)
    case Got(lo, rest) =>
      match GetU32(rest)
      case Short => Failed(UnexpectedEndOfMessage)
      case Got(hi, _) => Parsed(ClientHello(version, host, headers, available, lo, hi))
  }

  function ParseClientHello(b: bytes): Parsed {
    match GetU16(b)
    case Short => Failed(UnexpectedEndOfMessage)
    case Got(version, b1) =>
      match GetString(b1)
      case Refused(e) => Failed(e)
      case Took(host, b2) =>
        match GetHeaders(b2)
        case Refused(e) => Failed(e)
        case Took(headers, b3) =>
          match GetAvailable(b3)
          case Refused(e) => Failed(e)
          case Took(available, b4) => ParseLimits(version, host, headers, available, b4)
  }

  function ParseServerHello(b: bytes): Parsed {
    match GetU16(b)
    case Short => Failed(UnexpectedEndOfMessage)
    case Got(version, b1) =>
      match GetHeaders(b1)
      case Refused(e) => Failed(e)
      case Took(headers, b2) =>
        match GetCompression(b2)
        case Refused(e) => Failed(e)
        case Took(c, b3) =>
          match GetU32(b3)
          case Short => Failed(UnexpectedEndOfMessage)
          case Got(interval, _) => Parsed(ServerHello(version, headers, c, interval))
  }

  function ParseErrorMessage(b: bytes): Parsed {
    match GetU16(b)
    case Short => Failed(UnexpectedEndOfMessage)
    case Got(code, b1) =>
      match GetString(b1)
      case Refused(e) => Failed(e)
      case Took(message, b2) =>
        match GetU8(b2)
        case Short => Failed(UnexpectedEndOfMessage)
        case Got(x, _) => Parsed(ErrorMessage(code, message, x != 0))
  }

  function Parse(b: bytes): Parsed {
    match GetU8(b)
    case Short => Failed(UnexpectedEndOfMessage)
    case Got(code, rest) =>
      match code
      case 0x01 => ParseClientHello(rest)
      case 0x02 => ParseServerHello(rest)
      case 0x03 => Parsed(Keepalive)
      case 0x04 => Parsed(KeepaliveAck)
      case 0x05 => ParseErrorMessage(rest)
      case 0x06 => Parsed(Close)
      case _ => Failed(InvalidMessageType(code))
  }

  // ---------------------------------------------------------------- reading back

  predicate HeadersInRange(headers: Headers) {
    |headers| < TWO16 && forall k :: k in headers ==> |k| < TWO16 && |headers[k]| < TWO16
  }

  /** Lengths and counts that fit their 16-bit and 8-bit fields. */
  predicate InRange(m: ConnectionMessage) {
    match m
    case ClientHello(_, host, headers, available, _, _) => |host| < TWO16 && HeadersInRange(headers) && |available| < 0x100
    case ServerHello(_, headers, _, _) => HeadersInRange(headers)
    case ErrorMessage(_, message, _) => |message| < TWO16
    case _ => true
  }

  lemma SizedRead(s: bytes, t: bytes)
    requires |s| < TWO16
    ensures GetSized(StringBytes(s) + t) == Took(s, t)
  {
    var b := StringBytes(s) + t;
    assert b == U16Bytes(|s|) + (s + t);
    U16Inverse(b, |s|, s + t);
    BytesInverse(|s|, s + t, s, t);
    hide U16Bytes, GetU16, GetBytes;
  }

  lemma StringRead(s: Str, t: bytes)
    requires |s| < TWO16
    ensures GetString(StringBytes(s) + t) == Took(s, t)
  {
    SizedRead(s, t);
    hide GetSized, StringBytes, ValidUtf8;
  }

  lemma EntryRead(k: Str, v: bytes, t: bytes)
    requires |k| < TWO16 && |v| < TWO16
    ensures GetEntry(EntryBytes(k, v) + t) == Took((k, v), t)
  {
    hide GetString, GetSized, StringBytes, ValidUtf8;
    assert EntryBytes(k, v) + t == StringBytes(k) + (StringBytes(v) + t);
    StringRead(k, StringBytes(v) + t);
    SizedRead(v, t);
  }

  function MapOf(order: seq<Str>, headers: Headers): Headers
    requires forall i :: 0 <= i < |order| ==> order[i] in headers
  {
    if order == [] then map[] else
    var last := order[|order| - 1];
    MapOf(order[..|order| - 1], headers)[last := headers[last]]
  }

  lemma {:induction false} MapOfOrder(order: seq<Str>, headers: Headers)
    requires forall i :: 0 <= i < |order| ==> order[i] in headers
    ensures forall k {:trigger k in MapOf(order, headers)} {:trigger k in order} ::
              k in MapOf(order, headers) <==> k in order
    ensures forall k :: k in MapOf(order, headers) ==> k in headers && MapOf(order, headers)[k] == headers[k]
  {
    hide ValidUtf8;
    if order != [] {
      var init, last := order[..|order| - 1], order[|order| - 1];
      MapOfOrder(init, headers);
      assert order == init + [last];
    }
  }

  lemma {:induction false} EntriesRead(order: seq<Str>, headers: Headers, t: bytes)
    requires HeadersInRange(headers) && forall i :: 0 <= i < |order| ==> order[i] in headers
    ensures GetEntries(|order|, EntriesBytes(order, headers) + t) == Took(MapOf(order, headers), t)
  {
    hide GetEntry, EntryBytes, ValidUtf8;
    if order == [] {
      assert EntriesBytes(order, headers) + t == t;
    } else {
      var init, last := order[..|order| - 1], order[|order| - 1];
      var entry := EntryBytes(last, headers[last]);
      EntriesRead(init, headers, entry + t);
      EntryRead(last, headers[last], t);
      assert EntriesBytes(order, headers) + t == EntriesBytes(init, headers) + (entry + t);
    }
  }

  /** Whatever order the map was written in, the same map is read. */
  lemma HeadersRead(order: seq<Str>, headers: Headers, t: bytes)
    requires HeadersInRange(headers) && Enumerates(order, headers)
    ensures GetHeaders(HeadersBytes(order, headers) + t) == Took(headers, t)
  {
    hide GetEntries, EntriesBytes, ValidUtf8, MapOf, HeadersBytes, GetHeaders;
    CountThenEntries(order, headers, t);
    EntriesRead(order, headers, t);
    WholeMap(order, headers);
  }

  lemma CountThenEntries(order: seq<Str>, headers: Headers, t: bytes)
    requires |headers| < TWO16 && forall i :: 0 <= i < |order| ==> order[i] in headers
    ensures GetHeaders(HeadersBytes(order, headers) + t) == GetEntries(|headers|, EntriesBytes(order, headers) + t)
  {
    hide GetEntries, EntriesBytes, ValidUtf8, U16Bytes, GetU16;
    var b, rest := HeadersBytes(order, headers) + t, EntriesBytes(order, headers) + t;
    assert b == U16Bytes(|headers|) + rest;
    U16Inverse(b, |headers|, rest);
  }

  lemma WholeMap(order: seq<Str>, headers: Headers)
    requires Enumerates(order, headers)
    ensures MapOf(order, headers) == headers
  {
    hide ValidUtf8, MapOf;
    MapOfOrder(order, headers);
  }

  lemma {:induction false} CompressionsRead(cs: seq<CompressionType>, t: bytes)
    ensures GetCompressions(|cs|, CompressionsBytes(cs) + t) == Took(cs, t)
  {
    hide GetCompression, CompressionByte;
    if cs == [] {
      assert CompressionsBytes(cs) + t == t;
    } else {
      var init, last := cs[..|cs| - 1], cs[|cs| - 1];
      CompressionsRead(init, [CompressionByte(last)] + t);
      CompressionRead(last, t);
      assert CompressionsBytes(cs) + t == CompressionsBytes(init) + ([CompressionByte(last)] + t);
      assert cs == init + [last];
    }
  }

  lemma CompressionRead(c: CompressionType, t: bytes)
    ensures GetCompression([CompressionByte(c)] + t) == Took(c, t)
  {
    U8Inverse([CompressionByte(c)] + t, CompressionByte(c), t);
  }

  lemma AvailableRead(cs: seq<CompressionType>, t: bytes)
    requires |cs| < 0x100
    ensures GetAvailable(AvailableBytes(cs) + t) == Took(cs, t)
  {
    CompressionsRead(cs, t);
    hide GetCompressions, CompressionsBytes;
    U8Inverse(AvailableBytes(cs) + t, |cs|, CompressionsBytes(cs) + t);
    assert AvailableBytes(cs) + t == [|cs|] + (CompressionsBytes(cs) + t);
  }

  lemma ClientHelloRead(m: ConnectionMessage, order: seq<Str>, t: bytes)
    requires m.ClientHello? && InRange(m) && Enumerates(order, m.headers)
    ensures ParseClientHello(U16Bytes(m.version) + (StringBytes(m.host) + (HeadersBytes(order, m.headers)
        + (AvailableBytes(m.available)
              + (U32Bytes(m.keepaliveMinMs) + (U32Bytes(m.keepaliveMaxMs) + t)))))) == Parsed(m)
  {
    hide ValidUtf8, U16Bytes, U32Bytes, GetU16, GetU32, StringBytes, GetString, HeadersBytes, GetHeaders,
        AvailableBytes, GetAvailable, HeadersInRange;
    var b5 := U32Bytes(m.keepaliveMaxMs) + t;
    var b4 := U32Bytes(m.keepaliveMinMs) + b5;
    var b3 := AvailableBytes(m.available) + b4;
    var b2 := HeadersBytes(order, m.headers) + b3;
    var b1 := StringBytes(m.host) + b2;
    U16Inverse(U16Bytes(m.version) + b1, m.version, b1);
    StringRead(m.host, b2);
    HeadersRead(order, m.headers, b3);
    AvailableRead(m.available, b4);
    U32Inverse(b4, m.keepaliveMinMs, b5);
    U32Inverse(b5, m.keepaliveMaxMs, t);
  }

  lemma ServerHelloRead(m: ConnectionMessage, order: seq<Str>, t: bytes)
    requires m.ServerHello? && InRange(m) && Enumerates(order, m.headers)
    ensures ParseServerHello(U16Bytes(m.version) + (HeadersBytes(order, m.headers) + ([CompressionByte(m.compression)]
              + (U32Bytes(m.keepaliveIntervalMs) + t)))) == Parsed(m)
  {
    hide ValidUtf8, U16Bytes, U32Bytes, GetU16, GetU32, HeadersBytes, GetHeaders, GetCompression, CompressionByte,
        HeadersInRange;
    var b3 := U32Bytes(m.keepaliveIntervalMs) + t;
    var b2 := [CompressionByte(m.compression)] + b3;
    var b1 := HeadersBytes(order, m.headers) + b2;
    U16Inverse(U16Bytes(m.version) + b1, m.version, b1);
    HeadersRead(order, m.headers, b2);
    CompressionRead(m.compression, b3);
    U32Inverse(b3, m.keepaliveIntervalMs, t);
  }

  lemma ErrorRead(m: ConnectionMessage, t: bytes)
    requires m.ErrorMessage? && InRange(m)
    ensures ParseErrorMessage(U16Bytes(m.code) + (StringBytes(m.message) + ([if m.close then 1 else 0] + t))) == Parsed(m)
  {
    hide ValidUtf8, U16Bytes, GetU16, StringBytes, GetString;
    var x: byte := if m.close then 1 else 0;
    var b2 := [x] + t;
    var b1 := StringBytes(m.message) + b2;
    U16Inverse(U16Bytes(m.code) + b1, m.code, b1);
    StringRead(m.message, b2);
    U8Inverse(b2, x, t);
  }

  lemma SizedIsShort(b: bytes)
    ensures GetSized(b).Took? ==> |GetSized(b).value| < TWO16
    ensures GetString(b).Took? ==> |GetString(b).value| < TWO16
    ensures GetEntry(b).Took? ==> |GetEntry(b).value.0| < TWO16 && |GetEntry(b).value.1| < TWO16
  {
    hide ValidUtf8;
  }

  lemma {:induction false} EntriesInRange(n: nat, b: bytes)
    ensures GetEntries(n, b).Took? ==>
              var m := GetEntries(n, b).value;
              |m| <= n && forall k {:trigger k in m} :: k in m ==> |k| < TWO16 && |m[k]| < TWO16
  {
    hide GetEntry, ValidUtf8;
    if n > 0 {
      EntriesInRange(n - 1, b);
      if GetEntries(n - 1, b).Took? {
        var m, rest := GetEntries(n - 1, b).value, GetEntries(n - 1, b).rest;
        SizedIsShort(rest);
        if GetEntry(rest).Took? {
          var kv := GetEntry(rest).value;
          assert m[kv.0 := kv.1].Keys == m.Keys + {kv.0};
        }
      }
    }
  }

  lemma {:induction false} CompressionsLength(n: nat, b: bytes)
    ensures GetCompressions(n, b).Took? ==> |GetCompressions(n, b).value| == n
  {
    hide GetCompression;
    if n > 0 {
      CompressionsLength(n - 1, b);
    }
  }

  lemma HeadersReadInRange(b: bytes)
    ensures GetHeaders(b).Took? ==> HeadersInRange(GetHeaders(b).value)
    ensures GetAvailable(b).Took? ==> |GetAvailable(b).value| < 0x100
  {
    hide GetEntries, GetCompressions, ValidUtf8;
    if GetU16(b).Got? {
      EntriesInRange(GetU16(b).value, GetU16(b).rest);
    }
    if GetU8(b).Got? {
      CompressionsLength(GetU8(b).value, GetU8(b).rest);
    }
  }

  lemma AcceptedIsInRange(b: bytes)
    ensures Parse(b).Parsed? ==> InRange(Parse(b).message)
  {
    hide GetString, GetHeaders, GetAvailable, GetU32, GetU16, GetCompression, ValidUtf8, HeadersInRange;
    if b != [] {
      var b1 := GetU16(b[1..]);
      if b1.Got? {
        SizedIsShort(b1.rest);
        HeadersReadInRange(b1.rest);
        if GetString(b1.rest).Took? {
          var b2 := GetString(b1.rest).rest;
          HeadersReadInRange(b2);
          if GetHeaders(b2).Took? {
            HeadersReadInRange(GetHeaders(b2).rest);
          }
        }
      }
    }
  }

  lemma BehindType(b: bytes, code: byte, body: bytes, t: bytes)
    requires b == [code] + body
    ensures GetU8(b + t) == Got(code, body + t)
  {
    assert b + t == [code] + (body + t);
    U8Inverse(b + t, code, body + t);
  }

  lemma ClientHelloIsRead(m: ConnectionMessage, order: seq<Str>, t: bytes)
    requires m.ClientHello? && Enumerates(order, m.headers) && InRange(m)
    ensures Parse(Serialize(m, order) + t) == Parsed(m)
  {
    hide ValidUtf8, InRange, ParseClientHello, HeadersBytes, StringBytes, AvailableBytes, U16Bytes, U32Bytes;
    ClientHelloRead(m, order, t);
    var v, h, e, a := U16Bytes(m.version), StringBytes(m.host), HeadersBytes(order, m.headers), AvailableBytes(m.available);
    var lo, hi := U32Bytes(m.keepaliveMinMs), U32Bytes(m.keepaliveMaxMs);
    BehindType(Serialize(m, order), 0x01, v + (h + (e + (a + (lo + hi)))), t);
    assert (v + (h + (e + (a + (lo + hi))))) + t == v + (h + (e + (a + (lo + (hi + t)))));
  }

  lemma ServerHelloIsRead(m: ConnectionMessage, order: seq<Str>, t: bytes)
    requires m.ServerHello? && Enumerates(order, m.headers) && InRange(m)
    ensures Parse(Serialize(m, order) + t) == Parsed(m)
  {
    hide ValidUtf8, InRange, ParseServerHello, HeadersBytes, U16Bytes, U32Bytes, CompressionByte;
    ServerHelloRead(m, order, t);
    var v, e, c, k := U16Bytes(m.version), HeadersBytes(order, m.headers), [CompressionByte(m.compression)],
        U32Bytes(m.keepaliveIntervalMs);
    BehindType(Serialize(m, order), 0x02, v + (e + (c + k)), t);
    assert (v + (e + (c + k))) + t == v + (e + (c + (k + t)));
  }

  lemma InRangeIsRead(m: ConnectionMessage, order: seq<Str>, t: bytes)
    requires Orders(order, m) && InRange(m)
    ensures Parse(Serialize(m, order) + t) == Parsed(m)
  {
    hide ValidUtf8, InRange, ParseClientHello, ParseServerHello, ParseErrorMessage, StringBytes, U16Bytes;
    match m
    case ClientHello(_, _, _, _, _, _) => ClientHelloIsRead(m, order, t);
    case ServerHello(_, _, _, _) => ServerHelloIsRead(m, order, t);
    case ErrorMessage(code, message, close) =>
      ErrorRead(m, t);
      var c: bytes, s, x: bytes := U16Bytes(code), StringBytes(message), [if close then 1 else 0];
      BehindType(Serialize(m, order), 0x05, c + (s + x), t);
      assert (c + (s + x)) + t == c + (s + (x + t));
    case Keepalive => BehindType([0x03], 0x03, [], t);
    case KeepaliveAck => BehindType([0x04], 0x04, [], t);
    case Close => BehindType([0x06], 0x06, [], t);
  }

  /** The round trip: whatever order the header map is walked in and whatever trails the message in its
      frame, parsing a serialization gives back the message, same map included, exactly when every
      length fits its field. */
  lemma RoundTripIffInRange(m: ConnectionMessage, order: seq<Str>, t: bytes)
    requires Orders(order, m)
    ensures Parse(Serialize(m, order) + t) == Parsed(m) <==> InRange(m)
  {
    AcceptedIsInRange(Serialize(m, order) + t);
    hide Parse, Serialize, ValidUtf8, InRange;
    if InRange(m) {
      InRangeIsRead(m, order, t);
    }
  }

  // ---------------------------------------------------------------- the layout

  /** A string or value: its length in two bytes, most significant first, then its bytes. */
  lemma SizedLayout(s: bytes)
    requires |s| < TWO16
    ensures var b := StringBytes(s); |b| == 2 + |s| && BigEndian(b[..2]) == |s| && b[2..] == s
  {
    hide BigEndian, U16Bytes;
    IntegersAreBigEndian(|s|, 0, 0);
    assert StringBytes(s) == U16Bytes(|s|) + s;
  }

  /** A header entry: the key first, then the value. */
  lemma EntryLayout(k: Str, v: bytes)
    requires |k| < TWO16 && |v| < TWO16
    ensures var b, n := EntryBytes(k, v), |k|;
            && |b| == 4 + n + |v|
            && BigEndian(b[..2]) == n && b[2..2 + n] == k
            && BigEndian(b[2 + n..4 + n]) == |v| && b[4 + n..] == v
  {
    hide BigEndian, StringBytes, ValidUtf8;
    SizedLayout(k);
    SizedLayout(v);
    var b, n := EntryBytes(k, v), |k|;
    assert b[..2 + n] == StringBytes(k) && b[2 + n..] == StringBytes(v);
    assert b[..2] == b[..2 + n][..2] && b[2..2 + n] == b[..2 + n][2..];
    assert b[2 + n..4 + n] == b[2 + n..][..2] && b[4 + n..] == b[2 + n..][2..];
  }

  lemma {:induction false} CompressionsLayout(cs: seq<CompressionType>)
    ensures |CompressionsBytes(cs)| == |cs|
    ensures forall i :: 0 <= i < |cs| ==> CompressionsBytes(cs)[i] == CompressionByte(cs[i])
  {
    if cs != [] {
      CompressionsLayout(cs[..|cs| - 1]);
    }
  }

  /** A ClientHello: type 1, version, host, number of headers and the headers, number of compressions and
      one byte each, and the two keepalive limits at the end. */
  lemma ClientHelloLayout(m: ConnectionMessage, order: seq<Str>)
    requires m.ClientHello? && InRange(m) && Enumerates(order, m.headers)
    ensures var b, h := Serialize(m, order), |m.host|;
            var a := 7 + h + |EntriesBytes(order, m.headers)|;
            && |b| == a + 1 + |m.available| + 8
            && b[0] == 1 && BigEndian(b[1..3]) == m.version
            && BigEndian(b[3..5]) == h && b[5..5 + h] == m.host
            && BigEndian(b[5 + h..7 + h]) == |m.headers| && b[7 + h..a] == EntriesBytes(order, m.headers)
            && b[a] == |m.available|
            && (forall i :: 0 <= i < |m.available| ==> b[a + 1..][i] == CompressionByte(m.available[i]))
            && BigEndian(b[|b| - 8..|b| - 4]) == m.keepaliveMinMs && BigEndian(b[|b| - 4..]) == m.keepaliveMaxMs
  {
    hide BigEndian, U16Bytes, U32Bytes, EntriesBytes, CompressionsBytes, CompressionByte, ValidUtf8;
    IntegersAreBigEndian(m.version, m.keepaliveMinMs, 0);
    IntegersAreBigEndian(|m.host|, m.keepaliveMaxMs, 0);
    IntegersAreBigEndian(|m.headers|, 0, 0);
    CompressionsLayout(m.available);
    var b, h := Serialize(m, order), |m.host|;
    var a := 7 + h + |EntriesBytes(order, m.headers)|;
    assert b[1..3] == U16Bytes(m.version) && b[3..5] == U16Bytes(h) && b[5 + h..7 + h] == U16Bytes(|m.headers|);
    assert b[|b| - 8..|b| - 4] == U32Bytes(m.keepaliveMinMs) && b[|b| - 4..] == U32Bytes(m.keepaliveMaxMs);
  }

  /** A ServerHello: type 2, version, headers, one compression and the keepalive interval. */
  lemma ServerHelloLayout(m: ConnectionMessage, order: seq<Str>)
    requires m.ServerHello? && InRange(m) && Enumerates(order, m.headers)
    ensures var b := Serialize(m, order);
            var a := 5 + |EntriesBytes(order, m.headers)|;
            && |b| == a + 5
            && b[0] == 2 && BigEndian(b[1..3]) == m.version
            && BigEndian(b[3..5]) == |m.headers| && b[5..a] == EntriesBytes(order, m.headers)
            && b[a] == CompressionByte(m.compression) && BigEndian(b[a + 1..]) == m.keepaliveIntervalMs
  {
    hide BigEndian, U16Bytes, U32Bytes, EntriesBytes, CompressionByte, ValidUtf8;
    IntegersAreBigEndian(m.version, m.keepaliveIntervalMs, 0);
    IntegersAreBigEndian(|m.headers|, 0, 0);
    var b := Serialize(m, order);
    var a := 5 + |EntriesBytes(order, m.headers)|;
    assert b[1..3] == U16Bytes(m.version) && b[3..5] == U16Bytes(|m.headers|) && b[a + 1..] == U32Bytes(m.keepaliveIntervalMs);
  }

  /** The remaining messages: types 3 to 6, an error with its code, text and closing flag. */
  lemma OtherLayouts(m: ConnectionMessage, order: seq<Str>)
    requires !m.ClientHello? && !m.ServerHello? && InRange(m)
    ensures var b := Serialize(m, order);
            match m
            case Keepalive => b == [3]
            case KeepaliveAck => b == [4]
            case Close => b == [6]
            case ErrorMessage(code, message, close) =>
              && |b| == 6 + |message| && b[0] == 5 && BigEndian(b[1..3]) == code
              && BigEndian(b[3..5]) == |message| && b[5..5 + |message|] == message && (b[5 + |message|] == 1 <==> close)
            case _ => true
  {
    hide BigEndian, U16Bytes, ValidUtf8;
    if m.ErrorMessage? {
      IntegersAreBigEndian(m.code, 0, 0);
      IntegersAreBigEndian(|m.message|, 0, 0);
      var b := Serialize(m, order);
      assert b[1..3] == U16Bytes(m.code) && b[3..5] == U16Bytes(|m.message|);
    }
  }

  // ---------------------------------------------------------------- the errors

  lemma PrefixSplit(a: bytes, r: bytes, n: nat)
    requires n <= |a| + |r|
    ensures (a + r)[..n] == if n < |a| then a[..n] else a + r[..n - |a|]
  {
  }

  ghost predicate Ended<T>(r: Read<T>) {
    r == Refused(UnexpectedEndOfMessage)
  }

  lemma SizedCut(s: bytes, n: nat)
    requires |s| < TWO16 && n < |StringBytes(s)|
    ensures Ended(GetSized(StringBytes(s)[..n])) && Ended(GetString(StringBytes(s)[..n]))
  {
    if n >= 2 {
      PrefixSplit(U16Bytes(|s|), s, n);
      U16Inverse(StringBytes(s)[..n], |s|, s[..n - 2]);
    }
    hide U16Bytes, ValidUtf8;
  }

  lemma EntryCut(k: Str, v: bytes, n: nat)
    requires |k| < TWO16 && |v| < TWO16 && n < |EntryBytes(k, v)|
    ensures Ended(GetEntry(EntryBytes(k, v)[..n]))
  {
    hide GetString, GetSized, StringBytes, ValidUtf8;
    PrefixSplit(StringBytes(k), StringBytes(v), n);
    if n < |StringBytes(k)| {
      SizedCut(k, n);
    } else {
      StringRead(k, StringBytes(v)[..n - |StringBytes(k)|]);
      SizedCut(v, n - |StringBytes(k)|);
    }
  }

  lemma {:induction false} EntriesCut(order: seq<Str>, headers: Headers, n: nat)
    requires HeadersInRange(headers) && forall i :: 0 <= i < |order| ==> order[i] in headers
    requires n < |EntriesBytes(order, headers)|
    ensures Ended(GetEntries(|order|, EntriesBytes(order, headers)[..n]))
  {
    hide GetEntry, EntryBytes, ValidUtf8;
    var init, last := order[..|order| - 1], order[|order| - 1];
    var entry := EntryBytes(last, headers[last]);
    PrefixSplit(EntriesBytes(init, headers), entry, n);
    if n < |EntriesBytes(init, headers)| {
      EntriesCut(init, headers, n);
    } else {
      var k := n - |EntriesBytes(init, headers)|;
      EntriesRead(init, headers, entry[..k]);
      EntryCut(last, headers[last], k);
    }
  }

  lemma HeadersCut(order: seq<Str>, headers: Headers, n: nat)
    requires HeadersInRange(headers) && Enumerates(order, headers) && n < |HeadersBytes(order, headers)|
    ensures Ended(GetHeaders(HeadersBytes(order, headers)[..n]))
  {
    hide GetEntries, EntriesBytes, ValidUtf8, HeadersBytes, GetHeaders;
    CutCount(order, headers, n);
    if n >= 2 {
      EntriesCut(order, headers, n - 2);
    }
  }

  lemma CutCount(order: seq<Str>, headers: Headers, n: nat)
    requires |headers| < TWO16 && forall i :: 0 <= i < |order| ==> order[i] in headers
    requires n < |HeadersBytes(order, headers)|
    ensures |HeadersBytes(order, headers)| == 2 + |EntriesBytes(order, headers)|
    ensures var r := GetHeaders(HeadersBytes(order, headers)[..n]);
            if n < 2 then Ended(r) else r == GetEntries(|headers|, EntriesBytes(order, headers)[..n - 2])
  {
    hide GetEntries, EntriesBytes, ValidUtf8, U16Bytes;
    var count, rest := U16Bytes(|headers|), EntriesBytes(order, headers);
    if n < 2 {
      CountTooShort((count + rest)[..n]);
    } else {
      PrefixSplit(count, rest, n);
      assert (count + rest)[..n] == count + rest[..n - 2];
      U16Inverse((count + rest)[..n], |headers|, rest[..n - 2]);
    }
  }

  lemma CountTooShort(b: bytes)
    requires |b| < 2
    ensures Ended(GetHeaders(b))
  {
    hide GetEntries, ValidUtf8;
  }

  lemma {:induction false} CompressionsCut(cs: seq<CompressionType>, n: nat)
    requires n < |CompressionsBytes(cs)|
    ensures Ended(GetCompressions(|cs|, CompressionsBytes(cs)[..n]))
  {
    hide GetCompression, CompressionByte;
    var init, last := cs[..|cs| - 1], cs[|cs| - 1];
    PrefixSplit(CompressionsBytes(init), [CompressionByte(last)], n);
    if n < |CompressionsBytes(init)| {
      CompressionsCut(init, n);
    } else {
      CompressionsRead(init, []);
      assert CompressionsBytes(init) + [] == CompressionsBytes(init) + [CompressionByte(last)][..0];
      NothingToRead();
    }
  }

  lemma NothingToRead()
    ensures Ended(GetCompression([]))
  {
  }

  lemma AvailableCut(cs: seq<CompressionType>, n: nat)
    requires |cs| < 0x100 && n < |AvailableBytes(cs)|
    ensures Ended(GetAvailable(AvailableBytes(cs)[..n]))
  {
    hide GetCompressions, CompressionsBytes;
    if n >= 1 {
      PrefixSplit([|cs|], CompressionsBytes(cs), n);
      U8Inverse(AvailableBytes(cs)[..n], |cs|, CompressionsBytes(cs)[..n - 1]);
      CompressionsCut(cs, n - 1);
    }
  }

  lemma LimitsCut(version: u16, host: Str, headers: Headers, available: seq<CompressionType>, lo: u32, hi: u32, n: nat)
    requires n < 8
    ensures ParseLimits(version, host, headers, available, (U32Bytes(lo) + U32Bytes(hi))[..n]) == Failed(UnexpectedEndOfMessage)
  {
    hide ValidUtf8, U32Of;
  }

  /** A ClientHello after its type byte, cut short. */
  lemma ClientHelloCut(m: ConnectionMessage, order: seq<Str>, n: nat)
    requires m.ClientHello? && InRange(m) && Enumerates(order, m.headers)
    requires n < 2 + |StringBytes(m.host)| + |HeadersBytes(order, m.headers)| + |AvailableBytes(m.available)| + 8
    ensures ParseClientHello((U16Bytes(m.version) + (StringBytes(m.host) + (HeadersBytes(order, m.headers) + (AvailableBytes(m.available)
              + (U32Bytes(m.keepaliveMinMs) + U32Bytes(m.keepaliveMaxMs))))))[..n]) == Failed(UnexpectedEndOfMessage)
  {
    hide ValidUtf8, U16Bytes, U32Bytes, StringBytes, GetString, HeadersBytes, GetHeaders, AvailableBytes, GetAvailable,
      HeadersInRange, ParseLimits;
    var s, r := StringBytes(m.host), HeadersBytes(order, m.headers) + (AvailableBytes(m.available) + (U32Bytes(m.keepaliveMinMs)
      + U32Bytes(m.keepaliveMaxMs)));
    PrefixSplit(U16Bytes(m.version), s + r, n);
    if n >= 2 {
      var n1 := n - 2;
      var b1 := (s + r)[..n1];
      U16Inverse(U16Bytes(m.version) + b1, m.version, b1);
      PrefixSplit(s, r, n1);
      if n1 < |s| {
        SizedCut(m.host, n1);
      } else {
        StringRead(m.host, r[..n1 - |s|]);
        HeadersThenRest(m, order, n1 - |s|);
      }
    }
  }

  lemma HeadersThenRest(m: ConnectionMessage, order: seq<Str>, n: nat)
    requires m.ClientHello? && InRange(m) && Enumerates(order, m.headers)
    requires n < |HeadersBytes(order, m.headers)| + |AvailableBytes(m.available)| + 8
    ensures var b := (HeadersBytes(order, m.headers) + (AvailableBytes(m.available) + (U32Bytes(m.keepaliveMinMs)
              + U32Bytes(m.keepaliveMaxMs))))[..n];
            var r := GetHeaders(b);
            Ended(r) || (r.Took? && r.value == m.headers && CutAfterHeaders(m, r.rest))
  {
    hide ValidUtf8, U32Bytes, HeadersBytes, GetHeaders, AvailableBytes, GetAvailable, HeadersInRange, ParseLimits;
    var h, a, l := HeadersBytes(order, m.headers), AvailableBytes(m.available), U32Bytes(m.keepaliveMinMs) + U32Bytes(m.keepaliveMaxMs);
    PrefixSplit(h, a + l, n);
    if n < |h| {
      HeadersCut(order, m.headers, n);
    } else {
      HeadersRead(order, m.headers, (a + l)[..n - |h|]);
      AvailableThenLimits(m, n - |h|);
    }
  }

  /** What is left after the headers ends too early. */
  ghost predicate CutAfterHeaders(m: ConnectionMessage, b: bytes)
    requires m.ClientHello?
  {
    var r := GetAvailable(b);
    Ended(r) || (r.Took? && r.value == m.available
                 && ParseLimits(m.version, m.host, m.headers, m.available, r.rest) == Failed(UnexpectedEndOfMessage))
  }

  lemma AvailableThenLimits(m: ConnectionMessage, n: nat)
    requires m.ClientHello? && |m.available| < 0x100 && n < |AvailableBytes(m.available)| + 8
    ensures var b := (AvailableBytes(m.available) + (U32Bytes(m.keepaliveMinMs) + U32Bytes(m.keepaliveMaxMs)))[..n];
            CutAfterHeaders(m, b)
  {
    hide ValidUtf8, U32Bytes, AvailableBytes, GetAvailable, ParseLimits;
    var a, l := AvailableBytes(m.available), U32Bytes(m.keepaliveMinMs) + U32Bytes(m.keepaliveMaxMs);
    PrefixSplit(a, l, n);
    if n < |a| {
      AvailableCut(m.available, n);
    } else {
      AvailableRead(m.available, l[..n - |a|]);
      LimitsCut(m.version, m.host, m.headers, m.available, m.keepaliveMinMs, m.keepaliveMaxMs, n - |a|);
    }
  }

  /** A ServerHello after its type byte, cut short. */
  lemma ServerHelloCut(m: ConnectionMessage, order: seq<Str>, n: nat)
    requires m.ServerHello? && InRange(m) && Enumerates(order, m.headers) && n < 2 + |HeadersBytes(order, m.headers)| + 5
    ensures ParseServerHello((U16Bytes(m.version) + (HeadersBytes(order, m.headers) + ([CompressionByte(m.compression)]
              + U32Bytes(m.keepaliveIntervalMs))))[..n]) == Failed(UnexpectedEndOfMessage)
  {
    hide ValidUtf8, U16Bytes, U32Bytes, HeadersBytes, GetHeaders, GetCompression, CompressionByte, HeadersInRange;
    var h, c, k := HeadersBytes(order, m.headers), [CompressionByte(m.compression)], U32Bytes(m.keepaliveIntervalMs);
    PrefixSplit(U16Bytes(m.version), h + (c + k), n);
    if n >= 2 {
      var b1 := (h + (c + k))[..n - 2];
      U16Inverse(U16Bytes(m.version) + b1, m.version, b1);
      PrefixSplit(h, c + k, n - 2);
      if n - 2 < |h| {
        HeadersCut(order, m.headers, n - 2);
      } else {
        var n2 := n - 2 - |h|;
        HeadersRead(order, m.headers, (c + k)[..n2]);
        PrefixSplit(c, k, n2);
        if n2 == 0 {
          NothingToRead();
        } else {
          CompressionRead(m.compression, k[..n2 - 1]);
        }
      }
    }
  }

  lemma ErrorMessageCut(m: ConnectionMessage, n: nat)
    requires m.ErrorMessage? && InRange(m) && n < 2 + |StringBytes(m.message)| + 1
    ensures ParseErrorMessage((U16Bytes(m.code) + (StringBytes(m.message) + [if m.close then 1 else 0]))[..n])
            == Failed(UnexpectedEndOfMessage)
  {
    hide ValidUtf8, U16Bytes, StringBytes, GetString;
    var s, x: bytes := StringBytes(m.message), [if m.close then 1 else 0];
    PrefixSplit(U16Bytes(m.code), s + x, n);
    if n >= 2 {
      var b1 := (s + x)[..n - 2];
      U16Inverse(U16Bytes(m.code) + b1, m.code, b1);
      PrefixSplit(s, x, n - 2);
      if n - 2 < |s| {
        SizedCut(m.message, n - 2);
      } else {
        StringRead(m.message, []);
        assert s + x[..0] == s + [];
      }
    }
  }

  /** A frame cut short is recognised as such: every proper prefix of an in-range serialization is refused
      for its length, and for nothing else. */
  lemma TruncatedIsRefused(m: ConnectionMessage, order: seq<Str>, n: nat)
    requires Orders(order, m) && InRange(m) && n < |Serialize(m, order)|
    ensures Parse(Serialize(m, order)[..n]) == Failed(UnexpectedEndOfMessage)
  {
    hide ValidUtf8, InRange, ParseClientHello, ParseServerHello, ParseErrorMessage, HeadersBytes, StringBytes, AvailableBytes, U16Bytes,
      U32Bytes, CompressionByte, Enumerates;
    var b := Serialize(m, order);
    if n >= 1 {
      assert b[..n] == [b[0]] + b[1..][..n - 1];
      if m.ClientHello? {
        ClientHelloCut(m, order, n - 1);
      } else if m.ServerHello? {
        ServerHelloCut(m, order, n - 1);
      } else if m.ErrorMessage? {
        ErrorMessageCut(m, n - 1);
      }
    }
  }

  ghost predicate NotTheType<T>(r: Read<T>) {
    r.Refused? ==> !r.error.InvalidMessageType?
  }

  lemma SmallReaders(b: bytes)
    ensures NotTheType(GetSized(b)) && NotTheType(GetString(b)) && NotTheType(GetEntry(b)) && NotTheType(GetCompression(b))
  {
    hide ValidUtf8;
  }

  lemma {:induction false} ListReaders(n: nat, b: bytes)
    ensures NotTheType(GetEntries(n, b)) && NotTheType(GetCompressions(n, b))
  {
    hide ValidUtf8, GetEntry, GetCompression;
    if n > 0 {
      ListReaders(n - 1, b);
      if GetEntries(n - 1, b).Took? {
        SmallReaders(GetEntries(n - 1, b).rest);
      }
      if GetCompressions(n - 1, b).Took? {
        SmallReaders(GetCompressions(n - 1, b).rest);
      }
    }
  }

  lemma CountedReaders(b: bytes)
    ensures NotTheType(GetHeaders(b)) && NotTheType(GetAvailable(b))
  {
    hide ValidUtf8, GetEntries, GetCompressions;
    if GetU16(b).Got? {
      ListReaders(GetU16(b).value, GetU16(b).rest);
    }
    if GetU8(b).Got? {
      ListReaders(GetU8(b).value, GetU8(b).rest);
    }
  }

  lemma BodiesNeverBlameTheType(b: bytes)
    ensures ParseClientHello(b).Failed? ==> !ParseClientHello(b).error.InvalidMessageType?
    ensures ParseServerHello(b).Failed? ==> !ParseServerHello(b).error.InvalidMessageType?
    ensures ParseErrorMessage(b).Failed? ==> !ParseErrorMessage(b).error.InvalidMessageType?
  {
    hide ValidUtf8, GetString, GetHeaders, GetAvailable, GetCompression, GetU16, GetU32;
    if GetU16(b).Got? {
      var b1 := GetU16(b).rest;
      SmallReaders(b1);
      CountedReaders(b1);
      if GetHeaders(b1).Took? {
        SmallReaders(GetHeaders(b1).rest);
      }
      if GetString(b1).Took? {
        var b2 := GetString(b1).rest;
        CountedReaders(b2);
        if GetHeaders(b2).Took? {
          CountedReaders(GetHeaders(b2).rest);
        }
      }
    }
  }

  /** An unknown type code is reported as such, and nothing else is. */
  lemma UnknownTypeIsTold(b: bytes, code: byte)
    ensures Parse(b) == Failed(InvalidMessageType(code)) <==> b != [] && b[0] == code && !(1 <= code <= 6)
  {
    hide ParseClientHello, ParseServerHello, ParseErrorMessage;
    if b != [] {
      BodiesNeverBlameTheType(b[1..]);
      assert b == [b[0]] + b[1..];
    }
  }

  /** An unknown compression and a string that is not UTF-8 are told apart from a short frame. */
  lemma BadValuesAreTold(b: bytes, s: bytes, t: bytes)
    requires |s| < TWO16
    ensures GetCompression(b) == Refused(InvalidMessageFormat) <==> b != [] && b[0] > 3
    ensures GetString(StringBytes(s) + t) == (if ValidUtf8(s) then Took(s, t) else Refused(StringDecodeError))
  {
    SizedRead(s, t);
    hide ValidUtf8, GetSized, StringBytes;
  }

  /** A header list as it may come from any peer, keys repeated or not. */
  function PairsBytes(ps: seq<(Str, bytes)>): bytes {
    if ps == [] then [] else PairsBytes(ps[..|ps| - 1]) + EntryBytes(ps[|ps| - 1].0, ps[|ps| - 1].1)
  }

  ghost predicate LastsIn(m: Headers, ps: seq<(Str, bytes)>) {
    && (forall i :: 0 <= i < |ps| ==> ps[i].0 in m)
    && forall k {:trigger k in m} :: k in m ==>
         exists i :: 0 <= i < |ps| && ps[i] == (k, m[k]) && forall j :: i < j < |ps| ==> ps[j].0 != k
  }

  lemma LastsInMore(m: Headers, ps: seq<(Str, bytes)>, k: Str, v: bytes)
    requires LastsIn(m, ps)
    ensures LastsIn(m[k := v], ps + [(k, v)])
  {
    hide ValidUtf8;
    var n, qs := m[k := v], ps + [(k, v)];
    forall x | x in n
      ensures exists i :: 0 <= i < |qs| && qs[i] == (x, n[x]) && forall j :: i < j < |qs| ==> qs[j].0 != x
    {
      if x == k {
        assert qs[|ps|] == (k, v);
      } else {
        var i :| 0 <= i < |ps| && ps[i] == (x, m[x]) && forall j :: i < j < |ps| ==> ps[j].0 != x;
        assert qs[i] == ps[i];
        forall j | i < j < |qs|
          ensures qs[j].0 != x
        {
          assert j < |ps| ==> qs[j] == ps[j];
        }
      }
    }
  }

  /** Of a header that is given more than once, the last value counts. */
  lemma {:induction false} LastHeaderCounts(ps: seq<(Str, bytes)>, t: bytes)
    requires forall i :: 0 <= i < |ps| ==> |ps[i].0| < TWO16 && |ps[i].1| < TWO16
    ensures var r := GetEntries(|ps|, PairsBytes(ps) + t); r.Took? && r.rest == t && LastsIn(r.value, ps)
  {
    hide ValidUtf8, GetEntry, EntryBytes, LastsIn;
    if ps == [] {
      assert PairsBytes(ps) + t == t;
      NoHeaders();
    } else {
      var init, last := ps[..|ps| - 1], ps[|ps| - 1];
      var entry := EntryBytes(last.0, last.1);
      LastHeaderCounts(init, entry + t);
      EntryRead(last.0, last.1, t);
      assert PairsBytes(ps) + t == PairsBytes(init) + (entry + t);
      LastsInMore(GetEntries(|init|, PairsBytes(init) + (entry + t)).value, init, last.0, last.1);
      assert init + [last] == ps;
    }
  }

  lemma NoHeaders()
    ensures LastsIn(map[], [])
  {
  }

  /** Any closing flag but 0 closes. */
  lemma AnyFlagCloses(code: u16, message: Str, flag: byte, t: bytes)
    requires |message| < TWO16
    ensures Parse([5] + (U16Bytes(code) + (StringBytes(message) + ([flag] + t)))) == Parsed(ErrorMessage(code, message, flag != 0))
  {
    hide ValidUtf8, GetString, StringBytes, U16Bytes, GetU16;
    var b3 := [flag] + t;
    var b2 := StringBytes(message) + b3;
    U16Inverse(U16Bytes(code) + b2, code, b2);
    StringRead(message, b3);
    U8Inverse(b3, flag, t);
    U8Inverse([5] + (U16Bytes(code) + b2), 5, U16Bytes(code) + b2);
  }

  // ---------------------------------------------------------------- the codec itself

  method PutString(buf: ByteBuffer, s: bytes)
    modifies buf
    ensures buf.data == old(buf.data) + StringBytes(s)
  {
    buf.PutU16(|s| % TWO16);
    buf.PutSlice(s);
  }

  /** Walks the map in any order. */
  method PutHeaders(buf: ByteBuffer, headers: Headers) returns (ghost order: seq<Str>)
    modifies buf
    ensures Enumerates(order, headers)
    ensures buf.data == old(buf.data) + HeadersBytes(order, headers)
  {
    hide ValidUtf8, StringBytes;
    buf.PutU16(|headers| % TWO16);
    ghost var head := buf.data;
    order := [];
    var left := headers.Keys;
    while left != {}
      invariant left <= headers.Keys && |order| + |left| == |headers|
      invariant forall i :: 0 <= i < |order| ==> order[i] in headers
      invariant forall k :: k in headers ==> k in order || k in left
      invariant buf.data == head + EntriesBytes(order, headers)
    {
      var k :| k in left;
      PutString(buf, k);
      PutString(buf, headers[k]);
      left := left - {k};
      assert head + EntriesBytes(order, headers) + StringBytes(k) + StringBytes(headers[k])
          == head + (EntriesBytes(order, headers) + EntryBytes(k, headers[k]));
      assert (order + [k])[..|order|] == order;
      order := order + [k];
    }
    assert buf.data == old(buf.data) + (U16Bytes(|headers| % TWO16) + EntriesBytes(order, headers));
  }

  method PutAvailable(buf: ByteBuffer, cs: seq<CompressionType>)
    modifies buf
    ensures buf.data == old(buf.data) + AvailableBytes(cs)
  {
    buf.PutU8(|cs| % 0x100);
    for i := 0 to |cs|
      invariant buf.data == old(buf.data) + ([|cs| % 0x100] + CompressionsBytes(cs[..i]))
    {
      buf.PutU8(CompressionByte(cs[i]));
      assert cs[..i + 1][..i] == cs[..i];
    }
    assert cs[..|cs|] == cs;
  }

  method SerializeConnectionMessage(m: ConnectionMessage) returns (b: bytes)
    ensures exists order :: Orders(order, m) && b == Serialize(m, order)
  {
    hide ValidUtf8, StringBytes, HeadersBytes, AvailableBytes, U16Bytes, U32Bytes, CompressionByte;
    var buf := new ByteBuffer();
    ghost var order: seq<Str> := [];
    match m {
      case ClientHello(version, host, headers, available, lo, hi) =>
        buf.PutU8(0x01);
        buf.PutU16(version);
        PutString(buf, host);
        order := PutHeaders(buf, headers);
        PutAvailable(buf, available);
        buf.PutU32(lo);
        buf.PutU32(hi);
        assert buf.data == [0x01] + (U16Bytes(version) + (StringBytes(host) + (HeadersBytes(order, headers)
            + (AvailableBytes(available) + (U32Bytes(lo) + U32Bytes(hi))))));
      case ServerHello(version, headers, compression, interval) =>
        buf.PutU8(0x02);
        buf.PutU16(version);
        order := PutHeaders(buf, headers);
        buf.PutU8(CompressionByte(compression));
        buf.PutU32(interval);
        assert buf.data == [0x02] + (U16Bytes(version) + (HeadersBytes(order, headers)
            + ([CompressionByte(compression)] + U32Bytes(interval))));
      case Keepalive => buf.PutU8(0x03);
      case KeepaliveAck => buf.PutU8(0x04);
      case ErrorMessage(code, message, close) =>
        buf.PutU8(0x05);
        buf.PutU16(code);
        PutString(buf, message);
        buf.PutU8(if close then 1 else 0);
        assert buf.data == [0x05] + (U16Bytes(code) + (StringBytes(message) + [if close then 1 else 0]));
      case Close => buf.PutU8(0x06);
    }
    b := buf.data;
    assert Orders(order, m) && b == Serialize(m, order);
  }

  method TryGetSized(cur: ByteCursor) returns (r: Read<bytes>)
    requires cur.Valid()
    modifies cur
    ensures cur.Valid() && r == GetSized(old(cur.Remaining())) && (r.Took? ==> r.rest == cur.Remaining())
  {
    var n := cur.TryGetU16();
    if n == None {
      return Refused(UnexpectedEndOfMessage);
    }
    var s := cur.TryGetBytes(n.value);
    if s == None {
      return Refused(UnexpectedEndOfMessage);
    }
    r := Took(s.value, cur.Remaining());
  }

  method TryGetString(cur: ByteCursor) returns (r: Read<Str>)
    requires cur.Valid()
    modifies cur
    ensures cur.Valid() && r == GetString(old(cur.Remaining())) && (r.Took? ==> r.rest == cur.Remaining())
  {
    hide GetSized;
    var s := TryGetSized(cur);
    match s
    case Refused(e) => r := Refused(e);
    case Took(x, rest) =>
      if ValidUtf8(x) {
        r := Took(x, rest);
      } else {
        r := Refused(StringDecodeError);
      }
  }

  method TryGetHeaders(cur: ByteCursor) returns (r: Read<Headers>)
    requires cur.Valid()
    modifies cur
    ensures cur.Valid() && r == GetHeaders(old(cur.Remaining())) && (r.Took? ==> r.rest == cur.Remaining())
  {
    hide GetString, GetSized, ValidUtf8;
    var count := cur.TryGetU16();
    if count == None {
      return Refused(UnexpectedEndOfMessage);
    }
    ghost var b := cur.Remaining();
    var m: Headers := map[];
    for i := 0 to count.value
      invariant cur.Valid() && GetEntries(i, b) == Took(m, cur.Remaining())
    {
      ghost var before := cur.Remaining();
      var k := TryGetString(cur);
      if k.Refused? {
        RefusedStays(i + 1, count.value, b);
        return Refused(k.error);
      }
      var v := TryGetSized(cur);
      if v.Refused? {
        RefusedStays(i + 1, count.value, b);
        return Refused(v.error);
      }
      m := m[k.value := v.value];
    }
    r := Took(m, cur.Remaining());
  }

  lemma {:induction false} RefusedStays(k: nat, n: nat, b: bytes)
    requires k <= n && GetEntries(k, b).Refused?
    ensures GetEntries(n, b) == GetEntries(k, b)
  {
    hide GetEntry, ValidUtf8;
    if k < n {
      RefusedStays(k, n - 1, b);
    }
  }

  method TryGetCompression(cur: ByteCursor) returns (r: Read<CompressionType>)
    requires cur.Valid()
    modifies cur
    ensures cur.Valid() && r == GetCompression(old(cur.Remaining())) && (r.Took? ==> r.rest == cur.Remaining())
  {
    var x := cur.TryGetU8();
    r := if x == None then Refused(UnexpectedEndOfMessage)
         else if CompressionOf(x.value) == None then Refused(InvalidMessageFormat)
         else Took(CompressionOf(x.value).value, cur.Remaining());
  }

  method TryGetAvailable(cur: ByteCursor) returns (r: Read<seq<CompressionType>>)
    requires cur.Valid()
    modifies cur
    ensures cur.Valid() && r == GetAvailable(old(cur.Remaining())) && (r.Took? ==> r.rest == cur.Remaining())
  {
    hide GetCompression;
    var count := cur.TryGetU8();
    if count == None {
      return Refused(UnexpectedEndOfMessage);
    }
    ghost var b := cur.Remaining();
    var cs: seq<CompressionType> := [];
    for i := 0 to count.value
      invariant cur.Valid() && GetCompressions(i, b) == Took(cs, cur.Remaining())
    {
      var c := TryGetCompression(cur);
      if c.Refused? {
        RefusedCompressionStays(i + 1, count.value, b);
        return Refused(c.error);
      }
      cs := cs + [c.value];
    }
    r := Took(cs, cur.Remaining());
  }

  lemma {:induction false} RefusedCompressionStays(k: nat, n: nat, b: bytes)
    requires k <= n && GetCompressions(k, b).Refused?
    ensures GetCompressions(n, b) == GetCompressions(k, b)
  {
    hide GetCompression;
    if k < n {
      RefusedCompressionStays(k, n - 1, b);
    }
  }

  method ParseClientHelloMessage(cur: ByteCursor) returns (r: Parsed)
    requires cur.Valid()
    modifies cur
    ensures r == ParseClientHello(old(cur.Remaining()))
  {
    hide GetString, GetHeaders, GetAvailable, ValidUtf8;
    var version := cur.TryGetU16();
    if version == None { return Failed(UnexpectedEndOfMessage); }
    var host := TryGetString(cur);
    if host.Refused? { return Failed(host.error); }
    var headers := TryGetHeaders(cur);
    if headers.Refused? { return Failed(headers.error); }
    var available := TryGetAvailable(cur);
    if available.Refused? { return Failed(available.error); }
    var lo := cur.TryGetU32();
    if lo == None { return Failed(UnexpectedEndOfMessage); }
    var hi := cur.TryGetU32();
    if hi == None { return Failed(UnexpectedEndOfMessage); }
    r := Parsed(ClientHello(version.value, host.value, headers.value, available.value, lo.value, hi.value));
  }

  method ParseServerHelloMessage(cur: ByteCursor) returns (r: Parsed)
    requires cur.Valid()
    modifies cur
    ensures r == ParseServerHello(old(cur.Remaining()))
  {
    hide GetHeaders, GetCompression, ValidUtf8;
    var version := cur.TryGetU16();
    if version == None { return Failed(UnexpectedEndOfMessage); }
    var headers := TryGetHeaders(cur);
    if headers.Refused? { return Failed(headers.error); }
    var c := TryGetCompression(cur);
    if c.Refused? { return Failed(c.error); }
    var interval := cur.TryGetU32();
    if interval == None { return Failed(UnexpectedEndOfMessage); }
    r := Parsed(ServerHello(version.value, headers.value, c.value, interval.value));
  }

  method ParseConnectionMessage(b: bytes) returns (r: Parsed)
    ensures r == Parse(b)
  {
    hide GetString, ValidUtf8, ParseClientHello, ParseServerHello;
    var cur := new ByteCursor(b);
    var code := cur.TryGetU8();
    if code == None {
      return Failed(UnexpectedEndOfMessage);
    }
    match code.value {
      case 0x01 => r := ParseClientHelloMessage(cur);
      case 0x02 => r := ParseServerHelloMessage(cur);
      case 0x03 => r := Parsed(Keepalive);
      case 0x04 => r := Parsed(KeepaliveAck);
      case 0x05 =>
        var x := cur.TryGetU16();
        if x == None { return Failed(UnexpectedEndOfMessage); }
        var message := TryGetString(cur);
        if message.Refused? { return Failed(message.error); }
        var close := cur.TryGetU8();
        if close == None { return Failed(UnexpectedEndOfMessage); }
        r := Parsed(ErrorMessage(x.value, message.value, close.value != 0));
      case 0x06 => r := Parsed(Close);
      case _ => r := Failed(InvalidMessageType(code.value));
    }
  }
}
