/** Well-formed UTF-8, as `String::from_utf8` checks it, and that it is exactly what encoding Unicode scalar
    values gives. */
module Utf8 {
  import opened Types

  predicate Continues(b: bytes, i: nat, lo: byte, hi: byte) {
    i < |b| && lo <= b[i] <= hi
  }

  /** Length of the well-formed UTF-8 sequence at the front, 0 for none (table 3-7 of the Unicode
      standard, which `String::from_utf8` follows). */
  function LeadLength(b: bytes): (n: nat)
    ensures n <= |b|
  {
    if b == [] then 0
    else if b[0] <= 0x7F then 1
    else if 0xC2 <= b[0] <= 0xDF then if Continues(b, 1, 0x80, 0xBF) then 2 else 0
    else if 0xE0 <= b[0] <= 0xEF then
      var lo: byte := if b[0] == 0xE0 then 0xA0 else 0x80;
      var hi: byte := if b[0] == 0xED then 0x9F else 0xBF;
      if Continues(b, 1, lo, hi) && Continues(b, 2, 0x80, 0xBF) then 3 else 0
    else if 0xF0 <= b[0] <= 0xF4 then
      var lo: byte := if b[0] == 0xF0 then 0x90 else 0x80;
      var hi: byte := if b[0] == 0xF4 then 0x8F else 0xBF;
      if Continues(b, 1, lo, hi) && Continues(b, 2, 0x80, 0xBF) && Continues(b, 3, 0x80, 0xBF) then 4 else 0
    else 0
  }

  predicate ValidUtf8(b: bytes)
    decreases |b|
  {
    b == [] || (LeadLength(b) > 0 && ValidUtf8(b[LeadLength(b)..]))
  }

  // ---------------------------------------------------------------- the encoding form

  predicate Scalar(c: int) {
    0 <= c <= 0xD7FF || 0xE000 <= c <= 0x10FFFF
  }

  /** UTF-8 of one scalar value, by arithmetic on the value (section 3 of RFC 3629). */
  function EncodeScalar(c: int): bytes
    requires Scalar(c)
  {
    if c < 0x80 then [c]
    else if c < 0x800 then [0xC0 + c / 0x40, 0x80 + c % 0x40]
    else if c < 0x10000 then [0xE0 + c / 0x1000, 0x80 + c / 0x40 % 0x40, 0x80 + c % 0x40]
    else [0xF0 + c / 0x40000, 0x80 + c / 0x1000 % 0x40, 0x80 + c / 0x40 % 0x40, 0x80 + c % 0x40]
  }

  ghost predicate Scalars(cs: seq<int>) {
    forall i :: 0 <= i < |cs| ==> Scalar(cs[i])
  }

  ghost function Encode(cs: seq<int>): bytes
    requires Scalars(cs)
  {
    if cs == [] then [] else EncodeScalar(cs[0]) + Encode(cs[1..])
  }

  /** The payload of the byte at `i`, above the marker `base`. */
  function Digits(b: bytes, i: nat, base: int): int
    requires i < |b|
  {
    b[i] as int - base
  }

  /** The value behind a well-formed sequence of `n` bytes. */
  function ValueOf(b: bytes, n: nat): int
    requires 1 <= n <= 4 && n <= |b|
  {
    if n == 1 then b[0]
    else if n == 2 then Digits(b, 0, 0xC0) * 0x40 + Digits(b, 1, 0x80)
    else if n == 3 then (Digits(b, 0, 0xE0) * 0x40 + Digits(b, 1, 0x80)) * 0x40 + Digits(b, 2, 0x80)
    else ((Digits(b, 0, 0xF0) * 0x40 + Digits(b, 1, 0x80)) * 0x40 + Digits(b, 2, 0x80)) * 0x40 + Digits(b, 3, 0x80)
  }

  lemma TwoDigits(hi: int, lo: int)
    requires 0 <= lo < 0x40
    ensures (hi * 0x40 + lo) / 0x40 == hi && (hi * 0x40 + lo) % 0x40 == lo
  {
  }

  lemma TwoByteLead(b: bytes)
    requires LeadLength(b) == 2
    ensures var c := ValueOf(b, 2); Scalar(c) && EncodeScalar(c) == b[..2]
  {
    TwoDigits(Digits(b, 0, 0xC0), Digits(b, 1, 0x80));
  }

  lemma ThreeByteLead(b: bytes)
    requires LeadLength(b) == 3
    ensures var c := ValueOf(b, 3); Scalar(c) && EncodeScalar(c) == b[..3]
  {
    var top, mid, low := Digits(b, 0, 0xE0), Digits(b, 1, 0x80), Digits(b, 2, 0x80);
    TwoDigits(top * 0x40 + mid, low);
    TwoDigits(top, mid);
    ThreeDigits(top * 0x40 + mid, low);
  }

  lemma FourByteLead(b: bytes)
    requires LeadLength(b) == 4
    ensures var c := ValueOf(b, 4); Scalar(c) && EncodeScalar(c) == b[..4]
  {
    var top, high, mid, low := Digits(b, 0, 0xF0), Digits(b, 1, 0x80), Digits(b, 2, 0x80), Digits(b, 3, 0x80);
    TwoDigits((top * 0x40 + high) * 0x40 + mid, low);
    TwoDigits(top * 0x40 + high, mid);
    TwoDigits(top, high);
    ThreeDigits((top * 0x40 + high) * 0x40 + mid, low);
    FourDigits(top * 0x40 + high, mid, low);
  }

  /** What the check takes for one character encodes a scalar value. */
  lemma LeadIsEncoded(b: bytes)
    requires LeadLength(b) > 0
    ensures LeadLength(b) <= 4
    ensures var n := LeadLength(b); var c := ValueOf(b, n); Scalar(c) && EncodeScalar(c) == b[..n]
  {
    LeadIsShort(b);
    hide LeadLength, ValueOf, EncodeScalar, Scalar;
    if LeadLength(b) == 2 {
      TwoByteLead(b);
    } else if LeadLength(b) == 3 {
      ThreeByteLead(b);
    } else if LeadLength(b) == 4 {
      FourByteLead(b);
    } else {
      OneByteLead(b);
    }
  }

  lemma LeadIsShort(b: bytes)
    ensures LeadLength(b) <= 4
  {
  }

  lemma OneByteLead(b: bytes)
    requires LeadLength(b) == 1
    ensures var c := ValueOf(b, 1); Scalar(c) && EncodeScalar(c) == b[..1]
  {
  }

  lemma ThreeDigits(hi: int, lo: int)
    requires 0 <= lo < 0x40
    ensures (hi * 0x40 + lo) / 0x1000 == hi / 0x40
  {
  }

  lemma FourDigits(mid: int, hi: int, lo: int)
    requires 0 <= lo < 0x40 && 0 <= hi < 0x40
    ensures ((mid * 0x40 + hi) * 0x40 + lo) / 0x40000 == mid / 0x40
  {
  }

  /** An encoded scalar value passes the check, as one character, whatever follows. */
  lemma EncodedIsLead(c: int, t: bytes)
    requires Scalar(c)
    ensures LeadLength(EncodeScalar(c) + t) == |EncodeScalar(c)|
  {
    var b := EncodeScalar(c) + t;
    assert forall i :: 0 <= i < |EncodeScalar(c)| ==> b[i] == EncodeScalar(c)[i];
  }

  lemma {:induction false} EncodedIsValid(cs: seq<int>)
    requires Scalars(cs)
    ensures ValidUtf8(Encode(cs))
  {
    if cs != [] {
      EncodedIsValid(cs[1..]);
      EncodedIsLead(cs[0], Encode(cs[1..]));
      hide LeadLength, EncodeScalar;
      var n := |EncodeScalar(cs[0])|;
      assert Encode(cs)[n..] == Encode(cs[1..]);
      EncodingIsNotEmpty(cs[0]);
    }
  }

  lemma EncodingIsNotEmpty(c: int)
    requires Scalar(c)
    ensures |EncodeScalar(c)| > 0
  {
  }

  lemma EncodeHead(c: int, cs: seq<int>)
    requires Scalar(c) && Scalars(cs)
    ensures Scalars([c] + cs) && Encode([c] + cs) == EncodeScalar(c) + Encode(cs)
  {
    assert ([c] + cs)[1..] == cs;
  }

  lemma {:induction false} ValidIsEncoded(b: bytes) returns (cs: seq<int>)
    requires ValidUtf8(b)
    ensures Scalars(cs) && Encode(cs) == b
    decreases |b|
  {
    hide LeadLength, EncodeScalar, Scalar, ValueOf, Encode;
    if b == [] {
      cs := [];
      NothingEncoded();
    } else {
      var n := LeadLength(b);
      LeadIsEncoded(b);
      var rest := ValidIsEncoded(b[n..]);
      cs := [ValueOf(b, n)] + rest;
      EncodeHead(ValueOf(b, n), rest);
      assert b == b[..n] + b[n..];
    }
  }

  lemma NothingEncoded()
    ensures Scalars([]) && Encode([]) == []
  {
  }

  /** The check accepts exactly the concatenated encodings of Unicode scalar values. */
  lemma ValidIffEncoded(b: bytes)
    ensures ValidUtf8(b) <==> exists cs :: Scalars(cs) && Encode(cs) == b
  {
    if ValidUtf8(b) {
      var cs := ValidIsEncoded(b);
      assert Scalars(cs) && Encode(cs) == b;
    }
    forall cs | Scalars(cs) && Encode(cs) == b
      ensures ValidUtf8(b)
    {
      EncodedIsValid(cs);
    }
  }
}
