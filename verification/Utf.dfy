// UTF-16 input and UTF-8 output of the string hasher: surrogates (strings.ts),
// the replacement of ill-formed input, and the byte encoding of section 3 of RFC 3629.
// Units, code points and bytes are integers; a masked and shifted bit field is written
// as the quotient and remainder it denotes.
module Utf {
  import opened CodeUnits

  type CodePoint = x: int | 0 <= x < 0x110000
  type Byte = x: int | 0 <= x < 256

  const REPLACEMENT: CodePoint := 0xFFFD

  predicate IsHighSurrogate(c: CodeUnit) {
    0xD800 <= c <= 0xDBFF
  }

  predicate IsLowSurrogate(c: CodeUnit) {
    0xDC00 <= c <= 0xDFFF
  }

  function ComputeCodePoint(high: CodeUnit, low: CodeUnit): (cp: CodePoint)
    requires IsHighSurrogate(high) && IsLowSurrogate(low)
    ensures 0x10000 <= cp && high == 0xD800 + (cp - 0x10000) / 0x400 && low == 0xDC00 + (cp - 0x10000) % 0x400
  {
    (high - 0xD800) * 0x400 + (low - 0xDC00) + 0x10000
  }

  predicate IsScalar(cp: CodePoint) {
    !(0xD800 <= cp <= 0xDFFF)
  }

  /** The scalar values of a UTF-16 string; every lone surrogate becomes U+FFFD. */
  function Scalars(s: seq<CodeUnit>): seq<CodePoint> {
    if s == [] then []
    else if IsHighSurrogate(s[0]) && StartsLow(s[1..]) then
      [ComputeCodePoint(s[0], s[1])] + Scalars(s[2..])
    else if IsHighSurrogate(s[0]) || IsLowSurrogate(s[0]) then
      [REPLACEMENT] + Scalars(s[1..])
    else
      [s[0]] + Scalars(s[1..])
  }

  predicate EndsHigh(s: seq<CodeUnit>) {
    s != [] && IsHighSurrogate(s[|s| - 1])
  }

  predicate StartsLow(s: seq<CodeUnit>) {
    s != [] && IsLowSurrogate(s[0])
  }

  // Decoding splits at every point that is not inside a surrogate pair.
  lemma {:induction false} ScalarsConcat(a: seq<CodeUnit>, b: seq<CodeUnit>)
    requires !(EndsHigh(a) && StartsLow(b))
    ensures Scalars(a + b) == Scalars(a) + Scalars(b)
    decreases |a|
  {
    var ab := a + b;
    if a == [] {
      assert ab == b;
    } else if IsHighSurrogate(a[0]) && StartsLow(a[1..]) {
      assert ab[0] == a[0] && ab[1] == a[1];
      assert ab[2..] == a[2..] + b;
      ScalarsConcat(a[2..], b);
    } else {
      assert ab[0] == a[0];
      assert ab[1..] == a[1..] + b;
      assert !(IsHighSurrogate(ab[0]) && StartsLow(ab[1..]));
      ScalarsConcat(a[1..], b);
    }
  }

  // What Scalars yields can always be encoded.
  lemma {:induction false} ScalarsAreScalar(s: seq<CodeUnit>)
    ensures forall i :: 0 <= i < |Scalars(s)| ==> IsScalar(Scalars(s)[i])
    decreases |s|
  {
    if s != [] {
      ScalarsAreScalar(s[1..]);
      if |s| > 1 {
        ScalarsAreScalar(s[2..]);
        assert s[1..][0] == s[1];
      }
    }
  }

  /** One code point as one to four bytes. */
  function EncodePoint(cp: CodePoint): (bytes: seq<Byte>)
    ensures 1 <= |bytes| <= 4
  {
    if cp < 0x80 then
      [cp]
    else if cp < 0x800 then
      [0xC0 + cp / 64, 0x80 + cp % 64]
    else if cp < 0x10000 then
      [0xE0 + cp / 64 / 64, 0x80 + cp / 64 % 64, 0x80 + cp % 64]
    else
      [0xF0 + cp / 64 / 64 / 64, 0x80 + cp / 64 / 64 % 64, 0x80 + cp / 64 % 64, 0x80 + cp % 64]
  }

  function Utf8(cps: seq<CodePoint>): seq<Byte> {
    if cps == [] then [] else EncodePoint(cps[0]) + Utf8(cps[1..])
  }

  lemma {:induction false} Utf8Concat(a: seq<CodePoint>, b: seq<CodePoint>)
    ensures Utf8(a + b) == Utf8(a) + Utf8(b)
  {
    if a == [] {
      assert a + b == b;
    } else {
      assert (a + b)[1..] == a[1..] + b;
      Utf8Concat(a[1..], b);
    }
  }

  predicate Continuation(b: Byte) {
    b / 64 == 2
  }

  datatype Decoded = NoPoint | Point(cp: CodePoint, size: nat)

  // Appends the six payload bits of a continuation byte.
  function Join(high: nat, b: Byte): nat {
    high * 64 + b % 64
  }

  function Accept(v: nat, least: nat, size: nat): Decoded {
    if least <= v < 0x110000 && IsScalar(v) then Point(v, size) else NoPoint
  }

  /** The strict decoder of RFC 3629: shortest forms only, no surrogates, at most U+10FFFF. */
  function DecodePoint(b: seq<Byte>): Decoded {
    if |b| >= 1 && b[0] < 0x80 then
      Accept(b[0], 0, 1)
    else if |b| >= 2 && b[0] / 32 == 6 && Continuation(b[1]) then
      Accept(Join(b[0] % 32, b[1]), 0x80, 2)
    else if |b| >= 3 && b[0] / 16 == 14 && Continuation(b[1]) && Continuation(b[2]) then
      Accept(Join(Join(b[0] % 16, b[1]), b[2]), 0x800, 3)
    else if |b| >= 4 && b[0] / 8 == 30 && Continuation(b[1]) && Continuation(b[2]) && Continuation(b[3]) then
      Accept(Join(Join(Join(b[0] % 8, b[1]), b[2]), b[3]), 0x10000, 4)
    else
      NoPoint
  }

  lemma DecodeEncodePoint(cp: CodePoint, rest: seq<Byte>)
    requires IsScalar(cp)
    ensures DecodePoint(EncodePoint(cp) + rest) == Point(cp, |EncodePoint(cp)|)
  {
    if cp < 0x800 {
      DecodeShort(cp, rest);
    } else if cp < 0x10000 {
      DecodeThree(cp, rest);
    } else {
      DecodeFour(cp, rest);
    }
  }

  lemma DecodeShort(cp: CodePoint, rest: seq<Byte>)
    requires cp < 0x800
    ensures DecodePoint(EncodePoint(cp) + rest) == Point(cp, |EncodePoint(cp)|)
  {
    var b := EncodePoint(cp) + rest;
    if cp >= 0x80 {
      assert b[0] % 32 == cp / 64 && b[1] % 64 == cp % 64;
    }
  }

  lemma DecodeThree(cp: CodePoint, rest: seq<Byte>)
    requires IsScalar(cp) && 0x800 <= cp < 0x10000
    ensures DecodePoint(EncodePoint(cp) + rest) == Point(cp, |EncodePoint(cp)|)
  {
    var b := EncodePoint(cp) + rest;
    assert b[0] / 16 == 14 && b[0] % 16 == cp / 64 / 64;
    assert b[1] % 64 == cp / 64 % 64 && b[2] % 64 == cp % 64;
  }

  lemma DecodeFour(cp: CodePoint, rest: seq<Byte>)
    requires 0x10000 <= cp
    ensures DecodePoint(EncodePoint(cp) + rest) == Point(cp, |EncodePoint(cp)|)
  {
    var b := EncodePoint(cp) + rest;
    assert b[0] / 8 == 30 && b[0] % 8 == cp / 64 / 64 / 64 && b[1] % 64 == cp / 64 / 64 % 64;
    assert b[2] % 64 == cp / 64 % 64 && b[3] % 64 == cp % 64;
  }

  function DecodeUtf8(b: seq<Byte>): seq<CodePoint>
    decreases |b|
  {
    var d := DecodePoint(b);
    if d.Point? && 1 <= d.size <= |b| then [d.cp] + DecodeUtf8(b[d.size..]) else []
  }

  // The encoder is the inverse of the RFC 3629 decoder, so different texts give different bytes.
  lemma {:induction false} Utf8RoundTrip(cps: seq<CodePoint>)
    requires forall i :: 0 <= i < |cps| ==> IsScalar(cps[i])
    ensures DecodeUtf8(Utf8(cps)) == cps
  {
    if cps != [] {
      var head, tail := EncodePoint(cps[0]), Utf8(cps[1..]);
      DecodeEncodePoint(cps[0], tail);
      assert (head + tail)[|head|..] == tail;
      Utf8RoundTrip(cps[1..]);
    }
  }

  /** The bytes to be hashed for a string. */
  function Message(text: seq<CodeUnit>): seq<Byte> {
    Utf8(Scalars(text))
  }

  lemma MessageRoundTrip(text: seq<CodeUnit>)
    ensures DecodeUtf8(Message(text)) == Scalars(text)
  {
    ScalarsAreScalar(text);
    Utf8RoundTrip(Scalars(text));
  }

  // At most three bytes for every UTF-16 code unit.
  lemma {:induction false} MessageLength(text: seq<CodeUnit>)
    ensures |Message(text)| <= 3 * |text|
    decreases |text|
  {
    if text != [] {
      MessageLength(text[1..]);
      if |text| > 1 {
        MessageLength(text[2..]);
        assert text[1..][0] == text[1];
      }
      assert Scalars(text)[1..] == if IsHighSurrogate(text[0]) && StartsLow(text[1..]) then Scalars(text[2..]) else Scalars(text[1..]);
    }
  }

  /** Code points of the examples in section 7 of RFC 3629, and the replacement character for a lone surrogate. */
  lemma Utf8Examples()
    ensures EncodePoint(0x41) == [0x41] && EncodePoint(0x0391) == [0xCE, 0x91] && EncodePoint(0x2262) == [0xE2, 0x89, 0xA2]
    ensures ComputeCodePoint(0xD84C, 0xDFB4) == 0x233B4 && EncodePoint(0x233B4) == [0xF0, 0xA3, 0x8E, 0xB4]
    ensures Scalars([0xD84C]) == [0xFFFD] && EncodePoint(0xFFFD) == [0xEF, 0xBF, 0xBD]
  {
    assert [0xD84C][1..] == [];
  }
}
