// Percent encoding and decoding of URI components (uri.ts, lines 517-603).
module UriCoding {
  import opened Wrappers
  import opened CodeUnits
  import opened Utf
  import UriPercent

  type Text = seq<CodeUnit>

  const PERCENT := 0x25
  const SLASH := 0x2F
  const COLON := 0x3A
  const AT_SIGN := 0x40
  const QUESTION := 0x3F
  const HASH := 0x23

  predicate IsAlnum(c: int) {
    0x61 <= c <= 0x7A || 0x41 <= c <= 0x5A || 0x30 <= c <= 0x39
  }

  // What encodeURIComponentFast leaves as it is.
  predicate Plain(c: int, isPath: bool, isAuthority: bool) {
    || IsAlnum(c) || c == 0x2D || c == 0x2E || c == 0x5F || c == 0x7E
    || (isPath && c == SLASH)
    || (isAuthority && (c == 0x5B || c == 0x5D || c == COLON))
  }

  // encodeTable
  predicate InTable(c: int) {
    c in {COLON, SLASH, QUESTION, HASH, 0x5B, 0x5D, AT_SIGN, 0x21, 0x24, 0x26, 0x27, 0x28, 0x29, 0x2A, 0x2B, 0x2C, 0x3B, 0x3D, 0x20}
  }

  function UpperHex(d: nat): CodeUnit
    requires d < 16
  {
    if d < 10 then 0x30 + d else 0x41 + d - 10
  }

  function EscapeByte(b: Byte): Text {
    [PERCENT, UpperHex(b / 16), UpperHex(b % 16)]
  }

  function Escapes(bytes: seq<Byte>): Text {
    if bytes == [] then [] else EscapeByte(bytes[0]) + Escapes(bytes[1..])
  }

  /** No surrogate is alone. */
  predicate WellFormed(s: Text) {
    if s == [] then true
    else if IsHighSurrogate(s[0]) && StartsLow(s[1..]) then WellFormed(s[2..])
    else !IsHighSurrogate(s[0]) && !IsLowSurrogate(s[0]) && WellFormed(s[1..])
  }

  // What ECMAScript's encodeURIComponent leaves as it is.
  predicate NativePlain(c: int) {
    IsAlnum(c) || c in {0x2D, 0x5F, 0x2E, 0x21, 0x7E, 0x2A, 0x27, 0x28, 0x29}
  }

  function NativePoints(cps: seq<CodePoint>): Text {
    if cps == [] then []
    else (if NativePlain(cps[0]) then [cps[0]] else Escapes(EncodePoint(cps[0]))) + NativePoints(cps[1..])
  }

  // encodeURIComponent; None is the URIError it throws on a lone surrogate.
  function NativeEncode(s: Text): Option<Text> {
    if WellFormed(s) then Some(NativePoints(Scalars(s))) else None
  }

  function EncodePoints(cps: seq<CodePoint>, isPath: bool, isAuthority: bool): Text {
    if cps == [] then []
    else (if Plain(cps[0], isPath, isAuthority) then [cps[0]] else Escapes(EncodePoint(cps[0]))) + EncodePoints(cps[1..], isPath, isAuthority)
  }

  /** The encoder, one code point at a time. */
  function Encode(s: Text, isPath: bool, isAuthority: bool): Option<Text> {
    if WellFormed(s) then Some(EncodePoints(Scalars(s), isPath, isAuthority)) else None
  }

  lemma {:induction false} EncodeConcat(a: seq<CodePoint>, b: seq<CodePoint>, isPath: bool, isAuthority: bool)
    ensures EncodePoints(a + b, isPath, isAuthority) == EncodePoints(a, isPath, isAuthority) + EncodePoints(b, isPath, isAuthority)
    decreases |a|
  {
    if a == [] {
      assert a + b == b;
    } else {
      assert (a + b)[1..] == a[1..] + b;
      EncodeConcat(a[1..], b, isPath, isAuthority);
    }
  }

  lemma {:induction false} WellFormedConcat(a: Text, b: Text)
    requires !(EndsHigh(a) && StartsLow(b))
    ensures WellFormed(a + b) <==> WellFormed(a) && WellFormed(b)
    decreases |a|
  {
    var ab := a + b;
    if a == [] {
      assert ab == b;
    } else if IsHighSurrogate(a[0]) && StartsLow(a[1..]) {
      assert ab[0] == a[0] && ab[1..][0] == a[1];
      assert ab[2..] == a[2..] + b;
      WellFormedConcat(a[2..], b);
    } else {
      assert ab[0] == a[0] && ab[1..] == a[1..] + b;
      assert !(IsHighSurrogate(ab[0]) && StartsLow(ab[1..]));
      WellFormedConcat(a[1..], b);
    }
  }

  // A unit that only the native encoder knows how to write.
  predicate NeedsNative(c: int, isPath: bool, isAuthority: bool) {
    !Plain(c, isPath, isAuthority) && !InTable(c)
  }

  lemma {:induction false} NativeSegment(s: Text, isPath: bool, isAuthority: bool)
    requires forall i :: 0 <= i < |s| ==> NeedsNative(s[i], isPath, isAuthority)
    ensures NativePoints(Scalars(s)) == EncodePoints(Scalars(s), isPath, isAuthority)
    decreases |s|
  {
    if s != [] {
      if IsHighSurrogate(s[0]) && StartsLow(s[1..]) {
        NativeSegment(s[2..], isPath, isAuthority);
        assert Scalars(s)[1..] == Scalars(s[2..]);
      } else {
        NativeSegment(s[1..], isPath, isAuthority);
        assert Scalars(s)[1..] == Scalars(s[1..]);
        assert NeedsNative(s[0], isPath, isAuthority);
      }
    }
  }

  lemma TableEscape(c: CodeUnit, isPath: bool, isAuthority: bool)
    requires InTable(c) && !Plain(c, isPath, isAuthority)
    ensures EncodePoints([c], isPath, isAuthority) == EscapeByte(c) && Scalars([c]) == [c] && WellFormed([c])
  {
    assert EncodePoint(c) == [c] && [c][1..] == [];
    assert Escapes([c]) == EscapeByte(c) + Escapes([c][1..]);
  }

  lemma PlainStays(c: CodeUnit, isPath: bool, isAuthority: bool)
    requires Plain(c, isPath, isAuthority)
    ensures EncodePoints([c], isPath, isAuthority) == [c] && Scalars([c]) == [c] && WellFormed([c])
  {
  }

  // Everything before start has been written; start is no place inside a surrogate pair.
  ghost predicate WrittenUpto(s: Text, start: nat, out: Text, isPath: bool, isAuthority: bool)
    requires start <= |s|
  {
    && Encode(s[..start], isPath, isAuthority) == Some(out)
    && Between(s, start)
  }

  // A place that cannot be inside a surrogate pair.
  ghost predicate Between(s: Text, start: nat)
    requires start <= |s|
  {
    start == 0 || s[start - 1] < 0x80 || (start < |s| && s[start] < 0x80)
  }

  // One unit more.
  lemma WriteUnit(s: Text, pos: nat, out: Text, unit: Text, isPath: bool, isAuthority: bool)
    requires pos < |s| && s[pos] < 0x80 && WrittenUpto(s, pos, out, isPath, isAuthority)
    requires EncodePoints([s[pos]], isPath, isAuthority) == unit && Scalars([s[pos]]) == [s[pos]] && WellFormed([s[pos]])
    ensures WrittenUpto(s, pos + 1, out + unit, isPath, isAuthority)
  {
    assert s[..pos + 1] == s[..pos] + [s[pos]] && s[pos..pos + 1] == [s[pos]];
    Boundary(s, pos);
    WellFormedConcat(s[..pos], [s[pos]]);
    ScalarsConcat(s[..pos], [s[pos]]);
    EncodeConcat(Scalars(s[..pos]), [s[pos]], isPath, isAuthority);
  }

  lemma Boundary(s: Text, start: nat)
    requires start <= |s| && Between(s, start)
    ensures forall end :: start <= end <= |s| ==> !(EndsHigh(s[..start]) && StartsLow(s[start..end]))
  {
  }

  // A delayed piece is written, or the text cannot be encoded.
  lemma WritePiece(s: Text, start: nat, pos: nat, out: Text, isPath: bool, isAuthority: bool)
    requires start <= pos <= |s| && WrittenUpto(s, start, out, isPath, isAuthority)
    requires forall i :: start <= i < pos ==> NeedsNative(s[i], isPath, isAuthority)
    requires pos < |s| ==> s[pos] < 0x80
    ensures NativeEncode(s[start..pos]).None? ==> Encode(s, isPath, isAuthority) == None
    ensures NativeEncode(s[start..pos]).Some? ==>
      Encode(s[..pos], isPath, isAuthority) == Some(out + NativeEncode(s[start..pos]).value)
  {
    var piece := s[start..pos];
    assert s[..pos] == s[..start] + piece && s == s[..pos] + s[pos..];
    Boundary(s, start);
    WellFormedConcat(s[..start], piece);
    ScalarsConcat(s[..start], piece);
    EncodeConcat(Scalars(s[..start]), Scalars(piece), isPath, isAuthority);
    assert forall i :: 0 <= i < |piece| ==> piece[i] == s[start + i];
    NativeSegment(piece, isPath, isAuthority);
    WellFormedConcat(s[..pos], s[pos..]);
  }

  // ---- what the encoder writes is percent-encoding

  lemma PlainIsKept(c: int, isPath: bool, isAuthority: bool)
    ensures Plain(c, isPath, isAuthority) <==> UriPercent.Kept(c, isPath, isAuthority)
  {
  }

  lemma EscapeShown(b: Byte)
    ensures UriPercent.IsEscape(EscapeByte(b), b)
  {
  }

  lemma {:induction false} EscapesShown(bytes: seq<Byte>)
    ensures |Escapes(bytes)| == 3 * |bytes|
    ensures forall i :: 0 <= i < |bytes| ==> UriPercent.IsEscape(Escapes(bytes)[3 * i..3 * i + 3], bytes[i])
  {
    hide EscapeByte, UriPercent.IsEscape;
    if bytes != [] {
      var head, tail := EscapeByte(bytes[0]), Escapes(bytes[1..]);
      EscapeLength(bytes[0]);
      EscapesShown(bytes[1..]);
      forall i | 0 <= i < |bytes| ensures UriPercent.IsEscape(Escapes(bytes)[3 * i..3 * i + 3], bytes[i]) {
        if i == 0 {
          EscapeShown(bytes[0]);
          assert (head + tail)[0..3] == head;
        } else {
          assert (head + tail)[3 * i..3 * i + 3] == tail[3 * (i - 1)..3 * (i - 1) + 3];
          assert bytes[i] == bytes[1..][i - 1];
        }
      }
    }
  }

  lemma EscapeLength(b: Byte)
    ensures |EscapeByte(b)| == 3
  {
  }

  lemma {:induction false} PointsShown(cps: seq<CodePoint>, isPath: bool, isAuthority: bool)
    ensures UriPercent.Shows(cps, EncodePoints(cps, isPath, isAuthority), isPath, isAuthority)
    decreases |cps|
  {
    hide Plain, UriPercent.Kept, UriPercent.IsEscape, Escapes, EncodePoint;
    if cps != [] {
      var tail := EncodePoints(cps[1..], isPath, isAuthority);
      var t := EncodePoints(cps, isPath, isAuthority);
      PointsShown(cps[1..], isPath, isAuthority);
      PlainIsKept(cps[0], isPath, isAuthority);
      if Plain(cps[0], isPath, isAuthority) {
        assert t[1..] == tail;
      } else {
        var bytes := EncodePoint(cps[0]);
        var head := Escapes(bytes);
        EscapesShown(bytes);
        assert t == head + tail && t[3 * |bytes|..] == tail;
        forall i | 0 <= i < |bytes| ensures UriPercent.IsEscape(t[3 * i..3 * i + 3], bytes[i]) {
          assert t[3 * i..3 * i + 3] == head[3 * i..3 * i + 3];
        }
      }
    }
  }

  lemma PairInFront(s: Text)
    requires |s| >= 2 && IsHighSurrogate(s[0]) && IsLowSurrogate(s[1])
    ensures UriPercent.Paired(s) <==> UriPercent.Paired(s[2..])
  {
    var tail := s[2..];
    assert forall i :: 0 <= i < |tail| ==> tail[i] == s[i + 2];
    assert UriPercent.Paired(tail) ==> forall i :: 2 <= i < |s| ==> s[i] == tail[i - 2];
  }

  lemma UnitInFront(s: Text)
    requires s != [] && !(IsHighSurrogate(s[0]) && |s| > 1 && IsLowSurrogate(s[1]))
    ensures UriPercent.Paired(s) <==> !IsHighSurrogate(s[0]) && !IsLowSurrogate(s[0]) && UriPercent.Paired(s[1..])
  {
    var tail := s[1..];
    assert forall i :: 0 <= i < |tail| ==> tail[i] == s[i + 1];
    assert UriPercent.Paired(tail) ==> forall i :: 1 <= i < |s| ==> s[i] == tail[i - 1];
  }

  lemma {:induction false} WellFormedIsPaired(s: Text)
    ensures WellFormed(s) <==> UriPercent.Paired(s)
    decreases |s|
  {
    if s != [] {
      if IsHighSurrogate(s[0]) && StartsLow(s[1..]) {
        assert s[1..][0] == s[1];
        WellFormedIsPaired(s[2..]);
        PairInFront(s);
      } else {
        WellFormedIsPaired(s[1..]);
        assert forall i :: 1 <= i < |s| ==> s[i] == s[1..][i - 1];
        UnitInFront(s);
      }
    }
  }

  /** Without a lone surrogate the encoder shows the code points, percent-encoded; with one it fails. */
  lemma EncodeShows(s: Text, isPath: bool, isAuthority: bool)
    ensures var r := Encode(s, isPath, isAuthority);
      && (r.Some? <==> UriPercent.Paired(s))
      && (r.Some? ==> UriPercent.Shows(Scalars(s), r.value, isPath, isAuthority))
  {
    hide UriPercent.Shows, UriPercent.Paired, WellFormed, EncodePoints, Scalars;
    WellFormedIsPaired(s);
    PointsShown(Scalars(s), isPath, isAuthority);
  }

  /** encodeURIComponentFast: writes piecewise, but the same as the encoder that goes by code points. */
  method EncodeURIComponentFast(uriComponent: Text, isPath: bool, isAuthority: bool) returns (r: Option<Text>)
    ensures r == Encode(uriComponent, isPath, isAuthority)
    ensures r.Some? <==> UriPercent.Paired(uriComponent)
    ensures r.Some? ==> UriPercent.Shows(Scalars(uriComponent), r.value, isPath, isAuthority)
  {
    hide UriPercent.Shows, UriPercent.Paired, Encode, NativeEncode, EncodePoints, Plain, InTable, WellFormed, Scalars, EscapeByte;
    var res: Option<Text> := None;
    var nativeEncodePos := -1;
    var s := uriComponent;
    EncodeShows(s, isPath, isAuthority);
    NothingWritten(s, isPath, isAuthority);
    for pos := 0 to |s|
      invariant -1 <= nativeEncodePos < pos || nativeEncodePos == -1
      invariant res.None? ==> nativeEncodePos == -1
      invariant var start := if nativeEncodePos == -1 then pos else nativeEncodePos;
        WrittenUpto(s, start, if res.None? then s[..start] else res.value, isPath, isAuthority)
      invariant forall i :: 0 <= nativeEncodePos <= i < pos ==> NeedsNative(s[i], isPath, isAuthority)
    {
      var code := s[pos];
      ghost var start := if nativeEncodePos == -1 then pos else nativeEncodePos;
      var native := nativeEncodePos != -1;
      Ascii(code, isPath, isAuthority);
      if Plain(code, isPath, isAuthority) || InTable(code) {
        if native {
          WritePiece(s, start, pos, res.value, isPath, isAuthority);
          var piece := NativeEncode(s[nativeEncodePos..pos]);
          if piece.None? {
            return None;
          }
          PieceWritten(s, start, pos, res.value, isPath, isAuthority);
          res := Some(res.value + piece.value);
          nativeEncodePos := -1;
        }
        ghost var out := if res.None? then s[..pos] else res.value;
        if Plain(code, isPath, isAuthority) {
          PlainStays(code, isPath, isAuthority);
          WriteUnit(s, pos, out, [code], isPath, isAuthority);
          assert s[..pos + 1] == s[..pos] + [code];
          if res.Some? {
            res := Some(res.value + [code]);
          }
        } else {
          TableEscape(code, isPath, isAuthority);
          WriteUnit(s, pos, out, EscapeByte(code), isPath, isAuthority);
          res := Some((if res.None? then s[..pos] else res.value) + EscapeByte(code));
        }
      } else {
        if res.None? {
          res := Some(s[..pos]);
        }
        if nativeEncodePos == -1 {
          nativeEncodePos := pos;
        }
      }
    }
    assert s[..|s|] == s;
    if nativeEncodePos != -1 {
      WritePiece(s, nativeEncodePos, |s|, res.value, isPath, isAuthority);
      var piece := NativeEncode(s[nativeEncodePos..]);
      assert s[nativeEncodePos..|s|] == s[nativeEncodePos..];
      if piece.None? {
        return None;
      }
      return Some(res.value + piece.value);
    }
    return Some(if res.Some? then res.value else uriComponent);
  }

  lemma NothingWritten(s: Text, isPath: bool, isAuthority: bool)
    ensures WrittenUpto(s, 0, s[..0], isPath, isAuthority)
  {
  }

  lemma Ascii(c: CodeUnit, isPath: bool, isAuthority: bool)
    ensures Plain(c, isPath, isAuthority) || InTable(c) ==> c < 0x80
    ensures !Plain(c, isPath, isAuthority) && !InTable(c) ==> NeedsNative(c, isPath, isAuthority)
  {
  }

  lemma PieceWritten(s: Text, start: nat, pos: nat, out: Text, isPath: bool, isAuthority: bool)
    requires start < pos < |s| && WrittenUpto(s, start, out, isPath, isAuthority)
    requires forall i :: start <= i < pos ==> NeedsNative(s[i], isPath, isAuthority)
    requires s[pos] < 0x80 && NativeEncode(s[start..pos]).Some?
    ensures WrittenUpto(s, pos, out + NativeEncode(s[start..pos]).value, isPath, isAuthority)
  {
    WritePiece(s, start, pos, out, isPath, isAuthority);
  }
}
