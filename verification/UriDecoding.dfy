// percentDecode (uri.ts, lines 728-747), and that it undoes the encoder.
module UriDecoding {
  import opened Wrappers
  import opened CodeUnits
  import opened Utf
  import opened UriCoding

  // _rEncodedAsHex takes any letter or digit for a hexadecimal one.
  predicate IsTriple(s: Text) {
    |s| >= 3 && s[0] == PERCENT && IsAlnum(s[1]) && IsAlnum(s[2])
  }

  // How far the triples at the beginning go.
  function RunLength(s: Text): (n: nat)
    ensures n <= |s|
  {
    if IsTriple(s) then 3 + RunLength(s[3..]) else 0
  }

  function HexDigitValue(c: int): (d: int)
    ensures -1 <= d < 16
  {
    if 0x30 <= c <= 0x39 then c - 0x30
    else if 0x41 <= c <= 0x46 then c - 0x41 + 10
    else if 0x61 <= c <= 0x66 then c - 0x61 + 10
    else -1
  }

  // The bytes of a run of triples, unless one of them is not hexadecimal.
  function Bytes(run: Text): Option<seq<Byte>> {
    if |run| < 3 then Some([])
    else
      var high, low := HexDigitValue(run[1]), HexDigitValue(run[2]);
      if high < 0 || low < 0 then None
      else
        match Bytes(run[3..])
        case None => None
        case Some(bytes) => Some([high * 16 + low] + bytes)
  }

  function StrictUtf8(bytes: seq<Byte>): Option<seq<CodePoint>>
    decreases |bytes|
  {
    if bytes == [] then Some([])
    else
      var d := DecodePoint(bytes);
      if d.NoPoint? || d.size == 0 || d.size > |bytes| then None
      else
        match StrictUtf8(bytes[d.size..])
        case None => None
        case Some(cps) => Some([d.cp] + cps)
  }

  function Units(cp: CodePoint): (s: Text)
    ensures s != []
  {
    if cp < 0x10000 then [cp] else [0xD800 + (cp - 0x10000) / 0x400, 0xDC00 + (cp - 0x10000) % 0x400]
  }

  function Utf16(cps: seq<CodePoint>): Text {
    if cps == [] then [] else Units(cps[0]) + Utf16(cps[1..])
  }

  // ECMAScript's decodeURIComponent on a run of triples; None is the URIError it throws.
  function NativeDecode(run: Text): Option<Text> {
    match Bytes(run)
    case None => None
    case Some(bytes) => match StrictUtf8(bytes) case None => None case Some(cps) => Some(Utf16(cps))
  }

  // decodeURIComponentGraceful
  function Graceful(run: Text): Text
    decreases |run|
  {
    match NativeDecode(run)
    case Some(t) => t
    case None => if |run| > 3 then run[..3] + Graceful(run[3..]) else run
  }

  /** percentDecode: every longest run of triples is decoded. */
  function PercentDecode(s: Text): Text
    decreases |s|
  {
    if s == [] then []
    else if IsTriple(s) then Graceful(s[..RunLength(s)]) + PercentDecode(s[RunLength(s)..])
    else [s[0]] + PercentDecode(s[1..])
  }

  // Text that is partly encoded.
  datatype Piece = Raw(unit: CodeUnit) | Esc(cp: CodePoint) {
    predicate Sound() {
      match this case Raw(u) => u != PERCENT case Esc(cp) => IsScalar(cp)
    }

    function Shown(): Text {
      match this case Raw(u) => [u] case Esc(cp) => Escapes(EncodePoint(cp))
    }

    function Meant(): Text {
      match this case Raw(u) => [u] case Esc(cp) => Units(cp)
    }
  }

  ghost predicate Sound(ps: seq<Piece>) {
    forall i :: 0 <= i < |ps| ==> ps[i].Sound()
  }

  function Render(ps: seq<Piece>): Text {
    if ps == [] then [] else ps[0].Shown() + Render(ps[1..])
  }

  function Value(ps: seq<Piece>): Text {
    if ps == [] then [] else ps[0].Meant() + Value(ps[1..])
  }

  lemma Regroup<T>(a: seq<T>, b: seq<T>, c: seq<T>)
    ensures a + (b + c) == a + b + c
  {
  }

  lemma {:induction false} PiecesConcat(a: seq<Piece>, b: seq<Piece>)
    ensures Render(a + b) == Render(a) + Render(b) && Value(a + b) == Value(a) + Value(b)
    decreases |a|
  {
    hide Piece.Shown, Piece.Meant;
    if a == [] {
      assert a + b == b;
    } else {
      assert (a + b)[1..] == a[1..] + b && (a + b)[0] == a[0];
      PiecesConcat(a[1..], b);
      Regroup(a[0].Shown(), Render(a[1..]), Render(b));
      Regroup(a[0].Meant(), Value(a[1..]), Value(b));
    }
  }

  // One byte at the front of a run.
  lemma ByteFirst(b: Byte, rest: Text)
    ensures IsTriple(EscapeByte(b) + rest) && RunLength(EscapeByte(b) + rest) == 3 + RunLength(rest)
    ensures Bytes(EscapeByte(b) + rest) == (match Bytes(rest) case None => None case Some(bytes) => Some([b] + bytes))
  {
    var s := EscapeByte(b) + rest;
    assert s[0] == PERCENT && s[1] == UpperHex(b / 16) && s[2] == UpperHex(b % 16) && s[3..] == rest;
    assert HexDigitValue(UpperHex(b / 16)) == b / 16 && HexDigitValue(UpperHex(b % 16)) == b % 16;
  }

  lemma {:induction false} BytesFirst(bytes: seq<Byte>, rest: Text)
    ensures RunLength(Escapes(bytes) + rest) == |Escapes(bytes)| + RunLength(rest)
    ensures Bytes(Escapes(bytes) + rest) == (match Bytes(rest) case None => None case Some(more) => Some(bytes + more))
    ensures bytes != [] ==> IsTriple(Escapes(bytes) + rest)
    decreases |bytes|
  {
    if bytes == [] {
      assert Escapes(bytes) + rest == rest;
      assert forall more: seq<Byte> :: [] + more == more;
    } else {
      var inner := Escapes(bytes[1..]) + rest;
      assert Escapes(bytes) + rest == EscapeByte(bytes[0]) + inner;
      ByteFirst(bytes[0], inner);
      BytesFirst(bytes[1..], rest);
      assert forall more: seq<Byte> :: [bytes[0]] + (bytes[1..] + more) == bytes + more;
    }
  }

  // The escaped pieces at the front.
  function Leading(ps: seq<Piece>): (cps: seq<CodePoint>)
    ensures |cps| <= |ps| && (forall i :: 0 <= i < |cps| ==> ps[i] == Esc(cps[i])) && (|cps| < |ps| ==> ps[|cps|].Raw?)
  {
    if ps == [] || ps[0].Raw? then [] else [ps[0].cp] + Leading(ps[1..])
  }

  lemma {:induction false} LeadingBytes(ps: seq<Piece>, cps: seq<CodePoint>)
    requires |cps| == |ps| && forall i :: 0 <= i < |cps| ==> ps[i] == Esc(cps[i])
    ensures Render(ps) == Escapes(Utf8(cps)) && Value(ps) == Utf16(cps)
    decreases |ps|
  {
    if ps != [] {
      LeadingBytes(ps[1..], cps[1..]);
      EscapesConcat(EncodePoint(cps[0]), Utf8(cps[1..]));
    }
  }

  lemma {:induction false} EscapesConcat(a: seq<Byte>, b: seq<Byte>)
    ensures Escapes(a + b) == Escapes(a) + Escapes(b)
    decreases |a|
  {
    if a == [] {
      assert a + b == b;
    } else {
      assert (a + b)[1..] == a[1..] + b;
      EscapesConcat(a[1..], b);
    }
  }

  lemma {:induction false} StrictRoundTrip(cps: seq<CodePoint>)
    requires forall i :: 0 <= i < |cps| ==> IsScalar(cps[i])
    ensures StrictUtf8(Utf8(cps)) == Some(cps)
    decreases |cps|
  {
    if cps != [] {
      var head, tail := EncodePoint(cps[0]), Utf8(cps[1..]);
      DecodeEncodePoint(cps[0], tail);
      assert Utf8(cps) == head + tail && Utf8(cps) != [];
      assert (head + tail)[|head|..] == tail;
      StrictRoundTrip(cps[1..]);
      assert cps == [cps[0]] + cps[1..];
    }
  }

  /** Decoding what is shown gives what is meant. */
  lemma {:induction false} RenderDecodes(ps: seq<Piece>)
    requires Sound(ps)
    ensures PercentDecode(Render(ps)) == Value(ps)
    decreases |ps|
  {
    RenderDecodesBefore(ps, []);
    assert Render(ps) + [] == Render(ps) && Value(ps) + [] == Value(ps);
  }

  // Also in front of any text that does not go on with an escape.
  lemma {:induction false} RenderDecodesBefore(ps: seq<Piece>, rest: Text)
    requires Sound(ps) && (rest != [] && rest[0] == PERCENT ==> ps != [] && ps[|ps| - 1].Raw?)
    ensures PercentDecode(Render(ps) + rest) == Value(ps) + PercentDecode(rest)
    decreases |ps|
  {
    if ps == [] {
      assert Render(ps) + rest == rest && [] + PercentDecode(rest) == PercentDecode(rest);
    } else if ps[0].Raw? {
      hide PercentDecode, Render, Value;
      SoundTail(ps);
      if ps[1..] == [] {
        NothingShown(rest);
      } else {
        RenderDecodesBefore(ps[1..], rest);
      }
      RawInFront(ps, rest);
    } else {
      hide PercentDecode, Render, Value;
      var cps := Leading(ps);
      var front, back := ps[..|cps|], ps[|cps|..];
      assert ps == front + back;
      assert ps[0] == Esc(cps[0]);
      PiecesConcat(front, back);
      LeadingBytes(front, cps);
      var inner := Render(back) + rest;
      BackStarts(back, rest);
      SoundScalars(ps, cps);
      EscapedRun(cps, inner);
      if back == [] {
        NothingShown(rest);
      } else {
        assert back[|back| - 1] == ps[|ps| - 1];
        RenderDecodesBefore(back, rest);
      }
      Regroup(Escapes(Utf8(cps)), Render(back), rest);
      Regroup(Utf16(cps), Value(back), PercentDecode(rest));
    }
  }

  lemma SoundScalars(ps: seq<Piece>, cps: seq<CodePoint>)
    requires Sound(ps) && |cps| <= |ps| && forall i :: 0 <= i < |cps| ==> ps[i] == Esc(cps[i])
    ensures forall i :: 0 <= i < |cps| ==> IsScalar(cps[i])
  {
    assert forall i :: 0 <= i < |cps| ==> ps[i].Sound();
  }

  lemma SoundTail(ps: seq<Piece>)
    requires Sound(ps) && ps != []
    ensures Sound(ps[1..]) && (ps[1..] != [] ==> ps[1..][|ps[1..]| - 1] == ps[|ps| - 1])
  {
  }

  lemma RawInFront(ps: seq<Piece>, rest: Text)
    requires Sound(ps) && ps != [] && ps[0].Raw?
    requires PercentDecode(Render(ps[1..]) + rest) == Value(ps[1..]) + PercentDecode(rest)
    ensures PercentDecode(Render(ps) + rest) == Value(ps) + PercentDecode(rest)
  {
    hide PercentDecode;
    RawFirst(ps[0].unit, Render(ps[1..]) + rest);
    Regroup([ps[0].unit], Render(ps[1..]), rest);
    Regroup([ps[0].unit], Value(ps[1..]), PercentDecode(rest));
  }

  lemma NothingShown(rest: Text)
    ensures Render([]) + rest == rest && Value([]) + PercentDecode(rest) == PercentDecode(rest)
  {
  }

  lemma RawFirst(c: CodeUnit, rest: Text)
    requires c != PERCENT
    ensures PercentDecode([c] + rest) == [c] + PercentDecode(rest)
  {
    assert ([c] + rest)[1..] == rest;
  }

  lemma BackStarts(back: seq<Piece>, rest: Text)
    requires Sound(back) && (back != [] ==> back[0].Raw?) && (back == [] && rest != [] ==> rest[0] != PERCENT)
    ensures var inner := Render(back) + rest; inner == [] || inner[0] != PERCENT
  {
    assert back != [] ==> back[0].Sound();
  }

  // A run of escapes is decoded as a whole.
  lemma EscapedRun(cps: seq<CodePoint>, rest: Text)
    requires |cps| > 0 && (forall i :: 0 <= i < |cps| ==> IsScalar(cps[i])) && (rest == [] || rest[0] != PERCENT)
    ensures PercentDecode(Escapes(Utf8(cps)) + rest) == Utf16(cps) + PercentDecode(rest)
  {
    var run := Escapes(Utf8(cps));
    assert Utf8(cps) != [];
    BytesFirst(Utf8(cps), rest);
    BytesFirst(Utf8(cps), []);
    assert run + [] == run && Utf8(cps) + [] == Utf8(cps);
    StrictRoundTrip(cps);
    assert (run + rest)[..|run|] == run && (run + rest)[|run|..] == rest;
  }

  // The encoder's output in pieces.
  function PiecesOf(cps: seq<CodePoint>, isPath: bool, isAuthority: bool): seq<Piece> {
    if cps == [] then []
    else [if Plain(cps[0], isPath, isAuthority) then Raw(cps[0]) else Esc(cps[0])] + PiecesOf(cps[1..], isPath, isAuthority)
  }

  lemma {:induction false} EncodedPieces(cps: seq<CodePoint>, isPath: bool, isAuthority: bool)
    requires forall i :: 0 <= i < |cps| ==> IsScalar(cps[i])
    ensures var ps := PiecesOf(cps, isPath, isAuthority);
      Sound(ps) && Render(ps) == EncodePoints(cps, isPath, isAuthority) && Value(ps) == Utf16(cps)
    decreases |cps|
  {
    if cps != [] {
      EncodedPieces(cps[1..], isPath, isAuthority);
    }
  }

  /** UTF-16 text without lone surrogates is its scalar values. */
  lemma {:induction false} ScalarsRoundTrip(s: Text)
    requires WellFormed(s)
    ensures Utf16(Scalars(s)) == s
    decreases |s|
  {
    if s != [] {
      if IsHighSurrogate(s[0]) && StartsLow(s[1..]) {
        ScalarsRoundTrip(s[2..]);
        assert s == [s[0], s[1]] + s[2..];
        assert Units(Scalars(s)[0]) == [s[0], s[1]];
        assert Scalars(s)[1..] == Scalars(s[2..]);
      } else {
        ScalarsRoundTrip(s[1..]);
        assert s == [s[0]] + s[1..];
        assert Scalars(s)[1..] == Scalars(s[1..]);
      }
    }
  }

  // What an encoded component shows and means.
  function PiecesOfText(s: Text, isPath: bool, isAuthority: bool): seq<Piece> {
    PiecesOf(Scalars(s), isPath, isAuthority)
  }

  lemma TextPieces(s: Text, isPath: bool, isAuthority: bool)
    requires WellFormed(s)
    ensures var ps := PiecesOfText(s, isPath, isAuthority);
      Sound(ps) && Encode(s, isPath, isAuthority) == Some(Render(ps)) && Value(ps) == s
  {
    ScalarsAreScalar(s);
    EncodedPieces(Scalars(s), isPath, isAuthority);
    ScalarsRoundTrip(s);
  }

  /** percentDecode undoes the encoder on every text it can encode. */
  lemma DecodeEncode(s: Text, isPath: bool, isAuthority: bool)
    requires Encode(s, isPath, isAuthority).Some?
    ensures PercentDecode(Encode(s, isPath, isAuthority).value) == s
  {
    TextPieces(s, isPath, isAuthority);
    RenderDecodes(PiecesOfText(s, isPath, isAuthority));
  }
}
