// When parsing what a URI prints gives the URI back.
module UriRoundTrip {
  import opened Wrappers
  import opened CodeUnits
  import opened Utf
  import opened UriCoding
  import opened UriDecoding
  import opened Uri

  // None of the units.
  ghost predicate Free(s: Text, stops: set<int>) {
    forall i :: 0 <= i < |s| ==> s[i] !in stops
  }

  lemma FreeConcat(a: Text, b: Text, stops: set<int>)
    ensures Free(a + b, stops) <==> Free(a, stops) && Free(b, stops)
  {
    assert forall i :: 0 <= i < |a| ==> (a + b)[i] == a[i];
    assert forall i :: 0 <= i < |b| ==> (a + b)[|a| + i] == b[i];
  }

  lemma UntilEnds(x: Text, y: Text, stops: set<int>)
    requires Free(x, stops) && (y == [] || y[0] in stops)
    ensures Until(x + y, stops) == |x| && (x + y)[..|x|] == x && (x + y)[|x|..] == y
  {
    var s := x + y;
    var i := Until(s, stops);
    assert forall k :: 0 <= k < |x| ==> s[k] == x[k];
    assert i < |s| ==> s[i] in stops;
    assert y != [] ==> s[|x|] == y[0];
  }

  // Encoded text.

  predicate Encoded(c: int, isPath: bool, isAuthority: bool) {
    c == PERCENT || Plain(c, isPath, isAuthority)
  }

  ghost predicate AllEncoded(t: Text, isPath: bool, isAuthority: bool) {
    forall i :: 0 <= i < |t| ==> Encoded(t[i], isPath, isAuthority)
  }

  lemma AllEncodedConcat(a: Text, b: Text, isPath: bool, isAuthority: bool)
    requires AllEncoded(a, isPath, isAuthority) && AllEncoded(b, isPath, isAuthority)
    ensures AllEncoded(a + b, isPath, isAuthority)
  {
    hide Encoded;
  }

  lemma {:induction false} EscapedUnits(bytes: seq<Byte>, isPath: bool, isAuthority: bool)
    ensures AllEncoded(Escapes(bytes), isPath, isAuthority)
  {
    if bytes != [] {
      EscapedUnits(bytes[1..], isPath, isAuthority);
      AllEncodedConcat(EscapeByte(bytes[0]), Escapes(bytes[1..]), isPath, isAuthority);
    }
  }

  lemma {:induction false} EncodedUnits(cps: seq<CodePoint>, isPath: bool, isAuthority: bool)
    ensures AllEncoded(EncodePoints(cps, isPath, isAuthority), isPath, isAuthority)
    decreases |cps|
  {
    hide Encoded, EncodePoint, Escapes, Plain;
    if cps != [] {
      EncodedUnits(cps[1..], isPath, isAuthority);
      EscapedUnits(EncodePoint(cps[0]), isPath, isAuthority);
      PlainIsEncoded(cps[0], isPath, isAuthority);
      var head: Text := if Plain(cps[0], isPath, isAuthority) then [cps[0]] else Escapes(EncodePoint(cps[0]));
      AllEncodedConcat(head, EncodePoints(cps[1..], isPath, isAuthority), isPath, isAuthority);
    }
  }

  lemma PlainIsEncoded(c: int, isPath: bool, isAuthority: bool)
    ensures Plain(c, isPath, isAuthority) ==> 0 <= c < 0x80 && Encoded(c, isPath, isAuthority)
  {
  }

  const QUERY_STOPS: set<int> := {QUESTION, HASH}
  const AUTHORITY_STOPS: set<int> := {SLASH, QUESTION, HASH}

  lemma UnitFree(c: int, isPath: bool, isAuthority: bool)
    requires Encoded(c, isPath, isAuthority)
    ensures c !in QUERY_STOPS && c !in LINE_TERMINATORS && (!isPath ==> c !in AUTHORITY_STOPS)
  {
  }

  lemma AllFree(t: Text, isPath: bool, isAuthority: bool)
    requires AllEncoded(t, isPath, isAuthority)
    ensures Free(t, QUERY_STOPS) && Free(t, {HASH}) && Free(t, LINE_TERMINATORS) && (!isPath ==> Free(t, AUTHORITY_STOPS))
  {
    forall i | 0 <= i < |t|
      ensures t[i] !in QUERY_STOPS && t[i] !in LINE_TERMINATORS && (!isPath ==> t[i] !in AUTHORITY_STOPS)
    {
      UnitFree(t[i], isPath, isAuthority);
    }
  }

  // A component that is not a path holds no delimiter once encoded.
  lemma EncodedFree(s: Text, isPath: bool, isAuthority: bool)
    requires Encode(s, isPath, isAuthority).Some?
    ensures var t := Encode(s, isPath, isAuthority).value;
      Free(t, QUERY_STOPS) && Free(t, {HASH}) && Free(t, LINE_TERMINATORS) && (!isPath ==> Free(t, AUTHORITY_STOPS))
  {
    hide EncodePoints, Scalars, AllEncoded, Free;
    EncodedUnits(Scalars(s), isPath, isAuthority);
    AllFree(EncodePoints(Scalars(s), isPath, isAuthority), isPath, isAuthority);
  }

  // Slashes at the beginning of a path stay where they are, and no others come in.
  lemma PathSlashes(path: Text)
    requires Encode(path, true, false).Some?
    ensures var t := Encode(path, true, false).value;
      && (t == [] <==> path == []) && (path != [] ==> (t[0] == SLASH <==> path[0] == SLASH))
      && (TWO_SLASHES <= t <==> TWO_SLASHES <= path)
  {
    var t := Encode(path, true, false).value;
    PathSlash(path);
    if path != [] && path[0] == SLASH {
      assert Scalars(path)[1..] == Scalars(path[1..]);
      assert t == [SLASH] + Encode(path[1..], true, false).value;
      PathSlash(path[1..]);
    }
  }

  lemma PathSlash(path: Text)
    requires Encode(path, true, false).Some?
    ensures var t := Encode(path, true, false).value;
      (t == [] <==> path == []) && (path != [] ==> (t[0] == SLASH <==> path[0] == SLASH))
  {
    if path != [] {
      var cp := Scalars(path)[0];
      assert EncodePoint(cp) != [];
      assert !Plain(cp, true, false) ==> Escapes(EncodePoint(cp))[0] == PERCENT;
    }
  }

  lemma DriveSlashes(path: Text)
    ensures var t := LowerDrive(path);
      (path != [] ==> (t[0] == SLASH <==> path[0] == SLASH)) && (TWO_SLASHES <= t <==> TWO_SLASHES <= path)
  {
  }

  // Authorities.

  // The units behind the last colon of a host, with the colon.
  function Port(host: Text): Text {
    var i := LastIndexOf(host, COLON);
    if i < 0 then [] else host[i..]
  }

  predicate Harmless(p: Piece) {
    p.Raw? ==> p.unit !in AUTHORITY_STOPS && p.unit != PERCENT
  }

  // Everything of a printed authority but the port: what it shows and what it means.
  ghost predicate Shows(text: Text, ps: seq<Piece>, means: Text) {
    Sound(ps) && AllHarmless(ps) && Render(ps) == text && Value(ps) == means
  }

  ghost predicate AllHarmless(ps: seq<Piece>) {
    forall i :: 0 <= i < |ps| ==> Harmless(ps[i])
  }

  lemma ShowsConcat(a: Text, ps: seq<Piece>, m: Text, b: Text, qs: seq<Piece>, n: Text)
    requires Shows(a, ps, m) && Shows(b, qs, n)
    ensures Shows(a + b, ps + qs, m + n)
  {
    hide Harmless, Render, Value;
    PiecesConcat(ps, qs);
    var all := ps + qs;
    forall i | 0 <= i < |all| ensures Harmless(all[i]) && all[i].Sound() {
      assert all[i] == if i < |ps| then ps[i] else qs[i - |ps|];
    }
  }

  lemma ShowsUnit(c: CodeUnit)
    requires c == COLON || c == AT_SIGN
    ensures Shows([c], [Raw(c)], [c])
  {
    assert [Raw(c)][1..] == [];
    assert Render([Raw(c)]) == [c] + Render([]);
    assert Value([Raw(c)]) == [c] + Value([]);
  }

  lemma ShowsText(s: Text, isAuthority: bool)
    requires Encode(s, false, isAuthority).Some?
    ensures Shows(Encode(s, false, isAuthority).value, PiecesOfText(s, false, isAuthority), s)
  {
    hide EncodePoints, PiecesOf, Harmless, Render, Value, Scalars, WellFormed;
    TextPieces(s, false, isAuthority);
    PiecesHarmless(Scalars(s), isAuthority);
    EncodedIsWellFormed(s, isAuthority);
    assert PiecesOfText(s, false, isAuthority) == PiecesOf(Scalars(s), false, isAuthority);
  }

  lemma EncodedIsWellFormed(s: Text, isAuthority: bool)
    ensures Encode(s, false, isAuthority).Some? <==> WellFormed(s)
  {
  }

  lemma PieceHarmless(cp: CodePoint, isAuthority: bool)
    ensures Harmless(if Plain(cp, false, isAuthority) then Raw(cp) else Esc(cp))
  {
  }

  lemma OneMoreHarmless(p: Piece, ps: seq<Piece>)
    requires Harmless(p) && AllHarmless(ps)
    ensures AllHarmless([p] + ps)
  {
    hide Harmless;
  }

  lemma {:induction false} PiecesHarmless(cps: seq<CodePoint>, isAuthority: bool)
    ensures AllHarmless(PiecesOf(cps, false, isAuthority))
    decreases |cps|
  {
    if cps != [] {
      PiecesHarmless(cps[1..], isAuthority);
      PieceHarmless(cps[0], isAuthority);
      OneMoreHarmless(if Plain(cps[0], false, isAuthority) then Raw(cps[0]) else Esc(cps[0]), PiecesOf(cps[1..], false, isAuthority));
    }
  }

  lemma {:induction false} ShowsFree(text: Text, ps: seq<Piece>, means: Text)
    requires Shows(text, ps, means)
    ensures Free(text, AUTHORITY_STOPS)
    decreases |ps|
  {
    if ps != [] {
      var p, more := ps[0], ps[1..];
      assert Harmless(p) && p.Sound();
      assert forall i :: 0 <= i < |more| ==> more[i] == ps[i + 1];
      assert Shows(Render(more), more, Value(more));
      ShowsFree(Render(more), more, Value(more));
      if p.Esc? {
        EscapedUnits(EncodePoint(p.cp), false, false);
        AllFree(Escapes(EncodePoint(p.cp)), false, false);
      }
      FreeConcat(p.Shown(), Render(more), AUTHORITY_STOPS);
    }
  }

  lemma UserShows(user: Text) returns (ps: seq<Piece>)
    requires FormatUser(user, false).Some?
    ensures Shows(FormatUser(user, false).value, ps, user)
  {
    hide Shows, Encode;
    var i := LastIndexOf(user, COLON);
    if i < 0 {
      ShowsText(user, false);
      ps := PiecesOfText(user, false, false);
    } else {
      var a, b := user[..i], user[i + 1..];
      ShowsText(a, false);
      ShowsText(b, true);
      ShowsUnit(COLON);
      ShowsConcat(Encode(a, false, false).value, PiecesOfText(a, false, false), a, [COLON], [Raw(COLON)], [COLON]);
      ps := PiecesOfText(a, false, false) + [Raw(COLON)] + PiecesOfText(b, false, true);
      ShowsConcat(Encode(a, false, false).value + [COLON], PiecesOfText(a, false, false) + [Raw(COLON)], a + [COLON],
        Encode(b, false, true).value, PiecesOfText(b, false, true), b);
      assert user == a + [COLON] + b;
    }
  }

  lemma HostShows(host: Text) returns (text: Text, ps: seq<Piece>, means: Text)
    requires FormatHost(host, false).Some?
    ensures Shows(text, ps, means) && FormatHost(host, false).value == text + Port(host) && host == means + Port(host)
  {
    hide Shows, Encode;
    var i := LastIndexOf(host, COLON);
    means := if i < 0 then host else host[..i];
    ShowsText(means, true);
    text, ps := Encode(means, false, true).value, PiecesOfText(means, false, true);
    assert text + [] == text && means + [] == means;
  }

  // The part of an authority up to its host.
  function UserPart(authority: Text): Text {
    authority[..|authority| - |Host(authority)|]
  }

  lemma AuthorityShows(authority: Text, lower: Text -> Text) returns (text: Text, ps: seq<Piece>, means: Text)
    requires FormatAuthority(authority, lower, false).Some?
    ensures var host := lower(Host(authority));
      && Shows(text, ps, means) && FormatAuthority(authority, lower, false).value == text + Port(host)
      && UserPart(authority) + host == means + Port(host)
  {
    hide Shows, FormatHost, FormatUser, Port;
    var host := lower(Host(authority));
    var i := IndexOf(authority, AT_SIGN);
    text, ps, means := HostShows(host);
    if i == |authority| {
      assert UserPart(authority) == [] && [] + host == host;
    } else {
      var user := authority[..i];
      var us := UserShows(user);
      var u := FormatUser(user, false).value;
      ShowsUnit(AT_SIGN);
      ShowsConcat(u, us, user, [AT_SIGN], [Raw(AT_SIGN)], [AT_SIGN]);
      ShowsConcat(u + [AT_SIGN], us + [Raw(AT_SIGN)], user + [AT_SIGN], text, ps, means);
      assert UserPart(authority) == user + [AT_SIGN];
      assert u + [AT_SIGN] + (text + Port(host)) == (u + [AT_SIGN] + text) + Port(host);
      assert user + [AT_SIGN] + (means + Port(host)) == (user + [AT_SIGN] + means) + Port(host);
      text, ps, means := u + [AT_SIGN] + text, us + [Raw(AT_SIGN)] + ps, user + [AT_SIGN] + means;
    }
  }

  // Decoding does not make a text longer.

  lemma {:induction false} StrictLength(bytes: seq<Byte>)
    ensures StrictUtf8(bytes).Some? ==> |Utf16(StrictUtf8(bytes).value)| <= |bytes|
    decreases |bytes|
  {
    if bytes != [] {
      var d := DecodePoint(bytes);
      if d.Point? && 0 < d.size <= |bytes| {
        StrictLength(bytes[d.size..]);
        assert d.cp >= 0x10000 ==> d.size == 4;
        if StrictUtf8(bytes[d.size..]).Some? {
          var cps := StrictUtf8(bytes[d.size..]).value;
          assert ([d.cp] + cps)[1..] == cps;
        }
      }
    }
  }

  lemma {:induction false} BytesLength(run: Text)
    ensures Bytes(run).Some? ==> 3 * |Bytes(run).value| <= |run|
  {
    if |run| >= 3 {
      BytesLength(run[3..]);
    }
  }

  lemma {:induction false} GracefulLength(run: Text)
    ensures |Graceful(run)| < |run| || Graceful(run) == run
    decreases |run|
  {
    BytesLength(run);
    if Bytes(run).Some? {
      StrictLength(Bytes(run).value);
    }
    if NativeDecode(run).None? && |run| > 3 {
      GracefulLength(run[3..]);
      assert run == run[..3] + run[3..];
    }
  }

  /** Decoding makes a text shorter or leaves it as it is. */
  lemma {:induction false} DecodeLength(s: Text)
    ensures |PercentDecode(s)| < |s| || PercentDecode(s) == s
    decreases |s|
  {
    hide Graceful, IsTriple;
    if s != [] {
      var n := if IsTriple(s) then RunLength(s) else 1;
      if IsTriple(s) {
        RunStarts(s);
        GracefulLength(s[..n]);
      }
      DecodeLength(s[n..]);
      Shorter(s, n, if IsTriple(s) then Graceful(s[..n]) else [s[0]], PercentDecode(s[n..]));
    }
  }

  lemma RunStarts(s: Text)
    requires IsTriple(s)
    ensures RunLength(s) >= 3
  {
  }

  lemma Shorter(s: Text, n: nat, a: Text, b: Text)
    requires n <= |s| && (|a| < n || a == s[..n]) && (|b| < |s| - n || b == s[n..])
    ensures |a + b| < |s| || a + b == s
  {
  }

  /** The port is written as it is, so it must not end the authority, and decoding must leave it alone. */
  predicate SafePort(host: Text) {
    (forall i :: 0 <= i < |Port(host)| ==> Port(host)[i] !in AUTHORITY_STOPS) && PercentDecode(Port(host)) == Port(host)
  }

  // What is read back of a printed authority, up to position k of the port.
  lemma AuthorityDecoded(text: Text, ps: seq<Piece>, means: Text, port: Text, k: nat)
    requires Shows(text, ps, means) && k <= |port| && (port != [] ==> port[0] == COLON)
    ensures PercentDecode(text + port[..k]) == means + PercentDecode(port[..k])
  {
    RenderDecodesBefore(ps, port[..k]);
  }

  // The pieces of a printed URI.
  datatype Printed = Printed(slashes: Text, authority: Text, path: Text, query: Text, fragment: Text) {
    function Tail(): Text {
      query + fragment
    }

    function Behind(): Text {
      path + Tail()
    }

    function Text(scheme: Text): Text {
      scheme + ([COLON] + (slashes + (authority + Behind())))
    }
  }

  // What each piece of a printed URI is.
  ghost predicate Prints(u: Components, lower: Text -> Text, p: Printed) {
    && p.slashes == (if u.authority != [] || u.scheme == FILE then TWO_SLASHES else [])
    && (if u.authority == [] then p.authority == [] else Some(p.authority) == FormatAuthority(u.authority, lower, false))
    && Some(p.path) == Encode(LowerDrive(u.path), true, false)
    && (if u.query == [] then p.query == [] else Encode(u.query, false, false).Some? && p.query == [QUESTION] + Encode(u.query, false, false).value)
    && (if u.fragment == [] then p.fragment == []
        else Encode(u.fragment, false, false).Some? && p.fragment == [HASH] + Encode(u.fragment, false, false).value)
  }

  lemma PrintedParts(u: Components, lower: Text -> Text) returns (p: Printed)
    requires u.scheme != [] && Formatted(u, lower, false).Some?
    ensures Prints(u, lower, p) && Formatted(u, lower, false).value == p.Text(u.scheme)
  {
    EncodeNothing();
    hide Encode, FormatAuthority, LowerDrive;
    var slashes := When(u.authority != [] || u.scheme == FILE, Some(TWO_SLASHES)).value;
    var authority := When(u.authority != [], FormatAuthority(u.authority, lower, false)).value;
    var path := When(u.path != [], Encode(LowerDrive(u.path), true, false)).value;
    var query := When(u.query != [], Append(Some([QUESTION]), Encode(u.query, false, false))).value;
    var fragment := When(u.fragment != [], Append(Some([HASH]), Encode(u.fragment, false, false))).value;
    p := Printed(slashes, authority, path, query, fragment);
    SixParts(u.scheme, [COLON], slashes, authority, path, query, fragment);
    DriveOfNothing(u.path);
  }

  lemma DriveOfNothing(path: Text)
    ensures path == [] ==> LowerDrive(path) == []
  {
  }

  lemma EncodeNothing()
    ensures Encode([], true, false) == Some([])
  {
  }

  lemma SixParts(s: Text, c: Text, l: Text, a: Text, p: Text, q: Text, f: Text)
    ensures s + c + l + a + p + q + f == s + (c + (l + (a + (p + (q + f)))))
  {
  }

  // Splitting.

  // A scheme holds no delimiter.
  lemma SchemeFree(scheme: Text)
    requires SchemeOk(scheme)
    ensures Free(scheme, {COLON, SLASH, QUESTION, HASH}) && scheme != []
  {
    forall i | 0 <= i < |scheme| ensures scheme[i] !in {COLON, SLASH, QUESTION, HASH} {
      assert IsWordUnit(scheme[i]) || scheme[i] == 0x2B || scheme[i] == 0x2E || scheme[i] == 0x2D;
    }
  }

  lemma SplitScheme(scheme: Text, rest: Text)
    requires SchemeOk(scheme)
    ensures Split(scheme + ([COLON] + rest)) == SplitHier(scheme, rest)
  {
    SchemeFree(scheme);
    UntilEnds(scheme, [COLON] + rest, {COLON, SLASH, QUESTION, HASH});
    var s := scheme + ([COLON] + rest);
    assert s[|scheme|] == COLON && s[|scheme| + 1..] == rest;
  }

  // An authority goes up to the first of its delimiters.
  lemma SplitAuthority(scheme: Text, authority: Text, rest: Text)
    requires Free(authority, AUTHORITY_STOPS) && (rest == [] || rest[0] in AUTHORITY_STOPS)
    ensures SplitHier(scheme, TWO_SLASHES + (authority + rest)) == SplitPath(scheme, authority, rest)
  {
    var s := TWO_SLASHES + (authority + rest);
    assert TWO_SLASHES <= s && s[2..] == authority + rest;
    UntilEnds(authority, rest, AUTHORITY_STOPS);
  }

  lemma SplitNoAuthority(scheme: Text, rest: Text)
    requires !(TWO_SLASHES <= rest)
    ensures SplitHier(scheme, rest) == SplitPath(scheme, [], rest)
  {
  }

  // The rest of a printed URI.
  lemma SplitRest(u: Components, lower: Text -> Text, p: Printed, scheme: Text, authority: Text)
    requires Prints(u, lower, p)
    ensures var m := SplitPath(scheme, authority, p.Behind());
      && m.scheme == scheme && m.authority == authority && m.path == p.path
      && PercentDecode(m.path) == LowerDrive(u.path) && PercentDecode(m.query) == u.query && PercentDecode(m.fragment) == u.fragment
  {
    hide Encode, LowerDrive, PercentDecode, FormatAuthority;
    DecodeNothing();
    EncodedFree(LowerDrive(u.path), true, false);
    DecodeEncode(LowerDrive(u.path), true, false);
    TailStarts(u, lower, p);
    UntilEnds(p.path, p.Tail(), QUERY_STOPS);
    SplitTheTail(u, lower, p, scheme, authority);
  }

  lemma DecodeNothing()
    ensures PercentDecode([]) == []
  {
  }

  lemma TailStarts(u: Components, lower: Text -> Text, p: Printed)
    requires Prints(u, lower, p)
    ensures p.Tail() == [] || p.Tail()[0] in QUERY_STOPS
  {
    hide Encode, LowerDrive, FormatAuthority;
  }

  lemma SplitTheTail(u: Components, lower: Text -> Text, p: Printed, scheme: Text, authority: Text)
    requires Prints(u, lower, p)
    ensures var m := SplitTail(scheme, authority, p.path, p.Tail());
      && m.scheme == scheme && m.authority == authority && m.path == p.path
      && PercentDecode(m.query) == u.query && PercentDecode(m.fragment) == u.fragment
  {
    hide Encode, LowerDrive, PercentDecode, FormatAuthority;
    DecodeNothing();
    var s := p.Tail();
    if u.query != [] {
      var q := Encode(u.query, false, false).value;
      EncodedFree(u.query, false, false);
      DecodeEncode(u.query, false, false);
      UntilEnds(q, p.fragment, {HASH});
      assert s[1..] == q + p.fragment && s[0] == QUESTION;
      assert s[1..1 + |q|] == q && s[1 + |q|..] == p.fragment;
    } else {
      assert s == p.fragment;
    }
    if u.fragment != [] {
      var f := Encode(u.fragment, false, false).value;
      EncodedFree(u.fragment, false, false);
      DecodeEncode(u.fragment, false, false);
      UntilEnds(f, [], LINE_TERMINATORS);
      assert f + [] == f && p.fragment[1..] == f;
    }
  }

  // A path behind an authority starts with a slash, and so does not lengthen it.
  lemma BehindAuthority(u: Components, lower: Text -> Text, p: Printed)
    requires Prints(u, lower, p) && Validated(u) && (u.authority != [] || u.scheme == FILE)
    ensures p.Behind() == [] || p.Behind()[0] in AUTHORITY_STOPS
  {
    hide Encode, LowerDrive, FormatAuthority;
    PathSlashes(LowerDrive(u.path));
    DriveSlashes(u.path);
    TailStarts(u, lower, p);
    DriveOfNothing(u.path);
  }

  lemma BehindNothing(u: Components, lower: Text -> Text, p: Printed)
    requires Prints(u, lower, p) && Validated(u) && u.authority == [] && u.scheme != FILE
    ensures !(TWO_SLASHES <= p.Behind())
  {
    hide Encode, LowerDrive, FormatAuthority;
    PathSlashes(LowerDrive(u.path));
    DriveSlashes(u.path);
    TailStarts(u, lower, p);
    assert |p.path| >= 2 ==> p.Behind()[..2] == p.path[..2];
    assert |p.path| == 1 ==> p.Behind()[1..] == p.Tail();
    assert |p.path| == 0 ==> p.Behind() == p.Tail();
  }

  // Putting the components back together.
  lemma CreateAgain(u: Components, authority: Text, path: Text)
    requires Validated(u)
    ensures Create(u.scheme, authority, path, u.query, u.fragment, false) == Ok(u) <==>
      authority == u.authority && (path == u.path || ReferenceResolution(u.scheme, path) == u.path)
  {
  }

  lemma DriveResolution(u: Components)
    requires Validated(u)
    ensures ReferenceResolution(u.scheme, LowerDrive(u.path)) == u.path <==> !UpperDrive(u.path)
  {
    var d := LowerDrive(u.path);
    assert |ReferenceResolution(u.scheme, d)| >= |d|;
    if u.path != [] {
      DriveSlashes(u.path);
    }
  }

  // Reading a printed URI without an authority.
  lemma ParsePlain(u: Components, lower: Text -> Text)
    requires Validated(u) && Formatted(u, lower, false).Some? && u.authority == []
    ensures Parse(Formatted(u, lower, false).value, false) == Ok(u) <==> !UpperDrive(u.path)
  {
    hide Formatted, Split, SplitHier, SplitPath, Encode, LowerDrive, PercentDecode, Create, UpperDrive, SchemeOk, ReferenceResolution, Printed.Behind;
    SchemeNonEmpty(u);
    var p := PrintedParts(u, lower);
    var rest := p.Behind();
    assert [] + rest == rest;
    SplitScheme(u.scheme, p.slashes + ([] + rest));
    if u.scheme == FILE {
      BehindAuthority(u, lower, p);
      SplitAuthority(u.scheme, [], rest);
    } else {
      BehindNothing(u, lower, p);
      SplitNoAuthority(u.scheme, rest);
    }
    SplitRest(u, lower, p, u.scheme, []);
    DecodeNothing();
    CreateAgain(u, [], LowerDrive(u.path));
    DriveResolution(u);
    DriveKept(u.path);
  }

  lemma SchemeNonEmpty(u: Components)
    requires Validated(u)
    ensures u.scheme != [] && SchemeOk(u.scheme)
  {
  }

  lemma DriveKept(path: Text)
    ensures LowerDrive(path) == path <==> !UpperDrive(path)
  {
  }

  // How much of a printed authority the parser takes for it.
  function Taken(port: Text): nat {
    Until(port, AUTHORITY_STOPS)
  }

  // What is read back of a printed URI with an authority: up to the first delimiter in the port, and all of it if there is none.
  ghost predicate ReadsBack(u: Components, host: Text, means: Text, m: Components) {
    var port := Port(host);
    var k := Taken(port);
    && UserPart(u.authority) + host == means + port
    && PercentDecode(m.authority) == means + PercentDecode(port[..k])
    && (k == |port| ==>
      && m.scheme == u.scheme && PercentDecode(m.path) == LowerDrive(u.path)
      && PercentDecode(m.query) == u.query && PercentDecode(m.fragment) == u.fragment)
  }

  lemma AuthorityRead(u: Components, lower: Text -> Text) returns (means: Text)
    requires Validated(u) && Formatted(u, lower, false).Some? && u.authority != []
    ensures ReadsBack(u, lower(Host(u.authority)), means, Split(Formatted(u, lower, false).value))
  {
    hide Formatted, Split, SplitHier, SplitPath, Encode, LowerDrive, PercentDecode, SchemeOk, ReferenceResolution,
      Printed.Behind, FormatAuthority, Host, UserPart, Port, Validated, Prints, Shows, Free;
    SchemeNonEmpty(u);
    var p := PrintedParts(u, lower);
    AuthorityPrinted(u, lower, p);
    var host := lower(Host(u.authority));
    var text, ps;
    text, ps, means := AuthorityShows(u.authority, lower);
    ShowsFree(text, ps, means);
    BehindAuthority(u, lower, p);
    var port := Port(host);
    PortStarts(host);
    var k := Taken(port);
    TakenFree(port);
    FreeConcat(text, port[..k], AUTHORITY_STOPS);
    var rest := p.Behind();
    SplitScheme(u.scheme, TWO_SLASHES + (p.authority + rest));
    Cut(text, port, k, rest);
    SplitAuthority(u.scheme, text + port[..k], port[k..] + rest);
    AuthorityDecoded(text, ps, means, port, k);
    SplitKeeps(u.scheme, text + port[..k], port[k..] + rest);
    if k == |port| {
      assert port[k..] + rest == rest;
      SplitRest(u, lower, p, u.scheme, text + port[..k]);
    }
  }

  lemma Cut(text: Text, port: Text, k: nat, rest: Text)
    requires k <= |port|
    ensures (text + port) + rest == (text + port[..k]) + (port[k..] + rest)
  {
    assert port == port[..k] + port[k..];
  }

  // When what is read back is the URI itself.
  lemma ReadBackIs(u: Components, host: Text, means: Text, m: Components)
    requires Validated(u) && ReadsBack(u, host, means, m)
    ensures var parsed :=
        Create(m.scheme, PercentDecode(m.authority), PercentDecode(m.path), PercentDecode(m.query), PercentDecode(m.fragment), false);
      && (SafePort(host) ==> (parsed == Ok(u) <==> UserPart(u.authority) + host == u.authority && !UpperDrive(u.path)))
      && (!SafePort(host) && |UserPart(u.authority) + host| == |u.authority| ==> parsed != Ok(u))
  {
    hide LowerDrive, PercentDecode, Create, UpperDrive, ReferenceResolution, UserPart, Port, Validated, SafePort;
    var port := Port(host);
    var k := Taken(port);
    DecodeLength(port[..k]);
    ShorterAuthority(u, m);
    if k == |port| {
      assert port[..k] == port;
      CreateAgain(u, means + PercentDecode(port), LowerDrive(u.path));
      DriveResolution(u);
      DriveKept(u.path);
      SafeIfFree(host);
      SameTail(means, PercentDecode(port), port);
    } else {
      UnsafePort(host);
    }
  }

  lemma ParseWithAuthority(u: Components, lower: Text -> Text)
    requires Validated(u) && Formatted(u, lower, false).Some? && u.authority != []
    ensures var host := lower(Host(u.authority)); var parsed := Parse(Formatted(u, lower, false).value, false);
      && (SafePort(host) ==> (parsed == Ok(u) <==> UserPart(u.authority) + host == u.authority && !UpperDrive(u.path)))
      && (!SafePort(host) && |UserPart(u.authority) + host| == |u.authority| ==> parsed != Ok(u))
  {
    hide Formatted, Split, PercentDecode, Create, UpperDrive, ReadsBack, Host, UserPart, Validated, SafePort;
    var means := AuthorityRead(u, lower);
    ReadBackIs(u, lower(Host(u.authority)), means, Split(Formatted(u, lower, false).value));
  }

  lemma AuthorityPrinted(u: Components, lower: Text -> Text, p: Printed)
    requires Prints(u, lower, p) && u.authority != []
    ensures Some(p.authority) == FormatAuthority(u.authority, lower, false) && p.slashes == TWO_SLASHES
  {
  }

  lemma PortStarts(host: Text)
    ensures Port(host) != [] ==> Port(host)[0] == COLON
  {
  }

  lemma TakenFree(port: Text)
    ensures Free(port[..Taken(port)], AUTHORITY_STOPS) && (Taken(port) < |port| ==> port[Taken(port)] in AUTHORITY_STOPS)
  {
  }

  lemma SafeIfFree(host: Text)
    requires Taken(Port(host)) == |Port(host)|
    ensures SafePort(host) <==> PercentDecode(Port(host)) == Port(host)
  {
  }

  lemma UnsafePort(host: Text)
    requires Taken(Port(host)) < |Port(host)|
    ensures !SafePort(host)
  {
  }

  lemma SameTail<T>(a: seq<T>, b: seq<T>, c: seq<T>)
    ensures a + b == a + c <==> b == c
  {
    assert a + b == a + c ==> (a + b)[|a|..] == (a + c)[|a|..];
    assert (a + b)[|a|..] == b && (a + c)[|a|..] == c;
  }

  lemma SplitKeeps(scheme: Text, authority: Text, rest: Text)
    ensures SplitPath(scheme, authority, rest).authority == authority
  {
  }

  lemma ShorterAuthority(u: Components, m: Components)
    ensures |PercentDecode(m.authority)| < |u.authority| ==>
      Create(m.scheme, PercentDecode(m.authority), PercentDecode(m.path), PercentDecode(m.query), PercentDecode(m.fragment), false) != Ok(u)
  {
  }

  lemma HostAgain(authority: Text, host: Text)
    ensures UserPart(authority) + host == authority <==> host == Host(authority)
    ensures |UserPart(authority) + host| == |authority| <==> |host| == |Host(authority)|
  {
    var a := UserPart(authority);
    assert authority == a + Host(authority);
    SameTail(a, host, Host(authority));
  }

  lemma {:induction false} NoPercentNoChange(s: Text)
    requires Free(s, {PERCENT})
    ensures PercentDecode(s) == s
  {
    if s != [] {
      assert forall i :: 0 <= i < |s| - 1 ==> s[1..][i] == s[i + 1];
      NoPercentNoChange(s[1..]);
      assert s[0] != PERCENT;
      assert s == [s[0]] + s[1..];
    }
  }

  /** A port without any of the units slash, question mark, hash and percent is safe. */
  lemma PlainPortIsSafe(host: Text)
    requires Free(Port(host), AUTHORITY_STOPS + {PERCENT})
    ensures SafePort(host)
  {
    NoPercentNoChange(Port(host));
  }

  /** Parsing what toString prints: exactly when the host is lower case, its port is written safely, and no drive letter is upper case. */
  lemma RoundTrip(u: Components, lower: Text -> Text)
    requires Validated(u) && Formatted(u, lower, false).Some?
    requires |lower(Host(u.authority))| == |Host(u.authority)|
    ensures Parse(Formatted(u, lower, false).value, false) == Ok(u) <==>
      && (u.authority != [] ==> lower(Host(u.authority)) == Host(u.authority) && SafePort(Host(u.authority)))
      && !UpperDrive(u.path)
  {
    hide Formatted, Parse, UpperDrive, Validated, SafePort, Host, UserPart;
    if u.authority == [] {
      ParsePlain(u, lower);
    } else {
      HostAgain(u.authority, lower(Host(u.authority)));
      ParseWithAuthority(u, lower);
    }
  }

  /** Where the port is safe, that holds for any lower, also one that changes the length of a text. */
  lemma RoundTripOfSafePort(u: Components, lower: Text -> Text)
    requires Validated(u) && Formatted(u, lower, false).Some? && u.authority != [] && SafePort(lower(Host(u.authority)))
    ensures Parse(Formatted(u, lower, false).value, false) == Ok(u) <==>
      lower(Host(u.authority)) == Host(u.authority) && !UpperDrive(u.path)
  {
    HostAgain(u.authority, lower(Host(u.authority)));
    ParseWithAuthority(u, lower);
  }
}
