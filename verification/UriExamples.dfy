// A URI written out, and URIs that do not survive printing and parsing.
module UriExamples {
  import opened Wrappers
  import opened CodeUnits
  import opened Utf
  import opened UriCoding
  import opened Uri
  import opened UriForm
  import opened UriRoundTrip
  import UriPercent

  // file with the path /C:
  const UPPER_DRIVE: Components := Components(FILE, [], [SLASH, 0x43, COLON], [], [])

  // http with the authority a:/ and the path /
  const UNSAFE_PORT: Components := Components(HTTP, [0x61, COLON, SLASH], [SLASH], [], [])

  lemma AsciiEncodes(s: Text, isPath: bool, isAuthority: bool)
    requires forall i :: 0 <= i < |s| ==> s[i] < 0x80
    ensures Encode(s, isPath, isAuthority).Some?
  {
    if s != [] {
      AsciiEncodes(s[1..], isPath, isAuthority);
    }
  }

  /** An upper-case drive letter is lost, whatever lower does. */
  lemma UpperDriveIsLost(lower: Text -> Text)
    ensures Validated(UPPER_DRIVE) && Formatted(UPPER_DRIVE, lower, false).Some?
    ensures Parse(Formatted(UPPER_DRIVE, lower, false).value, false) != Ok(UPPER_DRIVE)
  {
    var u := UPPER_DRIVE;
    assert SchemeOk(FILE) && u.path[1] == 0x43;
    AsciiEncodes(LowerDrive(u.path), true, false);
    ParsePlain(u, lower);
  }

  /** So is an authority with a slash behind its last colon, although the host is lower case. */
  lemma UnsafePortIsLost(lower: Text -> Text)
    requires lower(UNSAFE_PORT.authority) == UNSAFE_PORT.authority
    ensures Validated(UNSAFE_PORT) && Formatted(UNSAFE_PORT, lower, false).Some?
    ensures Parse(Formatted(UNSAFE_PORT, lower, false).value, false) != Ok(UNSAFE_PORT)
  {
    var u := UNSAFE_PORT;
    assert SchemeOk(HTTP);
    AsciiEncodes(u.path, true, false);
    AsciiEncodes([0x61], false, true);
    HostOfExample();
    assert FormatHost(u.authority, false).Some?;
    assert Port(u.authority)[1] == SLASH;
    assert !SafePort(u.authority);
    RoundTrip(u, lower);
  }

  lemma HostOfExample()
    ensures var a := UNSAFE_PORT.authority;
      Host(a) == a && IndexOf(a, AT_SIGN) == |a| && LastIndexOf(a, COLON) == 1 && a[..1] == [0x61]
  {
    var a := UNSAFE_PORT.authority;
    assert a[0] == 0x61 && a[1] == COLON && a[2] == SLASH;
  }

  ghost predicate KeptText(s: Text, isPath: bool, isAuthority: bool) {
    forall i :: 0 <= i < |s| ==> UriPercent.Kept(s[i], isPath, isAuthority)
  }

  // A text of kept units stays as it is.
  lemma {:induction false} KeptStays(s: Text, isPath: bool, isAuthority: bool)
    requires KeptText(s, isPath, isAuthority)
    ensures WellFormed(s) && Scalars(s) == s && EncodePoints(s, isPath, isAuthority) == s
  {
    if s != [] {
      KeptStays(s[1..], isPath, isAuthority);
      assert UriPercent.Kept(s[0], isPath, isAuthority);
      PlainIsKept(s[0], isPath, isAuthority);
    }
  }

  lemma EscapedAlone(c: CodeUnit, isPath: bool, isAuthority: bool)
    requires c < 0x80 && !UriPercent.Kept(c, isPath, isAuthority)
    ensures WellFormed([c]) && Scalars([c]) == [c] && EncodePoints([c], isPath, isAuthority) == EscapeByte(c)
  {
    PlainIsKept(c, isPath, isAuthority);
    assert EncodePoint(c) == [c] && [c][1..] == [];
    assert Escapes([c]) == EscapeByte(c) + Escapes([c][1..]);
  }

  // One unit that is escaped, between such a text and one that is encoded already.
  lemma OneEscape(a: Text, c: CodeUnit, s: Text, t: Text, isPath: bool, isAuthority: bool)
    requires KeptText(a, isPath, isAuthority) && c < 0x80 && !UriPercent.Kept(c, isPath, isAuthority)
    requires Encode(s, isPath, isAuthority) == Some(t)
    ensures Encode(a + [c] + s, isPath, isAuthority) == Some(a + EscapeByte(c) + t)
  {
    hide UriPercent.Kept, Plain, WellFormed, Scalars, EncodePoints, EscapeByte;
    KeptStays(a, isPath, isAuthority);
    EscapedAlone(c, isPath, isAuthority);
    WellFormedConcat(a, [c]);
    WellFormedConcat(a + [c], s);
    ScalarsConcat(a, [c]);
    ScalarsConcat(a + [c], s);
    EncodeConcat(a, [c], isPath, isAuthority);
    EncodeConcat(a + [c], Scalars(s), isPath, isAuthority);
  }

  lemma FilePath()
    ensures Encode(Units("/a b"), true, false) == Some(Units("/a%20b"))
  {
    var a, b := Units("/a"), Units("b");
    KeptStays(b, true, false);
    OneEscape(a, 0x20, b, b, true, false);
    assert Units("/a b") == a + [0x20] + b;
    assert Units("/a%20b") == a + EscapeByte(0x20) + b;
  }

  /** The URI of a file whose name holds a blank. */
  lemma FileExample(lower: Text -> Text)
    ensures Formatted(Components(Units("file"), [], Units("/a b"), [], []), lower, false) == Some(Units("file:///a%20b"))
  {
    hide Encode, EncodePoints;
    FilePath();
    assert Units("file") == FILE;
    var path, text := Units("/a b"), Units("/a%20b");
    var u := Components(FILE, [], path, [], []);
    var front := FILE + [COLON] + TWO_SLASHES;
    AppendNothing(Some(front));
    AppendNothing(Some(front + text));
    assert FormatHier(u, lower, false) == Some(front);
    assert LowerDrive(path) == path;
    assert Formatted(u, lower, false) == Some(front + text);
    assert Units("file:///a%20b") == front + text;
  }
}
