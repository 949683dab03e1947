// What toString prints, part by part, and two URIs written out.
module UriForm {
  import opened Wrappers
  import opened CodeUnits
  import opened Utf
  import opened UriCoding
  import opened Uri
  import UriPercent

  function Unit(c: char): CodeUnit {
    if c as int < 0x10000 then c as int else REPLACEMENT
  }

  /** A text in code units. */
  function Units(s: string): Text {
    seq(|s|, i requires 0 <= i < |s| => Unit(s[i]))
  }

  // t shows a component, percent-encoded.
  ghost predicate Shown(s: Text, t: Text, isPath: bool, isAuthority: bool) {
    UriPercent.Paired(s) && UriPercent.Shows(Scalars(s), t, isPath, isAuthority)
  }

  // Up to its last colon a user's name, and then a password that keeps colons and brackets.
  ghost predicate UserShown(user: Text, t: Text) {
    if ':' as int !in user then Shown(user, t, false, false)
    else
      exists i, k ::
        && 0 <= i < |user| && user[i] == ':' as int && ':' as int !in user[i + 1..]
        && 0 <= k < |t| && t[k] == ':' as int
        && Shown(user[..i], t[..k], false, false) && Shown(user[i + 1..], t[k + 1..], false, true)
  }

  // From its last colon on a host is left as it is.
  ghost predicate HostShown(host: Text, t: Text) {
    if ':' as int !in host then Shown(host, t, false, true)
    else
      exists i, k ::
        && 0 <= i < |host| && host[i] == ':' as int && ':' as int !in host[i + 1..]
        && 0 <= k <= |t| && Shown(host[..i], t[..k], false, true) && t[k..] == host[i..]
  }

  // The part behind the first @ is the host, in lower case.
  ghost predicate AuthorityShown(authority: Text, lower: Text -> Text, t: Text) {
    if '@' as int !in authority then HostShown(lower(authority), t)
    else
      exists i, k ::
        && 0 <= i < |authority| && authority[i] == '@' as int && '@' as int !in authority[..i]
        && 0 <= k < |t| && t[k] == '@' as int
        && UserShown(authority[..i], t[..k]) && HostShown(lower(authority[i + 1..]), t[k + 1..])
  }

  // The letter of a drive in front is written in lower case.
  ghost predicate DriveLowered(path: Text, p: Text) {
    && |p| == |path|
    && forall i :: 0 <= i < |path| ==>
      p[i] == if 'A' as int <= path[i] <= 'Z' as int && i + 1 < |path| && path[i + 1] == ':' as int
                 && (i == 0 || (i == 1 && path[0] == '/' as int))
              then path[i] + ('a' as int - 'A' as int) else path[i]
  }

  lemma LowerDriveLowers(path: Text)
    ensures DriveLowered(path, LowerDrive(path))
  {
  }

  lemma EncoderShows(s: Text, isPath: bool, isAuthority: bool)
    requires Encoder(s, isPath, isAuthority, false).Some?
    ensures Shown(s, Encoder(s, isPath, isAuthority, false).value, isPath, isAuthority)
  {
    EncodeShows(s, isPath, isAuthority);
  }

  lemma UserIsShown(user: Text)
    requires FormatUser(user, false).Some?
    ensures UserShown(user, FormatUser(user, false).value)
  {
    hide Encoder, Shown;
    var i := LastIndexOf(user, COLON);
    if i < 0 {
      EncoderShows(user, false, false);
    } else {
      EncoderShows(user[..i], false, false);
      EncoderShows(user[i + 1..], false, true);
      var a, b := Encoder(user[..i], false, false, false).value, Encoder(user[i + 1..], false, true, false).value;
      var t := FormatUser(user, false).value;
      assert t == a + [COLON] + b && t[..|a|] == a && t[|a| + 1..] == b;
    }
  }

  lemma HostIsShown(host: Text)
    requires FormatHost(host, false).Some?
    ensures HostShown(host, FormatHost(host, false).value)
  {
    hide Encoder, Shown;
    var i := LastIndexOf(host, COLON);
    if i < 0 {
      EncoderShows(host, false, true);
    } else {
      EncoderShows(host[..i], false, true);
      var a := Encoder(host[..i], false, true, false).value;
      var t := FormatHost(host, false).value;
      assert t == a + host[i..] && t[..|a|] == a && t[|a|..] == host[i..];
      assert host[i] == ':' as int && ':' as int !in host[i + 1..];
      assert Shown(host[..i], t[..|a|], false, true);
    }
  }

  lemma AuthorityIsShown(authority: Text, lower: Text -> Text)
    requires FormatAuthority(authority, lower, false).Some?
    ensures AuthorityShown(authority, lower, FormatAuthority(authority, lower, false).value)
  {
    hide FormatUser, FormatHost, UserShown, HostShown;
    var i := IndexOf(authority, AT_SIGN);
    if i == |authority| {
      HostIsShown(lower(authority));
    } else {
      UserIsShown(authority[..i]);
      HostIsShown(lower(authority[i + 1..]));
      var a, b := FormatUser(authority[..i], false).value, FormatHost(lower(authority[i + 1..]), false).value;
      var t := FormatAuthority(authority, lower, false).value;
      assert t == a + [AT_SIGN] + b && t[..|a|] == a && t[|a| + 1..] == b;
    }
  }

  /** toString: the components in their order, each behind its delimiter. */
  lemma PrintedForm(u: Components, lower: Text -> Text) returns (authority: Text, path: Text, query: Text, fragment: Text, lowered: Text)
    requires Formatted(u, lower, false).Some?
    ensures Formatted(u, lower, false).value
      == (if u.scheme == [] then [] else u.scheme + [':' as int])
         + (if u.authority == [] && u.scheme != Units("file") then [] else ['/' as int, '/' as int])
         + authority + path + (if u.query == [] then [] else ['?' as int] + query)
         + (if u.fragment == [] then [] else ['#' as int] + fragment)
    ensures if u.authority == [] then authority == [] else AuthorityShown(u.authority, lower, authority)
    ensures DriveLowered(u.path, lowered) && Shown(lowered, path, true, false)
    ensures Shown(u.query, query, false, false) && Shown(u.fragment, fragment, false, false)
  {
    hide Encode, Shown, AuthorityShown, FormatAuthority, LowerDrive, DriveLowered;
    lowered := LowerDrive(u.path);
    LowerDriveLowers(u.path);
    authority := if u.authority == [] then [] else FormatAuthority(u.authority, lower, false).value;
    path, query, fragment := [], [], [];
    NothingShown();
    if u.authority != [] {
      AuthorityIsShown(u.authority, lower);
    }
    if u.path != [] {
      path := Encode(lowered, true, false).value;
      EncoderShows(lowered, true, false);
    }
    if u.query != [] {
      query := Encode(u.query, false, false).value;
      EncoderShows(u.query, false, false);
    }
    if u.fragment != [] {
      fragment := Encode(u.fragment, false, false).value;
      EncoderShows(u.fragment, false, false);
    }
    assert Units("file") == FILE;
  }

  lemma NothingShown()
    ensures Shown([], [], true, false) && Shown([], [], false, false)
  {
  }

  /** Without encoding, only the two delimiters of query and fragment are escaped. */
  lemma MinimalExactly(c: CodeUnit)
    ensures MinimalUnit(c) == if c == '#' as int then Units("%23") else if c == '?' as int then Units("%3F") else [c]
  {
    assert HASH / 16 == 2 && HASH % 16 == 3 && QUESTION / 16 == 3 && QUESTION % 16 == 15;
  }

  // ---- what the constructor accepts

  // A letter, a digit or an underscore, and behind the first unit also a plus sign, a dot or a hyphen.
  ghost predicate SchemeText(s: Text) {
    && s != []
    && forall i :: 0 <= i < |s| ==>
      || 'a' as int <= s[i] <= 'z' as int || 'A' as int <= s[i] <= 'Z' as int || '0' as int <= s[i] <= '9' as int
      || s[i] == '_' as int
      || (i > 0 && (s[i] == '+' as int || s[i] == '.' as int || s[i] == '-' as int))
  }

  ghost predicate HasRoot(scheme: Text) {
    scheme == Units("https") || scheme == Units("http") || scheme == Units("file")
  }

  /** The scheme and the path that a URI gets, and the first thing that is wrong with it. */
  lemma CreatedExactly(scheme: Text, authority: Text, path: Text, query: Text, fragment: Text, strict: bool)
    ensures var slash := '/' as int;
      var s := if scheme == [] && !strict then Units("file") else scheme;
      var p := if HasRoot(s) && (path == [] || path[0] != slash) then [slash] + path else path;
      Create(scheme, authority, path, query, fragment, strict) ==
        if s == [] then Failed(SchemeMissing)
        else if !SchemeText(s) then Failed(SchemeIllegal)
        else if p != [] && p[0] != slash && authority != [] then Failed(PathNeedsSlash)
        else if |p| >= 2 && p[0] == p[1] == slash && authority == [] then Failed(PathStartsWithTwoSlashes)
        else Ok(Components(s, authority, p, query, fragment))
  {
    hide SchemeText, SchemeOk;
    assert Units("https") == HTTPS && Units("http") == HTTP && Units("file") == FILE;
    var s := if scheme == [] && !strict then FILE else scheme;
    SchemeUnits(s);
    var p := ReferenceResolution(s, path);
    assert TWO_SLASHES <= p <==> |p| >= 2 && p[0] == p[1] == '/' as int;
  }

  lemma SchemeUnits(s: Text)
    ensures SchemeOk(s) <==> SchemeText(s)
  {
  }

  // ---- how a text is taken apart

  ghost predicate Without(s: Text, stops: string) {
    forall i :: 0 <= i < |s| ==> forall k :: 0 <= k < |stops| ==> s[i] != stops[k] as int
  }

  // Between # and the first line break, or nothing.
  ghost predicate FragmentOf(s: Text, fragment: Text) {
    if s == [] then fragment == []
    else
      && s[0] == '#' as int && fragment <= s[1..]
      && (forall i :: 0 <= i < |fragment| ==> !EndsLine(fragment[i]))
      && (1 + |fragment| < |s| ==> EndsLine(s[1 + |fragment|]))
  }

  predicate EndsLine(c: int) {
    c == '\n' as int || c == '\r' as int || c == 0x2028 || c == 0x2029
  }

  ghost predicate QueryOf(s: Text, query: Text, fragment: Text) {
    if s != [] && s[0] == '?' as int then query <= s[1..] && Without(query, "#") && FragmentOf(s[1 + |query|..], fragment)
    else query == [] && FragmentOf(s, fragment)
  }

  ghost predicate PathOf(s: Text, path: Text, query: Text, fragment: Text) {
    path <= s && Without(path, "?#") && QueryOf(s[|path|..], query, fragment)
  }

  ghost predicate HierOf(s: Text, m: Components) {
    if |s| >= 2 && s[0] == s[1] == '/' as int then
      && m.authority <= s[2..] && Without(m.authority, "/?#")
      && (2 + |m.authority| < |s| ==> s[2 + |m.authority|] in {'/' as int, '?' as int, '#' as int})
      && PathOf(s[2 + |m.authority|..], m.path, m.query, m.fragment)
    else m.authority == [] && PathOf(s, m.path, m.query, m.fragment)
  }

  ghost predicate SchemeAt(s: Text, i: nat) {
    0 < i < |s| && s[i] == ':' as int && Without(s[..i], ":/?#")
  }

  lemma TailExactly(scheme: Text, authority: Text, path: Text, s: Text)
    requires s == [] || s[0] == QUESTION || s[0] == HASH
    ensures var m := SplitTail(scheme, authority, path, s);
      QueryOf(s, m.query, m.fragment) && m.scheme == scheme && m.authority == authority && m.path == path
  {
    var m := SplitTail(scheme, authority, path, s);
    if s != [] && s[0] == QUESTION {
      var k := 1 + Until(s[1..], {HASH});
      assert m.query == s[1..k] == s[1..][..k - 1];
      assert Without(m.query, "#");
      FragmentExactly(s[k..]);
    } else {
      FragmentExactly(s);
      assert s[0..] == s;
    }
  }

  lemma FragmentExactly(s: Text)
    requires s == [] || s[0] == HASH
    ensures FragmentOf(s, if s == [] then [] else s[1..][..Until(s[1..], LINE_TERMINATORS)])
  {
  }

  lemma PathExactly(scheme: Text, authority: Text, s: Text)
    ensures var m := SplitPath(scheme, authority, s);
      PathOf(s, m.path, m.query, m.fragment) && m.scheme == scheme && m.authority == authority
  {
    hide QueryOf;
    var k := Until(s, {QUESTION, HASH});
    TailExactly(scheme, authority, s[..k], s[k..]);
  }

  lemma AuthorityExactly(s: Text)
    ensures var k := Until(s, {SLASH, QUESTION, HASH});
      Without(s[..k], "/?#") && (k < |s| ==> s[k] in {'/' as int, '?' as int, '#' as int})
  {
  }

  lemma HierExactly(scheme: Text, s: Text)
    ensures var m := SplitHier(scheme, s); HierOf(s, m) && m.scheme == scheme
  {
    hide PathOf, SplitPath, Until, Without;
    assert TWO_SLASHES <= s <==> |s| >= 2 && s[0] == s[1] == '/' as int;
    if TWO_SLASHES <= s {
      var t := s[2..];
      var k := Until(t, {SLASH, QUESTION, HASH});
      AuthorityExactly(t);
      PathExactly(scheme, t[..k], t[k..]);
      assert t[k..] == s[2 + k..];
    } else {
      PathExactly(scheme, [], s);
    }
  }

  // The first delimiter is the only one with none in front of it.
  lemma FreeBefore(s: Text, j: nat)
    requires j <= |s| && Without(s[..j], ":/?#")
    ensures forall p :: 0 <= p < j ==> s[p] !in {COLON, SLASH, QUESTION, HASH}
  {
    var marks := ":/?#";
    forall p | 0 <= p < j ensures s[p] !in {COLON, SLASH, QUESTION, HASH} {
      assert s[..j][p] == s[p];
      assert s[p] != marks[0] as int && s[p] != marks[1] as int && s[p] != marks[2] as int && s[p] != marks[3] as int;
    }
  }

  lemma UntilWithout(s: Text)
    ensures Without(s[..Until(s, {COLON, SLASH, QUESTION, HASH})], ":/?#")
  {
  }

  lemma OnlyColon(s: Text, j: nat)
    requires SchemeAt(s, j)
    ensures Until(s, {COLON, SLASH, QUESTION, HASH}) == j
  {
    hide Without;
    FreeBefore(s, j);
  }

  /** Parsing takes a text apart as appendix B of RFC 3986 does. */
  lemma SplitExactly(s: Text)
    ensures var m := Split(s);
      if m.scheme == [] then (forall i :: !SchemeAt(s, i)) && HierOf(s, m)
      else m.scheme <= s && SchemeAt(s, |m.scheme|) && HierOf(s[|m.scheme| + 1..], m)
  {
    hide HierOf, Without, SplitHier, Until;
    var i := Until(s, {COLON, SLASH, QUESTION, HASH});
    UntilWithout(s);
    if 0 < i < |s| && s[i] == COLON {
      HierExactly(s[..i], s[i + 1..]);
    } else {
      HierExactly([], s);
      forall j | SchemeAt(s, j) ensures false {
        OnlyColon(s, j);
      }
    }
  }
}
