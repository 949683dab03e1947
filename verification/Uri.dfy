// URI: validation, printing and parsing (uri.ts, lines 11-84, 161-184, 271-284, 467-477 and 605-726).
module Uri {
  import opened Wrappers
  import opened CodeUnits
  import opened UriCoding
  import opened UriDecoding

  datatype Components = Components(scheme: Text, authority: Text, path: Text, query: Text, fragment: Text)

  datatype UriError = SchemeMissing | SchemeIllegal | PathNeedsSlash | PathStartsWithTwoSlashes

  datatype Created = Ok(uri: Components) | Failed(error: UriError)

  const FILE: Text := [0x66, 0x69, 0x6C, 0x65]
  const HTTP: Text := [0x68, 0x74, 0x74, 0x70]
  const HTTPS: Text := [0x68, 0x74, 0x74, 0x70, 0x73]
  const TWO_SLASHES: Text := [SLASH, SLASH]

  // \w
  predicate IsWordUnit(c: int) {
    IsAlnum(c) || c == 0x5F
  }

  predicate SchemeOk(s: Text) {
    && s != [] && IsWordUnit(s[0])
    && forall i :: 0 < i < |s| ==> IsWordUnit(s[i]) || s[i] == 0x2B || s[i] == 0x2E || s[i] == 0x2D
  }

  function SchemeFix(scheme: Text, strict: bool): Text {
    if scheme == [] && !strict then FILE else scheme
  }

  function ReferenceResolution(scheme: Text, path: Text): Text {
    if scheme == HTTPS || scheme == HTTP || scheme == FILE then
      if path == [] then [SLASH] else if path[0] != SLASH then [SLASH] + path else path
    else path
  }

  // _validateUri: None if there is nothing to complain about.
  function Complaint(u: Components, strict: bool): Option<UriError> {
    if u.scheme == [] && strict then Some(SchemeMissing)
    else if u.scheme != [] && !SchemeOk(u.scheme) then Some(SchemeIllegal)
    else if u.path != [] && u.authority != [] && u.path[0] != SLASH then Some(PathNeedsSlash)
    else if u.path != [] && u.authority == [] && TWO_SLASHES <= u.path then Some(PathStartsWithTwoSlashes)
    else None
  }

  // The constructor.
  function Create(scheme: Text, authority: Text, path: Text, query: Text, fragment: Text, strict: bool): Created {
    var fixed := SchemeFix(scheme, strict);
    var u := Components(fixed, authority, ReferenceResolution(fixed, path), query, fragment);
    match Complaint(u, strict) case Some(e) => Failed(e) case None => Ok(u)
  }

  /** What the constructor accepts. */
  predicate Validated(u: Components) {
    && SchemeOk(u.scheme)
    && ReferenceResolution(u.scheme, u.path) == u.path
    && (u.path != [] && u.authority != [] ==> u.path[0] == SLASH)
    && (u.authority == [] ==> !(TWO_SLASHES <= u.path))
  }

  /** A created URI is validated, and creating it from its own components gives it back. */
  lemma CreatedIsValidated(scheme: Text, authority: Text, path: Text, query: Text, fragment: Text, strict: bool)
    ensures var c := Create(scheme, authority, path, query, fragment, strict);
      c.Ok? ==>
        var u := c.uri;
        && Validated(u) && forall again :: Create(u.scheme, u.authority, u.path, u.query, u.fragment, again) == Ok(u)
  {
    var c := Create(scheme, authority, path, query, fragment, strict);
    assert SchemeOk(FILE);
    if c.Ok? {
      assert ReferenceResolution(c.uri.scheme, c.uri.path) == c.uri.path;
    }
  }

  // Searching.

  function IndexOf(s: Text, c: CodeUnit): (i: nat)
    ensures i <= |s| && (i < |s| ==> s[i] == c) && forall j :: 0 <= j < i ==> s[j] != c
  {
    if s == [] || s[0] == c then 0 else 1 + IndexOf(s[1..], c)
  }

  function LastIndexOf(s: Text, c: CodeUnit): (i: int)
    ensures -1 <= i < |s| && (i >= 0 ==> s[i] == c) && forall j :: i < j < |s| ==> s[j] != c
  {
    if s == [] then -1 else if s[|s| - 1] == c then |s| - 1 else LastIndexOf(s[..|s| - 1], c)
  }

  // Printing. None is the error thrown on a lone surrogate.

  function Append(a: Option<Text>, b: Option<Text>): Option<Text> {
    if a.None? || b.None? then None else Some(a.value + b.value)
  }

  // encodeURIComponentMinimal
  function EncodeMinimal(s: Text): Text {
    if s == [] then [] else MinimalUnit(s[0]) + EncodeMinimal(s[1..])
  }

  function MinimalUnit(c: CodeUnit): Text {
    if c == HASH || c == QUESTION then EscapeByte(c) else [c]
  }

  function Encoder(s: Text, isPath: bool, isAuthority: bool, skipEncoding: bool): Option<Text> {
    if skipEncoding then Some(EncodeMinimal(s)) else Encode(s, isPath, isAuthority)
  }

  function FormatUser(user: Text, skip: bool): Option<Text> {
    var i := LastIndexOf(user, COLON);
    if i < 0 then Encoder(user, false, false, skip)
    else Append(Append(Encoder(user[..i], false, false, skip), Some([COLON])), Encoder(user[i + 1..], false, true, skip))
  }

  function FormatHost(host: Text, skip: bool): Option<Text> {
    var i := LastIndexOf(host, COLON);
    if i < 0 then Encoder(host, false, true, skip) else Append(Encoder(host[..i], false, true, skip), Some(host[i..]))
  }

  // The part of an authority behind its first @.
  function Host(authority: Text): Text {
    var i := IndexOf(authority, AT_SIGN);
    if i == |authority| then authority else authority[i + 1..]
  }

  function FormatAuthority(authority: Text, lower: Text -> Text, skip: bool): Option<Text> {
    var i := IndexOf(authority, AT_SIGN);
    if i == |authority| then FormatHost(lower(authority), skip)
    else Append(Append(FormatUser(authority[..i], skip), Some([AT_SIGN])), FormatHost(lower(authority[i + 1..]), skip))
  }

  predicate IsUpper(c: int) {
    0x41 <= c <= 0x5A
  }

  // /C: or C: at the beginning
  predicate UpperDrive(path: Text) {
    if |path| >= 3 && path[0] == SLASH && path[2] == COLON then IsUpper(path[1])
    else |path| >= 2 && path[1] == COLON && IsUpper(path[0])
  }

  function LowerDrive(path: Text): (r: Text)
    ensures |r| == |path| && (r == path <==> !UpperDrive(path))
  {
    if |path| >= 3 && path[0] == SLASH && path[2] == COLON then
      if IsUpper(path[1]) then
        var r := [SLASH, path[1] + 32, COLON] + path[3..];
        assert r[1] != path[1];
        r
      else path
    else if |path| >= 2 && path[1] == COLON && IsUpper(path[0]) then
      var r := [path[0] + 32, COLON] + path[2..];
      assert r[0] != path[0];
      r
    else path
  }

  function When(b: bool, t: Option<Text>): Option<Text> {
    if b then t else Some([])
  }

  // Everything in front of the path.
  function FormatHier(u: Components, lower: Text -> Text, skip: bool): Option<Text> {
    Append(Append(
      When(u.scheme != [], Some(u.scheme + [COLON])),
      When(u.authority != [] || u.scheme == FILE, Some(TWO_SLASHES))),
      When(u.authority != [], FormatAuthority(u.authority, lower, skip)))
  }

  /** _asFormatted, with the environment's toLowerCase. */
  function Formatted(u: Components, lower: Text -> Text, skip: bool): Option<Text> {
    Append(Append(Append(FormatHier(u, lower, skip),
      When(u.path != [], Encoder(LowerDrive(u.path), true, false, skip))),
      When(u.query != [], Append(Some([QUESTION]), Encoder(u.query, false, false, skip)))),
      When(u.fragment != [], Append(Some([HASH]), if skip then Some(u.fragment) else Encode(u.fragment, false, false))))
  }

  // Parsing.

  // How far a text goes without one of the given units.
  function Until(s: Text, stops: set<int>): (i: nat)
    ensures i <= |s| && (i < |s| ==> s[i] in stops) && forall j :: 0 <= j < i ==> s[j] !in stops
  {
    if s == [] || s[0] in stops then 0 else 1 + Until(s[1..], stops)
  }

  const LINE_TERMINATORS: set<int> := {0x0A, 0x0D, 0x2028, 0x2029}

  /** The groups 2, 4, 5, 7 and 9 of _regexp. */
  function Split(s: Text): Components {
    var i := Until(s, {COLON, SLASH, QUESTION, HASH});
    var hasScheme := 0 < i < |s| && s[i] == COLON;
    SplitHier(if hasScheme then s[..i] else [], if hasScheme then s[i + 1..] else s)
  }

  function SplitHier(scheme: Text, s: Text): Components {
    if TWO_SLASHES <= s then
      var k := Until(s[2..], {SLASH, QUESTION, HASH});
      SplitPath(scheme, s[2..][..k], s[2..][k..])
    else SplitPath(scheme, [], s)
  }

  function SplitPath(scheme: Text, authority: Text, s: Text): Components {
    var k := Until(s, {QUESTION, HASH});
    SplitTail(scheme, authority, s[..k], s[k..])
  }

  function SplitTail(scheme: Text, authority: Text, path: Text, s: Text): Components {
    var hasQuery := s != [] && s[0] == QUESTION;
    var k := if hasQuery then 1 + Until(s[1..], {HASH}) else 0;
    var f := s[k..];
    Components(scheme, authority, path, if hasQuery then s[1..k] else [],
      if f != [] && f[0] == HASH then f[1..][..Until(f[1..], LINE_TERMINATORS)] else [])
  }

  /** URI.parse */
  function Parse(value: Text, strict: bool): Created {
    var m := Split(value);
    Create(m.scheme, PercentDecode(m.authority), PercentDecode(m.path), PercentDecode(m.query), PercentDecode(m.fragment), strict)
  }

  // The object that remembers what it has printed.

  class Uri {
    const components: Components
    const lower: Text -> Text
    var formatted: Option<Text>

    ghost predicate Valid()
      reads this
    {
      formatted.Some? ==> Formatted(components, lower, false) == formatted
    }

    constructor (components: Components, lower: Text -> Text)
      ensures Valid() && this.components == components && this.lower == lower
    {
      this.components, this.lower, formatted := components, lower, None;
    }

    // toString; the printed form is kept, but not that without encoding, nor the empty one.
    method ToString(skipEncoding: bool) returns (r: Option<Text>)
      requires Valid()
      modifies this
      ensures Valid() && r == Formatted(components, lower, skipEncoding)
    {
      if !skipEncoding {
        if formatted.None? || formatted.value == [] {
          var text := AsFormatted(components, lower, false);
          if text.None? {
            return None;
          }
          formatted := text;
        }
        return formatted;
      }
      r := AsFormatted(components, lower, true);
    }
  }

  lemma {:induction false} MinimalConcat(a: Text, b: Text)
    ensures EncodeMinimal(a + b) == EncodeMinimal(a) + EncodeMinimal(b)
  {
    hide MinimalUnit;
    if a == [] {
      assert a + b == b;
    } else {
      MinimalConcat(a[1..], b);
      assert a + b == [a[0]] + (a[1..] + b) && (a + b)[1..] == a[1..] + b;
      Regroup(MinimalUnit(a[0]), EncodeMinimal(a[1..]), EncodeMinimal(b));
    }
  }

  // A new string only where one is needed.
  method EncodeURIComponentMinimal(path: Text) returns (r: Text)
    ensures r == EncodeMinimal(path)
  {
    var res: Option<Text> := None;
    for pos := 0 to |path|
      invariant EncodeMinimal(path[..pos]) == if res.Some? then res.value else path[..pos]
    {
      var code := path[pos];
      MinimalConcat(path[..pos], [code]);
      assert path[..pos + 1] == path[..pos] + [code];
      assert EncodeMinimal([code]) == MinimalUnit(code) + [];
      if code == HASH || code == QUESTION {
        if res.None? {
          res := Some(path[..pos]);
        }
        res := Some(res.value + EscapeByte(code));
      } else if res.Some? {
        res := Some(res.value + [code]);
      }
    }
    assert path[..|path|] == path;
    r := if res.Some? then res.value else path;
  }

  method EncodeWith(s: Text, isPath: bool, isAuthority: bool, skip: bool) returns (r: Option<Text>)
    ensures r == Encoder(s, isPath, isAuthority, skip)
  {
    if skip {
      var text := EncodeURIComponentMinimal(s);
      r := Some(text);
    } else {
      r := EncodeURIComponentFast(s, isPath, isAuthority);
    }
  }

  // lines 671-695
  method FormatAuthorityPart(authority: Text, lower: Text -> Text, skip: bool) returns (r: Option<Text>)
    ensures r == FormatAuthority(authority, lower, skip)
  {
    hide Encoder;
    var res: Text := [];
    var rest := authority;
    var idx: int := IndexOf(authority, AT_SIGN);
    if idx < |authority| {
      var userinfo := authority[..idx];
      rest := authority[idx + 1..];
      idx := LastIndexOf(userinfo, COLON);
      if idx == -1 {
        var user := EncodeWith(userinfo, false, false, skip);
        if user.None? {
          return None;
        }
        res := user.value;
      } else {
        var user := EncodeWith(userinfo[..idx], false, false, skip);
        if user.None? {
          return None;
        }
        var password := EncodeWith(userinfo[idx + 1..], false, true, skip);
        if password.None? {
          return None;
        }
        res := user.value + [COLON] + password.value;
      }
      res := res + [AT_SIGN];
    }
    rest := lower(rest);
    idx := LastIndexOf(rest, COLON);
    assert res == [] ==> forall t: Text :: res + t == t;
    if idx == -1 {
      var host := EncodeWith(rest, false, true, skip);
      if host.None? {
        return None;
      }
      return Some(res + host.value);
    }
    var host := EncodeWith(rest[..idx], false, true, skip);
    if host.None? {
      return None;
    }
    assert res + (host.value + rest[idx..]) == res + host.value + rest[idx..];
    return Some(res + host.value + rest[idx..]);
  }

  // lines 662-695
  method FormatFront(u: Components, lower: Text -> Text, skip: bool) returns (r: Option<Text>)
    ensures r == FormatHier(u, lower, skip)
  {
    hide FormatAuthority;
    var res: Text := [];
    if u.scheme != [] {
      res := u.scheme + [COLON];
    }
    if u.authority != [] || u.scheme == FILE {
      res := res + TWO_SLASHES;
    }
    assert res + [] == res;
    if u.authority != [] {
      var authority := FormatAuthorityPart(u.authority, lower, skip);
      if authority.None? {
        return None;
      }
      res := res + authority.value;
    }
    r := Some(res);
  }

  method AsFormatted(u: Components, lower: Text -> Text, skip: bool) returns (r: Option<Text>)
    ensures r == Formatted(u, lower, skip)
  {
    hide Encoder, FormatHier, LowerDrive, Encode;
    var front := FormatFront(u, lower, skip);
    if front.None? {
      return None;
    }
    var res := front.value;
    ghost var a4 := Append(front, When(u.path != [], Encoder(LowerDrive(u.path), true, false, skip)));
    ghost var a5 := Append(a4, When(u.query != [], Append(Some([QUESTION]), Encoder(u.query, false, false, skip))));
    AppendNothing(front);
    if u.path != [] {
      var path := EncodeWith(LowerDrive(u.path), true, false, skip);
      if path.None? {
        return None;
      }
      res := res + path.value;
    }
    assert a4 == Some(res);
    AppendNothing(a4);
    if u.query != [] {
      var query := EncodeWith(u.query, false, false, skip);
      if query.None? {
        return None;
      }
      res := res + ([QUESTION] + query.value);
    }
    assert a5 == Some(res);
    AppendNothing(a5);
    if u.fragment != [] {
      var fragment := Some(u.fragment);
      if !skip {
        fragment := EncodeURIComponentFast(u.fragment, false, false);
      }
      if fragment.None? {
        return None;
      }
      res := res + ([HASH] + fragment.value);
    }
    r := Some(res);
  }

  lemma AppendNothing(a: Option<Text>)
    ensures Append(a, Some([])) == a
  {
    assert a.Some? ==> a.value + [] == a.value;
  }
}
