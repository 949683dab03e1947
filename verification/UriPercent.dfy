// Percent-encoding as RFC 3986 describes it (sections 2.1 and 2.3), independently of the encoder and its tables.
module UriPercent {
  import opened CodeUnits
  import opened Utf

  type Text = seq<CodeUnit>

  // Section 2.3: letters, digits, and four marks.
  predicate Unreserved(c: int) {
    || 'a' as int <= c <= 'z' as int || 'A' as int <= c <= 'Z' as int || '0' as int <= c <= '9' as int
    || c == '-' as int || c == '.' as int || c == '_' as int || c == '~' as int
  }

  // What a path or an authority keeps beside those.
  predicate Exempt(c: int, isPath: bool, isAuthority: bool) {
    || (isPath && c == '/' as int)
    || (isAuthority && (c == '[' as int || c == ']' as int || c == ':' as int))
  }

  predicate Kept(c: int, isPath: bool, isAuthority: bool) {
    Unreserved(c) || Exempt(c, isPath, isAuthority)
  }

  // Section 2.1: a percent sign and two upper-case digits.
  predicate IsEscape(t: Text, b: Byte) {
    && |t| == 3 && t[0] == '%' as int
    && t[1] == "0123456789ABCDEF"[b / 16] as int && t[2] == "0123456789ABCDEF"[b % 16] as int
  }

  /** t shows the code points: some as they are, every other one as the escapes of its bytes. */
  ghost predicate Shows(cps: seq<CodePoint>, t: Text, isPath: bool, isAuthority: bool)
    decreases |cps|
  {
    if cps == [] then t == []
    else if Kept(cps[0], isPath, isAuthority) then t != [] && t[0] == cps[0] && Shows(cps[1..], t[1..], isPath, isAuthority)
    else
      var bytes := EncodePoint(cps[0]);
      && 3 * |bytes| <= |t|
      && (forall i :: 0 <= i < |bytes| ==> IsEscape(t[3 * i..3 * i + 3], bytes[i]))
      && Shows(cps[1..], t[3 * |bytes|..], isPath, isAuthority)
  }

  predicate UpperHexDigit(c: int) {
    '0' as int <= c <= '9' as int || 'A' as int <= c <= 'F' as int
  }

  // Unit j is one of the three of an escape.
  ghost predicate InEscape(t: Text, j: nat)
    requires j < |t|
  {
    exists k :: j - 2 <= k <= j && 0 <= k <= |t| - 3 && t[k] == '%' as int && UpperHexDigit(t[k + 1]) && UpperHexDigit(t[k + 2])
  }

  /** Whatever is shown, every unit is kept or belongs to an escape. */
  lemma {:induction false} ShownUnits(cps: seq<CodePoint>, t: Text, isPath: bool, isAuthority: bool)
    requires Shows(cps, t, isPath, isAuthority)
    ensures forall j :: 0 <= j < |t| ==> Kept(t[j], isPath, isAuthority) || InEscape(t, j)
    decreases |cps|
  {
    hide InEscape, IsEscape;
    if cps != [] {
      if Kept(cps[0], isPath, isAuthority) {
        ShownUnits(cps[1..], t[1..], isPath, isAuthority);
        EscapesBehind(t, 1);
        assert forall j :: 1 <= j < |t| ==> t[j] == t[1..][j - 1];
      } else {
        var bytes := EncodePoint(cps[0]);
        var n := 3 * |bytes|;
        ShownUnits(cps[1..], t[n..], isPath, isAuthority);
        EscapesBehind(t, n);
        assert forall j :: n <= j < |t| ==> t[j] == t[n..][j - n];
        UnitsOfEscapes(bytes, t);
      }
    }
  }

  lemma UnitsOfEscapes(bytes: seq<Byte>, t: Text)
    requires 3 * |bytes| <= |t|
    requires forall i :: 0 <= i < |bytes| ==> IsEscape(t[3 * i..3 * i + 3], bytes[i])
    ensures forall j :: 0 <= j < 3 * |bytes| ==> InEscape(t, j)
  {
    forall j | 0 <= j < 3 * |bytes| ensures InEscape(t, j) {
      var i := j / 3;
      var e := t[3 * i..3 * i + 3];
      assert IsEscape(e, bytes[i]);
      DigitsAreUpper(e, bytes[i]);
      assert t[3 * i] == e[0] && t[3 * i + 1] == e[1] && t[3 * i + 2] == e[2];
    }
  }

  lemma DigitsAreUpper(t: Text, b: Byte)
    requires IsEscape(t, b)
    ensures UpperHexDigit(t[1]) && UpperHexDigit(t[2])
  {
  }

  lemma EscapesBehind(t: Text, n: nat)
    requires n <= |t|
    ensures forall j :: n <= j < |t| && InEscape(t[n..], j - n) ==> InEscape(t, j)
  {
    forall j | n <= j < |t| && InEscape(t[n..], j - n) ensures InEscape(t, j) {
      var tail := t[n..];
      var k :| j - n - 2 <= k <= j - n && 0 <= k <= |tail| - 3
        && tail[k] == '%' as int && UpperHexDigit(tail[k + 1]) && UpperHexDigit(tail[k + 2]);
      assert t[n + k] == tail[k] && t[n + k + 1] == tail[k + 1] && t[n + k + 2] == tail[k + 2];
    }
  }

  lemma SameEscapes(bytes: seq<Byte>, t: Text, t': Text)
    requires 3 * |bytes| <= |t| && 3 * |bytes| <= |t'|
    requires forall i :: 0 <= i < |bytes| ==> IsEscape(t[3 * i..3 * i + 3], bytes[i]) && IsEscape(t'[3 * i..3 * i + 3], bytes[i])
    ensures t[..3 * |bytes|] == t'[..3 * |bytes|]
  {
    forall j | 0 <= j < 3 * |bytes| ensures t[j] == t'[j] {
      var i := j / 3;
      var a, b := t[3 * i..3 * i + 3], t'[3 * i..3 * i + 3];
      assert IsEscape(a, bytes[i]) && IsEscape(b, bytes[i]);
      assert t[j] == a[j - 3 * i] && t'[j] == b[j - 3 * i];
    }
  }

  /** Only one text shows given code points. */
  lemma {:induction false} ShownOnce(cps: seq<CodePoint>, t: Text, t': Text, isPath: bool, isAuthority: bool)
    requires Shows(cps, t, isPath, isAuthority) && Shows(cps, t', isPath, isAuthority)
    ensures t == t'
    decreases |cps|
  {
    if cps != [] {
      var n := if Kept(cps[0], isPath, isAuthority) then 1 else 3 * |EncodePoint(cps[0])|;
      ShownOnce(cps[1..], t[n..], t'[n..], isPath, isAuthority);
      if !Kept(cps[0], isPath, isAuthority) {
        SameEscapes(EncodePoint(cps[0]), t, t');
      }
      assert t == t[..n] + t[n..] && t' == t'[..n] + t'[n..];
    }
  }

  /** Every surrogate has its other half beside it. */
  ghost predicate Paired(s: Text) {
    && (forall i :: 0 <= i < |s| && 0xD800 <= s[i] <= 0xDBFF ==> i + 1 < |s| && 0xDC00 <= s[i + 1] <= 0xDFFF)
    && (forall i :: 0 <= i < |s| && 0xDC00 <= s[i] <= 0xDFFF ==> 0 < i && 0xD800 <= s[i - 1] <= 0xDBFF)
  }
}
