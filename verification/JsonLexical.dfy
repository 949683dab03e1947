// The tokens of JSON, written out: which units begin them, the three literal names, and the strings of section 7 of RFC 8259.
module JsonLexical {
  import opened CodeUnits
  import opened JsonScan

  /** The token of a text by its first unit, as far as JSON goes. */
  lemma KindByFirstUnit(s: Text)
    requires s != []
    ensures var c, kind := s[0], Scan(s).kind;
      && (kind.OpenBrace? <==> c == '{' as int) && (kind.CloseBrace? <==> c == '}' as int)
      && (kind.OpenBracket? <==> c == '[' as int) && (kind.CloseBracket? <==> c == ']' as int)
      && (kind.Colon? <==> c == ':' as int) && (kind.Comma? <==> c == ',' as int)
      && (kind.String? <==> c == '"' as int)
      && (kind.Number? <==> '0' as int <= c <= '9' as int || (c == '-' as int && |s| > 1 && '0' as int <= s[1] <= '9' as int))
      && (c == ' ' as int || c == '\t' as int ==> kind.Trivia?)
      && (c == '\n' as int || c == '\r' as int ==> kind.LineBreak?)
  {
    hide ScanString, ScanNumber, BlockLength, BlockClosed;
  }

  // A unit at which the name in front of it ends.
  predicate EndsName(c: int) {
    || c == '{' as int || c == '}' as int || c == '[' as int || c == ']' as int || c == ':' as int || c == ',' as int
    || c == '"' as int || c == '/' as int || IsTrivia(c)
  }

  ghost predicate Spells(t: Text, s: string) {
    |t| == |s| && forall i :: 0 <= i < |s| ==> t[i] == s[i] as int
  }

  /** true, false and null, as far as they go. */
  lemma NamesByText(s: Text)
    ensures var r := Scan(s);
      && (r.kind.True? ==> r.length == 4 <= |s| && Spells(s[..4], "true") && (|s| > 4 ==> EndsName(s[4])))
      && (r.kind.False? ==> r.length == 5 <= |s| && Spells(s[..5], "false") && (|s| > 5 ==> EndsName(s[5])))
      && (r.kind.Null? ==> r.length == 4 <= |s| && Spells(s[..4], "null") && (|s| > 4 ==> EndsName(s[4])))
  {
    hide ScanString, ScanNumber, BlockLength, BlockClosed;
  }

  lemma NamesAreFound(s: Text, word: string, rest: Text)
    requires Spells(s, word) && (word == "true" || word == "false" || word == "null")
    requires rest == [] || EndsName(rest[0])
    ensures Scan(s + rest) == Scanned(if word == "true" then True else if word == "false" then False else Null, |word|, s, NoError)
  {
    hide Scan, Run;
    NameUnits(s, word);
    WordScan(s, rest);
  }

  lemma NameUnits(s: Text, word: string)
    requires Spells(s, word) && (word == "true" || word == "false" || word == "null")
    ensures s != [] && (forall i :: 0 <= i < |s| ==> 'a' as int <= s[i] <= 'z' as int)
    ensures WordKind(s) == if word == "true" then True else if word == "false" then False else Null
  {
    if word == "true" {
      assert s == TRUE_WORD;
    } else if word == "false" {
      assert s == FALSE_WORD;
    } else {
      assert s == NULL_WORD;
    }
  }

  lemma WordScan(s: Text, rest: Text)
    requires s != [] && (forall i :: 0 <= i < |s| ==> 'a' as int <= s[i] <= 'z' as int)
    requires rest == [] || EndsName(rest[0])
    ensures Scan(s + rest) == Scanned(WordKind(s), |s|, s, NoError)
  {
    hide ScanString, ScanNumber, BlockLength, BlockClosed, WordKind;
    var t := s + rest;
    var n := Run(t, Word);
    assert t[0] == s[0];
    assert forall i :: 0 <= i < |s| ==> t[i] == s[i];
    assert |s| < |t| ==> t[|s|] == rest[0] && !Word.Has(t[|s|]);
    assert n == |s| && t[..n] == s;
  }

  /** The units of numbers. */
  lemma NumberUnits(c: int)
    ensures IsDigit(c) <==> '0' as int <= c <= '9' as int
    ensures MINUS == '-' as int && PLUS == '+' as int && DOT == '.' as int && 0x65 == 'e' as int && 0x45 == 'E' as int
  {
  }

  // ---- strings

  function HexOf(c: int): int {
    if '0' as int <= c <= '9' as int then c - '0' as int
    else if 'a' as int <= c <= 'f' as int then c - 'a' as int + 10
    else if 'A' as int <= c <= 'F' as int then c - 'A' as int + 10
    else -1
  }

  // The unit that a backslash and c stand for, -1 if they stand for none.
  function EscapeOf(c: int): int {
    if c == '"' as int || c == '\\' as int || c == '/' as int then c
    else if c == 'b' as int then 8
    else if c == 'f' as int then 12
    else if c == 'n' as int then '\n' as int
    else if c == 'r' as int then '\r' as int
    else if c == 't' as int then '\t' as int
    else -1
  }

  ghost predicate FourDigits(s: Text, unit: int) {
    && |s| >= 4 && HexOf(s[0]) >= 0 && HexOf(s[1]) >= 0 && HexOf(s[2]) >= 0 && HexOf(s[3]) >= 0
    && unit == ((HexOf(s[0]) * 16 + HexOf(s[1])) * 16 + HexOf(s[2])) * 16 + HexOf(s[3])
  }

  /** What stands between two quotes, and its value. */
  ghost predicate Contents(body: Text, value: Text)
    decreases |body|
  {
    if body == [] then value == []
    else
      value != [] &&
      if body[0] == '\\' as int then
        |body| > 1 &&
        if body[1] == 'u' as int then FourDigits(body[2..], value[0]) && Contents(body[6..], value[1..])
        else EscapeOf(body[1]) == value[0] && Contents(body[2..], value[1..])
      else body[0] >= ' ' as int && body[0] != '"' as int && value[0] == body[0] && Contents(body[1..], value[1..])
  }

  lemma DigitsAgree(c: int)
    ensures HexOf(c) == HexDigit(c) && EscapeOf(c) == SimpleEscape(c)
  {
  }

  // Four digits behind a backslash and u.
  lemma HexAgrees(s: Text)
    ensures HexRun(s, 4) == 4 <==> |s| >= 4 && HexDigit(s[0]) >= 0 && HexDigit(s[1]) >= 0 && HexDigit(s[2]) >= 0 && HexDigit(s[3]) >= 0
    ensures HexRun(s, 4) == 4 ==> |s| >= 4 && forall i :: 0 <= i < 4 ==> HexDigit(s[i]) >= 0
    ensures HexRun(s, 4) == 4 ==>
      HexValue(s, 4) == ((HexDigit(s[0]) * 16 + HexDigit(s[1])) * 16 + HexDigit(s[2])) * 16 + HexDigit(s[3])
  {
    HexRunDigits(s, 4);
    if HexRun(s, 4) == 4 {
      assert HexValue(s, 1) == HexValue(s, 0) * 16 + HexDigit(s[0]);
      assert HexValue(s, 2) == HexValue(s, 1) * 16 + HexDigit(s[1]);
      assert HexValue(s, 3) == HexValue(s, 2) * 16 + HexDigit(s[2]);
    } else {
      var n := HexRun(s, 4);
      assert n < 4 && HexDigit(At(s, n)) < 0;
    }
  }

  lemma EscapeExactly(s: Text)
    requires |s| > 1 && s[0] == BACKSLASH
    ensures var e := Escaped(s);
      e.error.NoError? <==> if s[1] == 'u' as int then exists u :: FourDigits(s[2..], u) else EscapeOf(s[1]) >= 0
    ensures var e := Escaped(s);
      e.error.NoError? ==>
        if s[1] == 'u' as int then e.length == 6 && |e.value| == 1 && FourDigits(s[2..], e.value[0])
        else e.length == 2 && e.value == [EscapeOf(s[1])]
  {
    DigitsAgree(s[1]);
    if s[1] == 'u' as int {
      var t := s[2..];
      assert s[1..][1..] == t;
      HexAgrees(t);
      if |t| >= 4 {
        DigitsAgree(t[0]);
        DigitsAgree(t[1]);
        DigitsAgree(t[2]);
        DigitsAgree(t[3]);
      }
      if HexRun(t, 4) == 4 {
        assert FourDigits(t, HexValue(t, 4));
      }
    }
  }

  /** A string without an error is what stands up to the next quote that is not escaped, with its value. */
  lemma {:induction false} StringIsContents(s: Text)
    ensures var r := ScanString(s);
      r.error.NoError? ==> 0 < r.length <= |s| && s[r.length - 1] == '"' as int && Contents(s[..r.length - 1], r.value)
    decreases |s|
  {
    hide ScanString, Escaped, FourDigits;
    StringCases(s);
    var r := ScanString(s);
    if r.error.NoError? && s != [] && s[0] != QUOTE {
      if s[0] == BACKSLASH {
        var e := Escaped(s);
        EscapeExactly(s);
        StringIsContents(s[e.length..]);
        ContentsInFront(s, e.length, r.length - 1);
        FourInside(s, r.length - 1);
        assert r.value[1..] == ScanString(s[e.length..]).value;
      } else {
        StringIsContents(s[1..]);
        ContentsInFront(s, 1, r.length - 1);
        assert r.value[1..] == ScanString(s[1..]).value;
      }
    }
  }

  lemma ContentsInFront(s: Text, k: nat, n: nat)
    requires k <= n <= |s|
    ensures s[..n][k..] == s[k..][..n - k] && (n < |s| ==> s[k..][n - k] == s[n])
  {
  }

  // The digits of an escape in front of n.
  lemma FourInside(s: Text, n: nat)
    requires n <= |s|
    ensures n >= 6 ==> forall u :: FourDigits(s[2..], u) <==> FourDigits(s[..n][2..], u)
  {
    if n >= 6 {
      var a, b := s[2..], s[..n][2..];
      assert a[0] == b[0] && a[1] == b[1] && a[2] == b[2] && a[3] == b[3];
    }
  }

  // One escape at the front.
  lemma EscapeInFront(body: Text, tail: Text, value: Text)
    requires Contents(body, value) && body != [] && body[0] == '\\' as int
    ensures var k := if |body| > 1 && body[1] == 'u' as int then 6 else 2;
      k <= |body| && value != [] && Contents(body[k..], value[1..]) && Escaped(body + tail) == Part(k, [value[0]], NoError)
  {
    hide ScanEscape, FourDigits;
    var s := body + tail;
    assert s[0] == body[0] && s[1] == body[1];
    if body[1] == 'u' as int {
      FourAlong(body, tail, value[0]);
    }
    hide Escaped;
    EscapeExactly(s);
    FourOnce(s[2..]);
  }

  /** And whatever stands so is scanned as a string without an error. */
  lemma {:induction false} ContentsAreString(body: Text, value: Text, rest: Text)
    requires Contents(body, value)
    ensures ScanString(body + (['"' as int] + rest)) == Part(|body| + 1, value, NoError)
    decreases |body|
  {
    hide ScanString, Escaped, FourDigits;
    var tail := ['"' as int] + rest;
    var s := body + tail;
    StringCases(s);
    if body == [] {
      assert s == tail;
    } else {
      assert s[0] == body[0];
      var k := if body[0] != '\\' as int then 1 else if body[1] == 'u' as int then 6 else 2;
      if k > 1 {
        EscapeInFront(body, tail, value);
      }
      assert s[k..] == body[k..] + tail;
      ContentsAreString(body[k..], value[1..], rest);
      assert [value[0]] + value[1..] == value;
    }
  }

  lemma FourAlong(body: Text, tail: Text, unit: int)
    requires |body| >= 2 && FourDigits(body[2..], unit)
    ensures |body| >= 6 && FourDigits((body + tail)[2..], unit)
  {
    var a, b := body[2..], (body + tail)[2..];
    assert a[0] == b[0] && a[1] == b[1] && a[2] == b[2] && a[3] == b[3];
  }

  lemma FourOnce(s: Text)
    ensures forall u, v :: FourDigits(s, u) && FourDigits(s, v) ==> u == v
  {
  }
}
