// JSON.stringify on strings (section 7 of RFC 8259; lone surrogates escaped), and that the scanner undoes it.
module JsonQuote {
  import opened CodeUnits
  import opened JsonScan
  import opened JsonLex

  function HexUnit(d: nat): CodeUnit
    requires d < 16
  {
    if d < 10 then ZERO + d else 0x61 + d - 10
  }

  function Hex4(c: CodeUnit): Text {
    [HexUnit(c / 0x1000), HexUnit(c / 0x100 % 16), HexUnit(c / 16 % 16), HexUnit(c % 16)]
  }

  predicate IsHigh(ch: int) { 0xD800 <= ch <= 0xDBFF }

  predicate IsLow(ch: int) { 0xDC00 <= ch <= 0xDFFF }

  predicate IsLone(s: Text, i: nat)
    requires i < |s|
  {
    (IsHigh(s[i]) && !IsLow(At(s, i + 1))) || (IsLow(s[i]) && (i == 0 || !IsHigh(s[i - 1])))
  }

  // The letter of a short escape, -1 where there is none.
  function ShortEscape(c: CodeUnit): int {
    if c == QUOTE || c == BACKSLASH then c
    else if c == 0x08 then 0x62
    else if c == 0x0C then 0x66
    else if c == LF then 0x6E
    else if c == CR then 0x72
    else if c == TAB then 0x74
    else -1
  }

  function Unit(s: Text, i: nat): Text
    requires i < |s|
  {
    if ShortEscape(s[i]) >= 0 then [BACKSLASH, ShortEscape(s[i])]
    else if s[i] < SPACE || IsLone(s, i) then [BACKSLASH, 0x75] + Hex4(s[i])
    else [s[i]]
  }

  function Body(s: Text, i: nat): Text
    requires i <= |s|
    decreases |s| - i
  {
    if i == |s| then [] else Unit(s, i) + Body(s, i + 1)
  }

  function Quote(s: Text): Text {
    [QUOTE] + Body(s, 0) + [QUOTE]
  }

  lemma HexUnitBack(d: nat)
    requires d < 16
    ensures HexDigit(HexUnit(d)) == d
  {
  }

  lemma {:induction false} HexRunAll(s: Text, count: nat)
    requires count <= |s| && forall i :: 0 <= i < count ==> HexDigit(s[i]) >= 0
    ensures HexRun(s, count) == count
  {
    if count > 0 {
      HexRunAll(s[1..], count - 1);
    }
  }

  lemma FourDigits(c: CodeUnit)
    ensures ((c / 0x1000 * 16 + c / 0x100 % 16) * 16 + c / 16 % 16) * 16 + c % 16 == c && c / 0x1000 < 16
  {
    assert c / 16 / 16 == c / 0x100 && c / 0x100 / 16 == c / 0x1000;
  }

  lemma Hex4Back(c: CodeUnit, rest: Text)
    ensures HexRun(Hex4(c) + rest, 4) == 4
    ensures (forall i :: 0 <= i < 4 ==> HexDigit((Hex4(c) + rest)[i]) >= 0) && HexValue(Hex4(c) + rest, 4) == c
  {
    hide HexUnit, HexDigit, HexRun;
    var s := Hex4(c) + rest;
    FourDigits(c);
    var a, b, d, e := c / 0x1000, c / 0x100 % 16, c / 16 % 16, c % 16;
    HexUnitBack(a);
    HexUnitBack(b);
    HexUnitBack(d);
    HexUnitBack(e);
    assert s[0] == HexUnit(a) && s[1] == HexUnit(b) && s[2] == HexUnit(d) && s[3] == HexUnit(e);
    HexRunAll(s, 4);
    assert HexValue(s, 1) == HexValue(s, 0) * 16 + a;
    assert HexValue(s, 2) == HexValue(s, 1) * 16 + b;
    assert HexValue(s, 3) == HexValue(s, 2) * 16 + d;
  }

  // One unit is read back.
  lemma UnitBack(s: Text, i: nat, rest: Text)
    requires i < |s|
    ensures ScanString(Unit(s, i) + rest) == Before(Part(|Unit(s, i)|, [s[i]], NoError), ScanString(rest))
  {
    var u := Unit(s, i);
    var t := u + rest;
    if ShortEscape(s[i]) >= 0 {
      assert t[1..][0] == ShortEscape(s[i]) && t[2..] == rest;
      assert SimpleEscape(ShortEscape(s[i])) == s[i];
      assert Escaped(t) == Part(2, [s[i]], NoError);
    } else if |u| > 1 {
      assert t[1..][0] == 0x75 && t[1..][1..] == Hex4(s[i]) + rest && t[6..] == rest;
      Hex4Back(s[i], rest);
      assert Escaped(t) == Part(6, [s[i]], NoError);
    } else {
      assert t[0] == s[i] && t[1..] == rest;
    }
  }

  lemma {:induction false} BodyBack(s: Text, i: nat, rest: Text)
    requires i <= |s|
    ensures ScanString(Body(s, i) + [QUOTE] + rest) == Part(|Body(s, i)| + 1, s[i..], NoError)
    decreases |s| - i
  {
    hide Unit, ScanEscape;
    if i == |s| {
      assert [] + [QUOTE] + rest == [QUOTE] + rest;
    } else {
      var more := Body(s, i + 1) + [QUOTE] + rest;
      assert Body(s, i) + [QUOTE] + rest == Unit(s, i) + more;
      UnitBack(s, i, more);
      BodyBack(s, i + 1, rest);
      assert s[i..] == [s[i]] + s[i + 1..];
    }
  }

  /** A quoted string is one token, whatever follows, and its value is the string. */
  lemma QuoteRoundTrip(s: Text, rest: Text)
    ensures IsToken(Quote(s), rest) && Scan(Quote(s) + rest) == Scanned(String, |Quote(s)|, s, NoError)
  {
    hide ScanString;
    BodyBack(s, 0, rest);
    var t := Quote(s) + rest;
    assert t[0] == QUOTE && t[1..] == Body(s, 0) + [QUOTE] + rest && s[0..] == s;
  }

  /** How each unit is written: seven of them by a letter or themselves behind a backslash, the other control units and lone surrogates by four digits. */
  lemma QuotedUnit(s: Text, i: nat)
    requires i < |s|
    ensures var c := s[i]; var b := '\\' as int;
      Unit(s, i) ==
        if c == '"' as int || c == b then [b, c]
        else if c == '\n' as int then [b, 'n' as int]
        else if c == '\r' as int then [b, 'r' as int]
        else if c == '\t' as int then [b, 't' as int]
        else if c == 8 then [b, 'b' as int]
        else if c == 12 then [b, 'f' as int]
        else if c < ' ' as int || IsLone(s, i) then
          [b, 'u' as int, Lower(c / 4096), Lower(c / 256 % 16), Lower(c / 16 % 16), Lower(c % 16)]
        else [c]
  {
  }

  function Lower(d: nat): CodeUnit
    requires d < 16
  {
    if d < 10 then '0' as int + d else 'a' as int + (d - 10)
  }
}
