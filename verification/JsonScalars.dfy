// What the texts of single values parse to.
module JsonScalars {
  import opened Wrappers
  import opened JsonScan
  import opened JsonSyntax
  import opened JsonGrammar
  import opened JsonValue
  import opened JsonLex
  import opened JsonWords
  import opened JsonSetProperty
  import JsonLexical
  import JsonNumber
  import JsonParse

  // A text that is one token of a value.
  lemma OneToken(text: Text, kind: Kind, value: Text)
    requires text != [] && Scan(text) == Scanned(kind, |text|, value, NoError) && kind.IsScalar() && (kind.Number? ==> Parses(value))
    ensures JsonParse.Parsed(text, DEFAULT) == Some(ValueOf(Lit(New(kind, value))))
  {
    hide Scan, Clean, Lexemes, ValueOf;
    var none: Text := [];
    var n := Lit(New(kind, value));
    assert text + none == text;
    assert IsToken(text, none);
    NoTokens();
    TakeToken(text, none);
    FirstIs(text);
    assert Lexemes(text) == [Lexeme(kind, value)] + [];
    assert NodeWords(n) == [Lexeme(kind, value)];
    DocumentByWords(text, n, DEFAULT);
  }

  /** true, false and null are what they say. */
  lemma NamesParse(text: Text, word: string)
    requires JsonLexical.Spells(text, word) && (word == "true" || word == "false" || word == "null")
    ensures JsonParse.Parsed(text, DEFAULT)
      == Some(if word == "true" then Json.Bool(true) else if word == "false" then Json.Bool(false) else Json.Null)
  {
    hide Scan;
    var none: Text := [];
    JsonLexical.NamesAreFound(text, word, none);
    assert text + none == text;
    OneToken(text, if word == "true" then True else if word == "false" then False else Kind.Null, text);
  }

  /** A string between quotes parses to its value. */
  lemma StringParses(body: Text, value: Text)
    requires JsonLexical.Contents(body, value)
    ensures JsonParse.Parsed(['"' as int] + body + ['"' as int], DEFAULT) == Some(Json.String(value))
  {
    hide JsonLexical.Contents;
    var text := ['"' as int] + body + ['"' as int];
    JsonLexical.ContentsAreString(body, value, []);
    assert text[1..] == body + (['"' as int] + []);
    StringScanned(text);
    OneToken(text, Kind.String, value);
  }

  lemma StringScanned(s: Text)
    requires s != [] && s[0] == '"' as int
    ensures var r := ScanString(s[1..]); Scan(s) == Scanned(Kind.String, 1 + r.length, r.value, r.error)
  {
    hide ScanString, ScanNumber;
  }

  // ---- every number is one token

  // A run of digits that ends at n.
  lemma RunEnds(s: Text, from: nat, n: nat)
    requires from <= n <= |s| && JsonNumber.AllDigits(s[from..n]) && !IsDigit(At(s, n))
    ensures Run(s[from..], Digits) == n - from
  {
    var t := s[from..];
    assert forall i :: 0 <= i < n - from ==> t[i] == s[from..n][i];
    assert n < |s| ==> t[n - from] == s[n];
  }

  lemma DigitsInside(s: Text, a: nat, b: nat)
    requires a < b <= |s| && JsonNumber.AllDigits(s[a..b])
    ensures JsonNumber.AllDigits(s[a + 1..b])
  {
    var all, more := s[a..b], s[a + 1..b];
    assert forall k :: 0 <= k < |more| ==> more[k] == all[k + 1];
  }

  // The text from k on is an exponent, or there is none.
  lemma ExponentScanned(u: Text, k: nat)
    requires 1 <= k <= |u| && JsonNumber.IsExp(u[k..])
    ensures ScanExponent(u, k) == Part(|u|, u, NoError) && !IsDigit(At(u, k)) && At(u, k) != DOT
  {
    hide Run;
    var e := u[k..];
    ExponentCases(u, k);
    assert u[..|u|] == u && (k == |u| ==> u[..k] == u);
    if e != [] {
      assert e[0] == u[k];
      var j := AfterSign(u, k + 1);
      if |e| > 1 && JsonNumber.AllDigits(e[1..]) {
        assert e[1..][0] == e[1] == u[k + 1] && j == k + 1;
        assert e[1..] == u[j..];
      } else {
        assert e[1] == u[k + 1] && j == k + 2;
        assert e[2..] == u[j..] && e[2..][0] == u[j];
      }
      assert u[j..] == u[j..|u|];
      DigitsInside(u, j, |u|);
      RunEnds(u, j + 1, |u|);
    }
  }

  lemma IntegerScanned(u: Text, i: nat)
    requires i <= |u| && JsonNumber.IsInt(u[..i]) && !IsDigit(At(u, i))
    ensures 0 < i && IsDigit(u[0]) && IntegerLength(u) == i
  {
    var a := u[..i];
    assert a[0] == u[0] && IsDigit(a[0]);
    if u[0] != ZERO {
      assert forall k :: 0 <= k < |u[1..i]| ==> u[1..i][k] == a[k + 1];
      RunEnds(u, 1, i);
    }
  }

  lemma UnsignedScanned(u: Text, i: nat, j: nat)
    requires JsonNumber.Splits(u, i, j)
    ensures u != [] && IsDigit(u[0]) && ScanNumber(u) == Part(|u|, u, NoError)
  {
    hide Run, IntegerLength, ScanExponent;
    var b := u[i..j];
    ExponentTail(u, i, j);
    if b == [] {
      IntegerScanned(u, i);
    } else {
      assert b[0] == u[i] == DOT && b[1..] == u[i + 1..j] && b[1..][0] == u[i + 1];
      IntegerScanned(u, i);
      DigitsInside(u, i + 1, j);
      RunEnds(u, i + 2, j);
    }
  }

  lemma ExponentTail(u: Text, i: nat, j: nat)
    requires JsonNumber.Splits(u, i, j)
    ensures 1 <= i <= j <= |u| && ScanExponent(u, j) == Part(|u|, u, NoError) && !IsDigit(At(u, j)) && At(u, j) != DOT
  {
    assert u[..i] != [];
    ExponentScanned(u, j);
  }

  /** Every number of section 6 of RFC 8259 is one token. */
  lemma NumberIsToken(text: Text)
    requires JsonNumber.IsNumber(text)
    ensures text != [] && Parses(text) && Scan(text) == Scanned(Kind.Number, |text|, text, NoError)
  {
    hide Scan, ScanNumber, JsonNumber.Splits;
    if text != [] && text[0] == MINUS {
      var u := text[1..];
      UnsignedIsScanned(u);
      NumberScanned(text);
      assert [MINUS] + u == text && text[|text| - 1] == u[|u| - 1];
    } else {
      UnsignedIsScanned(text);
      NumberScanned(text);
    }
  }

  lemma UnsignedIsScanned(u: Text)
    requires JsonNumber.IsUnsigned(u)
    ensures u != [] && IsDigit(u[0]) && IsDigit(u[|u| - 1]) && ScanNumber(u) == Part(|u|, u, NoError)
  {
    hide ScanNumber, JsonNumber.Splits;
    var i: nat, j: nat :| JsonNumber.Splits(u, i, j);
    UnsignedScanned(u, i, j);
    JsonNumber.EndsInDigit(u, i, j);
  }

  /** And parses to itself. */
  lemma NumberParses(text: Text)
    requires JsonNumber.IsNumber(text)
    ensures JsonParse.Parsed(text, DEFAULT) == Some(Json.Number(text))
  {
    hide Scan, JsonNumber.IsNumber;
    NumberIsToken(text);
    OneToken(text, Kind.Number, text);
  }

  lemma NumberScanned(s: Text)
    requires s != []
    ensures IsDigit(s[0]) ==> var r := ScanNumber(s); Scan(s) == Scanned(Kind.Number, r.length, r.value, r.error)
    ensures s[0] == MINUS && |s| > 1 && IsDigit(s[1]) ==>
      var r := ScanNumber(s[1..]); Scan(s) == Scanned(Kind.Number, 1 + r.length, [MINUS] + r.value, r.error)
  {
    hide ScanString, ScanNumber, Run, BlockLength, BlockClosed;
  }
}
