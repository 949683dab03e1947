// What one call of the scanner recognises (json.ts, createScanner), on the text from its position on.
module JsonScan {
  import opened CodeUnits

  type Text = seq<CodeUnit>

  datatype Kind =
    | OpenBrace | CloseBrace | OpenBracket | CloseBracket | Comma | Colon
    | Null | True | False | String | Number
    | LineComment | BlockComment | LineBreak | Trivia | Unknown | EOF
  {
    predicate IsSpace() { LineBreak? || Trivia? }

    predicate IsComment() { LineComment? || BlockComment? }

    predicate IsPunctuation() { OpenBrace? || CloseBrace? || OpenBracket? || CloseBracket? || Comma? || Colon? }

    predicate IsScalar() { Null? || True? || False? || String? || Number? }

    // What the parser gets to see.
    predicate IsReal() { IsPunctuation() || IsScalar() }
  }

  datatype ScanError =
    | NoError | UnexpectedEndOfComment | UnexpectedEndOfString | UnexpectedEndOfNumber
    | InvalidUnicode | InvalidEscapeCharacter | InvalidCharacter

  datatype Scanned = Scanned(kind: Kind, length: nat, value: Text, error: ScanError)

  const TAB := 0x09
  const LF := 0x0A
  const CR := 0x0D
  const SPACE := 0x20
  const QUOTE := 0x22
  const ASTERISK := 0x2A
  const PLUS := 0x2B
  const COMMA := 0x2C
  const MINUS := 0x2D
  const DOT := 0x2E
  const SLASH := 0x2F
  const ZERO := 0x30
  const COLON := 0x3A
  const OPEN_BRACKET := 0x5B
  const BACKSLASH := 0x5C
  const CLOSE_BRACKET := 0x5D
  const OPEN_BRACE := 0x7B
  const CLOSE_BRACE := 0x7D

  const TRUE_WORD: Text := [0x74, 0x72, 0x75, 0x65]
  const FALSE_WORD: Text := [0x66, 0x61, 0x6C, 0x73, 0x65]
  const NULL_WORD: Text := [0x6E, 0x75, 0x6C, 0x6C]

  // charCodeAt: -1 stands for NaN.
  function At(s: Text, i: nat): int {
    if i < |s| then s[i] else -1
  }

  predicate IsWhitespace(ch: int) {
    || ch == SPACE || ch == TAB || ch == 0x0B || ch == 0x0C || ch == 0xA0 || ch == 0x1680
    || 0x2000 <= ch <= 0x200B || ch == 0x202F || ch == 0x205F || ch == 0x3000 || ch == 0xFEFF
  }

  predicate IsLineBreak(ch: int) {
    ch == LF || ch == CR || ch == 0x2028 || ch == 0x2029
  }

  predicate IsTrivia(ch: int) {
    IsWhitespace(ch) || IsLineBreak(ch)
  }

  predicate IsDigit(ch: int) {
    ZERO <= ch <= 0x39
  }

  // isUnknownContentCharacter
  predicate IsWordPart(ch: int) {
    && !IsTrivia(ch)
    && ch !in {CLOSE_BRACE, CLOSE_BRACKET, OPEN_BRACE, OPEN_BRACKET, QUOTE, COLON, COMMA, SLASH}
  }

  function HexDigit(ch: int): (d: int)
    ensures -1 <= d < 16
  {
    if ZERO <= ch <= 0x39 then ch - ZERO
    else if 0x41 <= ch <= 0x46 then ch - 0x41 + 10
    else if 0x61 <= ch <= 0x66 then ch - 0x61 + 10
    else -1
  }

  datatype Class = White | Digits | Word | OneLine {
    predicate Has(ch: int) {
      match this
      case White => IsWhitespace(ch)
      case Digits => IsDigit(ch)
      case Word => IsWordPart(ch)
      case OneLine => !IsLineBreak(ch)
    }
  }

  /** How many units at the start of s belong to the class. */
  function Run(s: Text, c: Class): (n: nat)
    ensures n <= |s| && (forall i :: 0 <= i < n ==> c.Has(s[i])) && (n < |s| ==> !c.Has(s[n]))
  {
    if s == [] || !c.Has(s[0]) then 0 else 1 + Run(s[1..], c)
  }

  datatype Part = Part(length: nat, value: Text, error: ScanError)

  function IntegerLength(s: Text): (n: nat)
    requires s != [] && IsDigit(s[0])
    ensures 1 <= n <= |s|
  {
    if s[0] == ZERO then 1 else 1 + Run(s[1..], Digits)
  }

  // scanNumber
  function ScanNumber(s: Text): (r: Part)
    requires s != [] && IsDigit(s[0])
    ensures 1 <= |r.value| <= r.length <= |s|
  {
    var i := IntegerLength(s);
    if At(s, i) == DOT then
      if IsDigit(At(s, i + 1)) then ScanExponent(s, i + 2 + Run(s[i + 2..], Digits))
      else Part(i + 1, s[..i + 1], UnexpectedEndOfNumber)
    else
      ScanExponent(s, i)
  }

  function AfterSign(s: Text, i: nat): (j: nat)
    ensures i <= j && (i <= |s| ==> j <= |s|)
  {
    if At(s, i) == PLUS || At(s, i) == MINUS then i + 1 else i
  }

  function ScanExponent(s: Text, i: nat): (r: Part)
    requires 1 <= i <= |s|
    ensures 1 <= |r.value| <= r.length <= |s|
  {
    if At(s, i) == 0x45 || At(s, i) == 0x65 then
      var j := AfterSign(s, i + 1);
      if IsDigit(At(s, j)) then
        var end := j + 1 + Run(s[j + 1..], Digits);
        Part(end, s[..end], NoError)
      else
        Part(j, s[..i], UnexpectedEndOfNumber)
    else
      Part(i, s[..i], NoError)
  }

  // The branches of ScanExponent.
  lemma ExponentCases(s: Text, i: nat)
    requires 1 <= i <= |s|
    ensures !(At(s, i) == 0x45 || At(s, i) == 0x65) ==> ScanExponent(s, i) == Part(i, s[..i], NoError)
    ensures At(s, i) == 0x45 || At(s, i) == 0x65 ==>
      var j := AfterSign(s, i + 1);
      if IsDigit(At(s, j)) then
        j < |s| && var end := j + 1 + Run(s[j + 1..], Digits); ScanExponent(s, i) == Part(end, s[..end], NoError)
      else ScanExponent(s, i) == Part(j, s[..i], UnexpectedEndOfNumber)
  {
    hide Run;
  }

  // The units of the simple escapes, -1 for what is not one.
  function SimpleEscape(ch: int): int {
    if ch == QUOTE || ch == BACKSLASH || ch == SLASH then ch
    else if ch == 0x62 then 0x08
    else if ch == 0x66 then 0x0C
    else if ch == 0x6E then LF
    else if ch == 0x72 then CR
    else if ch == 0x74 then TAB
    else -1
  }

  // Up to count hexadecimal digits: how many there are, and their value.
  function HexRun(s: Text, count: nat): (n: nat)
    ensures n <= count && n <= |s|
  {
    if count == 0 || HexDigit(At(s, 0)) < 0 then 0 else 1 + HexRun(s[1..], count - 1)
  }

  function HexValue(s: Text, n: nat): (v: nat)
    requires n <= |s| && forall i :: 0 <= i < n ==> HexDigit(s[i]) >= 0
    decreases n
  {
    if n == 0 then 0 else HexValue(s, n - 1) * 16 + HexDigit(s[n - 1])
  }

  lemma HexRunDigits(s: Text, count: nat)
    ensures forall i :: 0 <= i < HexRun(s, count) ==> HexDigit(s[i]) >= 0
    ensures HexRun(s, count) < count ==> HexDigit(At(s, HexRun(s, count))) < 0
  {
    if count > 0 && HexDigit(At(s, 0)) >= 0 {
      HexRunDigits(s[1..], count - 1);
      var n := HexRun(s[1..], count - 1);
      assert At(s[1..], n) == At(s, n + 1);
    }
  }

  lemma HexValueBound(s: Text)
    requires |s| >= 4 && forall i :: 0 <= i < 4 ==> HexDigit(s[i]) >= 0
    ensures HexValue(s, 4) < 0x10000
  {
    assert HexValue(s, 1) == HexValue(s, 0) * 16 + HexDigit(s[0]);
    assert HexValue(s, 2) == HexValue(s, 1) * 16 + HexDigit(s[1]);
    assert HexValue(s, 3) == HexValue(s, 2) * 16 + HexDigit(s[2]);
  }

  // What an escape sequence contributes; s starts behind the backslash and is not empty.
  function ScanEscape(s: Text): (r: Part)
    requires s != []
    ensures 1 <= r.length <= |s|
  {
    if SimpleEscape(s[0]) >= 0 then Part(1, [SimpleEscape(s[0])], NoError)
    else if s[0] == 0x75 then
      var n := HexRun(s[1..], 4);
      if n == 4 then
        HexRunDigits(s[1..], 4);
        HexValueBound(s[1..]);
        Part(5, [HexValue(s[1..], 4)], NoError)
      else Part(1 + n, [], InvalidUnicode)
    else Part(1, [], InvalidEscapeCharacter)
  }

  // scanString, from behind the opening quote. A later error overwrites an earlier one.
  function ScanString(s: Text): (r: Part)
    ensures r.length <= |s|
  {
    if s == [] then Part(0, [], UnexpectedEndOfString)
    else if s[0] == QUOTE then Part(1, [], NoError)
    else if s[0] == BACKSLASH then
      if |s| == 1 then Part(1, [], UnexpectedEndOfString)
      else Before(Escaped(s), ScanString(s[Escaped(s).length..]))
    else if s[0] <= 0x1F then
      if IsLineBreak(s[0]) then Part(0, [], UnexpectedEndOfString)
      else Before(Part(1, [s[0]], InvalidCharacter), ScanString(s[1..]))
    else
      Before(Part(1, [s[0]], NoError), ScanString(s[1..]))
  }

  // The branches of ScanString.
  lemma StringCases(s: Text)
    ensures s == [] ==> ScanString(s) == Part(0, [], UnexpectedEndOfString)
    ensures s != [] && s[0] == QUOTE ==> ScanString(s) == Part(1, [], NoError)
    ensures s == [BACKSLASH] ==> ScanString(s) == Part(1, [], UnexpectedEndOfString)
    ensures |s| > 1 && s[0] == BACKSLASH ==> ScanString(s) == Before(Escaped(s), ScanString(s[Escaped(s).length..]))
    ensures s != [] && s[0] <= 0x1F && IsLineBreak(s[0]) ==> ScanString(s) == Part(0, [], UnexpectedEndOfString)
    ensures s != [] && s[0] != QUOTE && s[0] != BACKSLASH && !(s[0] <= 0x1F && IsLineBreak(s[0])) ==>
      ScanString(s) == Before(Part(1, [s[0]], if s[0] <= 0x1F then InvalidCharacter else NoError), ScanString(s[1..]))
  {
    hide Before, Escaped;
  }

  function Escaped(s: Text): (r: Part)
    requires |s| > 1 && s[0] == BACKSLASH
    ensures 2 <= r.length <= |s|
  {
    var e := ScanEscape(s[1..]);
    Part(1 + e.length, e.value, e.error)
  }

  function Before(first: Part, rest: Part): Part {
    Part(first.length + rest.length, first.value + rest.value, if rest.error.NoError? then first.error else rest.error)
  }

  // From behind the two opening units of a block comment: how far it goes, and whether it is closed.
  function BlockLength(s: Text): (n: nat)
    ensures n <= |s| || (s == [] && n == 1)
  {
    if |s| <= 1 then 1
    else if s[0] == ASTERISK && s[1] == SLASH then 2
    else 1 + BlockLength(s[1..])
  }

  predicate BlockClosed(s: Text) {
    |s| > 1 && ((s[0] == ASTERISK && s[1] == SLASH) || BlockClosed(s[1..]))
  }

  function Punctuation(ch: int): Kind {
    if ch == OPEN_BRACE then OpenBrace
    else if ch == CLOSE_BRACE then CloseBrace
    else if ch == OPEN_BRACKET then OpenBracket
    else if ch == CLOSE_BRACKET then CloseBracket
    else if ch == COLON then Colon
    else if ch == COMMA then Comma
    else Unknown
  }

  function WordKind(word: Text): (k: Kind)
    ensures k.True? || k.False? || k.Null? || k.Unknown?
  {
    if word == TRUE_WORD then True
    else if word == FALSE_WORD then False
    else if word == NULL_WORD then Null
    else Unknown
  }

  /** scanNext at the start of s. The value of a comment is not modelled here. */
  function Scan(s: Text): (r: Scanned)
    ensures r.kind == EOF <==> s == []
    ensures r.kind == EOF ==> r == Scanned(EOF, 0, [], NoError)
    ensures s != [] ==> r.length > 0
  {
    if s == [] then Scanned(EOF, 0, [], NoError)
    else if IsWhitespace(s[0]) then
      var n := Run(s, White);
      Scanned(Trivia, n, s[..n], NoError)
    else if IsLineBreak(s[0]) then
      var n := if s[0] == CR && At(s, 1) == LF then 2 else 1;
      Scanned(LineBreak, n, s[..n], NoError)
    else if Punctuation(s[0]) != Unknown then Scanned(Punctuation(s[0]), 1, [], NoError)
    else if s[0] == QUOTE then
      var r := ScanString(s[1..]);
      Scanned(String, 1 + r.length, r.value, r.error)
    else if s[0] == SLASH then
      if At(s, 1) == SLASH then Scanned(LineComment, 2 + Run(s[2..], OneLine), [], NoError)
      else if At(s, 1) == ASTERISK then
        Scanned(BlockComment, 2 + BlockLength(s[2..]), [], if BlockClosed(s[2..]) then NoError else UnexpectedEndOfComment)
      else Scanned(Unknown, 1, [SLASH], NoError)
    else if s[0] == MINUS then
      if !IsDigit(At(s, 1)) then Scanned(Unknown, 1, [MINUS], NoError)
      else
        var r := ScanNumber(s[1..]);
        Scanned(Number, 1 + r.length, [MINUS] + r.value, r.error)
    else if IsDigit(s[0]) then
      var r := ScanNumber(s);
      Scanned(Number, r.length, r.value, r.error)
    else
      var n := Run(s, Word);
      Scanned(WordKind(s[..n]), n, s[..n], NoError)
  }

  // A block comment that opens with the last two units of the text.
  predicate IsBareComment(s: Text) {
    |s| == 2 && s[0] == SLASH && s[1] == ASTERISK
  }

  /** A token ends inside the text, except that a bare comment at its end overshoots it by one. */
  lemma ScanLength(s: Text)
    ensures Scan(s).length <= |s| <==> !IsBareComment(s)
    ensures IsBareComment(s) ==> Scan(s).length == |s| + 1 && Scan(s).kind.BlockComment?
  {
    if IsBareComment(s) {
      assert s[2..] == [];
    }
  }
}
