// Texts without comments, unknown symbols and scan errors: what their tokens depend on.
module JsonLex {
  import opened JsonScan

  // Whoever reads this unit behind a number, a keyword or anything else knows that it is over.
  predicate Stops(ch: int) {
    ch == -1 || IsTrivia(ch) || Punctuation(ch) != Unknown
  }

  // A token that says itself where it ends.
  predicate SelfEnding(k: Kind) {
    k.IsPunctuation() || k.String?
  }

  // Runs.

  lemma {:induction false} RunOfPrefix(s: Text, rest: Text, rest': Text, c: Class)
    requires Run(s + rest, c) < |s| || (Run(s + rest, c) == |s| && (rest' == [] || !c.Has(rest'[0])))
    ensures Run(s + rest', c) == Run(s + rest, c)
  {
    if s != [] && c.Has(s[0]) {
      assert (s + rest)[1..] == s[1..] + rest && (s + rest')[1..] == s[1..] + rest';
      RunOfPrefix(s[1..], rest, rest', c);
    }
  }

  // Strings.

  lemma {:induction false} HexRunOfPrefix(s: Text, rest: Text, rest': Text, count: nat)
    requires HexRun(s + rest, count) <= |s| && HexRun(s + rest, count) == count
    ensures HexRun(s + rest', count) == count
  {
    if count > 0 {
      assert (s + rest)[1..] == s[1..] + rest && (s + rest')[1..] == s[1..] + rest';
      HexRunOfPrefix(s[1..], rest, rest', count - 1);
    }
  }

  lemma {:induction false} HexValueOfPrefix(s: Text, s': Text, n: nat)
    requires n <= |s| && n <= |s'| && s[..n] == s'[..n] && forall i :: 0 <= i < n ==> HexDigit(s[i]) >= 0
    ensures (forall i :: 0 <= i < n ==> HexDigit(s'[i]) >= 0) && HexValue(s, n) == HexValue(s', n)
    decreases n
  {
    assert forall i :: 0 <= i < n ==> s'[i] == s'[..n][i] == s[..n][i] == s[i];
    if n > 0 {
      assert s[..n - 1] == s[..n][..n - 1] && s'[..n - 1] == s'[..n][..n - 1];
      HexValueOfPrefix(s, s', n - 1);
    }
  }

  lemma EscapeOfPrefix(s: Text, rest: Text, rest': Text)
    requires s != [] && ScanEscape(s + rest).length <= |s| && ScanEscape(s + rest).error.NoError?
    ensures ScanEscape(s + rest') == ScanEscape(s + rest)
  {
    var t, t' := s[1..] + rest, s[1..] + rest';
    assert (s + rest)[1..] == t && (s + rest')[1..] == t';
    if SimpleEscape(s[0]) < 0 {
      HexRunOfPrefix(s[1..], rest, rest', 4);
      HexRunDigits(t, 4);
      assert t[..4] == s[1..5] == t'[..4];
      HexValueOfPrefix(t, t', 4);
    }
  }

  lemma {:induction false} StringOfPrefix(s: Text, rest: Text, rest': Text)
    requires ScanString(s + rest).length == |s| && ScanString(s + rest).error.NoError?
    ensures ScanString(s + rest') == ScanString(s + rest)
    decreases |s|
  {
    hide ScanEscape;
    if s != [] && s[0] != QUOTE {
      if s[0] == BACKSLASH {
        if |s| > 1 {
          assert (s + rest)[1..] == s[1..] + rest && (s + rest')[1..] == s[1..] + rest';
          EscapeOfPrefix(s[1..], rest, rest');
          var n := Escaped(s + rest).length;
          assert (s + rest)[n..] == s[n..] + rest && (s + rest')[n..] == s[n..] + rest';
          StringOfPrefix(s[n..], rest, rest');
        }
      } else {
        assert (s + rest)[1..] == s[1..] + rest && (s + rest')[1..] == s[1..] + rest';
        StringOfPrefix(s[1..], rest, rest');
      }
    }
  }

  // Numbers.

  // The unit behind s is the same, or one that ends a number.
  predicate EndsAlike(rest: Text, rest': Text) {
    At(rest', 0) == At(rest, 0) || Stops(At(rest', 0))
  }

  lemma AtOfPrefix(s: Text, rest: Text, i: nat)
    ensures At(s + rest, i) == if i < |s| then s[i] else At(rest, i - |s|)
  {
  }

  lemma {:induction false} DigitsOfPrefix(s: Text, i: nat, rest: Text, rest': Text)
    requires i <= |s| && EndsAlike(rest, rest') && i + Run((s + rest)[i..], Digits) <= |s|
    ensures Run((s + rest')[i..], Digits) == Run((s + rest)[i..], Digits)
  {
    assert (s + rest)[i..] == s[i..] + rest && (s + rest')[i..] == s[i..] + rest';
    RunOfPrefix(s[i..], rest, rest', Digits);
  }

  lemma ExponentOfPrefix(s: Text, i: nat, rest: Text, rest': Text)
    requires 1 <= i <= |s| && EndsAlike(rest, rest')
    requires ScanExponent(s + rest, i).length == |s| && ScanExponent(s + rest, i).error.NoError?
    ensures ScanExponent(s + rest', i) == ScanExponent(s + rest, i)
  {
    hide Run, Class.Has, AfterSign;
    var t, t' := s + rest, s + rest';
    AtOfPrefix(s, rest, i);
    AtOfPrefix(s, rest', i);
    if At(t, i) == 0x45 || At(t, i) == 0x65 {
      SignOfPrefix(s, i + 1, rest, rest');
      var j := AfterSign(t, i + 1);
      AtOfPrefix(s, rest, j);
      AtOfPrefix(s, rest', j);
      DigitsOfPrefix(s, j + 1, rest, rest');
      assert t[..|s|] == s == t'[..|s|];
    } else {
      assert i == |s| && t[..i] == s == t'[..i];
    }
  }

  lemma SignOfPrefix(s: Text, i: nat, rest: Text, rest': Text)
    requires AfterSign(s + rest, i) < |s|
    ensures AfterSign(s + rest', i) == AfterSign(s + rest, i)
  {
    AtOfPrefix(s, rest, i);
    AtOfPrefix(s, rest', i);
  }

  lemma IntegerOfPrefix(s: Text, rest: Text, rest': Text)
    requires s != [] && IsDigit(s[0]) && EndsAlike(rest, rest') && IntegerLength(s + rest) <= |s|
    ensures IntegerLength(s + rest') == IntegerLength(s + rest)
  {
    if s[0] != ZERO {
      DigitsOfPrefix(s, 1, rest, rest');
    }
  }

  lemma NumberOfPrefix(s: Text, rest: Text, rest': Text)
    requires s != [] && IsDigit(s[0]) && EndsAlike(rest, rest')
    requires ScanNumber(s + rest).length == |s| && ScanNumber(s + rest).error.NoError?
    ensures ScanNumber(s + rest') == ScanNumber(s + rest)
  {
    hide Run, ScanExponent, IntegerLength;
    var t, t' := s + rest, s + rest';
    var i := IntegerLength(t);
    AtOfPrefix(s, rest, i);
    AtOfPrefix(s, rest', i);
    if At(t, i) == DOT {
      var k := i + 2 + Run(t[i + 2..], Digits);
      ExponentEnds(t, k);
      IntegerOfPrefix(s, rest, rest');
      AtOfPrefix(s, rest, i + 1);
      AtOfPrefix(s, rest', i + 1);
      DigitsOfPrefix(s, i + 2, rest, rest');
      ExponentOfPrefix(s, k, rest, rest');
    } else {
      ExponentEnds(t, i);
      IntegerOfPrefix(s, rest, rest');
      ExponentOfPrefix(s, i, rest, rest');
    }
  }

  lemma ExponentEnds(s: Text, i: nat)
    requires 1 <= i <= |s|
    ensures i <= ScanExponent(s, i).length
  {
  }

  /** A token depends on nothing behind the unit that follows it. */
  lemma TokenOfPrefix(lex: Text, rest: Text, rest': Text)
    requires var r := Scan(lex + rest); r.kind.IsReal() && r.error.NoError? && r.length == |lex|
    requires EndsAlike(rest, rest') || SelfEnding(Scan(lex + rest).kind)
    ensures Scan(lex + rest') == Scan(lex + rest)
  {
    var t, t' := lex + rest, lex + rest';
    assert t[0] == lex[0] == t'[0];
    if lex[0] == QUOTE {
      StringToken(lex, rest, rest');
    } else if lex[0] == MINUS {
      MinusToken(lex, rest, rest');
    } else if IsDigit(lex[0]) {
      DigitToken(lex, rest, rest');
    } else {
      OtherToken(lex, rest, rest');
    }
  }

  // A token and what may replace the text behind it.
  ghost predicate Replaceable(lex: Text, rest: Text, rest': Text) {
    var r := Scan(lex + rest);
    && lex != [] && r.kind.IsReal() && r.error.NoError? && r.length == |lex|
    && (EndsAlike(rest, rest') || SelfEnding(r.kind))
  }

  lemma StringToken(lex: Text, rest: Text, rest': Text)
    requires Replaceable(lex, rest, rest') && lex[0] == QUOTE
    ensures Scan(lex + rest') == Scan(lex + rest)
  {
    hide ScanString;
    assert (lex + rest)[1..] == lex[1..] + rest && (lex + rest')[1..] == lex[1..] + rest';
    StringOfPrefix(lex[1..], rest, rest');
  }

  lemma MinusToken(lex: Text, rest: Text, rest': Text)
    requires Replaceable(lex, rest, rest') && lex[0] == MINUS
    ensures Scan(lex + rest') == Scan(lex + rest)
  {
    hide ScanNumber;
    assert (lex + rest)[1..] == lex[1..] + rest && (lex + rest')[1..] == lex[1..] + rest';
    AtOfPrefix(lex, rest, 1);
    AtOfPrefix(lex, rest', 1);
    NumberOfPrefix(lex[1..], rest, rest');
  }

  lemma DigitToken(lex: Text, rest: Text, rest': Text)
    requires Replaceable(lex, rest, rest') && IsDigit(lex[0])
    ensures Scan(lex + rest') == Scan(lex + rest)
  {
    hide ScanNumber;
    NumberOfPrefix(lex, rest, rest');
  }

  lemma OtherToken(lex: Text, rest: Text, rest': Text)
    requires Replaceable(lex, rest, rest') && lex[0] != QUOTE && lex[0] != MINUS && !IsDigit(lex[0])
    ensures Scan(lex + rest') == Scan(lex + rest)
  {
    hide Run, WordKind;
    if Punctuation(lex[0]) == Unknown && !IsTrivia(lex[0]) && lex[0] != SLASH {
      WordOfPrefix(lex, rest, rest');
    }
  }

  lemma WordOfPrefix(lex: Text, rest: Text, rest': Text)
    requires Run(lex + rest, Word) == |lex| && EndsAlike(rest, rest')
    ensures Run(lex + rest', Word) == |lex| && (lex + rest)[..|lex|] == (lex + rest')[..|lex|]
  {
    if rest != [] {
      assert (lex + rest)[|lex|] == rest[0];
    }
    RunOfPrefix(lex, rest, rest', Word);
  }

  // What the units of a token can be.

  predicate IsNumberUnit(ch: int) {
    IsDigit(ch) || ch == DOT || ch == 0x45 || ch == 0x65 || ch == PLUS || ch == MINUS
  }

  lemma RunUnits(s: Text, i: nat)
    requires i <= |s|
    ensures forall k :: i <= k < i + Run(s[i..], Digits) ==> IsNumberUnit(s[k])
  {
    forall k | i <= k < i + Run(s[i..], Digits) ensures IsDigit(s[k]) {
      assert s[k] == s[i..][k - i] && Digits.Has(s[i..][k - i]);
    }
  }

  lemma ExponentUnits(s: Text, i: nat)
    requires 1 <= i <= |s|
    ensures forall k :: i <= k < ScanExponent(s, i).length ==> IsNumberUnit(s[k])
  {
    var j := AfterSign(s, i + 1);
    if j + 1 <= |s| {
      RunUnits(s, j + 1);
    }
  }

  lemma DigitUnits()
    ensures IsNumberUnit(DOT) && forall ch :: IsDigit(ch) ==> IsNumberUnit(ch)
  {
  }

  lemma NumberUnits(s: Text)
    requires s != [] && IsDigit(s[0])
    ensures forall k :: 0 <= k < ScanNumber(s).length ==> IsNumberUnit(s[k])
  {
    hide Run, ScanExponent, IsNumberUnit;
    RunUnits(s, 1);
    DigitUnits();
    var i := IntegerLength(s);
    ExponentUnits(s, i);
    if i + 2 <= |s| {
      RunUnits(s, i + 2);
      ExponentUnits(s, i + 2 + Run(s[i + 2..], Digits));
    }
  }

  predicate IsEol(ch: int) {
    ch == CR || ch == LF
  }

  lemma {:induction false} StringUnits(s: Text)
    requires ScanString(s).error.NoError?
    ensures forall k :: 0 <= k < ScanString(s).length ==> !IsEol(s[k])
    ensures ScanString(s).length > 0 && s[ScanString(s).length - 1] == QUOTE
    decreases |s|
  {
    if s[0] == BACKSLASH {
      var n := Escaped(s).length;
      EscapeUnits(s[1..]);
      StringUnits(s[n..]);
      forall k | 0 <= k < ScanString(s).length ensures !IsEol(s[k]) {
        if k >= n {
          assert s[k] == s[n..][k - n];
        } else if k > 0 {
          assert s[k] == s[1..][k - 1];
        }
      }
    } else if s[0] != QUOTE {
      StringUnits(s[1..]);
      forall k | 0 <= k < ScanString(s).length ensures !IsEol(s[k]) {
        if k > 0 {
          assert s[k] == s[1..][k - 1];
        }
      }
    }
  }

  lemma EscapeUnits(s: Text)
    requires s != [] && ScanEscape(s).error.NoError?
    ensures forall k :: 0 <= k < ScanEscape(s).length ==> !IsEol(s[k])
  {
    if SimpleEscape(s[0]) < 0 {
      HexRunDigits(s[1..], 4);
      assert forall k :: 1 <= k < 5 ==> s[k] == s[1..][k - 1];
    }
  }

  /** A token without error spans no line break, and shows its kind at its last unit. */
  lemma TokenUnits(s: Text)
    requires var r := Scan(s); r.kind.IsReal() && r.error.NoError?
    ensures var r := Scan(s);
      && 0 < r.length <= |s| && (forall k :: 0 <= k < r.length ==> !IsEol(s[k])) && !IsTrivia(s[0])
      && !IsTrivia(s[r.length - 1])
      && (SelfEnding(r.kind) <==> Punctuation(s[r.length - 1]) != Unknown || s[r.length - 1] == QUOTE)
  {
    hide ScanNumber, ScanString, BlockLength, BlockClosed;
    ScanLength(s);
    if s[0] == QUOTE {
      StringUnits(s[1..]);
      assert forall k :: 1 <= k < Scan(s).length ==> s[k] == s[1..][k - 1];
    } else if s[0] == MINUS {
      NumberUnits(s[1..]);
      assert forall k :: 1 <= k < Scan(s).length ==> s[k] == s[1..][k - 1];
    } else if IsDigit(s[0]) {
      NumberUnits(s);
    }
  }

  // The tokens of a text without their positions.

  datatype Lexeme = Lexeme(kind: Kind, value: Text)

  function Behind(s: Text, n: nat): Text {
    if n <= |s| then s[n..] else []
  }

  function Lexemes(s: Text): seq<Lexeme>
    decreases |s|
  {
    if s == [] then []
    else
      var r := Scan(s);
      (if r.kind.IsReal() then [Lexeme(r.kind, r.value)] else []) + Lexemes(Behind(s, r.length))
  }

  /** Nothing but tokens without errors and white space. */
  ghost predicate Clean(s: Text)
    decreases |s|
  {
    if s == [] then true
    else
      var r := Scan(s);
      r.error.NoError? && (r.kind.IsReal() || r.kind.IsSpace()) && Clean(Behind(s, r.length))
  }

  ghost predicate AllTrivia(s: Text) {
    forall i :: 0 <= i < |s| ==> IsTrivia(s[i])
  }

  // What is scanned first is left out if it is white space or a line break.
  lemma SkipSpace(s: Text)
    requires s != [] && Scan(s).kind.IsSpace() && Scan(s).error.NoError?
    ensures Lexemes(s) == Lexemes(Behind(s, Scan(s).length)) && (Clean(s) <==> Clean(Behind(s, Scan(s).length)))
  {
    assert [] + Lexemes(Behind(s, Scan(s).length)) == Lexemes(Behind(s, Scan(s).length));
  }

  // One unit of white space or line break may be left out.
  lemma SkipOne(s: Text)
    requires s != [] && IsTrivia(s[0])
    ensures Lexemes(s) == Lexemes(s[1..]) && (Clean(s) <==> Clean(s[1..]))
  {
    hide Lexemes, Clean, BlockClosed, BlockLength, ScanNumber, ScanString, WordKind;
    var t := s[1..];
    SkipSpace(s);
    if IsWhitespace(s[0]) {
      assert Behind(s, Scan(s).length) == Behind(t, Run(t, White));
      if t != [] && IsWhitespace(t[0]) {
        SkipSpace(t);
      }
    } else if Scan(s).length == 2 {
      assert t[0] == LF && Behind(s, 2) == Behind(t, 1);
      SkipSpace(t);
    }
  }

  lemma {:induction false} SkipTrivia(gap: Text, s: Text)
    requires AllTrivia(gap)
    ensures Lexemes(gap + s) == Lexemes(s) && (Clean(gap + s) <==> Clean(s))
    decreases |gap|
  {
    if gap == [] {
      assert gap + s == s;
    } else {
      SkipOne(gap + s);
      assert (gap + s)[1..] == gap[1..] + s;
      SkipTrivia(gap[1..], s);
    }
  }

  lemma NoTokens()
    ensures Lexemes([]) == [] && Clean([])
  {
  }

  // A token in front of a text.
  ghost predicate IsToken(lex: Text, rest: Text) {
    var r := Scan(lex + rest);
    lex != [] && r.kind.IsReal() && r.error.NoError? && r.length == |lex|
  }

  ghost function First(s: Text): seq<Lexeme> {
    var r := Scan(s);
    [Lexeme(r.kind, r.value)]
  }

  lemma TakeToken(lex: Text, rest: Text)
    requires IsToken(lex, rest)
    ensures Lexemes(lex + rest) == First(lex + rest) + Lexemes(rest) && (Clean(lex + rest) <==> Clean(rest))
  {
    assert Behind(lex + rest, |lex|) == rest;
  }

  predicate ShowsEnd(ch: int) {
    Punctuation(ch) != Unknown || ch == QUOTE
  }

  lemma TokenParts(lex: Text, rest: Text)
    requires IsToken(lex, rest)
    ensures lex != [] && !IsTrivia(lex[0]) && !IsTrivia(lex[|lex| - 1]) && forall i :: 0 <= i < |lex| ==> !IsEol(lex[i])
    ensures SelfEnding(Scan(lex + rest).kind) <==> ShowsEnd(lex[|lex| - 1])
  {
    TokenUnits(lex + rest);
    assert forall i :: 0 <= i < |lex| ==> (lex + rest)[i] == lex[i];
  }

  // What follows a token may be replaced.
  lemma KeepToken(lex: Text, rest: Text, rest': Text)
    requires IsToken(lex, rest) && (EndsAlike(rest, rest') || ShowsEnd(lex[|lex| - 1]))
    ensures IsToken(lex, rest') && First(lex + rest') == First(lex + rest)
  {
    TokenParts(lex, rest);
    TokenOfPrefix(lex, rest, rest');
  }

  // A clean text begins with trivia or a token.
  lemma FirstToken(s: Text) returns (lex: Text, rest: Text)
    requires Clean(s) && s != [] && !IsTrivia(s[0])
    ensures s == lex + rest && |lex| > 0 && IsToken(lex, rest) && Clean(rest)
  {
    ScanLength(s);
    var n := Scan(s).length;
    lex, rest := s[..n], s[n..];
    assert lex + rest == s;
  }

  // Two texts that do not grow together where they meet.
  predicate Apart(x: Text, y: Text) {
    || x == [] || Stops(At(y, 0))
    || IsTrivia(x[|x| - 1]) || ShowsEnd(x[|x| - 1])
  }

  /** Clean texts that meet apart put their tokens one after the other. */
  lemma {:induction false} Concat(x: Text, y: Text)
    requires Clean(x) && Apart(x, y)
    ensures Lexemes(x + y) == Lexemes(x) + Lexemes(y) && (Clean(x + y) <==> Clean(y))
    decreases |x|
  {
    hide Scan, Lexemes, Clean, IsToken, First, Stops, ShowsEnd, IsTrivia;
    NoTokens();
    if x == [] {
      assert x + y == y && [] + Lexemes(y) == Lexemes(y);
    } else if IsTrivia(x[0]) {
      SkipOne(x);
      SkipOne(x + y);
      assert (x + y)[1..] == x[1..] + y;
      Concat(x[1..], y);
    } else {
      var lex, rest := FirstToken(x);
      TokenParts(lex, rest);
      KeepToken(lex, rest, rest + y);
      assert x + y == lex + (rest + y);
      TakeToken(lex, rest);
      TakeToken(lex, rest + y);
      Concat(rest, y);
      Regroup(First(lex + rest), Lexemes(rest), Lexemes(y));
    }
  }

  lemma Regroup<T>(a: seq<T>, b: seq<T>, c: seq<T>)
    ensures a + (b + c) == (a + b) + c
  {
  }

  /** A clean text falls apart, at the line breaks \r and \n, into clean texts. */
  lemma {:induction false} SplitAtEol(x: Text, y: Text)
    requires Clean(x + y)
    requires x == [] || y == [] || IsEol(x[|x| - 1]) || IsEol(y[0])
    ensures Clean(x) && Clean(y) && Lexemes(x + y) == Lexemes(x) + Lexemes(y)
    decreases |x|
  {
    hide Scan, Lexemes, Clean, IsToken, First, Stops, IsTrivia, IsEol, EndsAlike;
    var s := x + y;
    NoTokens();
    if x == [] {
      assert s == y && [] + Lexemes(y) == Lexemes(y);
    } else if IsTrivia(x[0]) {
      SkipOne(x);
      SkipOne(s);
      assert s[1..] == x[1..] + y;
      SplitAtEol(x[1..], y);
    } else {
      var lex, rest := FirstToken(s);
      TokenParts(lex, rest);
      var x' := InsideFirst(lex, rest, x, y);
      KeepToken(lex, rest, x');
      TakeToken(lex, rest);
      TakeToken(lex, x');
      SplitAtEol(x', y);
      Regroup(First(lex + rest), Lexemes(x'), Lexemes(y));
    }
  }

  // A token that spans no line break ends before one that follows its beginning.
  lemma InsideFirst(lex: Text, rest: Text, x: Text, y: Text) returns (x': Text)
    requires lex + rest == x + y && x != [] && lex != [] && forall i :: 0 <= i < |lex| ==> !IsEol(lex[i])
    requires y == [] || IsEol(x[|x| - 1]) || IsEol(y[0])
    ensures x == lex + x' && rest == x' + y && EndsAlike(rest, x')
  {
    var s := x + y;
    assert y != [] ==> s[|x|] == y[0] && s[|x| - 1] == x[|x| - 1];
    assert forall i :: 0 <= i < |lex| ==> s[i] == lex[i];
    assert |lex| <= |x|;
    x' := x[|lex|..];
    assert x[..|lex|] == s[..|lex|] == lex;
    assert s[|lex|..] == rest;
  }
}
