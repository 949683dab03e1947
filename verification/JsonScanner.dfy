// createScanner (json.ts): the scanner object, proved equal to Scan on the rest of the text.
module JsonScanner {
  import opened CodeUnits
  import opened JsonScan

  // substring with clamped positions
  function Substring(s: Text, i: int, j: int): Text {
    var lo := if i < 0 then 0 else if i > |s| then |s| else i;
    var hi := if j < lo then lo else if j > |s| then |s| else j;
    s[lo..hi]
  }

  // The text from a position on; a position may lie behind the end.
  function From(s: Text, i: nat): (r: Text)
    ensures i < |s| ==> |r| == |s| - i && r[0] == s[i]
    ensures i >= |s| <==> r == []
  {
    if i < |s| then s[i..] else []
  }

  lemma RunSteps(s: Text, i: nat, j: nat, c: Class)
    requires i <= j <= |s| && (forall k :: i <= k < j ==> c.Has(s[k])) && (j < |s| ==> !c.Has(s[j]))
    ensures Run(From(s, i), c) == j - i
    decreases j - i
  {
    if i < j {
      FromMore(s, i, 1);
      RunSteps(s, i + 1, j, c);
    }
  }

  lemma FromMore(s: Text, i: nat, j: nat)
    requires i + j <= |s|
    ensures |From(s, i)| == |s| - i && From(s, i)[j..] == From(s, i + j)
  {
  }

  lemma SlicedFrom(s: Text, i: nat, j: nat)
    requires i <= j <= |s|
    ensures From(s, i)[..j - i] == s[i..j]
  {
  }

  lemma InText(s: Text, i: nat)
    ensures At(s, i) >= 0 <==> i < |s|
    ensures i < |s| ==> At(s, i) == s[i]
  {
  }

  lemma FromAt(s: Text, i: nat, j: nat)
    requires i <= |s|
    ensures At(From(s, i), j) == At(s, i + j)
  {
  }

  lemma EscapedIs(s: Text)
    requires |s| > 1 && s[0] == BACKSLASH
    ensures var e := ScanEscape(s[1..]); Escaped(s) == Part(1 + e.length, e.value, e.error)
  {
  }

  lemma BeforeNothing(a: Part)
    ensures Before(Part(0, [], NoError), a) == a
  {
  }

  lemma BeforeParts(a: Part, b: Part)
    ensures Before(a, b).length == a.length + b.length && Before(a, b).value == a.value + b.value
    ensures b.value == [] ==> Before(a, b).value == a.value
    ensures Before(a, b).error == if b.error.NoError? then a.error else b.error
  {
  }

  lemma BeforeNested(a: Part, b: Part, c: Part)
    ensures Before(a, Before(b, c)) == Before(Before(a, b), c)
  {
    assert a.value + (b.value + c.value) == a.value + b.value + c.value;
  }

  lemma Advance(done: Part, next: Part, s: Text, s': Text) returns (r: Part)
    requires ScanString(s) == Before(next, ScanString(s'))
    ensures Before(done, ScanString(s)) == Before(r, ScanString(s'))
    ensures r.length == done.length + next.length && r.value == done.value + next.value
    ensures r.error == if next.error.NoError? then done.error else next.error
  {
    hide ScanString;
    r := Before(done, next);
    BeforeNested(done, next, ScanString(s'));
  }

  lemma NothingMore(result: Text, text: Text, i: nat)
    requires i <= |text|
    ensures result + text[i..i] == result
  {
  }

  lemma OneUnitMore(result: Text, text: Text, i: nat, j: nat)
    requires i <= j < |text|
    ensures result + text[i..j + 1] == result + text[i..j] + [text[j]]
  {
  }

  class Scanner {
    const text: Text
    const ignoreTrivia: bool
    var pos: nat
    var value: Text
    var tokenOffset: nat
    var token: Kind
    var scanError: ScanError

    constructor (text: Text, ignoreTrivia: bool)
      ensures this.text == text && this.ignoreTrivia == ignoreTrivia && pos == 0 && token == Unknown
    {
      this.text := text;
      this.ignoreTrivia := ignoreTrivia;
      pos, value, tokenOffset, token, scanError := 0, [], 0, Unknown, NoError;
    }

    method SetPosition(newPosition: nat)
      modifies this
      ensures pos == newPosition && value == [] && tokenOffset == 0 && token == Unknown && scanError == NoError
    {
      pos, value, tokenOffset, token, scanError := newPosition, [], 0, Unknown, NoError;
    }

    function TokenLength(): int
      reads this
    {
      pos - tokenOffset
    }

    // -1 unless all digits are there
    method ScanHexDigits(count: nat) returns (hexValue: int)
      requires pos <= |text|
      modifies this`pos
      ensures var n := HexRun(From(text, old(pos)), count);
        && pos == old(pos) + n && pos <= |text|
        && (forall i :: 0 <= i < n ==> HexDigit(From(text, old(pos))[i]) >= 0)
        && hexValue == if n < count then -1 else HexValue(From(text, old(pos)), n)
    {
      var digits := 0;
      hexValue := 0;
      ghost var start := pos;
      ghost var s := From(text, start);
      while digits < count
        invariant digits <= count && pos == start + digits && pos <= |text|
        invariant forall i :: 0 <= i < digits ==> HexDigit(s[i]) >= 0
        invariant hexValue == HexValue(s, digits)
      {
        var ch := At(text, pos);
        var d := HexDigit(ch);
        if d < 0 {
          break;
        }
        hexValue := hexValue * 16 + d;
        pos := pos + 1;
        digits := digits + 1;
      }
      HexRunDigits(s, count);
      var n := HexRun(s, count);
      assert n < |s| ==> At(s, n) == s[n];
      assert digits < |s| ==> s[digits] == text[pos];
      if digits < count {
        hexValue := -1;
      }
    }

    method SkipRun(c: Class)
      requires pos <= |text|
      modifies this`pos
      ensures pos == old(pos) + Run(From(text, old(pos)), c) && pos <= |text|
    {
      ghost var start := pos;
      while pos < |text| && c.Has(text[pos])
        invariant start <= pos <= |text| && forall k :: start <= k < pos ==> c.Has(text[k])
      {
        pos := pos + 1;
      }
      RunSteps(text, start, pos, c);
    }

    method ScanNumberHere() returns (r: Text)
      requires pos < |text| && IsDigit(text[pos])
      modifies this`pos, this`scanError
      ensures var n := ScanNumber(From(text, old(pos)));
        && pos == old(pos) + n.length && pos <= |text| && r == n.value
        && scanError == if n.error.NoError? then old(scanError) else n.error
    {
      hide Run, Class.Has, ScanExponent, At, From;
      var start := pos;
      ghost var s := From(text, start);
      if text[pos] == ZERO {
        pos := pos + 1;
      } else {
        pos := pos + 1;
        FromMore(text, start, 1);
        SkipRun(Digits);
      }
      ghost var i := pos - start;
      assert i == IntegerLength(s);
      FromAt(text, start, i);
      FromAt(text, start, i + 1);
      if At(text, pos) == DOT {
        InText(text, pos);
        pos := pos + 1;
        if IsDigit(At(text, pos)) {
          InText(text, pos);
          pos := pos + 1;
          FromMore(text, start, i + 2);
          SkipRun(Digits);
        } else {
          scanError := UnexpectedEndOfNumber;
          SlicedFrom(text, start, pos);
          return text[start..pos];
        }
      }
      r := ScanExponentHere(start);
    }

    method ScanExponentHere(start: nat) returns (r: Text)
      requires start < pos <= |text|
      modifies this`pos, this`scanError
      ensures var n := ScanExponent(From(text, start), old(pos) - start);
        && pos == start + n.length && pos <= |text| && r == n.value
        && scanError == if n.error.NoError? then old(scanError) else n.error
    {
      hide Run, Class.Has, At, From, AfterSign, ScanExponent;
      ghost var s := From(text, start);
      ghost var i := pos - start;
      FromMore(text, start, i);
      ExponentCases(s, i);
      var end := pos;
      FromAt(text, start, i);
      if At(text, pos) == 0x45 || At(text, pos) == 0x65 {
        InText(text, pos);
        pos := pos + 1;
        SkipSign(start);
        FromAt(text, start, pos - start);
        if IsDigit(At(text, pos)) {
          InText(text, pos);
          pos := pos + 1;
          FromMore(text, start, pos - start);
          SkipRun(Digits);
          end := pos;
          SlicedFrom(text, start, end);
        } else {
          scanError := UnexpectedEndOfNumber;
        }
      }
      SlicedFrom(text, start, start + i);
      r := text[start..end];
    }

    method SkipSign(ghost start: nat)
      requires start <= pos <= |text|
      modifies this`pos
      ensures pos == start + AfterSign(From(text, start), old(pos) - start)
    {
      FromAt(text, start, pos - start);
      InText(text, pos);
      if At(text, pos) == PLUS || At(text, pos) == MINUS {
        pos := pos + 1;
      }
    }

    method ScanStringHere() returns (result: Text)
      requires pos <= |text|
      modifies this`pos, this`scanError
      ensures var n := ScanString(From(text, old(pos)));
        && pos == old(pos) + n.length && pos <= |text| && result == n.value
        && scanError == if n.error.NoError? then old(scanError) else n.error
    {
      hide Before, ScanEscape, From, At, ScanString, Escaped;
      result := [];
      var start := pos;
      ghost var begin, error := pos, scanError;
      ghost var whole := ScanString(From(text, begin));
      ghost var done := Part(0, [], NoError);
      BeforeNothing(whole);
      NothingMore([], text, pos);
      while true
        invariant begin <= start <= pos <= |text|
        invariant whole == Before(done, ScanString(From(text, pos)))
        invariant done.length == pos - begin && done.value == result + text[start..pos]
        invariant scanError == if done.error.NoError? then error else done.error
        decreases |text| - pos
      {
        ghost var s := From(text, pos);
        StringCases(s);
        if pos >= |text| {
          result := result + text[start..pos];
          BeforeParts(done, ScanString(s));
          scanError := UnexpectedEndOfString;
          break;
        }
        var ch := text[pos];
        if ch == QUOTE {
          result := result + text[start..pos];
          BeforeParts(done, ScanString(s));
          pos := pos + 1;
          break;
        }
        if ch == BACKSLASH {
          result := result + text[start..pos];
          pos := pos + 1;
          if pos >= |text| {
            assert s == [BACKSLASH];
            BeforeParts(done, ScanString(s));
            scanError := UnexpectedEndOfString;
            break;
          }
          FromMore(text, pos - 1, 1);
          EscapedIs(s);
          var decoded := ScanEscapeHere();
          FromMore(text, pos - Escaped(s).length, Escaped(s).length);
          done := Advance(done, Escaped(s), s, From(text, pos));
          result := result + decoded;
          start := pos;
          NothingMore(result, text, pos);
          continue;
        }
        FromMore(text, pos, 1);
        if ch <= 0x1F {
          if IsLineBreak(ch) {
            result := result + text[start..pos];
            BeforeParts(done, ScanString(s));
            scanError := UnexpectedEndOfString;
            break;
          } else {
            scanError := InvalidCharacter;
          }
        }
        done := Advance(done, Part(1, [ch], if ch <= 0x1F then InvalidCharacter else NoError), s, From(text, pos + 1));
        OneUnitMore(result, text, start, pos);
        pos := pos + 1;
      }
    }

    // the switch of lines 309-346
    method ScanEscapeHere() returns (decoded: Text)
      requires pos < |text|
      modifies this`pos, this`scanError
      ensures var e := ScanEscape(From(text, old(pos)));
        && pos == old(pos) + e.length && pos <= |text| && decoded == e.value
        && scanError == if e.error.NoError? then old(scanError) else e.error
    {
      var ch2 := text[pos];
      ghost var s := From(text, pos);
      pos := pos + 1;
      assert From(text, pos) == s[1..];
      decoded := [];
      if SimpleEscape(ch2) >= 0 {
        decoded := [SimpleEscape(ch2)];
      } else if ch2 == 0x75 {
        var ch3 := ScanHexDigits(4);
        if ch3 >= 0 {
          HexValueBound(s[1..]);
          decoded := [ch3];
        } else {
          scanError := InvalidUnicode;
        }
      } else {
        scanError := InvalidEscapeCharacter;
      }
    }

    // The state after a token: what Scan says, at the offset where it was asked.
    ghost predicate Scanned(offset: nat)
      reads this
    {
      var r := Scan(From(text, offset));
      && token == r.kind && scanError == r.error && pos == offset + r.length
      && tokenOffset == (if offset >= |text| then |text| else offset)
      && value == (if r.kind.IsComment() then Substring(text, offset - 1, pos) else r.value)
    }

    method ScanNext() returns (r: Kind)
      modifies this
      ensures Scanned(old(pos)) && r == token
    {
      hide Run, Class.Has, ScanNumber, ScanString, BlockLength, BlockClosed, WordKind, IsTrivia, Substring, IsDigit, From;
      value := [];
      scanError := NoError;
      tokenOffset := pos;
      if pos >= |text| {
        tokenOffset := |text|;
        token := EOF;
        return token;
      }
      ghost var s := From(text, pos);
      var code := text[pos];
      if IsWhitespace(code) {
        ScanRun(White);
        token := Trivia;
      } else if IsLineBreak(code) {
        ScanLineBreak();
      } else if Punctuation(code) != Unknown {
        pos := pos + 1;
        token := Punctuation(code);
      } else if code == QUOTE {
        pos := pos + 1;
        FromMore(text, tokenOffset, 1);
        value := ScanStringHere();
        token := String;
      } else if code == SLASH {
        ScanSlash();
      } else if code == MINUS {
        ScanMinus();
      } else if IsDigit(code) {
        value := ScanNumberHere();
        token := Number;
      } else {
        ScanRun(Word);
        token := WordKind(value);
      }
      r := token;
    }

    ghost predicate Begins()
      reads this
    {
      pos < |text| && tokenOffset == pos && value == [] && scanError == NoError
    }

    method ScanRun(c: Class)
      requires Begins()
      modifies this`pos, this`value
      ensures var n := Run(From(text, old(pos)), c);
        pos == old(pos) + n && value == From(text, old(pos))[..n]
    {
      SkipRun(c);
      value := text[tokenOffset..pos];
      SlicedFrom(text, tokenOffset, pos);
    }

    method ScanLineBreak()
      requires Begins() && IsLineBreak(text[pos])
      modifies this
      ensures Scanned(old(pos))
    {
      FromAt(text, pos, 1);
      InText(text, pos + 1);
      var code := text[pos];
      pos := pos + 1;
      value := [code];
      if code == CR && At(text, pos) == LF {
        pos := pos + 1;
        value := value + [LF];
      }
      SlicedFrom(text, tokenOffset, pos);
      assert value == text[tokenOffset..pos];
      token := LineBreak;
    }

    method ScanMinus()
      requires Begins() && text[pos] == MINUS
      modifies this
      ensures Scanned(old(pos))
    {
      hide ScanNumber;
      FromAt(text, pos, 1);
      FromMore(text, pos, 1);
      value := [text[pos]];
      pos := pos + 1;
      if pos == |text| || !IsDigit(text[pos]) {
        token := Unknown;
      } else {
        var digits := ScanNumberHere();
        value := value + digits;
        token := Number;
      }
    }

    method ScanSlash()
      requires Begins() && text[pos] == SLASH
      modifies this
      ensures Scanned(old(pos))
    {
      hide BlockClosed, BlockLength, Run, Substring, Class.Has, From;
      var start := pos - 1;
      FromAt(text, pos, 1);
      InText(text, pos + 1);
      if At(text, pos + 1) == SLASH {
        FromMore(text, pos, 2);
        pos := pos + 2;
        SkipRun(OneLine);
        value := Substring(text, start, pos);
        token := LineComment;
        return;
      }
      if At(text, pos + 1) == ASTERISK {
        FromMore(text, pos, 2);
        pos := pos + 2;
        SkipBlock();
        value := Substring(text, start, pos);
        token := BlockComment;
        return;
      }
      value := [SLASH];
      pos := pos + 1;
      token := Unknown;
    }

    // lines 447-464
    method SkipBlock()
      requires pos <= |text| && scanError == NoError
      modifies this`pos, this`scanError
      ensures pos == old(pos) + BlockLength(From(text, old(pos)))
      ensures scanError == if BlockClosed(From(text, old(pos))) then NoError else UnexpectedEndOfComment
    {
      ghost var begin := pos;
      var safeLength := |text| - 1;
      var commentClosed := false;
      while pos < safeLength
        invariant begin <= pos <= |text| && !commentClosed && scanError == NoError
        invariant BlockLength(From(text, begin)) == pos - begin + BlockLength(From(text, pos))
        invariant BlockClosed(From(text, begin)) == BlockClosed(From(text, pos))
      {
        var ch := text[pos];
        FromMore(text, pos, 1);
        assert From(text, pos)[1] == text[pos + 1];
        if ch == ASTERISK && text[pos + 1] == SLASH {
          pos := pos + 2;
          commentClosed := true;
          break;
        }
        pos := pos + 1;
      }
      if !commentClosed {
        pos := pos + 1;
        scanError := UnexpectedEndOfComment;
      }
    }

    method ScanNextNonTrivia() returns (r: Kind)
      modifies this
      ensures r == token && !r.IsSpace() && !r.IsComment()
      ensures exists offset: nat :: offset >= old(pos) && Scanned(offset)
    {
      ghost var offset := pos;
      r := ScanNext();
      while r.IsSpace() || r.IsComment()
        invariant r == token && offset >= old(pos) && Scanned(offset)
        decreases |text| - offset
      {
        offset := pos;
        r := ScanNext();
      }
    }
  }
}
