// The number tokens of the scanner and the numbers of section 6 of RFC 8259.
module JsonNumber {
  import opened CodeUnits
  import opened JsonScan
  import JsonSyntax

  ghost predicate AllDigits(s: Text) {
    forall i :: 0 <= i < |s| ==> IsDigit(s[i])
  }

  ghost predicate IsInt(s: Text) {
    s != [] && AllDigits(s) && (s[0] == ZERO ==> |s| == 1)
  }

  ghost predicate IsFrac(s: Text) {
    s != [] ==> |s| > 1 && s[0] == DOT && AllDigits(s[1..])
  }

  ghost predicate IsExp(s: Text) {
    s != [] ==>
      && (s[0] == 0x65 || s[0] == 0x45)
      && ((|s| > 1 && AllDigits(s[1..])) || (|s| > 2 && (s[1] == PLUS || s[1] == MINUS) && AllDigits(s[2..])))
  }

  ghost predicate Splits(s: Text, i: nat, j: nat) {
    i <= j <= |s| && IsInt(s[..i]) && IsFrac(s[i..j]) && IsExp(s[j..])
  }

  // int [ frac ] [ exp ]
  ghost predicate IsUnsigned(s: Text) {
    exists i: nat, j: nat :: Splits(s, i, j)
  }

  /** [ minus ] int [ frac ] [ exp ] */
  ghost predicate IsNumber(s: Text) {
    IsUnsigned(if s != [] && s[0] == MINUS then s[1..] else s)
  }

  lemma EndsInDigit(s: Text, i: nat, j: nat)
    requires Splits(s, i, j)
    ensures s != [] && IsDigit(s[|s| - 1])
  {
    var a, b, c := s[..i], s[i..j], s[j..];
    if c != [] {
      assert s[|s| - 1] == c[|c| - 1];
      assert AllDigits(c[1..]) ==> c[1..][|c| - 2] == c[|c| - 1];
      assert |c| > 2 && AllDigits(c[2..]) ==> c[2..][|c| - 3] == c[|c| - 1];
    } else if b != [] {
      assert s[|s| - 1] == b[|b| - 1] == b[1..][|b| - 2];
    } else {
      assert s[|s| - 1] == a[|a| - 1];
    }
  }

  lemma DigitRun(s: Text, i: nat, n: nat)
    requires i < |s| && IsDigit(s[i]) && n == Run(s[i + 1..], Digits)
    ensures i + 1 + n <= |s| && AllDigits(s[i..i + 1 + n])
  {
    var t := s[i + 1..];
    forall k | i <= k < i + 1 + n ensures IsDigit(s[k]) {
      assert k > i ==> s[k] == t[k - i - 1];
    }
  }

  // What ScanExponent adds to a number is nothing or an exponent.
  lemma ExponentShape(s: Text, k: nat)
    requires 1 <= k <= |s|
    ensures var v := ScanExponent(s, k).value; k <= |v| <= |s| && v == s[..|v|] && IsExp(v[k..])
  {
    hide Run;
    var v := ScanExponent(s, k).value;
    if |v| > k {
      var e, j := v[k..], AfterSign(s, k + 1);
      DigitRun(s, j, Run(s[j + 1..], Digits));
      assert s[j..|v|] == if j == k + 1 then e[1..] else e[2..];
    }
  }

  lemma ExponentPart(s: Text, i: nat, k: nat)
    requires 1 <= i <= k <= |s| && IsInt(s[..i]) && IsFrac(s[i..k])
    ensures var r := ScanExponent(s, k); Splits(r.value, i, k)
  {
    hide ScanExponent, IsInt, IsFrac, IsExp;
    ExponentShape(s, k);
    var v := ScanExponent(s, k).value;
    assert v[..i] == s[..i] && v[i..k] == s[i..k];
  }

  lemma IntegerPart(s: Text)
    requires s != [] && IsDigit(s[0])
    ensures IsInt(s[..IntegerLength(s)])
  {
    var i := IntegerLength(s);
    if s[0] != ZERO {
      DigitRun(s, 0, Run(s[1..], Digits));
      assert s[..i] == s[0..i];
    }
  }

  lemma FractionPart(s: Text, i: nat)
    requires i + 1 < |s| && s[i] == DOT && IsDigit(s[i + 1])
    ensures var k := i + 2 + Run(s[i + 2..], Digits); k <= |s| && IsFrac(s[i..k])
  {
    hide Run;
    var k := i + 2 + Run(s[i + 2..], Digits);
    DigitRun(s, i + 1, Run(s[i + 2..], Digits));
    assert s[i..k][1..] == s[i + 1..k];
  }

  lemma ScannedNumber(s: Text)
    requires s != [] && IsDigit(s[0])
    ensures var v := ScanNumber(s).value;
      v != [] && (v[|v| - 1] == DOT || IsUnsigned(v))
  {
    hide ScanExponent, IntegerLength, IsInt, IsFrac, Splits, Run;
    var i := IntegerLength(s);
    IntegerPart(s);
    if At(s, i) != DOT {
      FractionOfNothing(s, i);
      ExponentPart(s, i, i);
      assert ScanNumber(s) == ScanExponent(s, i);
    } else if IsDigit(At(s, i + 1)) {
      FractionPart(s, i);
      ExponentPart(s, i, i + 2 + Run(s[i + 2..], Digits));
    }
  }

  lemma FractionOfNothing(s: Text, i: nat)
    requires i <= |s|
    ensures IsFrac(s[i..i])
  {
  }

  lemma TokenText(s: Text)
    requires Scan(s).kind.Number?
    ensures if s[0] == MINUS
      then |s| > 1 && IsDigit(s[1]) && Scan(s).value == [MINUS] + ScanNumber(s[1..]).value
      else IsDigit(s[0]) && Scan(s).value == ScanNumber(s).value
  {
    hide ScanNumber, Run, ScanString, BlockLength, BlockClosed;
  }

  lemma Unsigned(s: Text)
    requires s != [] && IsDigit(s[0])
    ensures var v := ScanNumber(s).value;
      v != [] && v[0] == s[0] && (IsUnsigned(v) <==> v[|v| - 1] != DOT)
  {
    hide Splits, ScanNumber;
    ScannedNumber(s);
    FirstDigit(s);
    var v := ScanNumber(s).value;
    if i: nat, j: nat :| Splits(v, i, j) {
      EndsInDigit(v, i, j);
    }
  }

  lemma FirstDigit(s: Text)
    requires s != [] && IsDigit(s[0])
    ensures ScanNumber(s).value[0] == s[0]
  {
    hide Run;
  }

  /** Of a number token nothing but a missing fraction can be wrong: it is a JSON number exactly when it does not end in a dot. */
  lemma TokenIsNumber(s: Text)
    requires Scan(s).kind.Number?
    ensures IsNumber(Scan(s).value) <==> JsonSyntax.Parses(Scan(s).value)
  {
    hide IsUnsigned, ScanNumber, Scan;
    TokenText(s);
    var t := if s[0] == MINUS then s[1..] else s;
    Unsigned(t);
    var u := ScanNumber(t).value;
    assert ([MINUS] + u)[1..] == u && ([MINUS] + u)[|u|] == u[|u| - 1];
    var v := Scan(s).value;
    assert (if v != [] && v[0] == MINUS then v[1..] else v) == u;
  }
}
