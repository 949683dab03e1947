// Cutting a clean text between two of its tokens.
module JsonCut {
  import opened JsonScan
  import opened JsonScanner
  import opened JsonSyntax
  import opened JsonLex
  import opened JsonWords
  import opened JsonFormatSpec
  import opened JsonFormatMeaning

  // The scanner comes by position k: between tokens, or inside white space.
  ghost predicate OnPath(s: Text, k: nat)
    decreases k
  {
    k == 0
    || (s != [] && IsTrivia(s[0]) && OnPath(s[1..], k - 1))
    || (s != [] && !IsTrivia(s[0]) && 0 < Scan(s).length <= k && OnPath(Behind(s, Scan(s).length), k - Scan(s).length))
  }

  lemma {:induction false} CutAt(s: Text, k: nat)
    requires Clean(s) && OnPath(s, k) && k <= |s|
    ensures Clean(s[..k]) && Clean(s[k..]) && Lexemes(s) == Lexemes(s[..k]) + Lexemes(s[k..])
    decreases k
  {
    hide Scan, Lexemes, Clean, IsTrivia;
    NoTokens();
    if k == 0 {
      assert s[..0] == [] && s[0..] == s && [] + Lexemes(s) == Lexemes(s);
    } else if IsTrivia(s[0]) {
      SkipOne(s);
      SkipOne(s[..k]);
      Cuts(s, 1, k);
      CutAt(s[1..], k - 1);
    } else {
      CutAtToken(s, k);
    }
  }

  lemma CutAtToken(s: Text, k: nat)
    requires Clean(s) && OnPath(s, k) && 0 < k <= |s| && !IsTrivia(s[0])
    ensures Clean(s[..k]) && Clean(s[k..]) && Lexemes(s) == Lexemes(s[..k]) + Lexemes(s[k..])
    decreases k, 0
  {
    hide Clean, Lexemes, Scan, IsToken, First, IsTrivia, OnPath, Stops, ShowsEnd;
    var lex, rest := FirstToken(s);
    TokenLength(lex, rest);
    var n := |lex|;
    assert Behind(s, n) == rest;
    PathBehind(s, k);
    Cuts(s, n, k);
    assert s[n..] == rest && s[..n] == lex;
    CutAt(rest, k - n);
    var rest' := rest[..k - n];
    assert EndsAlike(rest, rest') by {
      StopsAtEnd();
    }
    KeepToken(lex, rest, rest');
    TakeToken(lex, rest);
    TakeToken(lex, rest');
    assert s[..k] == lex + rest';
    Regroup(First(lex + rest), Lexemes(rest'), Lexemes(s[k..]));
  }

  lemma StopsAtEnd()
    ensures Stops(-1)
  {
  }

  lemma PathBehind(s: Text, k: nat)
    requires OnPath(s, k) && 0 < k && s != [] && !IsTrivia(s[0])
    ensures 0 < Scan(s).length <= k && OnPath(Behind(s, Scan(s).length), k - Scan(s).length)
  {
  }

  lemma Cuts(s: Text, n: nat, k: nat)
    requires n <= k <= |s|
    ensures s[n..][..k - n] == s[..k][n..] && s[n..][k - n..] == s[k..] && s[..k] == s[..n] + s[n..][..k - n]
  {
  }

  lemma {:induction false} PathConcat(s: Text, k: nat, m: nat)
    requires OnPath(s, k) && k <= |s| && OnPath(s[k..], m)
    ensures OnPath(s, k + m)
    decreases k
  {
    hide Scan, IsTrivia;
    if k == 0 {
      assert s[0..] == s;
    } else if IsTrivia(s[0]) {
      assert s[1..][k - 1..] == s[k..];
      PathConcat(s[1..], k - 1, m);
    } else {
      var n := Scan(s).length;
      assert Behind(s, n)[k - n..] == s[k..];
      PathConcat(Behind(s, n), k - n, m);
    }
  }

  lemma {:induction false} PathOfTrivia(s: Text, k: nat)
    requires k <= |s| && AllTrivia(s[..k])
    ensures OnPath(s, k)
    decreases k
  {
    if k > 0 {
      assert s[..k][0] == s[0] && s[1..][..k - 1] == s[..k][1..];
      PathOfTrivia(s[1..], k - 1);
    }
  }

  /** The scanner comes by position q, and ts are the tokens from there on. */
  ghost predicate Marks(text: Text, q: nat, ts: Stream, o: Options) {
    q <= |text| && OnPath(text, q) && Tokens(text, q, o).stream == ts
  }

  lemma MarksStart(text: Text, o: Options)
    ensures Marks(text, 0, Tokens(text, 0, o).stream, o)
  {
  }

  // The texts in front of a mark and behind it.
  lemma MarksCut(text: Text, q: nat, ts: Stream, o: Options)
    requires Clean(text) && Marks(text, q, ts, o)
    ensures Clean(text[..q]) && Clean(text[q..])
    ensures Lexemes(text[q..]) == Words(ts) && Lexemes(text) == Lexemes(text[..q]) + Words(ts)
  {
    CutAt(text, q);
    WordsOfTokens(text, q, o);
    FromDrop(text, q);
  }

  ghost predicate TokenAhead(text: Text, at: nat) {
    at <= |text| && Clean(text[at..]) && (text[at..] == [] || !IsTrivia(text[at..][0]))
  }

  // Over the white space in front of the next token.
  lemma MarksSkip(text: Text, q: nat, ts: Stream, o: Options) returns (at: nat)
    requires Clean(text) && Marks(text, q, ts, o)
    ensures q <= at && Marks(text, at, ts, o) && TokenAhead(text, at)
  {
    hide Scan, Clean, Lexemes, OnPath, Next, IsTrivia, AllTrivia, Tokens, Words;
    MarksCut(text, q, ts, o);
    var t := text[q..];
    CleanNext(t);
    at := q + Next(t).skip;
    SkipTokens(text, q, o);
    PathOfTrivia(t, Next(t).skip);
    PathConcat(text, q, Next(t).skip);
    MarksCut(text, at, ts, o);
    assert t[Next(t).skip..] == text[at..];
  }

  // Over a token.
  lemma MarksOver(text: Text, at: nat, ts: Stream, o: Options)
    requires Marks(text, at, ts, o) && TokenAhead(text, at) && ts.More?
    ensures ts.head.offset == at && at < at + ts.head.length <= |text|
    ensures Marks(text, at + ts.head.length, ts.tail, o)
  {
    hide Scan, Clean, Lexemes, OnPath, IsTrivia, Remarks, Tokens, From;
    FromDrop(text, at);
    TokensStep(text, at, o);
    var lex, rest := FirstToken(text[at..]);
    TokenLength(lex, rest);
    OneToken(text[at..], |lex|);
    PathConcat(text, at, |lex|);
  }

  /** From a mark to the next token, and to its end. */
  lemma MarksNext(text: Text, q: nat, ts: Stream, o: Options)
    requires Clean(text) && Marks(text, q, ts, o) && ts.More?
    ensures q <= ts.head.offset && Marks(text, ts.head.offset, ts, o)
    ensures ts.head.offset < ts.head.offset + ts.head.length <= |text|
    ensures Marks(text, ts.head.offset + ts.head.length, ts.tail, o)
  {
    hide *;
    var at := MarksSkip(text, q, ts, o);
    MarksOver(text, at, ts, o);
  }

  lemma OneToken(s: Text, n: nat)
    requires s != [] && !IsTrivia(s[0]) && n == Scan(s).length
    ensures OnPath(s, n)
  {
  }

  // White space in front of a token changes nothing about the tokens.
  lemma {:induction false} SkipTokens(text: Text, q: nat, o: Options)
    requires q <= |text| && Clean(text[q..])
    ensures q + Next(text[q..]).skip <= |text|
    ensures Tokens(text, q + Next(text[q..]).skip, o).stream == Tokens(text, q, o).stream
    decreases |text| - q
  {
    hide Scan, Clean, Remarks, Tokens, From, AllTrivia, IsTrivia, Lexemes, Next;
    var t := text[q..];
    FromDrop(text, q);
    NextStep(t);
    TokensStep(text, q, o);
    var r := Scan(t);
    SpaceIsTrivia(t);
    if r.kind.IsSpace() {
      CleanFirst(t);
      SkipSpace(t);
      assert t[r.length..] == text[q + r.length..];
      SkipTokens(text, q + r.length, o);
    }
  }
}
