// A text from which setProperty cannot remove a property cleanly: { "a": 1, } without the blanks.
module JsonExamples {
  import opened Wrappers
  import opened CodeUnits
  import opened JsonScan
  import opened JsonSyntax
  import opened JsonGrammar
  import opened JsonValue
  import opened JsonLex
  import opened JsonWords
  import opened JsonUpdate
  import opened JsonQuote
  import opened JsonSetProperty
  import opened JsonPropertyEdit
  import opened JsonEdit

  const KEY: Text := [0x61]
  const ONE: Text := [0x31]
  const LONELY_TEXT: Text := [OPEN_BRACE, QUOTE, 0x61, QUOTE, COLON, 0x31, COMMA, CLOSE_BRACE]

  const LONELY_TREE: Node := Obj(New(OpenBrace, []),
    ConsMember(NoComma, New(Kind.String, KEY), New(Colon, []), Lit(New(Kind.Number, ONE)),
      EndMembers(AComma(New(Comma, [])), New(CloseBrace, []))))

  const LONELY_WORDS: seq<Lexeme> :=
    [Lexeme(OpenBrace, []), Lexeme(Kind.String, KEY), Lexeme(Colon, []), Lexeme(Kind.Number, ONE), Lexeme(Comma, []), Lexeme(CloseBrace, [])]

  lemma OneFirst(rest: Text)
    requires rest != [] && rest[0] == COMMA
    ensures Lexemes(ONE + rest) == [Lexeme(Kind.Number, ONE)] + Lexemes(rest) && (Clean(ONE + rest) <==> Clean(rest))
  {
    OneScanned(rest);
    hide Scan;
    TakeToken(ONE, rest);
    FirstIs(ONE + rest);
  }

  lemma OneScanned(rest: Text)
    requires rest != [] && rest[0] == COMMA
    ensures Scan(ONE + rest) == Scanned(Kind.Number, 1, ONE, NoError) && IsToken(ONE, rest)
  {
    var s := ONE + rest;
    assert s[1..] == rest && s[1] == COMMA && s[..1] == ONE;
    assert Run(rest, Digits) == 0;
    assert IntegerLength(s) == 1;
    assert ScanExponent(s, 1) == Part(1, ONE, NoError);
  }

  lemma TextParts()
    ensures LONELY_TEXT == [OPEN_BRACE] + (Quote(KEY) + ([COLON] + (ONE + ([COMMA] + ([CLOSE_BRACE] + [])))))
  {
    assert Unit(KEY, 0) == KEY;
    assert Body(KEY, 1) == [];
    assert Body(KEY, 0) == KEY;
    assert Quote(KEY) == [QUOTE, 0x61, QUOTE];
  }

  lemma TextWords()
    ensures Clean(LONELY_TEXT) && Lexemes(LONELY_TEXT) == LONELY_WORDS
  {
    hide Lexemes, Clean, Scan, Quote;
    TextParts();
    NoTokens();
    var t5 := [CLOSE_BRACE] + [];
    var t4 := [COMMA] + t5;
    var t3 := ONE + t4;
    var t2 := [COLON] + t3;
    var t1 := Quote(KEY) + t2;
    PunctuationFirst(CLOSE_BRACE, []);
    PunctuationFirst(COMMA, t5);
    OneFirst(t4);
    PunctuationFirst(COLON, t3);
    NameFirst(KEY, t2);
    PunctuationFirst(OPEN_BRACE, t1);
  }

  // Only an object with one member and a comma behind it has these words.
  lemma Shape(n: Node)
    requires WellFormed(n, DEFAULT) && NodeWords(n) == LONELY_WORDS
    ensures UniqueKeys(n) && LonelyAt(n, [KEY])
  {
    hide MembersWords, ItemsWords, MembersWellFormed, ItemsWellFormed, KeysOf, MembersUnique;
    assert NodeWords(n)[0].kind == OpenBrace && n.Obj?;
    assert MembersWords(n.members) == NodeWords(n)[1..];
    ShapeOfMembers(n.members);
    assert Parent([KEY]) == [] && LastKey([KEY]) == KEY;
  }

  lemma ShapeOfMembers(ms: MemberList)
    requires MembersWellFormed(ms, true, DEFAULT) && MembersWords(ms) == LONELY_WORDS[1..]
    ensures Lonely(ms) && ms.key.value == KEY && KeysOf(ms) == [KEY] && MembersUnique(ms)
  {
    hide NodeWords, WellFormed;
    var mw := MembersWords(ms);
    assert ms.ConsMember? && ms.sep.NoComma?;
    assert mw == [Lex(ms.key), Lex(ms.colon)] + NodeWords(ms.value) + MembersWords(ms.more);
    assert Lex(ms.key) == mw[0] == Lexeme(Kind.String, KEY);
    ShapeOfValue(ms.value, MembersWords(ms.more), mw);
    ShapeOfRest(ms.more);
  }

  lemma ShapeOfValue(v: Node, rest: seq<Lexeme>, mw: seq<Lexeme>)
    requires WellFormed(v, DEFAULT) && |mw| == 5 && mw[2..] == NodeWords(v) + rest && mw[2].kind == Kind.Number
    ensures v.Lit? && rest == mw[3..]
  {
    assert |NodeWords(v)| > 0;
    assert (NodeWords(v) + rest)[0] == NodeWords(v)[0] == mw[2];
    assert v.Lit?;
    assert NodeWords(v) == [Lex(v.tok)];
    assert rest == (NodeWords(v) + rest)[1..] == mw[2..][1..];
  }

  lemma ShapeOfRest(ms: MemberList)
    requires MembersWellFormed(ms, false, DEFAULT) && |MembersWords(ms)| == 2
    ensures ms.EndMembers? && ms.sep.AComma?
  {
    assert ms.ConsMember? ==> |MembersWords(ms)| >= 3;
    assert ms.EndMembers? ==> |MembersWords(ms)| == |SepWords(ms.sep)| + 1;
  }

  /** The text is read without an error, and yet what setProperty makes of it without its only property is not. */
  lemma LonelyPropertyStays() returns (n: Node)
    ensures Readable(LONELY_TEXT, Some(n)) && LonelyAt(n, [KEY])
    ensures forall r :: RemoveDone(LONELY_TEXT, Some(n), [KEY], r) ==>
      r.Changes? && |r.edits| == 1 && !Yields(LONELY_TEXT, r.edits[0], RemoveValue(ValueOf(n), [KEY]))
  {
    TextWords();
    TreeWords();
    DocumentByWords(LONELY_TEXT, LONELY_TREE, DEFAULT);
    n :| IsDocument(LONELY_TEXT, n, DEFAULT) && ValueOf(n) == ValueOf(LONELY_TREE);
    WordsOfDocument(LONELY_TEXT, n, DEFAULT);
    Shape(n);
    TargetRemoved(n, [KEY]);
    assert LookupIsRoot(n);
    FindIffKey(n.members, KEY);
  }

  ghost predicate LookupIsRoot(n: Node) {
    Lookup(n, Parent([KEY])) == Some(n)
  }

  lemma TreeWords()
    ensures WellFormed(LONELY_TREE, DEFAULT) && NodeWords(LONELY_TREE) == LONELY_WORDS
  {
    var ms := LONELY_TREE.members;
    assert MembersWords(ms.more) == [Lexeme(Comma, []), Lexeme(CloseBrace, [])];
    assert NodeWords(ms.value) == [Lexeme(Kind.Number, ONE)];
    assert MembersWords(ms) == [Lexeme(Kind.String, KEY), Lexeme(Colon, [])] + NodeWords(ms.value) + MembersWords(ms.more);
  }
}
