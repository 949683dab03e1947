// setProperty and removeProperty (jsonEdit.ts, lines 10-120), for paths of object keys.
module JsonSetProperty {
  import opened Wrappers
  import opened CodeUnits
  import opened JsonScan
  import opened JsonScanner
  import opened JsonSyntax
  import opened JsonGrammar
  import opened JsonValue
  import opened JsonLex
  import opened JsonWords
  import opened JsonCut
  import opened JsonTree
  import opened JsonUpdate
  import opened JsonHole
  import opened JsonQuote
  import JsonParse
  import JsonReformat

  const COLON_SPACE: Text := [COLON, SPACE]
  const COMMA_TEXT: Text := [COMMA]

  /** The text is JSON without comments, with the tree n. */
  ghost predicate DenotesTree(t: Text, n: Node) {
    Clean(t) && WellFormed(n, DEFAULT) && Lexemes(t) == NodeWords(n)
  }

  /** The text is JSON for the value, as what JSON.stringify returns is. */
  ghost predicate Denotes(t: Text, v: Json) {
    exists n :: DenotesTree(t, n) && ValueOf(n) == v
  }

  lemma DenotesParsed(t: Text, v: Json)
    requires Denotes(t, v)
    ensures JsonParse.Parsed(t, DEFAULT) == Some(v)
  {
    var n :| DenotesTree(t, n) && ValueOf(n) == v;
    DocumentByWords(t, n, DEFAULT);
  }

  // A token of a kind, wherever it stands.
  function New(k: Kind, value: Text): Tok {
    Tok(k, 0, 0, value, [])
  }

  // Texts made of a property.

  function PropertyText(key: Text, content: Text): Text {
    Quote(key) + COLON_SPACE + content
  }

  // JSON.stringify of an object with one property.
  function Wrapped(key: Text, content: Text): Text {
    [OPEN_BRACE] + (Quote(key) + ([COLON] + (content + [CLOSE_BRACE])))
  }

  // One unit of punctuation in front of a text.
  lemma PunctuationFirst(c: CodeUnit, rest: Text)
    requires Punctuation(c) != Unknown
    ensures Lexemes([c] + rest) == [Lexeme(Punctuation(c), [])] + Lexemes(rest) && (Clean([c] + rest) <==> Clean(rest))
  {
    hide *;
    PunctuationScan(c, rest);
    TakeToken([c], rest);
    FirstIs([c] + rest);
  }

  lemma PunctuationScan(c: CodeUnit, rest: Text)
    requires Punctuation(c) != Unknown
    ensures Scan([c] + rest) == Scanned(Punctuation(c), 1, [], NoError) && IsToken([c], rest)
  {
    hide ScanString, ScanNumber, Run, BlockLength, BlockClosed, WordKind, At;
    assert ([c] + rest)[0] == c;
  }

  lemma NameFirst(key: Text, rest: Text)
    ensures Lexemes(Quote(key) + rest) == [Lexeme(Kind.String, key)] + Lexemes(rest) && (Clean(Quote(key) + rest) <==> Clean(rest))
  {
    hide *;
    QuoteRoundTrip(key, rest);
    TakeToken(Quote(key), rest);
    FirstIs(Quote(key) + rest);
  }

  lemma FirstIs(s: Text)
    ensures First(s) == [Lexeme(Scan(s).kind, Scan(s).value)]
  {
  }

  lemma PropertyLexemes(key: Text, content: Text)
    requires Clean(content)
    ensures Clean(PropertyText(key, content))
    ensures Lexemes(PropertyText(key, content)) == [Lexeme(Kind.String, key), Lexeme(Colon, [])] + Lexemes(content)
  {
    hide Clean, Lexemes, Quote;
    SkipTrivia([SPACE], content);
    PunctuationFirst(COLON, [SPACE] + content);
    NameFirst(key, [COLON] + ([SPACE] + content));
    assert PropertyText(key, content) == Quote(key) + ([COLON] + ([SPACE] + content));
  }

  lemma WrappedLexemes(key: Text, content: Text)
    requires Clean(content)
    ensures Clean(Wrapped(key, content))
    ensures Lexemes(Wrapped(key, content))
      == [Lexeme(OpenBrace, []), Lexeme(Kind.String, key), Lexeme(Colon, [])] + Lexemes(content) + [Lexeme(CloseBrace, [])]
  {
    NoTokens();
    hide Clean, Lexemes, Quote;
    PunctuationFirst(CLOSE_BRACE, []);
    assert [CLOSE_BRACE] + [] == [CLOSE_BRACE];
    assert Apart(content, [CLOSE_BRACE]);
    Concat(content, [CLOSE_BRACE]);
    PunctuationFirst(COLON, content + [CLOSE_BRACE]);
    NameFirst(key, [COLON] + (content + [CLOSE_BRACE]));
    PunctuationFirst(OPEN_BRACE, Quote(key) + ([COLON] + (content + [CLOSE_BRACE])));
  }

  /** An object around a text for a value denotes the object around the value. */
  lemma WrappedDenotes(key: Text, content: Text, v: Json)
    requires Denotes(content, v)
    ensures Denotes(Wrapped(key, content), Object(map[key := v]))
  {
    var n :| DenotesTree(content, n) && ValueOf(n) == v;
    WrappedTree(key, content, n);
  }

  lemma WrappedTree(key: Text, content: Text, n: Node)
    requires DenotesTree(content, n)
    ensures DenotesTree(Wrapped(key, content), WrappedNode(key, n)) && ValueOf(WrappedNode(key, n)) == Object(map[key := ValueOf(n)])
  {
    hide ValueOf, Clean, Lexemes, Wrapped, WrappedNode, NodeWords, WellFormed;
    WrappedLexemes(key, content);
    WrappedWords(key, n);
  }

  function WrappedNode(key: Text, n: Node): Node {
    Obj(New(OpenBrace, []), ConsMember(NoComma, New(Kind.String, key), New(Colon, []), n, EndMembers(NoComma, New(CloseBrace, []))))
  }

  lemma WrappedWords(key: Text, n: Node)
    requires WellFormed(n, DEFAULT)
    ensures var w := WrappedNode(key, n);
      && WellFormed(w, DEFAULT) && ValueOf(w) == Object(map[key := ValueOf(n)])
      && NodeWords(w) == [Lexeme(OpenBrace, []), Lexeme(Kind.String, key), Lexeme(Colon, [])] + NodeWords(n) + [Lexeme(CloseBrace, [])]
  {
    hide ValueOf;
    var end := EndMembers(NoComma, New(CloseBrace, []));
    var w := WrappedNode(key, n);
    ObjValue(w.open, w.members);
    assert MembersWellFormed(end, false, DEFAULT);
    assert MembersInto(w.members, map[]) == MembersInto(end, map[][key := ValueOf(n)]) == map[key := ValueOf(n)];
    assert MembersWords(end) == [] + [Lexeme(CloseBrace, [])];
    assert MembersWords(w.members) == [] + [Lexeme(Kind.String, key), Lexeme(Colon, [])] + NodeWords(n) + MembersWords(end);
    ObjWords(w.open, w.members);
  }

  // A piece of a clean text replaced by another clean text.
  lemma Spliced(x: Text, ins: Text, y: Text)
    requires Clean(x) && Clean(ins) && Clean(y) && Apart(ins, y) && Apart(x, ins + y)
    ensures Clean(x + ins + y) && Lexemes(x + ins + y) == Lexemes(x) + Lexemes(ins) + Lexemes(y)
  {
    hide *;
    Concat(ins, y);
    Concat(x, ins + y);
    Regroup(x, ins, y);
    Regroup(Lexemes(x), Lexemes(ins), Lexemes(y));
  }

  // Where a node of a document stands in its text.
  ghost predicate Stands(text: Text, n: Node, path: Keys, rest: Stream) {
    && Lookup(n, path).Some? && Clean(text) && WellFormed(n, DEFAULT)
    && Lexemes(text) == Pre(n, path) + NodeWords(Lookup(n, path).value) + Post(n, path)
    && Words(rest) == Post(n, path)
    && Marks(text, NodeOffset(Lookup(n, path).value), Put(Lookup(n, path).value, rest), DEFAULT)
    && Marks(text, NodeEnd(Lookup(n, path).value), rest, DEFAULT)
    && NodeOffset(Lookup(n, path).value) <= NodeEnd(Lookup(n, path).value) <= |text|
  }

  lemma StandsAt(text: Text, n: Node, path: Keys) returns (rest: Stream)
    requires Clean(text) && IsDocument(text, n, DEFAULT) && Lookup(n, path).Some?
    ensures Stands(text, n, path, rest)
  {
    WordsOfDocument(text, n, DEFAULT);
    WordsReplaced(n, path, Lookup(n, path).value);
    ReplaceSame(n, path);
    var eof :| Tokens(text, 0, DEFAULT).stream == Put(n, Last(eof));
    hide Lexemes, Clean, Put, NodeWords, Pre, Post, Tokens, Replace, Events;
    MarksStart(text, DEFAULT);
    rest := PathSpan(text, 0, n, path, Last(eof), DEFAULT);
    assert Post(n, path) + [] == Post(n, path);
  }

  // What stands in front of a mark, given all the words.
  lemma WordsInFront(text: Text, q: nat, ts: Stream, front: seq<Lexeme>)
    requires Clean(text) && Marks(text, q, ts, DEFAULT) && Lexemes(text) == front + Words(ts)
    ensures q <= |text| && Clean(text[..q]) && Clean(text[q..]) && Lexemes(text[..q]) == front && Lexemes(text[q..]) == Words(ts)
  {
    MarksCut(text, q, ts, DEFAULT);
    hide *;
    Cancel(Lexemes(text[..q]), front, Words(ts));
  }

  lemma {:induction false} PreEnds(n: Node, path: Keys, o: Options)
    requires Lookup(n, path).Some? && path != [] && WellFormed(n, o)
    ensures |Pre(n, path)| > 0 && Pre(n, path)[|Pre(n, path)| - 1].kind.Colon?
    decreases |path|
  {
    BeforeEnds(n.members, path[0], true, o);
    if |path| > 1 {
      FindWellFormed(n.members, path[0], true, o);
      PreEnds(Find(n.members, path[0]).value, path[1..], o);
    }
  }

  lemma {:induction false} BeforeEnds(ms: MemberList, key: Text, first: bool, o: Options)
    requires Find(ms, key).Some? && MembersWellFormed(ms, first, o)
    ensures |WordsBefore(ms, key)| > 0 && WordsBefore(ms, key)[|WordsBefore(ms, key)| - 1].kind.Colon?
    decreases ms
  {
    if ms.key.value != key {
      BeforeEnds(ms.more, key, false, o);
    }
  }

  // Behind a member comes a comma or the end.
  ghost predicate Continues(w: seq<Lexeme>) {
    |w| > 0 && w[0].kind.IsPunctuation()
  }

  lemma RestContinues(ms: MemberList, o: Options)
    requires MembersWellFormed(ms, false, o)
    ensures Continues(MembersWords(ms))
  {
    JsonReformat.MembersFit(ms, false, o);
  }

  lemma {:induction false} AfterContinues(ms: MemberList, key: Text, first: bool, o: Options)
    requires Find(ms, key).Some? && MembersWellFormed(ms, first, o)
    ensures Continues(WordsAfter(ms, key))
    decreases ms
  {
    if ms.key.value == key {
      RestContinues(ms.more, o);
    } else {
      AfterContinues(ms.more, key, false, o);
    }
  }

  lemma {:induction false} PostContinues(n: Node, path: Keys, o: Options)
    requires Lookup(n, path).Some? && path != [] && WellFormed(n, o)
    ensures Continues(Post(n, path))
    decreases |path|
  {
    AfterContinues(n.members, path[0], true, o);
    if |path| > 1 {
      FindWellFormed(n.members, path[0], true, o);
      PostContinues(Find(n.members, path[0]).value, path[1..], o);
    }
  }

  /** The document after a replacement. */
  ghost predicate BecomesTree(text: Text, n: Node, path: Keys, m: Node) {
    Clean(text) && Lookup(n, path).Some? && WellFormed(m, DEFAULT) && Lexemes(text) == NodeWords(Replace(n, path, m))
  }

  /** The document after a replacement by a node with a value. */
  ghost predicate Becomes(text: Text, n: Node, path: Keys, v: Json) {
    exists m :: BecomesTree(text, n, path, m) && ValueOf(m) == v
  }

  lemma BecomesParsed(text: Text, n: Node, path: Keys, v: Json)
    requires Becomes(text, n, path, v) && WellFormed(n, DEFAULT) && UniqueKeys(n)
    ensures JsonParse.Parsed(text, DEFAULT) == Some(SetIn(ValueOf(n), path, v))
  {
    var m :| BecomesTree(text, n, path, m) && ValueOf(m) == v;
    hide NodeWords, Lexemes, ValueOf, Replace, Clean, WellFormed;
    ReplaceWellFormed(n, path, m, DEFAULT);
    ValueReplaced(n, path, m);
    DocumentByWords(text, Replace(n, path, m), DEFAULT);
  }

  /** Writing the text of a value over an existing value. */
  lemma ReplacedValue(text: Text, n: Node, path: Keys, rest: Stream, content: Text, nv: Node)
    requires Stands(text, n, path, rest) && DenotesTree(content, nv)
    ensures var m := Lookup(n, path).value; var now := text[..NodeOffset(m)] + content + text[NodeEnd(m)..];
      BecomesTree(now, n, path, nv) && Becomes(now, n, path, ValueOf(nv))
  {
    var m := Lookup(n, path).value;
    ValueSurroundings(text, n, path, rest);
    WordsReplaced(n, path, nv);
    var x, y := text[..NodeOffset(m)], text[NodeEnd(m)..];
    ApartAround(x, content, y, n, path);
    Spliced(x, content, y);
  }

  lemma ValueSurroundings(text: Text, n: Node, path: Keys, rest: Stream)
    requires Stands(text, n, path, rest)
    ensures var m := Lookup(n, path).value; var x, y := text[..NodeOffset(m)], text[NodeEnd(m)..];
      Clean(x) && Clean(y) && Lexemes(x) == Pre(n, path) && Lexemes(y) == Post(n, path)
  {
    hide Lexemes, Clean, Put, NodeWords, Pre, Post, Marks, Lookup, WellFormed, Words, NodeOffset, NodeEnd;
    var m := Lookup(n, path).value;
    WordsOfNode(m, rest);
    Regroup(Pre(n, path), NodeWords(m), Post(n, path));
    WordsInFront(text, NodeOffset(m), Put(m, rest), Pre(n, path));
    WordsInFront(text, NodeEnd(m), rest, Pre(n, path) + NodeWords(m));
  }

  lemma ApartAround(x: Text, content: Text, y: Text, n: Node, path: Keys)
    requires Clean(x) && Clean(y) && Lookup(n, path).Some? && WellFormed(n, DEFAULT)
    requires Lexemes(x) == Pre(n, path) && Lexemes(y) == Post(n, path)
    ensures Apart(content, y) && Apart(x, content + y)
  {
    hide Lexemes, Clean, NodeWords, Pre, Post, Lookup, WellFormed, Apart;
    if path == [] {
      NoPath(n);
    } else {
      PreEnds(n, path, DEFAULT);
      PostContinues(n, path, DEFAULT);
    }
    EndsApart(x);
    StartsApart(y);
  }

  lemma NoPath(n: Node)
    ensures Lookup(n, []) == Some(n) && Pre(n, []) == [] && Post(n, []) == []
  {
  }

  // Members by number.

  function Count(ms: MemberList): nat {
    match ms case EndMembers(_, _) => 0 case ConsMember(_, _, _, _, more) => 1 + Count(more)
  }

  // The members from the k-th on.
  function Drop(ms: MemberList, k: nat): MemberList
    requires k <= Count(ms)
  {
    if k == 0 then ms else Drop(ms.more, k - 1)
  }

  function Upto(ms: MemberList, k: nat): seq<Lexeme>
    requires k <= Count(ms)
  {
    if k == 0 then []
    else SepWords(ms.sep) + [Lex(ms.key), Lex(ms.colon)] + NodeWords(ms.value) + Upto(ms.more, k - 1)
  }

  // Where the first k members end, starting from q.
  function EndPos(ms: MemberList, k: nat, q: nat): nat
    requires k <= Count(ms)
  {
    if k == 0 then q else EndPos(ms.more, k - 1, NodeEnd(ms.value))
  }

  lemma {:induction false} MembersSplit(ms: MemberList, k: nat, first: bool, o: Options)
    requires k <= Count(ms) && MembersWellFormed(ms, first, o)
    ensures MembersWords(ms) == Upto(ms, k) + MembersWords(Drop(ms, k))
    ensures MembersWellFormed(Drop(ms, k), first && k == 0, o) && Count(Drop(ms, k)) == Count(ms) - k
    decreases ms
  {
    if k == 0 {
      assert [] + MembersWords(ms) == MembersWords(ms);
    } else {
      hide NodeWords, SepWords;
      MembersSplit(ms.more, k - 1, false, o);
      Regroup(SepWords(ms.sep) + [Lex(ms.key), Lex(ms.colon)] + NodeWords(ms.value), Upto(ms.more, k - 1), MembersWords(Drop(ms.more, k - 1)));
    }
  }

  lemma MarksIn(text: Text, q: nat, ts: Stream)
    requires Marks(text, q, ts, DEFAULT)
    ensures q <= |text|
  {
  }

  lemma ObjParts(m: Node)
    requires m.Obj? && WellFormed(m, DEFAULT)
    ensures MembersWellFormed(m.members, true, DEFAULT) && m.open.kind.OpenBrace?
  {
  }

  lemma {:induction false} DropMarks(text: Text, q: nat, ms: MemberList, tail: Stream, k: nat)
    requires Clean(text) && k <= Count(ms) && Marks(text, q, PutMembers(ms, tail), DEFAULT)
    ensures q <= EndPos(ms, k, q) <= |text| && Marks(text, EndPos(ms, k, q), PutMembers(Drop(ms, k), tail), DEFAULT)
    decreases ms
  {
    hide Marks, Clean, PutMembers, Put, NodeEnd, NodeOffset;
    MarksIn(text, q, PutMembers(ms, tail));
    if k > 0 {
      var _ := MemberSpan(text, q, ms, tail, DEFAULT);
      DropMarks(text, NodeEnd(ms.value), ms.more, tail, k - 1);
    }
  }

  lemma ObjSplit(m: Node, k: nat)
    requires m.Obj? && k <= Count(m.members) && WellFormed(m, DEFAULT)
    ensures NodeWords(m) == [Lex(m.open)] + (Upto(m.members, k) + MembersWords(Drop(m.members, k)))
  {
    hide MembersWords, Upto, Drop;
    MembersSplit(m.members, k, true, DEFAULT);
    ObjWords(m.open, m.members);
  }

  // The text around the place behind the first k members of an object.
  lemma MemberSurroundings(text: Text, n: Node, path: Keys, rest: Stream, k: nat) returns (q: nat)
    requires Stands(text, n, path, rest) && Lookup(n, path).value.Obj? && k <= Count(Lookup(n, path).value.members)
    requires WellFormed(Lookup(n, path).value, DEFAULT)
    ensures var m := Lookup(n, path).value;
      && q == EndPos(m.members, k, TokEnd(m.open)) && q <= |text|
      && Marks(text, q, PutMembers(Drop(m.members, k), rest), DEFAULT)
      && Clean(text[..q]) && Lexemes(text[..q]) == Pre(n, path) + ([Lex(m.open)] + Upto(m.members, k))
      && Clean(text[q..]) && Lexemes(text[q..]) == MembersWords(Drop(m.members, k)) + Post(n, path)
  {
    hide Lexemes, Clean, NodeWords, MembersWords, Pre, Post, Marks, Lookup, WellFormed, MembersWellFormed, PutMembers, Words, Upto, NodeEnd, EndPos, Drop;
    var m := Lookup(n, path).value;
    ObjSplit(m, k);
    MarksNext(text, NodeOffset(m), Put(m, rest), DEFAULT);
    DropMarks(text, TokEnd(m.open), m.members, rest, k);
    q := EndPos(m.members, k, TokEnd(m.open));
    WordsOfMembers(Drop(m.members, k), rest);
    var u, d := Upto(m.members, k), MembersWords(Drop(m.members, k));
    Inside(Pre(n, path), [Lex(m.open)], u, d, Post(n, path));
    WordsInFront(text, q, PutMembers(Drop(m.members, k), rest), Pre(n, path) + ([Lex(m.open)] + u));
  }

  lemma Inside<T>(p: seq<T>, o: seq<T>, u: seq<T>, d: seq<T>, a: seq<T>)
    ensures p + (o + (u + d)) + a == p + (o + u) + (d + a)
  {
  }

  // The words of a member that is put in.
  function NewMember(key: Text, v: Node): seq<Lexeme> {
    [Lexeme(Kind.String, key), Lexeme(Colon, [])] + NodeWords(v)
  }

  function WithMember(ms: MemberList, k: nat, key: Text, v: Node): MemberList
    requires k <= |KeysOf(ms)|
  {
    Insert(ms, k, New(Kind.String, key), New(Colon, []), v, New(Comma, []))
  }

  lemma CountIsKeys(ms: MemberList)
    ensures Count(ms) == |KeysOf(ms)|
  {
  }

  lemma AddedWords(key: Text, v: Node, more: MemberList)
    ensures MembersWords(ConsMember(AComma(New(Comma, [])), New(Kind.String, key), New(Colon, []), v, more))
      == [Lexeme(Comma, [])] + NewMember(key, v) + MembersWords(more)
  {
    hide NodeWords;
    var w := [Lexeme(Comma, [])] + [Lexeme(Kind.String, key), Lexeme(Colon, [])] + NodeWords(v);
    assert w == [Lexeme(Comma, [])] + NewMember(key, v);
  }

  lemma {:induction false} InsertBehindWords(ms: MemberList, k: nat, key: Text, v: Node, first: bool, o: Options)
    requires 0 < k <= |KeysOf(ms)| && k <= Count(ms) && MembersWellFormed(ms, first, o) && WellFormed(v, o)
    ensures var r := InsertBehind(ms, k, New(Kind.String, key), New(Colon, []), v, New(Comma, []));
      && MembersWellFormed(r, first, o)
      && MembersWords(r) == Upto(ms, k) + ([Lexeme(Comma, [])] + NewMember(key, v)) + MembersWords(Drop(ms, k))
    decreases ms
  {
    hide NodeWords, WellFormed, SepWords;
    var head := SepWords(ms.sep) + [Lex(ms.key), Lex(ms.colon)] + NodeWords(ms.value);
    var ins := [Lexeme(Comma, [])] + NewMember(key, v);
    if k == 1 {
      var added := ConsMember(AComma(New(Comma, [])), New(Kind.String, key), New(Colon, []), v, ms.more);
      AddedWords(key, v, ms.more);
      Regroup(head, ins, MembersWords(ms.more));
      assert Upto(ms, 1) == head + [];
    } else {
      InsertBehindWords(ms.more, k - 1, key, v, false, o);
      Regroup(head, Upto(ms.more, k - 1) + ins, MembersWords(Drop(ms.more, k - 1)));
      Regroup(head, Upto(ms.more, k - 1), ins);
    }
  }

  lemma InsertFirstWords(ms: MemberList, key: Text, v: Node, o: Options)
    requires MembersWellFormed(ms, true, o) && WellFormed(v, o)
    ensures MembersWellFormed(WithMember(ms, 0, key, v), true, o)
    ensures MembersWords(WithMember(ms, 0, key, v))
      == NewMember(key, v) + (if Count(ms) == 0 then [] else [Lexeme(Comma, [])]) + MembersWords(ms)
  {
    hide NodeWords, WellFormed;
    var second := Second(ms, New(Comma, []));
    if ms.ConsMember? {
      assert MembersWords(second) == [Lexeme(Comma, [])] + [Lex(ms.key), Lex(ms.colon)] + NodeWords(ms.value) + MembersWords(ms.more);
      assert MembersWords(ms) == [] + [Lex(ms.key), Lex(ms.colon)] + NodeWords(ms.value) + MembersWords(ms.more);
      assert MembersWords(second) == [Lexeme(Comma, [])] + MembersWords(ms);
    }
    assert MembersWords(WithMember(ms, 0, key, v)) == [] + [Lexeme(Kind.String, key), Lexeme(Colon, [])] + NodeWords(v) + MembersWords(second);
  }

  // What is written for a new member behind the first k of count.
  function InsertedText(key: Text, content: Text, k: nat, count: nat): Text {
    if k > 0 then COMMA_TEXT + PropertyText(key, content)
    else if count == 0 then PropertyText(key, content)
    else PropertyText(key, content) + COMMA_TEXT
  }

  function InsertedWords(w: seq<Lexeme>, k: nat, count: nat): seq<Lexeme> {
    if k > 0 then [Lexeme(Comma, [])] + w else w + (if count == 0 then [] else [Lexeme(Comma, [])])
  }

  lemma CommaApart(x: Text)
    ensures Apart(x, COMMA_TEXT)
  {
  }

  lemma InsertedLexemes(key: Text, content: Text, k: nat, count: nat)
    requires Clean(content)
    ensures Clean(InsertedText(key, content, k, count))
    ensures Lexemes(InsertedText(key, content, k, count))
      == InsertedWords([Lexeme(Kind.String, key), Lexeme(Colon, [])] + Lexemes(content), k, count)
  {
    hide Lexemes, Clean, PropertyText, Apart, Scan;
    PropertyLexemes(key, content);
    NoTokens();
    CommaApart(PropertyText(key, content));
    var p := PropertyText(key, content);
    PunctuationFirst(COMMA, p);
    PunctuationFirst(COMMA, []);
    assert [COMMA] + [] == COMMA_TEXT;
    Concat(p, COMMA_TEXT);
    assert Lexemes(p) + [] == Lexemes(p);
  }

  lemma WithMemberWords(ms: MemberList, k: nat, key: Text, v: Node, o: Options)
    requires k <= |KeysOf(ms)| && k <= Count(ms) && MembersWellFormed(ms, true, o) && WellFormed(v, o)
    ensures MembersWellFormed(WithMember(ms, k, key, v), true, o)
    ensures MembersWords(WithMember(ms, k, key, v))
      == Upto(ms, k) + InsertedWords(NewMember(key, v), k, Count(ms)) + MembersWords(Drop(ms, k))
  {
    if k == 0 {
      InsertFirstWords(ms, key, v, o);
      var w := InsertedWords(NewMember(key, v), 0, Count(ms));
      assert [] + w == w;
    } else {
      InsertBehindWords(ms, k, key, v, true, o);
    }
  }

  /** Writing a new member behind the first k members of an object. */
  lemma InsertedMember(text: Text, n: Node, path: Keys, rest: Stream, k: nat, key: Text, content: Text, nv: Node)
    requires Stands(text, n, path, rest) && DenotesTree(content, nv) && Lookup(n, path).value.Obj?
    requires k <= Count(Lookup(n, path).value.members) && key !in KeysOf(Lookup(n, path).value.members)
    ensures var m := Lookup(n, path).value; var q := EndPos(m.members, k, TokEnd(m.open));
      k <= |KeysOf(m.members)| && q <= |text| &&
      var now := text[..q] + InsertedText(key, content, k, Count(m.members)) + text[q..];
      && BecomesTree(now, n, path, Obj(m.open, WithMember(m.members, k, key, nv)))
      && Becomes(now, n, path, Object(MembersInto(m.members, map[])[key := ValueOf(nv)]))
  {
    var m := Lookup(n, path).value;
    var ms := m.members;
    ReplaceWellFormed(n, path, n, DEFAULT);
    CountIsKeys(ms);
    var q := MemberSurroundings(text, n, path, rest, k);
    var ins := InsertedText(key, content, k, Count(ms));
    InsertedLexemes(key, content, k, Count(ms));
    InsertApart(text, n, path, q, k, ins, key, content);
    Spliced(text[..q], ins, text[q..]);
    WithMemberWords(ms, k, key, nv, DEFAULT);
    var m' := Obj(m.open, WithMember(ms, k, key, nv));
    IntoInserted(ms, k, New(Kind.String, key), New(Colon, []), nv, New(Comma, []), map[]);
    ObjValue(m.open, m'.members);
    ObjWords(m.open, m'.members);
    WordsReplaced(n, path, m');
    hide *;
    var i := InsertedWords(NewMember(key, nv), k, Count(ms));
    NewMemberIs(key, nv);
    Insertion(Pre(n, path), [Lex(m.open)], Upto(ms, k), i, MembersWords(Drop(ms, k)), Post(n, path));
    ObjWellFormed(m, m', DEFAULT);
    BecomesBy(text[..q] + ins + text[q..], n, path, m');
  }

  lemma NewMemberIs(key: Text, v: Node)
    ensures NewMember(key, v) == [Lexeme(Kind.String, key), Lexeme(Colon, [])] + NodeWords(v)
  {
  }

  lemma Insertion<T>(p: seq<T>, o: seq<T>, u: seq<T>, i: seq<T>, d: seq<T>, a: seq<T>)
    ensures p + (o + u) + i + (d + a) == p + (o + (u + i + d)) + a
  {
  }

  lemma ObjWellFormed(m: Node, m': Node, o: Options)
    requires m.Obj? && m'.Obj? && m.open == m'.open && WellFormed(m, o) && MembersWellFormed(m'.members, true, o)
    ensures WellFormed(m', o)
  {
  }

  lemma BecomesBy(text: Text, n: Node, path: Keys, m: Node)
    requires Clean(text) && Lookup(n, path).Some? && WellFormed(m, DEFAULT) && Lexemes(text) == NodeWords(Replace(n, path, m))
    ensures BecomesTree(text, n, path, m) && Becomes(text, n, path, ValueOf(m))
  {
  }

  lemma CommaStarts(p: Text, y: Text, x: Text)
    ensures Apart(x, COMMA_TEXT + p + y)
  {
    assert (COMMA_TEXT + p + y)[0] == COMMA;
  }

  lemma CommaEnds(p: Text, y: Text)
    ensures Apart(p + COMMA_TEXT, y)
  {
    assert (p + COMMA_TEXT)[|p + COMMA_TEXT| - 1] == COMMA;
  }

  lemma OnlyClose(ms: MemberList, k: nat, a: seq<Lexeme>)
    requires MembersWellFormed(ms, true, DEFAULT) && Count(ms) == 0 && k == 0
    ensures var w := MembersWords(Drop(ms, k)) + a; w != [] && w[0].kind.IsPunctuation()
  {
    assert MembersWords(ms) == [] + [Lex(ms.close)];
  }

  lemma InsertApart(text: Text, n: Node, path: Keys, q: nat, k: nat, ins: Text, key: Text, content: Text)
    requires Lookup(n, path).Some? && Lookup(n, path).value.Obj? && k <= Count(Lookup(n, path).value.members)
    requires q <= |text| && WellFormed(Lookup(n, path).value, DEFAULT)
    requires var m := Lookup(n, path).value;
      && ins == InsertedText(key, content, k, Count(m.members))
      && Clean(text[..q]) && Lexemes(text[..q]) == Pre(n, path) + ([Lex(m.open)] + Upto(m.members, k))
      && Clean(text[q..]) && Lexemes(text[q..]) == MembersWords(Drop(m.members, k)) + Post(n, path)
    ensures Apart(text[..q], ins + text[q..]) && Apart(ins, text[q..])
  {
    hide Lexemes, Clean, NodeWords, Pre, Post, Lookup, WellFormed, Drop, Stops, IsTrivia, Scan, PropertyText, Continues;
    var m := Lookup(n, path).value;
    ObjParts(m);
    MembersSplit(m.members, k, true, DEFAULT);
    if k > 0 {
      RestContinues(Drop(m.members, k), DEFAULT);
      ContinuesOn(MembersWords(Drop(m.members, k)), Post(n, path));
      StartsApart(text[q..]);
      CommaStarts(PropertyText(key, content), text[q..], text[..q]);
    } else {
      assert Upto(m.members, 0) == [];
      LastIs(Pre(n, path), Lex(m.open));
      EndsApart(text[..q]);
      if Count(m.members) == 0 {
        OnlyClose(m.members, k, Post(n, path));
        StartsApart(text[q..]);
      } else {
        CommaEnds(PropertyText(key, content), text[q..]);
      }
    }
  }

  // Removal.

  lemma {:induction false} RemoveWords(ms: MemberList, k: nat, key: Text, first: bool, o: Options)
    requires k < Count(ms) && MembersWellFormed(ms, first, o) && IsFirst(ms, k, key) && (first ==> k > 0)
    ensures MembersWellFormed(RemoveFrom(ms, key, first), first, o)
    ensures MembersWords(RemoveFrom(ms, key, first)) == Upto(ms, k) + MembersWords(Drop(ms, k + 1))
    decreases ms
  {
    hide NodeWords, WellFormed;
    if k == 0 {
      assert Drop(ms, 1) == ms.more;
      assert [] + MembersWords(ms.more) == MembersWords(ms.more);
    } else {
      RemoveWords(ms.more, k - 1, key, false, o);
      assert Drop(ms, k + 1) == Drop(ms.more, k);
      Regroup(SepWords(ms.sep) + [Lex(ms.key), Lex(ms.colon)] + NodeWords(ms.value), Upto(ms.more, k - 1), MembersWords(Drop(ms.more, k)));
    }
  }

  // The k-th member is the first one with the key.
  ghost predicate IsFirst(ms: MemberList, k: nat, key: Text)
    requires k < Count(ms)
  {
    if k == 0 then ms.key.value == key else ms.key.value != key && IsFirst(ms.more, k - 1, key)
  }

  // A trailing comma behind the only member would be left alone.
  ghost predicate Lonely(ms: MemberList) {
    ms.ConsMember? && ms.more.EndMembers? && ms.more.sep.AComma?
  }

  lemma RemoveFirstWords(ms: MemberList, key: Text, o: Options)
    requires ms.ConsMember? && ms.key.value == key && MembersWellFormed(ms, true, o) && !Lonely(ms)
    ensures MembersWellFormed(RemoveFrom(ms, key, true), true, o)
    ensures MembersWords(ms.more)
      == SepWords(ms.more.sep) + MembersWords(RemoveFrom(ms, key, true))
  {
    hide NodeWords, WellFormed;
    if ms.more.ConsMember? {
      var m := ms.more;
      assert MembersWords(m) == SepWords(m.sep) + [Lex(m.key), Lex(m.colon)] + NodeWords(m.value) + MembersWords(m.more);
      assert MembersWords(Headless(m)) == [] + [Lex(m.key), Lex(m.colon)] + NodeWords(m.value) + MembersWords(m.more);
    }
  }

  lemma RemovedBy(text: Text, n: Node, path: Keys, key: Text)
    requires Lookup(n, path).Some? && Lookup(n, path).value.Obj? && WellFormed(Lookup(n, path).value, DEFAULT) && Clean(text)
    requires UniqueKeys(Lookup(n, path).value) && Find(Lookup(n, path).value.members, key).Some?
    requires MembersWellFormed(RemoveFrom(Lookup(n, path).value.members, key, true), true, DEFAULT)
    requires var m := Lookup(n, path).value;
      Lexemes(text) == Pre(n, path) + ([Lex(m.open)] + MembersWords(RemoveFrom(m.members, key, true))) + Post(n, path)
    ensures var m := Lookup(n, path).value;
      && BecomesTree(text, n, path, Obj(m.open, RemoveFrom(m.members, key, true)))
      && Becomes(text, n, path, Object(MembersInto(m.members, map[]) - {key}))
  {
    var m := Lookup(n, path).value;
    var m' := Obj(m.open, RemoveFrom(m.members, key, true));
    IntoRemoved(m.members, map[], key, true);
    ObjValue(m.open, m'.members);
    ObjWords(m.open, m'.members);
    WordsReplaced(n, path, m');
    ObjWellFormed(m, m', DEFAULT);
    hide *;
    BecomesBy(text, n, path, m');
  }

  /** Cutting out a member that is not the first one, from the end of the one before. */
  lemma RemovedLater(text: Text, n: Node, path: Keys, rest: Stream, k: nat, key: Text)
    requires Stands(text, n, path, rest) && Lookup(n, path).value.Obj? && UniqueKeys(Lookup(n, path).value)
    requires 0 < k < Count(Lookup(n, path).value.members) && IsFirst(Lookup(n, path).value.members, k, key)
    ensures var m := Lookup(n, path).value;
      var b, e := EndPos(m.members, k, TokEnd(m.open)), EndPos(m.members, k + 1, TokEnd(m.open));
      && b <= e <= |text|
      && BecomesTree(text[..b] + [] + text[e..], n, path, Obj(m.open, RemoveFrom(m.members, key, true)))
      && Becomes(text[..b] + [] + text[e..], n, path, Object(MembersInto(m.members, map[]) - {key}))
  {
    hide Lexemes, Clean, NodeWords, MembersWords, Pre, Post, Marks, Lookup, WellFormed, MembersWellFormed, PutMembers, Words, Upto,
      NodeEnd, EndPos, Drop, MembersInto, RemoveFrom, UniqueKeys, Find, Becomes, Apart, IsFirst, Continues, Count;
    var m := Lookup(n, path).value;
    var ms := m.members;
    ReplaceWellFormed(n, path, n, DEFAULT);
    ObjParts(m);
    var b := MemberSurroundings(text, n, path, rest, k);
    var e := MemberSurroundings(text, n, path, rest, k + 1);
    EndPosGrows(text, ms, k, TokEnd(m.open), b, rest);
    RemoveWords(ms, k, key, true, DEFAULT);
    FirstIsFound(ms, k, key);
    MembersSplit(ms, k + 1, true, DEFAULT);
    RestContinues(Drop(ms, k + 1), DEFAULT);
    NoTokens();
    var x, y := text[..b], text[e..];
    var front, u, d, a := Pre(n, path), Upto(ms, k), MembersWords(Drop(ms, k + 1)), Post(n, path);
    ContinuesOn(d, a);
    StartsApart(y);
    EmptyApart(x, y);
    Spliced(x, [], y);
    Insertion(front, [Lex(m.open)], u, [], d, a);
    Nothing(u);
    RemovedBy(x + [] + y, n, path, key);
  }

  lemma ContinuesOn(d: seq<Lexeme>, a: seq<Lexeme>)
    requires Continues(d)
    ensures d + a != [] && (d + a)[0].kind.IsPunctuation()
  {
  }

  lemma Nothing<T>(u: seq<T>)
    ensures u + [] == u
  {
  }

  lemma EmptyApart(x: Text, y: Text)
    requires Apart(x, y)
    ensures Apart(x, [] + y) && Apart([], y)
  {
    assert [] + y == y;
  }

  lemma {:induction false} FirstIsFound(ms: MemberList, k: nat, key: Text)
    requires k < Count(ms) && IsFirst(ms, k, key)
    ensures Drop(ms, k).ConsMember? && Find(ms, key) == Some(Drop(ms, k).value) && Drop(ms, k).key.value == key
    decreases ms
  {
    if k > 0 {
      FirstIsFound(ms.more, k - 1, key);
    }
  }

  lemma EndPosGrows(text: Text, ms: MemberList, k: nat, start: nat, b: nat, rest: Stream)
    requires k < Count(ms) && b == EndPos(ms, k, start) && Clean(text) && Marks(text, b, PutMembers(Drop(ms, k), rest), DEFAULT)
    ensures b <= EndPos(ms, k + 1, start)
  {
    EndPosStep(ms, k, start);
    var _ := MemberSpan(text, b, Drop(ms, k), rest, DEFAULT);
  }

  lemma {:induction false} EndPosStep(ms: MemberList, k: nat, start: nat)
    requires k < Count(ms)
    ensures Drop(ms, k).ConsMember? && EndPos(ms, k + 1, start) == NodeEnd(Drop(ms, k).value)
    ensures Drop(ms, k + 1) == Drop(ms, k).more
    decreases ms
  {
    if k > 0 {
      EndPosStep(ms.more, k - 1, NodeEnd(ms.value));
    }
  }

  /** Cutting out the first member, up to the name of the next one if there is one. */
  lemma RemovedFirst(text: Text, n: Node, path: Keys, rest: Stream, key: Text)
    requires Stands(text, n, path, rest) && Lookup(n, path).value.Obj? && UniqueKeys(Lookup(n, path).value)
    requires var ms := Lookup(n, path).value.members; ms.ConsMember? && ms.key.value == key && !Lonely(ms)
    ensures var m := Lookup(n, path).value; var ms := m.members;
      var b, e := TokEnd(m.open), if ms.more.ConsMember? then ms.more.key.offset else NodeEnd(ms.value);
      && b <= e <= |text|
      && BecomesTree(text[..b] + [] + text[e..], n, path, Obj(m.open, RemoveFrom(ms, key, true)))
      && Becomes(text[..b] + [] + text[e..], n, path, Object(MembersInto(ms, map[]) - {key}))
  {
    hide Lexemes, Clean, NodeWords, MembersWords, Pre, Post, Marks, Lookup, WellFormed, MembersWellFormed, Words, NodeEnd,
      MembersInto, RemoveFrom, UniqueKeys, Becomes, Apart;
    var m := Lookup(n, path).value;
    var ms := m.members;
    ReplaceWellFormed(n, path, n, DEFAULT);
    ObjParts(m);
    var b := MemberSurroundings(text, n, path, rest, 0);
    var e := MemberSurroundings(text, n, path, rest, 1);
    EndPosGrows(text, ms, 0, TokEnd(m.open), b, rest);
    EndPosStep(ms, 0, TokEnd(m.open));
    RemoveFirstWords(ms, key, DEFAULT);
    var r := MembersWords(RemoveFrom(ms, key, true));
    NoTokens();
    var x := text[..b];
    LastIs(Pre(n, path), Lex(m.open));
    EndsApart(x);
    if ms.more.ConsMember? {
      var named := MemberSpan(text, e, ms.more, rest, DEFAULT);
      HeadlessWords(text, named, ms.more, rest);
      HeadlessRemoved(ms, key);
      e := named;
    } else {
      NoSepWords(ms.more, DEFAULT);
      Nothing(r);
    }
    var y := text[e..];
    EmptyApart(x, y);
    Spliced(x, [], y);
    Insertion(Pre(n, path), [Lex(m.open)], [], [], r, Post(n, path));
    RemovedBy(x + [] + y, n, path, key);
  }

  lemma LastIs(w: seq<Lexeme>, last: Lexeme)
    ensures var all := w + ([last] + []); all != [] && all[|all| - 1] == last
  {
  }

  lemma HeadlessRemoved(ms: MemberList, key: Text)
    requires ms.ConsMember? && ms.key.value == key
    ensures RemoveFrom(ms, key, true) == Headless(ms.more)
  {
  }

  lemma NoSepWords(ms: MemberList, o: Options)
    requires ms.EndMembers? && ms.sep.NoComma?
    ensures forall w: seq<Lexeme> :: SepWords(ms.sep) + w == w
  {
  }

  // The words from the name of a member on are those of the list without the comma in front.
  lemma HeadlessWords(text: Text, q: nat, ms: MemberList, rest: Stream)
    requires Clean(text) && ms.ConsMember?
    requires Marks(text, q, More(ms.key, More(ms.colon, Put(ms.value, PutMembers(ms.more, rest)))), DEFAULT)
    ensures q <= |text| && Clean(text[q..]) && Lexemes(text[q..]) == MembersWords(Headless(ms)) + Words(rest)
  {
    var ts := PutMembers(Headless(ms), rest);
    assert ts == More(ms.key, More(ms.colon, Put(ms.value, PutMembers(ms.more, rest))));
    MarksCut(text, q, ts, DEFAULT);
    WordsOfMembers(Headless(ms), rest);
  }
}
