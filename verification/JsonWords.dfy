// What a clean text means depends only on its tokens, not on where they stand.
module JsonWords {
  import opened Wrappers
  import opened JsonScan
  import opened JsonScanner
  import opened JsonSyntax
  import opened JsonGrammar
  import opened JsonValue
  import opened JsonLex
  import JsonParse

  function Lex(t: Tok): Lexeme {
    Lexeme(t.kind, t.value)
  }

  // The tree of a document, apart from where its tokens stand and what separates them.

  function Plainly(t: Tok): Tok {
    Tok(t.kind, 0, 0, t.value, [])
  }

  function Bare(n: Node): Node {
    match n
    case Lit(t) => Lit(Plainly(t))
    case Obj(open, ms) => Obj(Plainly(open), BareMembers(ms))
    case Arr(open, xs) => Arr(Plainly(open), BareItems(xs))
  }

  function BareMembers(ms: MemberList): MemberList {
    match ms
    case EndMembers(_, close) => EndMembers(NoComma, Plainly(close))
    case ConsMember(_, key, colon, v, more) => ConsMember(NoComma, Plainly(key), Plainly(colon), Bare(v), BareMembers(more))
  }

  function BareItems(xs: ItemList): ItemList {
    match xs
    case EndItems(_, close) => EndItems(NoComma, Plainly(close))
    case ConsItem(_, v, more) => ConsItem(NoComma, Bare(v), BareItems(more))
  }

  /** The same values at the same places: members with the same keys and items, in the same order. */
  predicate Alike(a: Node, b: Node) {
    Bare(a) == Bare(b)
  }

  function Words(ts: Stream): seq<Lexeme> {
    if ts.Last? then [] else [Lex(ts.head)] + Words(ts.tail)
  }

  // Nothing is remarked between the tokens.
  ghost predicate Quiet(ts: Stream) {
    ts.Last? || (ts.head.after == [] && Quiet(ts.tail))
  }

  lemma FromBehind(text: Text, pos: nat, n: nat)
    requires pos <= |text|
    ensures Behind(From(text, pos), n) == From(text, pos + n)
  {
  }

  lemma {:induction false} WordsOfTokens(text: Text, pos: nat, o: Options)
    ensures Words(Tokens(text, pos, o).stream) == Lexemes(From(text, pos))
    decreases if pos < |text| then |text| - pos else 0
  {
    hide Scan, Remarks, Tokens, From, Behind;
    var s := From(text, pos);
    var r := Scan(s);
    TokensStep(text, pos, o);
    if s != [] {
      FromBehind(text, pos, r.length);
      WordsOfTokens(text, pos + r.length, o);
    }
  }

  // A text is clean exactly when the scanner has nothing to remark about it.
  lemma {:induction false} CleanIffSilent(text: Text, pos: nat, o: Options)
    ensures Clean(From(text, pos)) <==> Tokens(text, pos, o).before == [] && Quiet(Tokens(text, pos, o).stream)
    decreases if pos < |text| then |text| - pos else 0
  {
    hide Scan, Tokens, From, Behind;
    var s := From(text, pos);
    var r := Scan(s);
    TokensStep(text, pos, o);
    if s != [] {
      FromBehind(text, pos, r.length);
      CleanIffSilent(text, pos + r.length, o);
      FaultlessKinds(s);
    }
  }

  lemma FaultlessKinds(s: Text)
    ensures Scan(s).error == ScanError.UnexpectedEndOfComment ==> Scan(s).kind.BlockComment?
  {
    NoCommentError(s);
  }

  lemma NoCommentError(s: Text)
    ensures s != [] && IsDigit(s[0]) ==> ScanNumber(s).error != ScanError.UnexpectedEndOfComment
    ensures s != [] && s[0] == QUOTE ==> ScanString(s[1..]).error != ScanError.UnexpectedEndOfComment
    ensures |s| > 1 && s[0] == MINUS && IsDigit(s[1]) ==> ScanNumber(s[1..]).error != ScanError.UnexpectedEndOfComment
  {
    if s != [] {
      StringErrors(s[1..]);
    }
  }

  lemma {:induction false} StringErrors(s: Text)
    ensures ScanString(s).error != ScanError.UnexpectedEndOfComment
    decreases |s|
  {
    if |s| > 1 && s[0] == BACKSLASH {
      StringErrors(s[Escaped(s).length..]);
    } else if s != [] {
      StringErrors(s[1..]);
    }
  }

  // The words of a tree.

  function SepWords(s: Sep): seq<Lexeme> {
    match s case NoComma => [] case AComma(t) => [Lex(t)]
  }

  function NodeWords(n: Node): seq<Lexeme> {
    match n
    case Lit(t) => [Lex(t)]
    case Obj(open, ms) => [Lex(open)] + MembersWords(ms)
    case Arr(open, xs) => [Lex(open)] + ItemsWords(xs)
  }

  function MembersWords(ms: MemberList): seq<Lexeme> {
    match ms
    case EndMembers(s, close) => SepWords(s) + [Lex(close)]
    case ConsMember(s, key, colon, v, more) => SepWords(s) + [Lex(key), Lex(colon)] + NodeWords(v) + MembersWords(more)
  }

  function ItemsWords(xs: ItemList): seq<Lexeme> {
    match xs
    case EndItems(s, close) => SepWords(s) + [Lex(close)]
    case ConsItem(s, v, more) => SepWords(s) + NodeWords(v) + ItemsWords(more)
  }

  lemma {:induction false} WordsOfNode(n: Node, tail: Stream)
    ensures Words(Put(n, tail)) == NodeWords(n) + Words(tail)
    decreases n
  {
    match n
    case Lit(_) =>
    case Obj(open, ms) =>
      WordsOfMembers(ms, tail);
      Regroup([Lex(open)], MembersWords(ms), Words(tail));
    case Arr(open, xs) =>
      WordsOfItems(xs, tail);
      Regroup([Lex(open)], ItemsWords(xs), Words(tail));
  }

  lemma WordsOfSep(s: Sep, tail: Stream)
    ensures Words(PutSep(s, tail)) == SepWords(s) + Words(tail)
  {
  }

  lemma WordsOfName(key: Tok, colon: Tok, ts: Stream)
    ensures Words(More(key, More(colon, ts))) == [Lex(key), Lex(colon)] + Words(ts)
  {
    assert Words(More(colon, ts)) == [Lex(colon)] + Words(ts);
  }

  lemma {:induction false} WordsOfMembers(ms: MemberList, tail: Stream)
    ensures Words(PutMembers(ms, tail)) == MembersWords(ms) + Words(tail)
    decreases ms
  {
    match ms
    case EndMembers(s, close) =>
      WordsOfSep(s, More(close, tail));
      Regroup(SepWords(s), [Lex(close)], Words(tail));
    case ConsMember(s, key, colon, v, more) =>
      var rest := PutMembers(more, tail);
      WordsOfMembers(more, tail);
      WordsOfNode(v, rest);
      var named := More(key, More(colon, Put(v, rest)));
      WordsOfSep(s, named);
      var name := [Lex(key), Lex(colon)];
      WordsOfName(key, colon, Put(v, rest));
      assert PutMembers(ms, tail) == PutSep(s, named);
      hide Words, PutSep, Put, PutMembers, SepWords, NodeWords;
      Regroup(NodeWords(v), MembersWords(more), Words(tail));
      Regroup(name, NodeWords(v) + MembersWords(more), Words(tail));
      Regroup(SepWords(s), name + (NodeWords(v) + MembersWords(more)), Words(tail));
      Regroup(name, NodeWords(v), MembersWords(more));
      Regroup(SepWords(s), name + NodeWords(v), MembersWords(more));
      Regroup(SepWords(s), name, NodeWords(v));
  }

  lemma {:induction false} WordsOfItems(xs: ItemList, tail: Stream)
    ensures Words(PutItems(xs, tail)) == ItemsWords(xs) + Words(tail)
    decreases xs
  {
    match xs
    case EndItems(s, close) =>
      WordsOfSep(s, More(close, tail));
      Regroup(SepWords(s), [Lex(close)], Words(tail));
    case ConsItem(s, v, more) =>
      var rest := PutItems(more, tail);
      WordsOfItems(more, tail);
      WordsOfNode(v, rest);
      WordsOfSep(s, Put(v, rest));
      assert PutItems(xs, tail) == PutSep(s, Put(v, rest));
      hide Words, PutSep, Put, PutItems, SepWords;
      Regroup(NodeWords(v), ItemsWords(more), Words(tail));
      Regroup(SepWords(s), NodeWords(v) + ItemsWords(more), Words(tail));
      Regroup(SepWords(s), NodeWords(v), ItemsWords(more));
  }

  // The same tree on other tokens with the same words.

  // One token from the front of a stream.
  lemma TakeWord(t: Tok, ts: Stream, w: seq<Lexeme>)
    requires Words(ts) == [Lex(t)] + w
    ensures ts.More? && Lex(ts.head) == Lex(t) && Words(ts.tail) == w
  {
    assert Words(ts)[0] == Lex(t);
    assert Words(ts)[1..] == w;
    assert ([Lex(ts.head)] + Words(ts.tail))[1..] == Words(ts.tail);
  }

  lemma TakeSep(s: Sep, ts: Stream, w: seq<Lexeme>) returns (s': Sep, tail: Stream)
    requires Words(ts) == SepWords(s) + w
    ensures ts == PutSep(s', tail) && Words(tail) == w && SepWords(s') == SepWords(s) && (s'.NoComma? <==> s.NoComma?)
    ensures s.AComma? ==> Lex(s'.tok) == Lex(s.tok)
  {
    match s
    case NoComma =>
      s', tail := NoComma, ts;
    case AComma(t) =>
      TakeWord(t, ts, w);
      s', tail := AComma(ts.head), ts.tail;
  }

  lemma {:induction false} Twin(n: Node, ts: Stream, w: seq<Lexeme>, o: Options) returns (n': Node, tail: Stream)
    requires WellFormed(n, o) && Words(ts) == NodeWords(n) + w
    ensures ts == Put(n', tail) && Words(tail) == w && WellFormed(n', o) && ValueOf(n') == ValueOf(n) && Alike(n', n)
    decreases n
  {
    match n
    case Lit(t) =>
      TakeWord(t, ts, w);
      n', tail := Lit(ts.head), ts.tail;
    case Obj(open, ms) =>
      Regroup([Lex(open)], MembersWords(ms), w);
      TakeWord(open, ts, MembersWords(ms) + w);
      var ms';
      ms', tail := MembersTwin(ms, ts.tail, w, true, map[], o);
      n' := Obj(ts.head, ms');
    case Arr(open, xs) =>
      Regroup([Lex(open)], ItemsWords(xs), w);
      TakeWord(open, ts, ItemsWords(xs) + w);
      var xs';
      xs', tail := ItemsTwin(xs, ts.tail, w, true, o);
      n' := Arr(ts.head, xs');
  }

  lemma MemberInFront(s: seq<Lexeme>, key: Lexeme, colon: Lexeme, v: seq<Lexeme>, more: seq<Lexeme>, w: seq<Lexeme>)
    ensures s + [key, colon] + v + more + w == s + ([key] + ([colon] + (v + (more + w))))
  {
  }

  lemma {:induction false} MembersTwin(ms: MemberList, ts: Stream, w: seq<Lexeme>, first: bool, m: map<Text, Json>, o: Options)
    returns (ms': MemberList, tail: Stream)
    requires MembersWellFormed(ms, first, o) && Words(ts) == MembersWords(ms) + w
    ensures ts == PutMembers(ms', tail) && Words(tail) == w && MembersWellFormed(ms', first, o)
    ensures MembersInto(ms', m) == MembersInto(ms, m) && BareMembers(ms') == BareMembers(ms)
    decreases ms
  {
    hide ValueOf, Put, Bare;
    match ms
    case EndMembers(s, close) =>
      Regroup(SepWords(s), [Lex(close)], w);
      var s', ts' := TakeSep(s, ts, [Lex(close)] + w);
      TakeWord(close, ts', w);
      ms', tail := EndMembers(s', ts'.head), ts'.tail;
    case ConsMember(s, key, colon, v, more) =>
      var inner := NodeWords(v) + (MembersWords(more) + w);
      MemberInFront(SepWords(s), Lex(key), Lex(colon), NodeWords(v), MembersWords(more), w);
      var s', ts' := TakeSep(s, ts, [Lex(key)] + ([Lex(colon)] + inner));
      TakeWord(key, ts', [Lex(colon)] + inner);
      TakeWord(colon, ts'.tail, inner);
      var v', ts'' := Twin(v, ts'.tail.tail, MembersWords(more) + w, o);
      var more';
      more', tail := MembersTwin(more, ts'', w, false, m[key.value := ValueOf(v)], o);
      ms' := ConsMember(s', ts'.head, ts'.tail.head, v', more');
  }

  lemma {:induction false} ItemsTwin(xs: ItemList, ts: Stream, w: seq<Lexeme>, first: bool, o: Options)
    returns (xs': ItemList, tail: Stream)
    requires ItemsWellFormed(xs, first, o) && Words(ts) == ItemsWords(xs) + w
    ensures ts == PutItems(xs', tail) && Words(tail) == w && ItemsWellFormed(xs', first, o)
    ensures ItemValues(xs') == ItemValues(xs) && BareItems(xs') == BareItems(xs)
    decreases xs
  {
    hide ValueOf, Put, Bare;
    match xs
    case EndItems(s, close) =>
      Regroup(SepWords(s), [Lex(close)], w);
      var s', ts' := TakeSep(s, ts, [Lex(close)] + w);
      TakeWord(close, ts', w);
      xs', tail := EndItems(s', ts'.head), ts'.tail;
    case ConsItem(s, v, more) =>
      assert Words(ts) == SepWords(s) + (NodeWords(v) + (ItemsWords(more) + w));
      var s', ts' := TakeSep(s, ts, NodeWords(v) + (ItemsWords(more) + w));
      var v', ts'' := Twin(v, ts', ItemsWords(more) + w, o);
      var more';
      more', tail := ItemsTwin(more, ts'', w, false, o);
      xs' := ConsItem(s', v', more');
  }

  // Without remarks the calls of a tree hold no errors.

  lemma SepQuiet(s: Sep, tail: Stream)
    requires Quiet(PutSep(s, tail))
    ensures Quiet(tail) && NoErrors(SepEvents(s))
  {
  }

  lemma {:induction false} NodeQuiet(n: Node, tail: Stream)
    requires Quiet(Put(n, tail))
    ensures Quiet(tail) && NoErrors(Events(n))
    decreases n
  {
    match n
    case Lit(_) =>
    case Obj(open, ms) =>
      MembersQuiet(ms, tail);
      NoErrorsConcat([ObjectBegin(open.offset, open.length)] + Notes(open.after), MembersEvents(ms));
    case Arr(open, xs) =>
      ItemsQuiet(xs, tail);
      NoErrorsConcat([ArrayBegin(open.offset, open.length)] + Notes(open.after), ItemsEvents(xs));
  }

  lemma {:induction false} MembersQuiet(ms: MemberList, tail: Stream)
    requires Quiet(PutMembers(ms, tail))
    ensures Quiet(tail) && NoErrors(MembersEvents(ms))
    decreases ms
  {
    match ms
    case EndMembers(s, close) =>
      SepQuiet(s, More(close, tail));
      var last := [ObjectEnd(close.offset, close.length)] + Notes(close.after);
      NoErrorsConcat(SepEvents(s), last);
      assert MembersEvents(ms) == SepEvents(s) + last;
    case ConsMember(s, key, colon, v, more) =>
      var inner := Put(v, PutMembers(more, tail));
      SepQuiet(s, More(key, More(colon, inner)));
      assert Quiet(More(colon, inner));
      NodeQuiet(v, PutMembers(more, tail));
      MembersQuiet(more, tail);
      assert NoErrors(NameEvents(key, colon));
      hide NoErrors;
      NoErrorsConcat(SepEvents(s), NameEvents(key, colon));
      NoErrorsConcat(SepEvents(s) + NameEvents(key, colon), Events(v));
      NoErrorsConcat(SepEvents(s) + NameEvents(key, colon) + Events(v), MembersEvents(more));
  }

  lemma {:induction false} ItemsQuiet(xs: ItemList, tail: Stream)
    requires Quiet(PutItems(xs, tail))
    ensures Quiet(tail) && NoErrors(ItemsEvents(xs))
    decreases xs
  {
    match xs
    case EndItems(s, close) =>
      SepQuiet(s, More(close, tail));
      var last := [ArrayEnd(close.offset, close.length)] + Notes(close.after);
      NoErrorsConcat(SepEvents(s), last);
      assert ItemsEvents(xs) == SepEvents(s) + last;
    case ConsItem(s, v, more) =>
      SepQuiet(s, Put(v, PutItems(more, tail)));
      NodeQuiet(v, PutItems(more, tail));
      ItemsQuiet(more, tail);
      NoErrorsConcat(SepEvents(s), Events(v));
      NoErrorsConcat(SepEvents(s) + Events(v), ItemsEvents(more));
  }

  /** A clean text with the words of a tree is a document, and has its value. */
  lemma DocumentByWords(text: Text, n: Node, o: Options)
    requires Clean(text) && WellFormed(n, o) && Lexemes(text) == NodeWords(n)
    ensures exists n' :: IsDocument(text, n', o) && ValueOf(n') == ValueOf(n) && Alike(n', n)
    ensures JsonParse.Parsed(text, o) == Some(ValueOf(n))
  {
    var ts := Tokens(text, 0, o).stream;
    assert From(text, 0) == text;
    WordsOfTokens(text, 0, o);
    CleanIffSilent(text, 0, o);
    assert NodeWords(n) + [] == NodeWords(n);
    var n', tail := Twin(n, ts, [], o);
    NodeQuiet(n', tail);
    assert tail == Last(tail.Head());
    assert Notes([]) == [];
    assert IsDocument(text, n', o);
    JsonParse.ParsedDocument(text, n', o);
  }

  /** A clean document has the words of its tree. */
  lemma WordsOfDocument(text: Text, n: Node, o: Options)
    requires IsDocument(text, n, o)
    ensures Lexemes(text) == NodeWords(n)
  {
    assert From(text, 0) == text;
    WordsOfTokens(text, 0, o);
    var eof :| Tokens(text, 0, o).stream == Put(n, Last(eof));
    WordsOfNode(n, Last(eof));
    assert NodeWords(n) + [] == NodeWords(n);
  }
}
