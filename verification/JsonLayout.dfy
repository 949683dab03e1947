// How a formatted document looks: what stands between its tokens depends on the two tokens and on how deep they are nested.
module JsonLayout {
  import opened JsonScan
  import opened JsonScanner
  import opened JsonSyntax
  import opened JsonGrammar
  import opened JsonLex
  import opened JsonWords
  import opened JsonFormatSpec
  import opened JsonFormatMeaning
  import opened JsonReformat

  // A token as it is written.
  datatype Piece = Piece(kind: Kind, text: Text)

  /** The text is the pieces, with white space around them. */
  ghost predicate Spells(s: Text, ps: seq<Piece>)
    decreases |ps|
  {
    if ps == [] then AllTrivia(s)
    else
      exists k :: 0 <= k <= |s| - |ps[0].text| && AllTrivia(s[..k])
        && s[k..k + |ps[0].text|] == ps[0].text && Spells(s[k + |ps[0].text|..], ps[1..])
  }

  predicate Opens(k: Kind) {
    k.OpenBrace? || k.OpenBracket?
  }

  predicate Closes(k: Kind) {
    k.CloseBrace? || k.CloseBracket?
  }

  function Openers(ps: seq<Piece>): nat {
    if ps == [] then 0 else Openers(ps[..|ps| - 1]) + if Opens(ps[|ps| - 1].kind) then 1 else 0
  }

  function Closers(ps: seq<Piece>): nat {
    if ps == [] then 0 else Closers(ps[..|ps| - 1]) + if Closes(ps[|ps| - 1].kind) then 1 else 0
  }

  /** How deep piece i stands: an opener counts behind it, a closer already in front of itself. */
  function Depth(ps: seq<Piece>, i: nat): int
    requires i < |ps|
  {
    Openers(ps[..i]) - Closers(ps[..i + 1])
  }

  /** The indentation at a depth: a tab or some blanks, four if nothing else is said, for every level. */
  function Indentation(o: FormattingOptions, depth: int): Text {
    if depth <= 0 then []
    else if o.insertSpaces then seq(depth * (if o.tabSize == 0 then 4 else o.tabSize), _ => ' ' as int)
    else seq(depth, _ => '\t' as int)
  }

  /** What stands in front of piece i, behind the piece before it. */
  function Between(ps: seq<Piece>, i: nat, eol: Text, o: FormattingOptions): Text
    requires 0 < i < |ps|
  {
    var a, b := ps[i - 1].kind, ps[i].kind;
    if Opens(a) && Closes(b) then []
    else if Opens(a) || a.Comma? || Closes(b) then eol + Indentation(o, Depth(ps, i))
    else if a.Colon? then [' ' as int]
    else []
  }

  /** The pieces from the i-th on, each with what stands in front of it. */
  function Laid(ps: seq<Piece>, i: nat, eol: Text, o: FormattingOptions): Text
    requires 0 < i <= |ps|
    decreases |ps| - i
  {
    if i == |ps| then [] else Between(ps, i, eol, o) + ps[i].text + Laid(ps, i + 1, eol, o)
  }

  predicate IsBreak(c: int) {
    c == '\n' as int || c == '\r' as int
  }

  ghost predicate FirstBreak(text: Text, i: int) {
    0 <= i < |text| && IsBreak(text[i]) && forall k :: 0 <= k < i ==> !IsBreak(text[k])
  }

  ghost function BreakAt(text: Text, i: nat): Text
    requires i < |text|
  {
    if text[i] == '\n' as int then ['\n' as int]
    else if i + 1 < |text| && text[i + 1] == '\n' as int then ['\r' as int, '\n' as int]
    else ['\r' as int]
  }

  /** The line break of a text is the first one in it, else that of the options, else a line feed. */
  ghost predicate BreaksWith(text: Text, o: FormattingOptions, eol: Text) {
    && ((forall i :: 0 <= i < |text| ==> !IsBreak(text[i])) ==> eol == if o.eol == [] then ['\n' as int] else o.eol)
    && forall i :: FirstBreak(text, i) ==> eol == BreakAt(text, i)
  }

  lemma {:induction false} EolBreaks(o: FormattingOptions, text: Text)
    ensures BreaksWith(text, o, Eol(o, text))
    decreases |text|
  {
    if text != [] && !IsBreak(text[0]) {
      var t := text[1..];
      EolBreaks(o, t);
      assert forall i :: 0 <= i < |t| ==> t[i] == text[i + 1];
      forall i | FirstBreak(text, i) ensures Eol(o, text) == BreakAt(text, i) {
        assert t[i - 1] == text[i] && FirstBreak(t, i - 1) && BreakAt(t, i - 1) == BreakAt(text, i);
      }
      if forall i :: 0 <= i < |text| ==> !IsBreak(text[i]) {
        assert forall i :: 0 <= i < |t| ==> !IsBreak(t[i]);
      }
    } else if text != [] {
      assert IsBreak(text[0]) && forall i :: FirstBreak(text, i) ==> i == 0;
    }
  }

  lemma {:induction false} RepeatedUnits(c: int, size: nat, count: nat)
    requires 0 <= c < 0x10000
    ensures Repeated(seq(size, _ => c), count) == seq(count * size, _ => c)
    decreases count
  {
    if count > 0 {
      RepeatedUnits(c, size, count - 1);
      assert (count - 1) * size + size == count * size;
    } else {
      assert count * size == 0;
    }
  }

  lemma IndentationIs(o: FormattingOptions, depth: int)
    ensures Repeated(IndentValue(o), depth) == Indentation(o, depth)
  {
    if depth > 0 {
      if o.insertSpaces {
        RepeatedUnits(SPACE, 1, TabSize(o));
        assert seq(1, _ => SPACE) == [SPACE];
        RepeatedUnits(SPACE, TabSize(o), depth);
      } else {
        RepeatedUnits(TAB, 1, depth);
        assert seq(1, _ => TAB) == [TAB];
      }
    }
  }

  // ---- the pieces of a clean text

  ghost function Pieces(text: Text, pos: nat): (ps: seq<Piece>)
    requires pos <= |text| && Clean(From(text, pos))
    ensures |ps| == 0 <==> NextSpot(text, pos).kind.EOF?
    decreases |text| - pos
  {
    hide Clean, Lexemes, Scan, IsToken, First, Next, From, AllTrivia;
    CleanSpot(text, pos);
    var s := NextSpot(text, pos);
    if s.kind.EOF? then [] else [Piece(s.kind, text[s.start..s.end])] + Pieces(text, s.end)
  }

  // One piece and the rest.
  lemma PiecesStep(text: Text, pos: nat)
    requires pos <= |text| && Clean(From(text, pos))
    ensures var s := NextSpot(text, pos);
      && IsNext(text, pos, s)
      && Pieces(text, pos) == if s.kind.EOF? then [] else [Piece(s.kind, text[s.start..s.end])] + Pieces(text, s.end)
  {
    hide Clean, Lexemes, Scan, IsToken, First, Next, From, AllTrivia, IsNextToken;
    CleanSpot(text, pos);
  }

  lemma {:induction false} PiecesSpell(text: Text, pos: nat)
    requires pos <= |text| && Clean(From(text, pos))
    ensures Spells(text[pos..], Pieces(text, pos))
    decreases |text| - pos
  {
    hide Clean, Lexemes, Scan, IsToken, First, Next, NextSpot, From, AllTrivia, IsNextToken, Pieces;
    PiecesStep(text, pos);
    var s := NextSpot(text, pos);
    var ps, t := Pieces(text, pos), text[pos..];
    if s.kind.EOF? {
      assert text[pos..] == text[pos..s.start] by {
        assert s.start <= s.end == |text|;
        EofStart(text, pos);
      }
    } else {
      PiecesSpell(text, s.end);
      var k := s.start - pos;
      assert ps[1..] == Pieces(text, s.end);
      assert t[..k] == text[pos..s.start] && t[k..k + |ps[0].text|] == ps[0].text && t[k + |ps[0].text|..] == text[s.end..];
    }
  }

  lemma EofStart(text: Text, pos: nat)
    ensures NextSpot(text, pos).kind.EOF? ==> NextSpot(text, pos).start == |text|
  {
  }

  /** The piece is written as the token, with nothing around it. */
  ghost predicate Writes(p: Piece, token: Lexeme) {
    var r := Scan(p.text);
    p.text != [] && r.length == |p.text| && r.kind == p.kind == token.kind && r.value == token.value
  }

  ghost predicate WriteAll(ps: seq<Piece>, tokens: seq<Lexeme>) {
    |ps| == |tokens| && forall i :: 0 <= i < |ps| ==> Writes(ps[i], tokens[i])
  }

  // A token is the same on its own.
  lemma TokenAlone(lex: Text, rest: Text)
    requires IsToken(lex, rest)
    ensures First(lex + rest) != [] && Writes(Piece(Scan(lex + rest).kind, lex), First(lex + rest)[0])
  {
    hide Scan, IsToken, First, EndsAlike, IsTrivia;
    EndsBlank(rest, [], []);
    var none: Text := [];
    assert none + none == none && lex + none == lex;
    KeepTokenBefore(lex, rest, []);
    TokenLength(lex, []);
    FirstIs(lex);
    FirstIs(lex + rest);
  }

  lemma FirstIs(s: Text)
    ensures First(s) == [Lexeme(Scan(s).kind, Scan(s).value)]
  {
  }

  // The pieces are the tokens.
  lemma {:induction false} PiecesAreWords(text: Text, pos: nat)
    requires pos <= |text| && Clean(From(text, pos))
    ensures WriteAll(Pieces(text, pos), Lexemes(From(text, pos)))
    decreases |text| - pos
  {
    hide Clean, Scan, IsToken, Next, NextSpot, From, AllTrivia, Pieces, Lexemes, Writes;
    PiecesStep(text, pos);
    var s := NextSpot(text, pos);
    if !s.kind.EOF? {
      PiecesAreWords(text, s.end);
      TokenAlone(text[s.start..s.end], From(text, s.end));
      FirstIs(text[s.start..s.end] + From(text, s.end));
    }
  }

  // ---- which tokens meet

  // An opening and a closing bracket of different kinds.
  predicate Mismatch(a: Kind, b: Kind) {
    (a.OpenBrace? && b.CloseBracket?) || (a.OpenBracket? && b.CloseBrace?)
  }

  ghost predicate Matched(words: seq<Lexeme>) {
    forall i :: 0 <= i < |words| - 1 ==> !Mismatch(words[i].kind, words[i + 1].kind)
  }

  lemma MatchedConcat(a: seq<Lexeme>, b: seq<Lexeme>)
    requires Matched(a) && Matched(b) && (a != [] && b != [] ==> !Mismatch(a[|a| - 1].kind, b[0].kind))
    ensures Matched(a + b)
  {
  }

  lemma {:induction false} NodeMatched(n: Node, o: Options)
    requires WellFormed(n, o)
    ensures var w := NodeWords(n); |w| > 0 && Matched(w) && !Opens(w[|w| - 1].kind) && !Closes(w[0].kind)
    decreases n
  {
    match n
    case Lit(_) =>
    case Obj(open, ms) =>
      MembersMatched(ms, true, o);
      MatchedConcat([Lex(open)], MembersWords(ms));
    case Arr(open, xs) =>
      ItemsMatched(xs, true, o);
      MatchedConcat([Lex(open)], ItemsWords(xs));
  }

  lemma {:induction false} MembersMatched(ms: MemberList, first: bool, o: Options)
    requires MembersWellFormed(ms, first, o)
    ensures var w := MembersWords(ms); |w| > 0 && Matched(w) && !Opens(w[|w| - 1].kind) && !w[0].kind.CloseBracket?
    decreases ms
  {
    hide Matched;
    match ms
    case EndMembers(s, close) =>
      ShortMatched(SepWords(s) + [Lex(close)]);
    case ConsMember(s, key, colon, v, more) =>
      NodeMatched(v, o);
      MembersMatched(more, false, o);
      var name := SepWords(s) + [Lex(key), Lex(colon)];
      ShortMatched(name);
      MatchedConcat(name, NodeWords(v));
      MatchedConcat(name + NodeWords(v), MembersWords(more));
  }

  lemma {:induction false} ItemsMatched(xs: ItemList, first: bool, o: Options)
    requires ItemsWellFormed(xs, first, o)
    ensures var w := ItemsWords(xs); |w| > 0 && Matched(w) && !Opens(w[|w| - 1].kind) && !w[0].kind.CloseBrace?
    decreases xs
  {
    hide Matched;
    match xs
    case EndItems(s, close) =>
      ShortMatched(SepWords(s) + [Lex(close)]);
    case ConsItem(s, v, more) =>
      NodeMatched(v, o);
      ItemsMatched(more, false, o);
      ShortMatched(SepWords(s));
      MatchedConcat(SepWords(s), NodeWords(v));
      MatchedConcat(SepWords(s) + NodeWords(v), ItemsWords(more));
  }

  lemma ShortMatched(w: seq<Lexeme>)
    requires forall i :: 0 <= i < |w| ==> !Opens(w[i].kind)
    ensures Matched(w)
  {
  }

  // ---- what is decided between two pieces

  lemma DepthStep(ps: seq<Piece>, i: nat)
    requires 0 < i < |ps|
    ensures Depth(ps, i) == Depth(ps, i - 1) + (if Opens(ps[i - 1].kind) then 1 else 0) - if Closes(ps[i].kind) then 1 else 0
  {
    assert ps[..i][..i - 1] == ps[..i - 1] && ps[..i][i - 1] == ps[i - 1];
    assert ps[..i + 1][..i] == ps[..i] && ps[..i + 1][i] == ps[i];
  }

  lemma DecidedBetween(j: Job, ps: seq<Piece>, i: nat, lineBreak: bool, o: FormattingOptions)
    requires 0 < i < |ps| && ps[i - 1].kind.IsReal() && ps[i].kind.IsReal() && j.initialIndent == 0 && j.indentValue == IndentValue(o)
    requires !Mismatch(ps[i - 1].kind, ps[i].kind) && !Clash(ps[i - 1].kind, ps[i].kind)
    ensures var d := Decide(j, ps[i - 1].kind, ps[i].kind, lineBreak, Depth(ps, i - 1), []);
      d.indent == Depth(ps, i) && d.content == Between(ps, i, j.eol, o)
  {
    hide Depth, Indentation, Repeated, IndentValue;
    DepthStep(ps, i);
    IndentationIs(o, Depth(ps, i));
  }

  /** Behind a piece the relaid text is as laid out. */
  lemma {:induction false} RelaidIsLaid(j: Job, ps: seq<Piece>, i: nat, pos: nat, o: FormattingOptions, words: seq<Lexeme>)
    requires Whole(j) && j.indentValue == IndentValue(o) && 0 < i <= |ps| && ps[i - 1].kind.IsReal()
    requires 0 < pos <= |j.text| && Clean(From(j.text, pos)) && ps[i..] == Pieces(j.text, pos)
    requires words == Lexemes(From(j.text, pos)) && JsonReformat.Fits(words) && Matched(words)
    requires if words == [] then EndsValue(ps[i - 1].kind)
      else !Clash(ps[i - 1].kind, words[0].kind) && !Mismatch(ps[i - 1].kind, words[0].kind) && EndsValue(words[|words| - 1].kind)
    ensures Relaid(j, ps[i - 1].kind, pos, Depth(ps, i - 1)) == Laid(ps, i, j.eol, o)
    decreases |ps| - i
  {
    hide NextSpot, Decide, Clean, Scan, From, Lexemes, IsToken, Job.Valid, Gap, Clash, First, AllTrivia, Job.NewLine, Pieces, Depth, Between, JsonReformat.Fits;
    CleanSpot(j.text, pos);
    PiecesStep(j.text, pos);
    var s := NextSpot(j.text, pos);
    var first := ps[i - 1].kind;
    FirstWord(j.text, pos, words);
    FitGap(j, first, pos, Depth(ps, i - 1), s);
    var d := Decide(j, first, s.kind, s.lineBreak, Depth(ps, i - 1), []);
    if s.kind.EOF? {
      DecideClash(j, first, s.kind, s.lineBreak, Depth(ps, i - 1));
    } else {
      var lex, rest := j.text[s.start..s.end], From(j.text, s.end);
      assert ps[i] == ps[i..][0] && ps[i + 1..] == ps[i..][1..];
      WordsBehind(words, lex, rest);
      FirstIs(lex + rest);
      MatchedBehind(words, First(lex + rest), Lexemes(rest));
      DecidedBetween(j, ps, i, s.lineBreak, o);
      RelaidIsLaid(j, ps, i + 1, s.end, o, Lexemes(rest));
    }
  }

  lemma MatchedBehind(words: seq<Lexeme>, a: seq<Lexeme>, w: seq<Lexeme>)
    requires words == a + w && Matched(words) && |a| == 1
    ensures Matched(w) && (w != [] ==> !Mismatch(words[0].kind, w[0].kind))
  {
    hide Mismatch;
    assert forall i :: 0 <= i < |w| ==> words[i + 1] == w[i];
  }

  /** The tokens of a document, laid out. */
  ghost predicate LaidOut(text: Text, o: FormattingOptions, r: Text) {
    exists ps: seq<Piece>, eol ::
      && ps != [] && Spells(text, ps) && BreaksWith(text, o, eol)
      && WriteAll(ps, Lexemes(text))
      && r == ps[0].text + Laid(ps, 1, eol, o)
  }

  /** Formatting a document without comments lays out its tokens. */
  lemma DocumentIsLaidOut(text: Text, n: Node, po: Options, o: FormattingOptions)
    requires Clean(text) && IsDocument(text, n, po) && AllTrivia(o.eol)
    ensures WholeJob(text, o).Valid() && LaidOut(text, o, Formatted(WholeJob(text, o)))
    ensures Turns(text, 0, Edits(WholeJob(text, o)), Formatted(WholeJob(text, o)))
  {
    hide NextSpot, Clean, Scan, From, Lexemes, IsToken, Relaid, IsDocument, NodeWords, Formatted, First, Rounds, Eol, Turns, BlankBreaks, Edits, Writes,
      JsonReformat.Fits, Matched, Clash, Mismatch, AllTrivia, Pieces, Spells, BreaksWith, Laid;
    var j := WholeJob(text, o);
    WholeFacts(text, n, po, o);
    WholeMatched(text, n, po);
    WholeRelaid(j);
    FormatKeepsTokens(j);
    EolBreaks(o, text);
    FromZero(text);
    PiecesStep(text, 0);
    PiecesSpell(text, 0);
    PiecesAreWords(text, 0);
    assert text[0..] == text;
    var ps := Pieces(text, 0);
    var s := NextSpot(text, 0);
    var lex, rest := text[s.start..s.end], From(text, s.end);
    WordsBehind(Lexemes(text), lex, rest);
    FirstIs(lex + rest);
    MatchedBehind(Lexemes(text), First(lex + rest), Lexemes(rest));
    assert ps[1..] == Pieces(text, s.end);
    FirstDepth(ps);
    RelaidIsLaid(j, ps, 1, s.end, o, Lexemes(rest));
  }

  lemma FirstDepth(ps: seq<Piece>)
    requires ps != [] && !Closes(ps[0].kind)
    ensures Depth(ps, 0) == 0
  {
    assert ps[..0] == [] && ps[..1][..0] == [] && ps[..1][0] == ps[0];
    assert Closers([]) == 0 && Closers(ps[..1]) == Closers(ps[..1][..0]) + 0;
  }

  lemma WholeMatched(text: Text, n: Node, po: Options)
    requires IsDocument(text, n, po)
    ensures var w := Lexemes(text); w != [] && Matched(w) && !Closes(w[0].kind)
  {
    WordsOfDocument(text, n, po);
    NodeMatched(n, po);
  }

  // ---- which lines a range stands for

  // k blanks and tabs are in front.
  ghost predicate Leading(text: Text, k: nat) {
    && k <= |text| && (forall i :: 0 <= i < k ==> text[i] == ' ' as int || text[i] == '\t' as int)
    && (k < |text| ==> text[k] != ' ' as int && text[k] != '\t' as int)
  }

  // Blanks and tabs among units, in columns.
  function Columns(units: multiset<int>, tabSize: nat): nat {
    units[' ' as int] + tabSize * units['\t' as int]
  }

  lemma OneColumn(c: int, units: multiset<int>, tabSize: nat)
    requires c == ' ' as int || c == '\t' as int
    ensures Columns(multiset{c} + units, tabSize) == (if c == ' ' as int then 1 else tabSize) + Columns(units, tabSize)
  {
    var n := units['\t' as int];
    assert tabSize * (1 + n) == tabSize + tabSize * n;
  }

  lemma UnitInFront(text: Text, k: nat)
    requires 0 < k <= |text|
    ensures multiset(text[..k]) == multiset{text[0]} + multiset(text[1..][..k - 1])
  {
    assert text[..k] == [text[0]] + text[1..][..k - 1];
  }

  lemma {:induction false} ColumnsOf(text: Text, tabSize: nat, k: nat)
    requires Leading(text, k)
    ensures IndentColumns(text, tabSize) == Columns(multiset(text[..k]), tabSize)
    decreases |text|
  {
    hide Columns;
    if k > 0 {
      LeadingBehind(text, k);
      ColumnsOf(text[1..], tabSize, k - 1);
      UnitInFront(text, k);
      OneColumn(text[0], multiset(text[1..][..k - 1]), tabSize);
    } else {
      assert text[..0] == [];
      NoColumns(tabSize);
    }
  }

  lemma NoColumns(tabSize: nat)
    ensures Columns(multiset([]), tabSize) == 0
  {
  }

  lemma LeadingBehind(text: Text, k: nat)
    requires Leading(text, k) && k > 0
    ensures Leading(text[1..], k - 1)
  {
    assert forall i :: 0 <= i < |text[1..]| ==> text[1..][i] == text[i + 1];
  }

  lemma {:induction false} StartOfLine(text: Text, i: nat)
    requires i <= |text|
    ensures forall k :: LineStart(text, i) <= k < i ==> !IsBreak(text[k])
  {
    if i > 0 && !IsEol(text[i - 1]) {
      StartOfLine(text, i - 1);
    }
  }

  lemma {:induction false} EndOfLine(text: Text, i: nat)
    requires i <= |text|
    ensures forall k :: i <= k < LineEnd(text, i) ==> !IsBreak(text[k])
    decreases |text| - i
  {
    if i < |text| && !IsEol(text[i]) {
      EndOfLine(text, i + 1);
    }
  }

  /** A range stands for the lines it touches; their indentation is that of the first one, in whole levels. */
  lemma LinesOfRange(doc: Text, range: Range, o: FormattingOptions, k: nat)
    requires range.offset + range.length <= |doc| && Leading(JobFor(doc, range, o).text, k)
    ensures var j := JobFor(doc, range, o); var end := range.offset + range.length; var last := j.start + |j.text|;
      && j.start <= range.offset && end <= last <= |doc| && j.text == doc[j.start..last]
      && (forall i :: j.start <= i < range.offset || end <= i < last ==> !IsBreak(doc[i]))
      && (j.start > 0 ==> IsBreak(doc[j.start - 1])) && (last < |doc| ==> IsBreak(doc[last]))
    ensures var j := JobFor(doc, range, o); var tabSize := if o.tabSize == 0 then 4 else o.tabSize;
      j.initialIndent == Columns(multiset(j.text[..k]), tabSize) / tabSize
  {
    hide Columns, IndentColumns, Leading;
    StartOfLine(doc, range.offset);
    EndOfLine(doc, range.offset + range.length);
    ColumnsOf(JobFor(doc, range, o).text, TabSize(o), k);
  }
}
