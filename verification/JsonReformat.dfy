// Formatting a formatted document yields no edits (jsonFormatter.ts).
module JsonReformat {
  import opened JsonScan
  import opened JsonScanner
  import opened JsonSyntax
  import opened JsonGrammar
  import opened JsonLex
  import opened JsonWords
  import opened JsonFormatSpec
  import opened JsonFormatMeaning

  // Two tokens that format does not want to see next to each other.
  predicate Clash(first: Kind, second: Kind) {
    && !second.CloseBrace? && !second.CloseBracket?
    && (first.IsScalar() || first.CloseBrace? || first.CloseBracket?)
    && !second.Comma? && !second.EOF? && !(first.String? && second.Colon?)
  }

  ghost predicate Fits(words: seq<Lexeme>) {
    forall i :: 0 <= i < |words| - 1 ==> !Clash(words[i].kind, words[i + 1].kind)
  }

  predicate EndsValue(k: Kind) {
    k.IsScalar() || k.CloseBrace? || k.CloseBracket?
  }

  lemma FitsConcat(a: seq<Lexeme>, b: seq<Lexeme>)
    requires Fits(a) && Fits(b) && (a != [] && b != [] ==> !Clash(a[|a| - 1].kind, b[0].kind))
    ensures Fits(a + b)
  {
  }

  // The words of a document fit.
  lemma {:induction false} NodeFits(n: Node, o: Options)
    requires WellFormed(n, o)
    ensures var w := NodeWords(n); |w| > 0 && Fits(w) && EndsValue(w[|w| - 1].kind)
    decreases n
  {
    match n
    case Lit(_) =>
    case Obj(open, ms) =>
      MembersFit(ms, true, o);
      FitsConcat([Lex(open)], MembersWords(ms));
    case Arr(open, xs) =>
      ItemsFit(xs, true, o);
      FitsConcat([Lex(open)], ItemsWords(xs));
  }

  // In a list a comma or the closing bracket comes next, where the first item does not.
  ghost predicate ListFits(w: seq<Lexeme>, first: bool) {
    && |w| > 0 && Fits(w) && (w[|w| - 1].kind.CloseBrace? || w[|w| - 1].kind.CloseBracket?)
    && (!first ==> w[0].kind.Comma? || w[0].kind.CloseBrace? || w[0].kind.CloseBracket?)
  }

  lemma {:induction false} MembersFit(ms: MemberList, first: bool, o: Options)
    requires MembersWellFormed(ms, first, o)
    ensures ListFits(MembersWords(ms), first)
    decreases ms
  {
    hide Fits;
    match ms
    case EndMembers(s, close) =>
      EndFits(s, close, first, o);
    case ConsMember(s, key, colon, v, more) =>
      NodeFits(v, o);
      MembersFit(more, false, o);
      NameFits(s, key, colon, first);
      var name := SepWords(s) + [Lex(key), Lex(colon)];
      FitsConcat(name, NodeWords(v));
      FitsConcat(name + NodeWords(v), MembersWords(more));
  }

  lemma EndFits(s: Sep, close: Tok, first: bool, o: Options)
    requires EndSepFits(s, first, o) && (close.kind.CloseBrace? || close.kind.CloseBracket?)
    ensures ListFits(SepWords(s) + [Lex(close)], first)
  {
  }

  lemma NameFits(s: Sep, key: Tok, colon: Tok, first: bool)
    requires SepFits(s, first) && key.kind.String? && colon.kind.Colon?
    ensures Fits(SepWords(s) + [Lex(key), Lex(colon)])
  {
  }

  lemma {:induction false} ItemsFit(xs: ItemList, first: bool, o: Options)
    requires ItemsWellFormed(xs, first, o)
    ensures ListFits(ItemsWords(xs), first)
    decreases xs
  {
    match xs
    case EndItems(s, close) =>
      EndFits(s, close, first, o);
    case ConsItem(s, v, more) =>
      NodeFits(v, o);
      ItemsFit(more, false, o);
      assert Fits(SepWords(s));
      hide Fits;
      FitsConcat(SepWords(s), NodeWords(v));
      FitsConcat(SepWords(s) + NodeWords(v), ItemsWords(more));
  }

  // What Decide says about tokens.

  ghost predicate NoBreaks(s: Text) {
    forall i :: 0 <= i < |s| ==> !IsEol(s[i])
  }

  predicate IsEolMark(eol: Text) {
    eol == [CR, LF] || eol == [CR] || eol == [LF]
  }

  // Jobs on two texts with the same options, but for the line breaks.
  ghost predicate SameStyle(j: Job, j': Job) {
    j.indentValue == j'.indentValue && j.initialIndent == j'.initialIndent
  }

  lemma NewLineBreaks(j: Job, indent: int)
    requires IsEolMark(j.eol)
    ensures !NoBreaks(j.NewLine(indent))
  {
    assert IsEol(j.NewLine(indent)[0]);
  }

  /** Between tokens the decision does not depend on old line breaks, nor on the eol where it makes no new one. */
  lemma DecideSteady(j: Job, j': Job, first: Kind, second: Kind, lineBreak: bool, lineBreak': bool, indent: int)
    requires first.IsReal() && (second.IsReal() || second.EOF?) && SameStyle(j, j') && IsEolMark(j.eol)
    requires j'.eol == j.eol || NoBreaks(Decide(j, first, second, lineBreak, indent, []).content)
    ensures Decide(j', first, second, lineBreak', indent, []) == Decide(j, first, second, lineBreak, indent, [])
  {
    NewLineBreaks(j, indent - 1);
    NewLineBreaks(j, indent);
    NewLineBreaks(j, indent + 1);
  }

  lemma DecideClash(j: Job, first: Kind, second: Kind, lineBreak: bool, indent: int)
    requires first.IsReal() && (second.IsReal() || second.EOF?)
    ensures var d := Decide(j, first, second, lineBreak, indent, []);
      && (d.bad <==> Clash(first, second)) && (second.EOF? && EndsValue(first) ==> d.content == [])
      && (d.content == [] || d.content == [SPACE] || exists k :: d.content == j.NewLine(k))
  {
  }

  // A whole document.
  ghost predicate Whole(j: Job) {
    j.Valid() && j.start == 0 && j.rangeStart == 0 && j.rangeEnd == |j.text| && j.text == j.doc && j.initialIndent == 0
  }

  lemma FirstWord(text: Text, pos: nat, words: seq<Lexeme>)
    requires IsNext(text, pos, NextSpot(text, pos)) && words == Lexemes(From(text, pos))
    ensures var s := NextSpot(text, pos);
      && pos <= s.start <= |text| && (s.kind.EOF? <==> words == []) && (!s.kind.EOF? ==> s.kind == words[0].kind)
      && (s.kind.EOF? || s.kind.IsReal()) && (if s.kind.EOF? then s.start == |text| else s.start < |text|)
  {
    hide NextSpot, Clean, Scan, From, Lexemes, IsToken, AllTrivia;
    var s := NextSpot(text, pos);
    if !s.kind.EOF? {
      var t := text[s.start..s.end] + From(text, s.end);
      assert words == First(t) + Lexemes(From(text, s.end)) && |First(t)| == 1;
    }
  }

  // In a whole document that fits every gap is as decided.
  lemma FitGap(j: Job, first: Kind, pos: nat, indent: int, s: Spot)
    requires Whole(j) && 0 < pos <= s.start <= |j.text| && first.IsReal() && (s.kind.EOF? || s.kind.IsReal())
    requires if s.kind.EOF? then s.start == |j.text| && EndsValue(first) else s.start < |j.text| && !Clash(first, s.kind)
    ensures var d := Decide(j, first, s.kind, s.lineBreak, indent, []);
      !d.bad && Gap(j, d.bad, d.content, pos, s.start) == d.content
  {
    hide Decide, Job.Valid, Job.NewLine;
    DecideClash(j, first, s.kind, s.lineBreak, indent);
    assert s.kind.EOF? && pos == |j.text| ==> j.text[pos..s.start] == [];
  }

  // Where a blank and a token follow, they are found.
  lemma NextIs(text: Text, pos: nat, gap: Text, lex: Text, rest: Text)
    requires pos <= |text| && From(text, pos) == gap + lex + rest && AllTrivia(gap) && IsToken(lex, rest)
    requires Clean(From(text, pos))
    ensures var s := NextSpot(text, pos);
      s.start == pos + |gap| && s.end == s.start + |lex| && s.kind == Scan(lex + rest).kind
      && s.end <= |text| && From(text, s.end) == rest && text[pos..s.start] == gap
  {
    hide Scan, Clean, IsToken, IsTrivia, From, Next, AllTrivia;
    FromDrop(text, pos);
    SkipIs(gap, lex, rest);
    TokenLength(lex, rest);
    JsonLex.Regroup(gap, lex, rest);
    SliceParts(text, pos, gap, lex + rest);
    SliceParts(text, pos + |gap|, lex, rest);
    FromDrop(text, pos + |gap| + |lex|);
  }

  lemma TriviaUpTo(t: Text, n: nat)
    requires n <= |t| && AllTrivia(t[..n])
    ensures forall i :: 0 <= i < n ==> IsTrivia(t[i])
  {
    assert forall i :: 0 <= i < n ==> t[..n][i] == t[i];
  }

  lemma SkipIs(gap: Text, lex: Text, rest: Text)
    requires AllTrivia(gap) && IsToken(lex, rest) && Clean(gap + lex + rest)
    ensures Next(gap + lex + rest).skip == |gap| && Next(gap + lex + rest).r == Scan(lex + rest)
  {
    hide Scan, Clean, IsToken, IsTrivia, Next, AllTrivia;
    var t := gap + lex + rest;
    TokenParts(lex, rest);
    BehindGap(gap, lex, rest);
    CleanNext(t);
    NextFound(t);
    FirstNonTrivia(t, Next(t).skip, |gap|);
  }

  lemma BehindGap(gap: Text, lex: Text, rest: Text)
    requires lex != []
    ensures var t := gap + lex + rest; t[..|gap|] == gap && t[|gap|..] == lex + rest && t[|gap|] == lex[0]
  {
    assert gap + lex + rest == gap + (lex + rest);
  }

  lemma FirstNonTrivia(t: Text, n: nat, k: nat)
    requires n <= |t| && k < |t| && AllTrivia(t[..n]) && AllTrivia(t[..k])
    requires !IsTrivia(t[k]) && (t[n..] == [] || !IsTrivia(t[n..][0]))
    ensures n == k
  {
    TriviaUpTo(t, n);
    TriviaUpTo(t, k);
    assert n < |t| ==> t[n..][0] == t[n];
  }

  lemma NextIsEnd(text: Text, pos: nat)
    requires pos <= |text| && From(text, pos) == []
    ensures NextSpot(text, pos).kind.EOF? && NextSpot(text, pos).start == |text| == pos
  {
  }

  /** Behind a token of a formatted text there is nothing left to do. */
  lemma {:induction false} NothingLeft(j: Job, j': Job, first: Kind, pos: nat, pos': nat, indent: int, words: seq<Lexeme>)
    requires Whole(j) && Whole(j') && SameStyle(j, j') && BlankBreaks(j) && IsEolMark(j.eol)
    requires 0 < pos <= |j.text| && pos' <= |j'.text| && Clean(From(j.text, pos)) && first.IsReal()
    requires words == Lexemes(From(j.text, pos)) && Fits(words)
    requires if words == [] then EndsValue(first) else !Clash(first, words[0].kind) && EndsValue(words[|words| - 1].kind)
    requires From(j'.text, pos') == Relaid(j, first, pos, indent)
    requires j'.eol == j.eol || NoBreaks(From(j'.text, pos'))
    ensures Rounds(j', first, pos', indent) == []
    decreases |j.text| - pos
  {
    hide NextSpot, Decide, Clean, Scan, From, Lexemes, IsToken, Job.Valid, AddEdit, Gap, BlankBreaks, NoBreaks, Clash, First, AllTrivia, Rounds;
    CleanSpot(j.text, pos);
    RelaidKeeps(j, first, pos, indent);
    CleanSpot(j'.text, pos');
    var s, s' := NextSpot(j.text, pos), NextSpot(j'.text, pos');
    FirstWord(j.text, pos, words);
    FitGap(j, first, pos, indent, s);
    var d := Decide(j, first, s.kind, s.lineBreak, indent, []);
    DecidedBlank(j, first, s.kind, s.lineBreak, indent);
    EofRounds(j');
    if s.kind.EOF? {
      DecideClash(j, first, s.kind, s.lineBreak, indent);
      NextIsEnd(j'.text, pos');
      NoBreaksIn(d.content, []);
      DecideSteady(j, j', first, s.kind, s.lineBreak, s'.lineBreak, indent);
      NoEdit(j', d, pos', s'.start);
      NoRounds(j', first, pos', indent, s', d);
    } else {
      var lex, rest := j.text[s.start..s.end], From(j.text, s.end);
      var rest' := Relaid(j, s.kind, s.end, d.indent);
      RelaidKeeps(j, s.kind, s.end, d.indent);
      KeepTokenBefore(lex, rest, rest');
      SameKind(lex, rest, rest');
      NextIs(j'.text, pos', d.content, lex, rest');
      NoBreaksParts(d.content, lex, rest');
      DecideSteady(j, j', first, s.kind, s.lineBreak, s'.lineBreak, indent);
      NoEdit(j', d, pos', s'.start);
      WordsBehind(words, lex, rest);
      NothingLeft(j, j', s.kind, s.end, s'.end, d.indent, Lexemes(rest));
      NoRounds(j', first, pos', indent, s', d);
    }
  }

  lemma NoRounds(j: Job, first: Kind, pos: nat, indent: int, s: Spot, d: Decision)
    requires !first.EOF? && pos <= |j.text| && s == NextSpot(j.text, pos) && IsNext(j.text, pos, s)
    requires d == Decide(j, first, s.kind, s.lineBreak, indent, [])
    requires AddEdit(j, d.bad, d.content, j.start + pos, j.start + s.start) == [] && Rounds(j, s.kind, s.end, d.indent) == []
    ensures Rounds(j, first, pos, indent) == []
  {
    hide NextSpot, Decide, AddEdit, Rounds;
    SameRounds(j, first, pos, indent);
  }

  lemma SameKind(lex: Text, rest: Text, rest': Text)
    requires First(lex + rest') == First(lex + rest)
    ensures Scan(lex + rest').kind == Scan(lex + rest).kind
  {
    assert First(lex + rest')[0] == First(lex + rest)[0];
  }

  lemma NoBreaksIn(a: Text, b: Text)
    ensures a == [] ==> NoBreaks(a)
    ensures NoBreaks(a + b) ==> NoBreaks(a) && NoBreaks(b)
  {
    assert forall i :: 0 <= i < |a| ==> (a + b)[i] == a[i];
    assert forall i :: 0 <= i < |b| ==> (a + b)[|a| + i] == b[i];
  }

  lemma NoBreaksParts(a: Text, b: Text, c: Text)
    ensures NoBreaks(a + b + c) ==> NoBreaks(a) && NoBreaks(c)
  {
    NoBreaksIn(a + b, c);
    NoBreaksIn(a, b);
  }

  lemma FitsBehind(words: seq<Lexeme>, w: seq<Lexeme>)
    requires |words| == 1 + |w| && words == [words[0]] + w && Fits(words)
    ensures Fits(w) && (w != [] ==> !Clash(words[0].kind, w[0].kind) && words[|words| - 1] == w[|w| - 1])
  {
    hide Clash;
    assert forall i :: 0 <= i < |w| ==> words[i + 1] == w[i];
  }

  lemma WordsBehind(words: seq<Lexeme>, lex: Text, rest: Text)
    requires words == First(lex + rest) + Lexemes(rest) && Fits(words) && EndsValue(words[|words| - 1].kind)
    ensures words[0].kind == Scan(lex + rest).kind && Fits(Lexemes(rest))
    ensures var w := Lexemes(rest);
      if w == [] then EndsValue(words[0].kind) else !Clash(words[0].kind, w[0].kind) && EndsValue(w[|w| - 1].kind)
  {
    hide Lexemes, Scan, EndsValue, Clash;
    var w := Lexemes(rest);
    assert words[0] == First(lex + rest)[0];
    FitsBehind(words, w);
  }

  lemma NoEdit(j: Job, d: Decision, from: nat, til: nat)
    requires Whole(j) && from <= til <= |j.text| && j.text[from..til] == d.content
    ensures AddEdit(j, d.bad, d.content, j.start + from, j.start + til) == []
  {
  }

  // Which line breaks format finds in its own output.

  lemma {:induction false} EolBehind(o: FormattingOptions, x: Text, y: Text)
    requires NoBreaks(x)
    ensures Eol(o, x + y) == Eol(o, y)
    decreases |x|
  {
    if x == [] {
      assert x + y == y;
    } else {
      assert (x + y)[1..] == x[1..] + y;
      assert !IsEol(x[0]) && forall i :: 0 <= i < |x[1..]| ==> x[1..][i] == x[i + 1];
      EolBehind(o, x[1..], y);
    }
  }

  lemma EolInFront(o: FormattingOptions, eol: Text, x: Text)
    requires IsEolMark(eol) && x != [] && x[0] != LF
    ensures Eol(o, eol + x) == eol
  {
    assert At(eol + x, 1) == if |eol| == 2 then LF else x[0];
  }

  lemma {:induction false} RepeatedBreaks(s: Text, count: int)
    requires NoBreaks(s)
    ensures NoBreaks(Repeated(s, count))
    decreases if count < 0 then 0 else count
  {
    if count > 0 {
      RepeatedBreaks(s, count - 1);
    }
  }

  // Line breaks come from the job's eol alone.
  ghost predicate EolKept(j: Job, o: FormattingOptions, r: Text) {
    NoBreaks(r) || Eol(o, r) == j.eol
  }

  lemma GapEol(j: Job, o: FormattingOptions, content: Text, lex: Text, rest: Text)
    requires IsEolMark(j.eol) && NoBreaks(j.indentValue) && lex != [] && NoBreaks(lex) && EolKept(j, o, rest)
    requires content == [] || content == [SPACE] || exists k :: content == j.NewLine(k)
    ensures EolKept(j, o, content + lex + rest)
  {
    if content == [] || content == [SPACE] {
      assert NoBreaks(content + lex);
      EolBehind(o, content + lex, rest);
      if NoBreaks(rest) {
        assert NoBreaks(content + lex + rest);
      }
    } else {
      var k :| content == j.NewLine(k);
      var indent := Repeated(j.indentValue, j.initialIndent + k);
      RepeatedBreaks(j.indentValue, j.initialIndent + k);
      assert (indent + (lex + rest))[0] == if indent == [] then lex[0] else indent[0];
      EolInFront(o, j.eol, indent + (lex + rest));
      assert content + lex + rest == j.eol + (indent + (lex + rest));
    }
  }

  lemma {:induction false} RelaidEol(j: Job, o: FormattingOptions, first: Kind, pos: nat, indent: int, words: seq<Lexeme>)
    requires Whole(j) && IsEolMark(j.eol) && NoBreaks(j.indentValue)
    requires 0 < pos <= |j.text| && Clean(From(j.text, pos)) && first.IsReal()
    requires words == Lexemes(From(j.text, pos)) && Fits(words)
    requires if words == [] then EndsValue(first) else !Clash(first, words[0].kind) && EndsValue(words[|words| - 1].kind)
    ensures EolKept(j, o, Relaid(j, first, pos, indent))
    decreases |j.text| - pos
  {
    hide NextSpot, Decide, Clean, Scan, From, Lexemes, IsToken, Job.Valid, Gap, NoBreaks, Clash, First, AllTrivia, EolKept, Job.NewLine, IsEolMark;
    CleanSpot(j.text, pos);
    var s := NextSpot(j.text, pos);
    FirstWord(j.text, pos, words);
    FitGap(j, first, pos, indent, s);
    var d := Decide(j, first, s.kind, s.lineBreak, indent, []);
    DecideClash(j, first, s.kind, s.lineBreak, indent);
    if s.kind.EOF? {
      NothingKept(j, o);
    } else {
      var lex, rest := j.text[s.start..s.end], From(j.text, s.end);
      WordsBehind(words, lex, rest);
      RelaidEol(j, o, s.kind, s.end, d.indent, Lexemes(rest));
      NoBreaksInToken(lex, rest);
      GapEol(j, o, d.content, lex, Relaid(j, s.kind, s.end, d.indent));
    }
  }

  lemma NothingKept(j: Job, o: FormattingOptions)
    ensures EolKept(j, o, [])
  {
  }

  lemma NoBreaksInToken(lex: Text, rest: Text)
    requires IsToken(lex, rest)
    ensures NoBreaks(lex) && lex != []
  {
    TokenParts(lex, rest);
  }

  // The formatted text of a whole document is its first token and the rest relaid.
  lemma WholeRelaid(j: Job)
    requires Whole(j) && Clean(j.text) && Lexemes(j.text) != []
    ensures IsNext(j.text, 0, NextSpot(j.text, 0)) && !NextSpot(j.text, 0).kind.EOF?
    ensures var s := NextSpot(j.text, 0);
      Formatted(j) == j.text[s.start..s.end] + Relaid(j, s.kind, s.end, 0)
  {
    hide NextSpot, Clean, Scan, From, Lexemes, IsToken, Relaid;
    FromZero(j.text);
    CleanSpot(j.text, 0);
    var s := NextSpot(j.text, 0);
    assert Gap(j, false, [], 0, s.start) == [];
    var r := j.text[s.start..s.end] + Relaid(j, s.kind, s.end, 0);
    assert RelaidText(j) == [] + j.text[s.start..s.end] + Relaid(j, s.kind, s.end, 0);
    assert Formatted(j) == [] + RelaidText(j) + [];
  }

  // A text that begins with a token.
  lemma StartsWith(text: Text, lex: Text, rest: Text)
    requires text == lex + rest && IsToken(lex, rest) && Clean(text)
    ensures var s := NextSpot(text, 0);
      s.start == 0 && s.end == |lex| && s.kind == Scan(lex + rest).kind && |lex| <= |text| && From(text, |lex|) == rest
  {
    hide Scan, Clean, IsToken, From, NextSpot, IsTrivia;
    FromZero(text);
    assert [] + lex + rest == text;
    NextIs(text, 0, [], lex, rest);
  }

  lemma IndentHasNoBreaks(o: FormattingOptions)
    ensures NoBreaks(IndentValue(o))
  {
    RepeatedBreaks([SPACE], TabSize(o));
  }

  lemma WholeFacts(text: Text, n: Node, po: Options, o: FormattingOptions)
    requires Clean(text) && IsDocument(text, n, po) && AllTrivia(o.eol)
    ensures var j := WholeJob(text, o); var w := Lexemes(text);
      && Whole(j) && BlankBreaks(j) && NoBreaks(j.indentValue) && w != [] && Fits(w) && EndsValue(w[|w| - 1].kind)
  {
    WordsOfDocument(text, n, po);
    NodeFits(n, po);
    JobsValid(text, Range(0, 0), o);
    JobsBlank(text, Range(0, 0), o);
    IndentHasNoBreaks(o);
  }

  /** Formatting a well-formed document that has been formatted yields no edits. */
  lemma FormattedIsStable(text: Text, n: Node, po: Options, o: FormattingOptions)
    requires Clean(text) && IsDocument(text, n, po) && AllTrivia(o.eol) && IsEolMark(Eol(o, text))
    ensures WholeJob(text, o).Valid() && Edits(WholeJob(Formatted(WholeJob(text, o)), o)) == []
  {
    var j := WholeJob(text, o);
    WholeFacts(text, n, po, o);
    WholeRelaid(j);
    FormatKeepsTokens(j);
    hide NextSpot, Clean, Scan, From, Lexemes, IsToken, Relaid, IsDocument, NodeWords, Formatted, First, Job.Valid, Rounds, Eol, Turns, BlankBreaks, Edits, NoBreaks, Fits, Clash, IsEolMark, AllTrivia, Lexemes;
    var s := NextSpot(text, 0);
    var lex, rest := text[s.start..s.end], From(text, s.end);
    FromZero(text);
    WordsBehind(Lexemes(text), lex, rest);
    var more := Relaid(j, s.kind, s.end, 0);
    RelaidKeeps(j, s.kind, s.end, 0);
    KeepTokenBefore(lex, rest, more);
    SameKind(lex, rest, more);
    var t := Formatted(j);
    var j' := WholeJob(t, o);
    JobsValid(t, Range(0, 0), o);
    StartsWith(t, lex, more);
    RelaidEol(j, o, s.kind, s.end, 0, Lexemes(rest));
    NoBreaksInToken(lex, rest);
    EolBehind(o, lex, more);
    NothingLeft(j, j', s.kind, s.end, |lex|, 0, Lexemes(rest));
    NoEdits(j');
  }

  lemma NoEdits(j: Job)
    requires Whole(j) && NextSpot(j.text, 0).start == 0
    requires var s := NextSpot(j.text, 0); Rounds(j, s.kind, s.end, 0) == []
    ensures Edits(j) == []
  {
    hide NextSpot, Rounds;
    NoEdit(j, Decision([], 0, NextSpot(j.text, 0).bad), 0, 0);
  }
}
