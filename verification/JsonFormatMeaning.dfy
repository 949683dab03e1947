// What the edits of format (jsonFormatter.ts) do to a text without comments and scan errors: the
// tokens stay as they are, and a well-formed text that has been formatted is not changed again.
module JsonFormatMeaning {
  import opened JsonScan
  import opened JsonScanner
  import opened JsonLex
  import opened JsonFormatSpec

  /** A text, starting at position base, after edits that are in order. */
  function Applied(s: Text, base: int, edits: seq<Edit>): Text
    requires InOrder(edits, base, base + |s|)
    decreases |edits|
  {
    if edits == [] then s
    else
      var e := edits[0];
      InOrderEnds(edits[1..], e.End(), base + |s|);
      s[..e.offset - base] + e.content + Applied(s[e.End() - base..], e.End(), edits[1..])
  }

  lemma {:induction false} InOrderEnds(edits: seq<Edit>, from: int, end: int)
    requires InOrder(edits, from, end)
    ensures from <= end
    decreases |edits|
  {
    if edits != [] {
      InOrderEnds(edits[1..], edits[0].End(), end);
    }
  }

  /** What edits make of a text that starts at position base. */
  ghost predicate Turns(s: Text, base: int, edits: seq<Edit>, r: Text) {
    InOrder(edits, base, base + |s|) && Applied(s, base, edits) == r
  }

  // Edits behind a prefix leave it alone.
  lemma TurnsBehind(x: Text, s: Text, base: int, edits: seq<Edit>, r: Text)
    requires Turns(s, base + |x|, edits, r)
    ensures Turns(x + s, base, edits, x + r)
  {
    InOrderWider(edits, base, base + |x|, base + |x| + |s|, base + |x + s|);
    if edits != [] {
      hide InOrder, Applied;
      AppliedStep(s, base + |x|, edits);
      AppliedStep(x + s, base, edits);
      var e := edits[0];
      var k := e.offset - base - |x|;
      BehindParts(x, s, k, k + e.length);
      Regroup(x, s[..k], e.content);
      Regroup(x, s[..k] + e.content, Applied(s[k + e.length..], e.End(), edits[1..]));
    }
  }

  lemma AppliedStep(s: Text, base: int, edits: seq<Edit>)
    requires InOrder(edits, base, base + |s|) && edits != []
    ensures var e := edits[0];
      && 0 <= e.offset - base <= e.End() - base <= |s| && InOrder(edits[1..], e.End(), base + |s|)
      && Applied(s, base, edits) == s[..e.offset - base] + e.content + Applied(s[e.End() - base..], e.End(), edits[1..])
  {
    InOrderEnds(edits[1..], edits[0].End(), base + |s|);
  }

  lemma BehindParts(x: Text, s: Text, i: nat, j: nat)
    requires i <= j <= |s|
    ensures (x + s)[..|x| + i] == x + s[..i] && (x + s)[|x| + j..] == s[j..]
  {
  }

  // One replacement at the front.
  lemma TurnsFirst(s: Text, base: int, n: nat, content: Text, edits: seq<Edit>, r: Text)
    requires n <= |s| && Turns(s[n..], base + n, edits, r)
    ensures Turns(s, base, [Edit(base, n, content)] + edits, content + r)
  {
    var all := [Edit(base, n, content)] + edits;
    assert all[1..] == edits && s[..0] == [] && [] + content == content;
  }

  // Clean texts.

  // s is the next token behind position pos, behind white space, or the end of the text.
  ghost predicate IsNext(text: Text, pos: nat, s: Spot) {
    && pos <= s.start <= s.end <= |text| && AllTrivia(text[pos..s.start]) && !s.bad && Clean(From(text, s.end))
    && if s.kind.EOF? then s.end == |text| && Lexemes(From(text, pos)) == []
       else s.kind.IsReal() && IsNextToken(text, pos, s, text[s.start..s.end], From(text, s.end))
  }

  ghost predicate IsNextToken(text: Text, pos: nat, s: Spot, lex: Text, rest: Text) {
    && lex != [] && IsToken(lex, rest) && From(text, s.start) == lex + rest && s.kind == Scan(lex + rest).kind
    && Lexemes(From(text, pos)) == First(lex + rest) + Lexemes(rest)
  }

  /** In a clean text the next spot is the next token. */
  lemma CleanSpot(text: Text, pos: nat)
    requires pos <= |text| && Clean(From(text, pos))
    ensures IsNext(text, pos, NextSpot(text, pos))
  {
    hide Clean, Lexemes, Scan, IsToken, First, IsTrivia, Next, From, AllTrivia;
    var t := From(text, pos);
    CleanNext(t);
    NextFound(t);
    var f := Next(t);
    FromSlice(text, pos, f.skip);
    FromDrop(text, pos + f.skip);
    FromDrop(text, |text|);
    var rest := t[f.skip..];
    NoTokens();
    if rest != [] {
      var lex, more := FirstToken(rest);
      TokenIsNext(text, pos, f.skip, lex, more);
    }
  }

  lemma TokenIsNext(text: Text, pos: nat, skip: nat, lex: Text, more: Text)
    requires pos + skip <= |text| && Next(From(text, pos)).skip == skip && From(text, pos + skip) == lex + more
    requires IsToken(lex, more) && Clean(more) && AllTrivia(text[pos..pos + skip]) && Next(From(text, pos)).r == Scan(lex + more)
    requires Lexemes(From(text, pos)) == Lexemes(lex + more)
    ensures IsNext(text, pos, NextSpot(text, pos))
  {
    hide Clean, Lexemes, Scan, IsToken, First, IsTrivia, Next, From, AllTrivia;
    TokenLength(lex, more);
    FromDrop(text, pos + skip);
    SliceParts(text, pos + skip, lex, more);
    FromDrop(text, pos + skip + |lex|);
    TakeToken(lex, more);
  }

  lemma FromDrop(text: Text, pos: nat)
    requires pos <= |text|
    ensures From(text, pos) == text[pos..]
  {
  }

  lemma FromSlice(text: Text, pos: nat, n: nat)
    requires pos + n <= |text|
    ensures From(text, pos) == text[pos..] && text[pos..][n..] == text[pos + n..] && text[pos..][..n] == text[pos..pos + n]
  {
  }

  lemma TokenLength(lex: Text, rest: Text)
    requires IsToken(lex, rest)
    ensures Scan(lex + rest).length == |lex| && Scan(lex + rest).error.NoError? && Scan(lex + rest).kind.IsReal() && lex != []
  {
  }

  lemma SliceParts(text: Text, from: nat, lex: Text, more: Text)
    requires from <= |text| && text[from..] == lex + more
    ensures from + |lex| <= |text| && text[from..from + |lex|] == lex && text[from + |lex|..] == more
  {
    assert text[from..from + |lex|] == text[from..][..|lex|];
    assert text[from + |lex|..] == text[from..][|lex|..];
  }

  lemma {:induction false} CleanNext(s: Text)
    requires Clean(s)
    ensures var f := Next(s);
      && AllTrivia(s[..f.skip]) && Lexemes(s) == Lexemes(s[f.skip..]) && Clean(s[f.skip..])
      && (s[f.skip..] == [] || !IsTrivia(s[f.skip..][0]))
    decreases |s|
  {
    hide Scan, Lexemes, Clean, IsTrivia, AllTrivia, Next;
    var r := Scan(s);
    NoTrivia();
    SpaceIsTrivia(s);
    NextStep(s);
    if r.kind.IsSpace() {
      CleanFirst(s);
      SkipSpace(s);
      CleanNext(s[r.length..]);
      var n := Next(s[r.length..]).skip;
      DropTwice(s, r.length, n);
      TriviaParts(s, r.length, n);
    } else {
      assert s[0..] == s;
    }
  }

  lemma NoTrivia()
    ensures AllTrivia([])
  {
  }

  lemma TriviaParts(s: Text, i: nat, j: nat)
    requires i + j <= |s| && AllTrivia(s[..i]) && AllTrivia(s[i..][..j])
    ensures AllTrivia(s[..i + j])
  {
    assert s[..i + j] == s[..i] + s[i..][..j];
  }

  lemma CleanFirst(s: Text)
    requires Clean(s) && s != []
    ensures Scan(s).error.NoError?
  {
  }

  lemma SpaceIsTrivia(s: Text)
    ensures Scan(s).kind.IsSpace() ==> Scan(s).length <= |s| && AllTrivia(s[..Scan(s).length])
    ensures !Scan(s).kind.IsSpace() ==> s == [] || !IsTrivia(s[0])
  {
    ScanLength(s);
    if !Scan(s).kind.IsSpace() {
      return;
    }
    forall i | 0 <= i < Scan(s).length ensures IsTrivia(s[i]) {
      assert IsWhitespace(s[0]) ==> White.Has(s[i]);
      assert i == 1 && !IsWhitespace(s[0]) ==> At(s, 1) == s[1];
    }
  }

  // The new content of the gap between two tokens.
  function Gap(j: Job, bad: bool, content: Text, from: nat, til: nat): Text
    requires from <= til <= |j.text|
  {
    if !bad && j.start + from < j.rangeEnd && j.start + til > j.rangeStart then content else j.text[from..til]
  }

  /** A clean text from a position on, with its gaps as format wants them. */
  ghost function Relaid(j: Job, first: Kind, pos: nat, indent: int): Text
    requires pos <= |j.text| && Clean(From(j.text, pos))
    decreases |j.text| - pos
  {
    CleanSpot(j.text, pos);
    var s := NextSpot(j.text, pos);
    var d := Decide(j, first, s.kind, s.lineBreak, indent, []);
    var gap := Gap(j, d.bad, d.content, pos, s.start);
    if s.kind.EOF? then gap else gap + j.text[s.start..s.end] + Relaid(j, s.kind, s.end, d.indent)
  }

  // An edit in front of others, or none where the gap is already right or stays.
  lemma GapTurns(j: Job, hasError: bool, content: Text, from: nat, til: nat, edits: seq<Edit>, r: Text)
    requires j.Valid() && from <= til <= |j.text| && Turns(j.text[til..], j.start + til, edits, r)
    ensures Turns(j.text[from..], j.start + from, AddEdit(j, hasError, content, j.start + from, j.start + til) + edits,
      Gap(j, hasError, content, from, til) + r)
  {
    hide Turns;
    var edit := AddEdit(j, hasError, content, j.start + from, j.start + til);
    JobPart(j, from, til);
    Parts(j.text, from, til);
    if edit == [] {
      assert edit + edits == edits;
      TurnsBehind(j.text[from..til], j.text[til..], j.start + from, edits, r);
    } else {
      TurnsFirst(j.text[from..], j.start + from, til - from, content, edits, r);
    }
  }

  lemma JobPart(j: Job, from: nat, til: nat)
    requires j.Valid() && from <= til <= |j.text|
    ensures Substring(j.doc, j.start + from, j.start + til) == j.text[from..til]
  {
    SliceOfSlice(j.doc, j.start, j.start + |j.text|, from, til);
  }

  lemma SliceOfSlice(s: Text, a: nat, b: nat, i: nat, j: nat)
    requires a <= b <= |s| && i <= j <= b - a
    ensures s[a..b][i..j] == s[a + i..a + j]
  {
    assert forall k :: 0 <= k < j - i ==> s[a..b][i..j][k] == s[a + i..a + j][k];
  }

  lemma Parts(s: Text, i: nat, j: nat)
    requires i <= j <= |s|
    ensures s[i..][j - i..] == s[j..] && s[i..] == s[i..j] + s[j..]
  {
  }

  /** The edits turn a clean text into the relaid one. */
  lemma {:induction false} RoundsRelay(j: Job, first: Kind, pos: nat, indent: int)
    requires j.Valid() && pos <= |j.text| && Clean(From(j.text, pos)) && !first.EOF?
    ensures Turns(j.text[pos..], j.start + pos, Rounds(j, first, pos, indent), Relaid(j, first, pos, indent))
    decreases |j.text| - pos
  {
    hide NextSpot, Decide, AddEdit, Turns, Job.Valid, Clean, IsToken, Gap, IsNextToken, Scan, From, Job.NewLine;
    CleanSpot(j.text, pos);
    var s := NextSpot(j.text, pos);
    var d := Decide(j, first, s.kind, s.lineBreak, indent, []);
    var gap := Gap(j, d.bad, d.content, pos, s.start);
    SameRounds(j, first, pos, indent);
    hide Rounds;
    EofRounds(j);
    if s.kind.EOF? {
      NothingTurns(j);
      assert j.text[s.start..] == [];
      GapTurns(j, d.bad, d.content, pos, s.start, [], []);
      assert gap + [] == gap;
    } else {
      RoundsRelay(j, s.kind, s.end, d.indent);
      TokenTurns(j, d, pos, s.start, s.end, Rounds(j, s.kind, s.end, d.indent), Relaid(j, s.kind, s.end, d.indent));
    }
  }

  lemma TokenTurns(j: Job, d: Decision, pos: nat, start: nat, end: nat, rest: seq<Edit>, more: Text)
    requires j.Valid() && pos <= start <= end <= |j.text| && Turns(j.text[end..], j.start + end, rest, more)
    ensures Turns(j.text[pos..], j.start + pos, AddEdit(j, d.bad, d.content, j.start + pos, j.start + start) + rest,
      Gap(j, d.bad, d.content, pos, start) + j.text[start..end] + more)
  {
    hide Turns, AddEdit, Gap, Job.Valid;
    var lex := j.text[start..end];
    Parts(j.text, start, end);
    TurnsBehind(lex, j.text[end..], j.start + start, rest, more);
    GapTurns(j, d.bad, d.content, pos, start, rest, lex + more);
    Regroup(Gap(j, d.bad, d.content, pos, start), lex, more);
  }

  lemma EofRounds(j: Job)
    ensures forall end, indent :: Rounds(j, EOF, end, indent) == []
  {
  }

  lemma SameRounds(j: Job, first: Kind, pos: nat, indent: int)
    requires !first.EOF? && pos <= |j.text| && IsNext(j.text, pos, NextSpot(j.text, pos))
    ensures var s := NextSpot(j.text, pos); var d := Decide(j, first, s.kind, s.lineBreak, indent, []);
      Rounds(j, first, pos, indent)
        == AddEdit(j, d.bad, d.content, j.start + pos, j.start + s.start) + Rounds(j, s.kind, s.end, d.indent)
  {
    hide NextSpot, Decide, AddEdit, Clean, IsToken, IsNextToken, Scan, From, Rounds, SameLine, AllTrivia;
    var s := NextSpot(j.text, pos);
    RoundsStep(j, first, pos, indent);
    SameLineStep(j, pos, [], s, indent);
    var edit := AddEdit(j, s.bad || Decide(j, first, s.kind, s.lineBreak, indent, []).bad,
      Decide(j, first, s.kind, s.lineBreak, indent, []).content, j.start + pos, j.start + s.start);
    assert [] + edit == edit;
  }

  lemma NothingTurns(j: Job)
    ensures Turns([], j.start + |j.text|, [], [])
  {
  }

  // A line break and indentation are white space, and not nothing.
  ghost predicate BlankBreaks(j: Job) {
    j.eol != [] && AllTrivia(j.eol) && AllTrivia(j.indentValue)
  }

  lemma {:induction false} RepeatedTrivia(s: Text, count: int)
    requires AllTrivia(s)
    ensures AllTrivia(Repeated(s, count))
    decreases if count < 0 then 0 else count
  {
    if count > 0 {
      RepeatedTrivia(s, count - 1);
    }
  }

  lemma SpaceBlank()
    ensures AllTrivia([SPACE]) && AllTrivia([])
  {
  }

  lemma NewLineBlank(j: Job, indent: int)
    requires BlankBreaks(j)
    ensures AllTrivia(j.NewLine(indent)) && j.NewLine(indent) != []
  {
    RepeatedTrivia(j.indentValue, j.initialIndent + indent);
  }

  // What separates two tokens is white space; it is empty only where they do not grow together.
  lemma DecidedBlank(j: Job, first: Kind, second: Kind, lineBreak: bool, indent: int)
    requires BlankBreaks(j) && first.IsReal() && (second.IsReal() || second.EOF?)
    ensures var d := Decide(j, first, second, lineBreak, indent, []);
      AllTrivia(d.content)
      && (d.bad || d.content != [] || SelfEnding(first) || second.EOF? || second.IsPunctuation())
  {
    hide Job.NewLine, AllTrivia, BlankBreaks;
    SpaceBlank();
    NewLineBlank(j, indent - 1);
    NewLineBlank(j, indent);
    NewLineBlank(j, indent + 1);
  }

  /** Relaying keeps the tokens, and what the token in front of them sees. */
  lemma {:induction false} RelaidKeeps(j: Job, first: Kind, pos: nat, indent: int)
    requires BlankBreaks(j) && pos <= |j.text| && Clean(From(j.text, pos)) && first.IsReal()
    ensures var r := Relaid(j, first, pos, indent);
      && Clean(r) && Lexemes(r) == Lexemes(From(j.text, pos))
      && (EndsAlike(From(j.text, pos), r) || SelfEnding(first))
    decreases |j.text| - pos
  {
    hide NextSpot, Decide, Clean, IsToken, Lexemes, First, BlankBreaks, AllTrivia, Job.NewLine, SelfEnding, EndsAlike, Scan, Gap, From;
    CleanSpot(j.text, pos);
    var s := NextSpot(j.text, pos);
    var d := Decide(j, first, s.kind, s.lineBreak, indent, []);
    var gap := Gap(j, d.bad, d.content, pos, s.start);
    DecidedBlank(j, first, s.kind, s.lineBreak, indent);
    GapBlank(j, d, pos, s.start);
    if s.kind.EOF? {
      assert gap + [] == gap;
      NoTokens();
      SkipTrivia(gap, []);
      EndsBlank(From(j.text, pos), gap, []);
    } else {
      var lex, rest := j.text[s.start..s.end], From(j.text, s.end);
      RelaidKeeps(j, s.kind, s.end, d.indent);
      var rest' := Relaid(j, s.kind, s.end, d.indent);
      KeepTokenBefore(lex, rest, rest');
      TakeToken(lex, rest');
      SkipTrivia(gap, lex + rest');
      Regroup(gap, lex, rest');
      GapEnds(j, d, first, pos, s, gap, lex, rest', rest);
    }
  }

  lemma GapBlank(j: Job, d: Decision, from: nat, til: nat)
    requires from <= til <= |j.text| && AllTrivia(d.content) && AllTrivia(j.text[from..til])
    ensures AllTrivia(Gap(j, d.bad, d.content, from, til))
  {
  }

  lemma KeepTokenBefore(lex: Text, rest: Text, rest': Text)
    requires IsToken(lex, rest) && (EndsAlike(rest, rest') || SelfEnding(Scan(lex + rest).kind))
    ensures IsToken(lex, rest') && First(lex + rest') == First(lex + rest)
  {
    TokenParts(lex, rest);
    KeepToken(lex, rest, rest');
  }

  // Behind a token white space or the end of the text do no harm.
  lemma EndsBlank(was: Text, gap: Text, rest: Text)
    requires AllTrivia(gap) && (gap != [] || rest == [])
    ensures EndsAlike(was, gap + rest)
  {
  }

  lemma GapEnds(j: Job, d: Decision, first: Kind, pos: nat, s: Spot, gap: Text, lex: Text, rest': Text, rest: Text)
    requires pos <= s.start <= s.end <= |j.text| && lex == j.text[s.start..s.end] && IsToken(lex, rest) && lex != []
    requires gap == Gap(j, d.bad, d.content, pos, s.start) && AllTrivia(d.content)
    requires s.kind == Scan(lex + rest).kind && From(j.text, s.start) == lex + rest
    requires d.bad || d.content != [] || SelfEnding(first) || s.kind.IsPunctuation()
    ensures EndsAlike(From(j.text, pos), gap + lex + rest') || SelfEnding(first)
  {
    var r := gap + lex + rest';
    if gap == j.text[pos..s.start] {
      assert At(From(j.text, pos), 0) == At(r, 0) by {
        assert From(j.text, pos) == gap + From(j.text, s.start);
      }
    } else if gap != [] {
      assert At(r, 0) == gap[0];
    } else if s.kind.IsPunctuation() {
      assert At(r, 0) == lex[0] == (lex + rest)[0];
      PunctuationStops(lex + rest);
    }
  }

  lemma PunctuationStops(s: Text)
    requires s != [] && Scan(s).kind.IsPunctuation()
    ensures Punctuation(s[0]) != Unknown
  {
  }

  /** The whole text of a job, relaid. */
  ghost function RelaidText(j: Job): Text
    requires Clean(j.text)
  {
    assert From(j.text, 0) == j.text;
    CleanSpot(j.text, 0);
    var s := NextSpot(j.text, 0);
    if s.kind.EOF? then j.text
    else
      Gap(j, false, Repeated(j.indentValue, j.initialIndent), 0, s.start)
      + j.text[s.start..s.end] + Relaid(j, s.kind, s.end, 0)
  }

  lemma FromZero(text: Text)
    ensures From(text, 0) == text
  {
  }

  lemma EditsRelay(j: Job)
    requires j.Valid() && Clean(j.text)
    ensures Turns(j.text, j.start, Edits(j), RelaidText(j))
  {
    hide NextSpot, AddEdit, Job.Valid, Clean, IsToken, Gap, IsNextToken, Scan, From, Rounds, Relaid, Turns, AllTrivia;
    FromZero(j.text);
    assert j.text[0..] == j.text;
    CleanSpot(j.text, 0);
    var s := NextSpot(j.text, 0);
    if s.kind.EOF? {
      NothingChanges(j.text, j.start);
    } else {
      RoundsRelay(j, s.kind, s.end, 0);
      var first := Decision(Repeated(j.indentValue, j.initialIndent), 0, false);
      TokenTurns(j, first, 0, s.start, s.end, Rounds(j, s.kind, s.end, 0), Relaid(j, s.kind, s.end, 0));
    }
  }

  lemma NothingChanges(s: Text, base: int)
    ensures Turns(s, base, [], s)
  {
  }

  lemma RelaidTextKeeps(j: Job)
    requires BlankBreaks(j) && Clean(j.text)
    ensures Clean(RelaidText(j)) && Lexemes(RelaidText(j)) == Lexemes(j.text)
  {
    hide NextSpot, Clean, IsToken, Lexemes, First, Scan, Gap, From, Relaid, AllTrivia;
    FromZero(j.text);
    CleanSpot(j.text, 0);
    var s := NextSpot(j.text, 0);
    if !s.kind.EOF? {
      var indent := Repeated(j.indentValue, j.initialIndent);
      var lex, rest := j.text[s.start..s.end], From(j.text, s.end);
      RelaidKeeps(j, s.kind, s.end, 0);
      var rest' := Relaid(j, s.kind, s.end, 0);
      var gap := Gap(j, false, indent, 0, s.start);
      RepeatedTrivia(j.indentValue, j.initialIndent);
      GapBlank(j, Decision(indent, 0, false), 0, s.start);
      KeepTokenBefore(lex, rest, rest');
      TakeToken(lex, rest');
      SkipTrivia(gap, lex + rest');
      Regroup(gap, lex, rest');
    }
  }

  // The document behind formatting: the lines of the job relaid, the others as they were.
  ghost function Formatted(j: Job): Text
    requires j.Valid() && Clean(j.text)
  {
    j.doc[..j.start] + RelaidText(j) + j.doc[j.start + |j.text|..]
  }

  // Lines in the middle of a text may be replaced by a text with the same tokens.
  lemma LinesClean(a: Text, t: Text, c: Text)
    requires Clean(a + (t + c)) && (a == [] || IsEol(a[|a| - 1])) && (c == [] || IsEol(c[0]))
    ensures Clean(a) && Clean(t) && Clean(c) && Lexemes(a + (t + c)) == Lexemes(a) + (Lexemes(t) + Lexemes(c))
  {
    hide Clean, Lexemes, IsEol;
    SplitAtEol(a, t + c);
    SplitAtEol(t, c);
  }

  lemma LinesReplaced(a: Text, t: Text, r: Text, c: Text)
    requires Clean(a + (t + c)) && (a == [] || IsEol(a[|a| - 1])) && (c == [] || IsEol(c[0]))
    requires Clean(r) && Lexemes(r) == Lexemes(t)
    ensures Clean(a + r + c) && Lexemes(a + r + c) == Lexemes(a + (t + c))
  {
    LinesClean(a, t, c);
    assert Apart(r, c) && Apart(a, r + c);
    hide Clean, Lexemes, IsEol, Apart;
    Concat(r, c);
    Concat(a, r + c);
    Regroup(a, r, c);
  }

  lemma TurnsInside(a: Text, t: Text, edits: seq<Edit>, r: Text, c: Text)
    requires Turns(t, |a|, edits, r)
    ensures Turns(a + (t + c), 0, edits, a + r + c)
  {
    hide Turns;
    TurnsBefore(t, |a|, edits, r, c);
    TurnsBehind(a, t + c, 0, edits, r + c);
    Regroup(a, r, c);
  }

  lemma DocParts(j: Job)
    requires j.Valid()
    ensures var a, c := j.doc[..j.start], j.doc[j.start + |j.text|..];
      && j.doc == a + (j.text + c) && |a| == j.start
      && (a == [] || IsEol(a[|a| - 1])) && (c == [] || IsEol(c[0]))
  {
  }

  /** Formatting a document without comments, unknown symbols and scan errors, or some of its lines, keeps its tokens. */
  lemma FormatKeepsTokens(j: Job)
    requires j.Valid() && BlankBreaks(j) && Clean(j.doc)
    ensures Clean(j.text) && Turns(j.doc, 0, Edits(j), Formatted(j))
    ensures Clean(Formatted(j)) && Lexemes(Formatted(j)) == Lexemes(j.doc)
  {
    hide Clean, Lexemes, RelaidText, Edits, Turns, BlankBreaks, IsEol;
    var a, c := j.doc[..j.start], j.doc[j.start + |j.text|..];
    DocParts(j);
    hide Job.Valid;
    LinesClean(a, j.text, c);
    RelaidTextKeeps(j);
    LinesReplaced(a, j.text, RelaidText(j), c);
    EditsRelay(j);
    TurnsInside(a, j.text, Edits(j), RelaidText(j), c);
  }

  // Edits in front of a suffix leave it alone.
  lemma {:induction false} TurnsBefore(s: Text, base: int, edits: seq<Edit>, r: Text, y: Text)
    requires Turns(s, base, edits, r)
    ensures Turns(s + y, base, edits, r + y)
    decreases |edits|
  {
    InOrderWider(edits, base, base, base + |s|, base + |s + y|);
    if edits != [] {
      var e := edits[0];
      AppliedStep(s, base, edits);
      AppliedStep(s + y, base, edits);
      var i, k := e.offset - base, e.End() - base;
      assert (s + y)[..i] == s[..i] && (s + y)[k..] == s[k..] + y;
      TurnsBefore(s[k..], e.End(), edits[1..], Applied(s[k..], e.End(), edits[1..]), y);
      Regroup(s[..i] + e.content, Applied(s[k..], e.End(), edits[1..]), y);
    }
  }

  // The options lead to white space.
  lemma {:induction false} EolBlank(o: FormattingOptions, text: Text)
    requires AllTrivia(o.eol)
    ensures Eol(o, text) != [] && AllTrivia(Eol(o, text))
    decreases |text|
  {
    if text != [] && !IsEol(text[0]) {
      EolBlank(o, text[1..]);
    }
  }

  lemma JobsBlank(doc: Text, range: Range, o: FormattingOptions)
    requires AllTrivia(o.eol)
    ensures BlankBreaks(WholeJob(doc, o))
    ensures range.offset + range.length <= |doc| ==> BlankBreaks(JobFor(doc, range, o))
  {
    EolBlank(o, doc);
    RepeatedTrivia([SPACE], TabSize(o));
  }
}
