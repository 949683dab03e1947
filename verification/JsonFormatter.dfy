// format (jsonFormatter.ts): the loops that drive the scanner and collect the edits.
module JsonFormatter {
  import opened Wrappers
  import opened JsonScan
  import opened JsonScanner
  import opened JsonLex
  import opened JsonFormatSpec

  method Repeat(s: Text, count: int) returns (result: Text)
    ensures result == Repeated(s, count)
  {
    result := [];
    var i := 0;
    while i < count
      invariant 0 <= i && (i <= count || i == 0) && result == Repeated(s, i)
    {
      result := result + s;
      i := i + 1;
    }
  }

  method ComputeIndentLevel(content: Text, options: FormattingOptions) returns (level: nat)
    ensures level == IndentColumns(content, TabSize(options)) / TabSize(options)
  {
    var i, nChars: nat := 0, 0;
    var tabSize := TabSize(options);
    assert content[0..] == content;
    while i < |content|
      invariant 0 <= i <= |content|
      invariant IndentColumns(content, tabSize) == nChars + IndentColumns(content[i..], tabSize)
    {
      var ch := content[i];
      assert content[i..][1..] == content[i + 1..];
      if ch == SPACE {
        nChars := nChars + 1;
      } else if ch == TAB {
        nChars := nChars + tabSize;
      } else {
        break;
      }
      i := i + 1;
    }
    level := nChars / tabSize;
  }

  method GetEol(options: FormattingOptions, text: Text) returns (eol: Text)
    ensures eol == Eol(options, text)
  {
    assert text[0..] == text;
    for i := 0 to |text|
      invariant Eol(options, text) == Eol(options, text[i..])
    {
      var ch := text[i];
      assert text[i..][1..] == text[i + 1..];
      if ch == CR {
        if i + 1 < |text| && text[i + 1] == LF {
          return [CR, LF];
        }
        return [CR];
      } else if ch == LF {
        return [LF];
      }
    }
    return if options.eol == [] then [LF] else options.eol;
  }

  class Formatter {
    const job: Job
    const scanner: Scanner
    var lineBreak: bool
    var hasError: bool
    var indentLevel: int
    var editOperations: seq<Edit>

    constructor (job: Job)
      ensures this.job == job && fresh(scanner) && scanner.text == job.text && scanner.pos == 0
      ensures indentLevel == 0 && editOperations == []
    {
      this.job := job;
      scanner := new Scanner(job.text, false);
      lineBreak, hasError, indentLevel, editOperations := false, false, 0, [];
    }

    method NewLineAndIndent() returns (r: Text)
      ensures r == job.NewLine(indentLevel)
    {
      var indent := Repeat(job.indentValue, job.initialIndent + indentLevel);
      r := job.eol + indent;
    }

    // The token the scanner stands on.
    ghost predicate On(s: Spot)
      reads this, scanner
    {
      && scanner.text == job.text && scanner.token == s.kind && scanner.tokenOffset == s.start && scanner.pos == s.end
      && lineBreak == s.lineBreak
    }

    // The same right behind scanNext.
    ghost predicate At(s: Spot)
      reads this, scanner
    {
      On(s) && hasError == s.bad
    }

    method ScanNext() returns (token: Kind)
      requires scanner.text == job.text
      modifies this, scanner
      ensures token == scanner.token && At(NextSpot(job.text, old(scanner.pos)))
      ensures indentLevel == old(indentLevel) && editOperations == old(editOperations)
    {
      hide Scan, From, NextSpot, Skipped;
      ghost var at := scanner.pos;
      ghost var skipped: nat := 0;
      NothingSkipped(job.text, at);
      token := scanner.ScanNext();
      lineBreak := false;
      while token.Trivia? || token.LineBreak?
        invariant token == scanner.token && scanner.text == job.text
        invariant scanner.Scanned(at + skipped) && Skipped(job.text, at, skipped, lineBreak)
        invariant indentLevel == old(indentLevel) && editOperations == old(editOperations)
        decreases if at + skipped < |job.text| then |job.text| - at - skipped else 0
      {
        SkippedMore(job.text, at, skipped, lineBreak);
        lineBreak := lineBreak || token.LineBreak?;
        ghost var r := Scan(From(job.text, at + skipped));
        token := scanner.ScanNext();
        skipped := skipped + r.length;
      }
      SkippedAll(job.text, at, skipped, lineBreak);
      hasError := token.Unknown? || scanner.scanError != NoError;
    }

    method AddEdit(text: Text, startOffset: nat, endOffset: nat)
      modifies this`editOperations
      ensures editOperations == old(editOperations) + JsonFormatSpec.AddEdit(job, hasError, text, startOffset, endOffset)
    {
      if !hasError && startOffset < job.rangeEnd && endOffset > job.rangeStart
        && Substring(job.doc, startOffset, endOffset) != text {
        editOperations := editOperations + [Edit(startOffset, endOffset - startOffset, text)];
      }
    }

    // lines 139-202
    method Replacement(firstToken: Kind, secondToken: Kind, content: Text) returns (replaceContent: Text)
      requires secondToken == scanner.token
      modifies this`indentLevel, this`hasError
      ensures var d := Decide(job, firstToken, secondToken, lineBreak, old(indentLevel), content);
        replaceContent == d.content && indentLevel == d.indent && hasError == (old(hasError) || d.bad)
    {
      replaceContent := content;
      if secondToken.CloseBrace? {
        if !firstToken.OpenBrace? {
          indentLevel := indentLevel - 1;
          replaceContent := NewLineAndIndent();
        }
      } else if secondToken.CloseBracket? {
        if !firstToken.OpenBracket? {
          indentLevel := indentLevel - 1;
          replaceContent := NewLineAndIndent();
        }
      } else {
        match firstToken {
          case OpenBracket =>
            indentLevel := indentLevel + 1;
            replaceContent := NewLineAndIndent();
          case OpenBrace =>
            indentLevel := indentLevel + 1;
            replaceContent := NewLineAndIndent();
          case Comma => replaceContent := NewLineAndIndent();
          case LineComment => replaceContent := NewLineAndIndent();
          case BlockComment =>
            if lineBreak {
              replaceContent := NewLineAndIndent();
            } else {
              replaceContent := [SPACE];
            }
          case Colon => replaceContent := [SPACE];
          case Unknown => hasError := true;
          case EOF =>
          case LineBreak =>
          case Trivia =>
          case _ =>
            if firstToken.String? && secondToken.Colon? {
              replaceContent := [];
            } else if secondToken.IsComment() {
              replaceContent := [SPACE];
            } else if !secondToken.Comma? && !secondToken.EOF? {
              hasError := true;
            }
        }
        if lineBreak && secondToken.IsComment() {
          replaceContent := NewLineAndIndent();
        }
      }
    }

    // The offset of the current token in the document, and where it ends.
    function Start(): nat
      reads scanner
    {
      scanner.tokenOffset + job.start
    }

    function End(): nat
      reads scanner
    {
      scanner.pos + job.start
    }

    // the loop of lines 130-137
    method KeepComments(end: nat) returns (firstTokenEnd: nat, replaceContent: Text)
      requires At(NextSpot(job.text, end))
      modifies this, scanner
      ensures var c := SameLine(job, end, [], NextSpot(job.text, end), indentLevel);
        && firstTokenEnd == job.start + c.end && replaceContent == c.content && At(c.spot)
        && editOperations == old(editOperations) + c.edits
      ensures indentLevel == old(indentLevel)
    {
      hide NextSpot, JsonFormatSpec.AddEdit, SameLine;
      ghost var at := end;
      ghost var all := SameLine(job, end, [], NextSpot(job.text, end), indentLevel);
      firstTokenEnd := job.start + end;
      replaceContent := [];
      while !lineBreak && scanner.token.IsComment()
        invariant At(NextSpot(job.text, at)) && firstTokenEnd == job.start + at && indentLevel == old(indentLevel)
        invariant var rest := SameLine(job, at, replaceContent, NextSpot(job.text, at), indentLevel);
          && rest.end == all.end && rest.content == all.content && rest.spot == all.spot
          && editOperations + rest.edits == old(editOperations) + all.edits
        decreases if at < |job.text| then |job.text| - at else 0
      {
        ghost var spot, before := NextSpot(job.text, at), editOperations;
        SameLineStep(job, at, replaceContent, spot, indentLevel);
        AddEdit([SPACE], firstTokenEnd, Start());
        firstTokenEnd := End();
        if scanner.token.LineComment? {
          replaceContent := NewLineAndIndent();
        } else {
          replaceContent := [];
        }
        ghost var rest := SameLine(job, spot.end, replaceContent, NextSpot(job.text, spot.end), indentLevel);
        Regroup(before, JsonFormatSpec.AddEdit(job, spot.bad, [SPACE], job.start + at, job.start + spot.start), rest.edits);
        at := spot.end;
        var _ := ScanNext();
      }
      SameLineStep(job, at, replaceContent, NextSpot(job.text, at), indentLevel);
      assert editOperations + [] == editOperations;
    }

    // One round of the loop of lines 125-206.
    method Round(firstToken: Kind, ghost spot: Spot) returns (secondToken: Kind)
      requires On(spot) && firstToken == spot.kind
      modifies this, scanner
      ensures var c := SameLine(job, spot.end, [], NextSpot(job.text, spot.end), old(indentLevel));
        var d := Decide(job, firstToken, c.spot.kind, c.spot.lineBreak, old(indentLevel), c.content);
        && On(c.spot) && secondToken == c.spot.kind && indentLevel == d.indent
        && editOperations == old(editOperations) + (c.edits
          + JsonFormatSpec.AddEdit(job, c.spot.bad || d.bad, d.content, job.start + c.end, job.start + c.spot.start))
    {
      hide NextSpot, JsonFormatSpec.AddEdit, Decide, SameLine;
      var end := scanner.pos;
      ghost var c := SameLine(job, end, [], NextSpot(job.text, end), indentLevel);
      ghost var d := Decide(job, firstToken, c.spot.kind, c.spot.lineBreak, indentLevel, c.content);
      secondToken := ScanNext();
      var firstTokenEnd, replaceContent := KeepComments(end);
      secondToken := scanner.token;
      replaceContent := Replacement(firstToken, secondToken, replaceContent);
      AddEdit(replaceContent, firstTokenEnd, Start());
      Regroup(old(editOperations), c.edits,
        JsonFormatSpec.AddEdit(job, c.spot.bad || d.bad, d.content, job.start + c.end, job.start + c.spot.start));
    }

    // lines 117-206
    method Run()
      requires scanner.text == job.text && scanner.pos == 0 && indentLevel == 0 && editOperations == []
      modifies this, scanner
      ensures editOperations == Edits(job)
    {
      hide NextSpot, JsonFormatSpec.AddEdit, Decide, SameLine, Rounds, Edits;
      EditsStart(job);
      var firstToken := ScanNext();
      if firstToken != EOF {
        var initialIndent := Repeat(job.indentValue, job.initialIndent);
        AddEdit(initialIndent, job.start, Start());
      }
      ghost var spot := NextSpot(job.text, 0);
      NothingBefore(JsonFormatSpec.AddEdit(job, spot.bad, Repeated(job.indentValue, job.initialIndent), job.start, job.start + spot.start));
      while firstToken != EOF
        invariant On(spot) && firstToken == spot.kind && scanner.text == job.text
        invariant editOperations + Rounds(job, spot.kind, spot.end, indentLevel) == Edits(job)
        decreases if spot.kind.EOF? then 0 else 1 + (if spot.end < |job.text| then |job.text| - spot.end else 0)
      {
        ghost var c := SameLine(job, spot.end, [], NextSpot(job.text, spot.end), indentLevel);
        ghost var indent, before := indentLevel, editOperations;
        RoundDone(before, job, firstToken, spot.end, indent);
        var secondToken := Round(firstToken, spot);
        spot := c.spot;
        firstToken := secondToken;
      }
      NothingBehind(editOperations);
    }
  }

  lemma EditsStart(j: Job)
    ensures var first := NextSpot(j.text, 0);
      && (forall end, indent :: Rounds(j, EOF, end, indent) == [])
      && Edits(j) == if first.kind.EOF? then [] else
        JsonFormatSpec.AddEdit(j, first.bad, Repeated(j.indentValue, j.initialIndent), j.start, j.start + first.start)
        + Rounds(j, first.kind, first.end, 0)
  {
    hide NextSpot, JsonFormatSpec.AddEdit;
  }

  // n units of white space behind a position have been skipped.
  ghost predicate Skipped(text: Text, pos: nat, n: nat, lineBreak: bool) {
    var all, rest := Next(From(text, pos)), Next(From(text, pos + n));
    all.skip == n + rest.skip && all.r == rest.r && all.lineBreak == (lineBreak || rest.lineBreak)
  }

  lemma NothingSkipped(text: Text, pos: nat)
    ensures Skipped(text, pos, 0, false)
  {
  }

  lemma SkippedMore(text: Text, pos: nat, n: nat, lineBreak: bool)
    requires Skipped(text, pos, n, lineBreak) && Scan(From(text, pos + n)).kind.IsSpace()
    ensures var r := Scan(From(text, pos + n));
      r.length > 0 && pos + n + r.length <= |text| && Skipped(text, pos, n + r.length, lineBreak || r.kind.LineBreak?)
  {
    hide Scan, From;
    var s := From(text, pos + n);
    ScanLength(s);
    FromMore(text, pos + n, Scan(s).length);
  }

  lemma SkippedAll(text: Text, pos: nat, n: nat, lineBreak: bool)
    requires Skipped(text, pos, n, lineBreak) && !Scan(From(text, pos + n)).kind.IsSpace()
    ensures var r := Scan(From(text, pos + n));
      NextSpot(text, pos) == Spot(r.kind, if r.kind.EOF? then |text| else pos + n, pos + n + r.length,
        r.kind.Unknown? || !r.error.NoError?, lineBreak)
  {
    hide Scan;
  }

  lemma RoundDone(before: seq<Edit>, j: Job, first: Kind, end: nat, indent: int)
    requires !first.EOF?
    ensures var c := SameLine(j, end, [], NextSpot(j.text, end), indent);
      var d := Decide(j, first, c.spot.kind, c.spot.lineBreak, indent, c.content);
      before + Rounds(j, first, end, indent) ==
        before + (c.edits + JsonFormatSpec.AddEdit(j, c.spot.bad || d.bad, d.content, j.start + c.end, j.start + c.spot.start))
        + Rounds(j, c.spot.kind, c.spot.end, d.indent)
  {
    hide *;
    RoundsStep(j, first, end, indent);
    var c := SameLine(j, end, [], NextSpot(j.text, end), indent);
    var d := Decide(j, first, c.spot.kind, c.spot.lineBreak, indent, c.content);
    Regroup(before, c.edits + JsonFormatSpec.AddEdit(j, c.spot.bad || d.bad, d.content, j.start + c.end, j.start + c.spot.start),
      Rounds(j, c.spot.kind, c.spot.end, d.indent));
  }

  lemma NothingBehind<T>(a: seq<T>)
    ensures a + [] == a
  {
  }

  lemma NothingBefore<T>(a: seq<T>)
    ensures [] + a == a
  {
  }

  method FindLine(doc: Text, from: nat, to_: nat) returns (start: nat, end: nat)
    requires from <= to_ <= |doc|
    ensures start == LineStart(doc, from) && end == LineEnd(doc, to_)
  {
    start := from;
    while start > 0 && !IsEol(doc[start - 1])
      invariant start <= from && LineStart(doc, start) == LineStart(doc, from)
    {
      start := start - 1;
    }
    end := to_;
    while end < |doc| && !IsEol(doc[end])
      invariant to_ <= end <= |doc| && LineEnd(doc, end) == LineEnd(doc, to_)
    {
      end := end + 1;
    }
  }

  /** format, of a range or of the whole document. */
  method Format(documentText: Text, range: Option<Range>, options: FormattingOptions) returns (edits: seq<Edit>)
    requires range.Some? ==> range.value.offset + range.value.length <= |documentText|
    ensures edits == Edits(if range.Some? then JobFor(documentText, range.value, options) else WholeJob(documentText, options))
    ensures InOrder(edits, 0, |documentText|)
  {
    hide Edits, InOrder, Job.Valid, LineStart, LineEnd, Eol, Repeated, IndentColumns;
    var formatText, initialIndentLevel, formatTextStart, rangeStart, rangeEnd := documentText, 0, 0, 0, |documentText|;
    if range.Some? {
      rangeStart := range.value.offset;
      rangeEnd := rangeStart + range.value.length;
      var endOffset;
      formatTextStart, endOffset := FindLine(documentText, rangeStart, rangeEnd);
      formatText := documentText[formatTextStart..endOffset];
      initialIndentLevel := ComputeIndentLevel(formatText, options);
    }
    var eol := GetEol(options, documentText);
    var indentValue := [TAB];
    if options.insertSpaces {
      indentValue := Repeat([SPACE], TabSize(options));
    }
    var job := Job(documentText, formatTextStart, formatText, rangeStart, rangeEnd, eol, indentValue, initialIndentLevel);
    var formatter := new Formatter(job);
    formatter.Run();
    edits := formatter.editOperations;
    JobsValid(documentText, if range.Some? then range.value else Range(0, 0), options);
    EditsInOrder(job);
  }
}
