// What format (jsonFormatter.ts) decides: the edits between the tokens of a text.
module JsonFormatSpec {
  import opened JsonScan
  import opened JsonScanner
  import opened JsonLex

  // A tab size of 0 and an empty eol stand for ones that are not set.
  datatype FormattingOptions = FormattingOptions(tabSize: nat, insertSpaces: bool, eol: Text)

  datatype Edit = Edit(offset: int, length: int, content: Text) {
    function End(): int {
      offset + length
    }
  }

  function TabSize(o: FormattingOptions): (n: nat)
    ensures n > 0
  {
    if o.tabSize == 0 then 4 else o.tabSize
  }

  function Repeated(s: Text, count: int): Text {
    if count <= 0 then [] else Repeated(s, count - 1) + s
  }

  function IndentValue(o: FormattingOptions): Text {
    if o.insertSpaces then Repeated([SPACE], TabSize(o)) else [TAB]
  }

  function Eol(o: FormattingOptions, text: Text): Text {
    if text == [] then if o.eol == [] then [LF] else o.eol
    else if text[0] == CR then if At(text, 1) == LF then [CR, LF] else [CR]
    else if text[0] == LF then [LF]
    else Eol(o, text[1..])
  }

  // The columns of leading blanks and tabs.
  function IndentColumns(text: Text, tabSize: nat): nat {
    if text == [] then 0
    else if text[0] == SPACE then 1 + IndentColumns(text[1..], tabSize)
    else if text[0] == TAB then tabSize + IndentColumns(text[1..], tabSize)
    else 0
  }

  // The start of the line that i is on, and its end.
  function LineStart(text: Text, i: nat): (r: nat)
    requires i <= |text|
    ensures r <= i && (r > 0 ==> IsEol(text[r - 1]))
  {
    if i > 0 && !IsEol(text[i - 1]) then LineStart(text, i - 1) else i
  }

  function LineEnd(text: Text, i: nat): (r: nat)
    requires i <= |text|
    ensures i <= r <= |text| && (r < |text| ==> IsEol(text[r]))
    decreases |text| - i
  {
    if i < |text| && !IsEol(text[i]) then LineEnd(text, i + 1) else i
  }

  // What one call of format works with: a whole number of lines of the document.
  datatype Job = Job(
    doc: Text, start: nat, text: Text, rangeStart: nat, rangeEnd: nat, eol: Text, indentValue: Text, initialIndent: nat)
  {
    ghost predicate Valid() {
      && start + |text| <= |doc| && text == doc[start..start + |text|]
      && rangeEnd <= start + |text|
      && (start > 0 ==> IsEol(doc[start - 1]))
      && (start + |text| < |doc| ==> IsEol(doc[start + |text|]))
    }

    function NewLine(indent: int): Text {
      eol + Repeated(indentValue, initialIndent + indent)
    }
  }

  // A token that is not white space, with what scanNext (lines 100-109) notes about it.
  datatype Spot = Spot(kind: Kind, start: nat, end: nat, bad: bool, lineBreak: bool)

  datatype Found = Found(skip: nat, lineBreak: bool, r: Scanned)

  function Next(s: Text): (f: Found)
    ensures f.skip <= |s|
    decreases |s|
  {
    hide *;
    var r := Scan(s);
    SpaceLength(s);
    if r.kind.IsSpace() then
      var rest := Next(s[r.length..]);
      Found(r.length + rest.skip, rest.lineBreak || r.kind.LineBreak?, rest.r)
    else
      Found(0, false, r)
  }

  // What is found is no white space, and stands where the white space ends.
  lemma {:induction false} NextFound(s: Text)
    ensures var f := Next(s); f.r == Scan(s[f.skip..]) && !f.r.kind.IsSpace()
    decreases |s|
  {
    hide Next, Scan;
    var n := Scan(s).length;
    NextStep(s);
    if Scan(s).kind.IsSpace() {
      NextFound(s[n..]);
      DropTwice(s, n, Next(s[n..]).skip);
    } else {
      ScanWhole(s);
    }
  }

  // White space in front of a text is skipped one piece at a time.
  lemma NextStep(s: Text)
    ensures Scan(s).kind.IsSpace() ==>
      && 0 < Scan(s).length <= |s| && Next(s).skip == Scan(s).length + Next(s[Scan(s).length..]).skip
      && Next(s).r == Next(s[Scan(s).length..]).r
    ensures !Scan(s).kind.IsSpace() ==> Next(s).skip == 0 && Next(s).r == Scan(s)
  {
    hide Scan;
    SpaceLength(s);
  }

  lemma SpaceLength(s: Text)
    ensures Scan(s).kind.IsSpace() ==> 0 < Scan(s).length <= |s|
  {
    hide Scan;
    ScanLength(s);
  }

  lemma DropTwice(s: Text, i: nat, j: nat)
    requires i + j <= |s|
    ensures s[i..][j..] == s[i + j..]
  {
  }

  lemma ScanWhole(s: Text)
    ensures Scan(s[0..]) == Scan(s)
  {
    hide Scan;
    assert s[0..] == s;
  }

  function NextSpot(text: Text, pos: nat): (s: Spot)
    ensures s.kind.EOF? ==> s.start == |text|
    ensures !s.kind.EOF? ==> pos <= s.start < |text| && s.start < s.end <= |text| + 1
  {
    var f := Next(From(text, pos));
    NextFound(From(text, pos));
    ScanLength(From(text, pos)[f.skip..]);
    Spot(f.r.kind, if f.r.kind.EOF? then |text| else pos + f.skip, pos + f.skip + f.r.length,
      f.r.kind.Unknown? || !f.r.error.NoError?, f.lineBreak)
  }

  // addEdit, in positions of the document
  function AddEdit(j: Job, hasError: bool, content: Text, from: nat, end: nat): seq<Edit> {
    if !hasError && from < j.rangeEnd && end > j.rangeStart && Substring(j.doc, from, end) != content then
      [Edit(from, end - from, content)]
    else []
  }

  datatype Comments = Comments(edits: seq<Edit>, end: nat, content: Text, spot: Spot)

  // The loop of lines 130-137: comments that stay on the line of the token in front of them.
  function SameLine(j: Job, end: nat, content: Text, spot: Spot, indent: int): (r: Comments)
    requires spot == NextSpot(j.text, end)
    ensures r.spot == NextSpot(j.text, r.end) && end <= r.end
    decreases if end < |j.text| then |j.text| - end else 0
  {
    hide NextSpot, AddEdit, Job.NewLine;
    if !spot.lineBreak && spot.kind.IsComment() then
      var edit := AddEdit(j, spot.bad, [SPACE], j.start + end, j.start + spot.start);
      var rest := SameLine(j, spot.end, if spot.kind.LineComment? then j.NewLine(indent) else [], NextSpot(j.text, spot.end), indent);
      rest.(edits := edit + rest.edits)
    else Comments([], end, content, spot)
  }

  lemma SameLineStep(j: Job, end: nat, content: Text, spot: Spot, indent: int)
    requires spot == NextSpot(j.text, end)
    ensures var c := SameLine(j, end, content, spot, indent);
      if !spot.lineBreak && spot.kind.IsComment() then
        var rest := SameLine(j, spot.end, if spot.kind.LineComment? then j.NewLine(indent) else [], NextSpot(j.text, spot.end), indent);
        c == rest.(edits := AddEdit(j, spot.bad, [SPACE], j.start + end, j.start + spot.start) + rest.edits)
      else c == Comments([], end, content, spot)
  {
    hide NextSpot, AddEdit, Job.NewLine;
  }

  datatype Decision = Decision(content: Text, indent: int, bad: bool)

  // Lines 139-202: what belongs between two tokens.
  function Decide(j: Job, first: Kind, second: Kind, lineBreak: bool, indent: int, content: Text): Decision {
    if second.CloseBrace? then
      if first.OpenBrace? then Decision(content, indent, false) else Decision(j.NewLine(indent - 1), indent - 1, false)
    else if second.CloseBracket? then
      if first.OpenBracket? then Decision(content, indent, false) else Decision(j.NewLine(indent - 1), indent - 1, false)
    else
      var d :=
        match first
        case OpenBracket => Decision(j.NewLine(indent + 1), indent + 1, false)
        case OpenBrace => Decision(j.NewLine(indent + 1), indent + 1, false)
        case Comma => Decision(j.NewLine(indent), indent, false)
        case LineComment => Decision(j.NewLine(indent), indent, false)
        case BlockComment => Decision(if lineBreak then j.NewLine(indent) else [SPACE], indent, false)
        case Colon => Decision([SPACE], indent, false)
        case String => if second.Colon? then Decision([], indent, false) else BehindValue(second, indent, content)
        case Null => BehindValue(second, indent, content)
        case True => BehindValue(second, indent, content)
        case False => BehindValue(second, indent, content)
        case Number => BehindValue(second, indent, content)
        case CloseBrace => BehindValue(second, indent, content)
        case CloseBracket => BehindValue(second, indent, content)
        case Unknown => Decision(content, indent, true)
        case _ => Decision(content, indent, false);
      if lineBreak && second.IsComment() then d.(content := j.NewLine(d.indent)) else d
  }

  function BehindValue(second: Kind, indent: int, content: Text): Decision {
    if second.IsComment() then Decision([SPACE], indent, false)
    else Decision(content, indent, !second.Comma? && !second.EOF?)
  }

  // The loop of lines 125-206; end is where the first token ends and the scanner stands.
  function Rounds(j: Job, first: Kind, end: nat, indent: int): seq<Edit>
    decreases if first.EOF? then 0 else 1 + (if end < |j.text| then |j.text| - end else 0)
  {
    hide NextSpot, AddEdit, SameLine, Decide;
    if first.EOF? then []
    else
      var c := SameLine(j, end, [], NextSpot(j.text, end), indent);
      var d := Decide(j, first, c.spot.kind, c.spot.lineBreak, indent, c.content);
      c.edits
      + AddEdit(j, c.spot.bad || d.bad, d.content, j.start + c.end, j.start + c.spot.start)
      + Rounds(j, c.spot.kind, c.spot.end, d.indent)
  }

  // One round and the rest.
  lemma RoundsStep(j: Job, first: Kind, end: nat, indent: int)
    requires !first.EOF?
    ensures var c := SameLine(j, end, [], NextSpot(j.text, end), indent);
      var d := Decide(j, first, c.spot.kind, c.spot.lineBreak, indent, c.content);
      Rounds(j, first, end, indent) ==
        (c.edits + AddEdit(j, c.spot.bad || d.bad, d.content, j.start + c.end, j.start + c.spot.start))
        + Rounds(j, c.spot.kind, c.spot.end, d.indent)
  {
    hide NextSpot, AddEdit, SameLine, Decide;
  }

  function Edits(j: Job): seq<Edit> {
    var first := NextSpot(j.text, 0);
    if first.kind.EOF? then []
    else
      AddEdit(j, first.bad, Repeated(j.indentValue, j.initialIndent), j.start, j.start + first.start)
      + Rounds(j, first.kind, first.end, 0)
  }

  datatype Range = Range(offset: nat, length: nat)

  function JobFor(doc: Text, range: Range, o: FormattingOptions): Job
    requires range.offset + range.length <= |doc|
  {
    var start := LineStart(doc, range.offset);
    var end := LineEnd(doc, range.offset + range.length);
    var text := doc[start..end];
    Job(doc, start, text, range.offset, range.offset + range.length, Eol(o, doc), IndentValue(o),
      IndentColumns(text, TabSize(o)) / TabSize(o))
  }

  function WholeJob(doc: Text, o: FormattingOptions): Job {
    Job(doc, 0, doc, 0, |doc|, Eol(o, doc), IndentValue(o), 0)
  }

  lemma JobsValid(doc: Text, range: Range, o: FormattingOptions)
    ensures WholeJob(doc, o).Valid()
    ensures range.offset + range.length <= |doc| ==> JobFor(doc, range, o).Valid()
  {
  }

  /** In range and in order, from one position to another. */
  ghost predicate InOrder(edits: seq<Edit>, from: int, end: int)
    decreases |edits|
  {
    if edits == [] then from <= end
    else from <= edits[0].offset && edits[0].length >= 0 && InOrder(edits[1..], edits[0].End(), end)
  }

  lemma {:induction false} InOrderConcat(a: seq<Edit>, b: seq<Edit>, from: int, middle: int, end: int)
    requires InOrder(a, from, middle) && InOrder(b, middle, end)
    ensures InOrder(a + b, from, end)
    decreases |a|
  {
    if a == [] {
      assert a + b == b;
      InOrderWider(b, from, middle, end, end);
    } else {
      assert (a + b)[1..] == a[1..] + b;
      InOrderConcat(a[1..], b, a[0].End(), middle, end);
    }
  }

  lemma {:induction false} InOrderWider(a: seq<Edit>, from: int, from': int, end: int, end': int)
    requires InOrder(a, from', end) && from <= from' && end <= end'
    ensures InOrder(a, from, end')
    decreases |a|
  {
    if a != [] {
      InOrderWider(a[1..], a[0].End(), a[0].End(), end, end');
    }
  }

  // A position of the text in the document; one behind its end, which a bare comment leads to, counts as its end.
  function Place(j: Job, pos: nat): nat {
    j.start + if pos <= |j.text| then pos else |j.text|
  }

  lemma AddEditInOrder(j: Job, hasError: bool, content: Text, end: nat, spot: Spot)
    requires j.Valid() && spot == NextSpot(j.text, end)
    ensures InOrder(AddEdit(j, hasError, content, j.start + end, j.start + spot.start), Place(j, end), j.start + spot.start)
    ensures !spot.kind.EOF? ==> j.start + spot.start <= Place(j, spot.end)
  {
    hide NextSpot, Substring;
    var edits := AddEdit(j, hasError, content, j.start + end, j.start + spot.start);
    if edits != [] {
      assert edits[1..] == [];
    }
  }

  lemma {:induction false} SameLineInOrder(j: Job, end: nat, content: Text, spot: Spot, indent: int)
    requires j.Valid() && spot == NextSpot(j.text, end)
    ensures var r := SameLine(j, end, content, spot, indent); InOrder(r.edits, Place(j, end), Place(j, r.end))
    decreases if end < |j.text| then |j.text| - end else 0
  {
    hide NextSpot, AddEdit, Job.NewLine, Job.Valid, InOrder;
    NothingInOrder(Place(j, end));
    if !spot.lineBreak && spot.kind.IsComment() {
      var edit := AddEdit(j, spot.bad, [SPACE], j.start + end, j.start + spot.start);
      var content' := if spot.kind.LineComment? then j.NewLine(indent) else [];
      var next := NextSpot(j.text, spot.end);
      AddEditInOrder(j, spot.bad, [SPACE], end, spot);
      SameLineInOrder(j, spot.end, content', next, indent);
      var rest := SameLine(j, spot.end, content', next, indent);
      var last := Place(j, rest.end);
      InOrderWider(rest.edits, j.start + spot.start, Place(j, spot.end), last, last);
      InOrderConcat(edit, rest.edits, Place(j, end), j.start + spot.start, last);
    }
  }

  lemma NothingInOrder(from: int)
    ensures InOrder([], from, from)
  {
  }

  lemma {:induction false} RoundsInOrder(j: Job, first: Kind, end: nat, indent: int)
    requires j.Valid() && !first.EOF?
    ensures InOrder(Rounds(j, first, end, indent), Place(j, end), j.start + |j.text|)
    decreases if end < |j.text| then |j.text| - end else 0
  {
    hide NextSpot, Decide, SameLine, AddEdit, InOrder, Job.Valid;
    SameLineInOrder(j, end, [], NextSpot(j.text, end), indent);
    var c := SameLine(j, end, [], NextSpot(j.text, end), indent);
    var d := Decide(j, first, c.spot.kind, c.spot.lineBreak, indent, c.content);
    var til, last := j.start + c.spot.start, j.start + |j.text|;
    var edit := AddEdit(j, c.spot.bad || d.bad, d.content, j.start + c.end, til);
    AddEditInOrder(j, c.spot.bad || d.bad, d.content, c.end, c.spot);
    InOrderConcat(c.edits, edit, Place(j, end), Place(j, c.end), til);
    if c.spot.kind.EOF? {
      assert c.edits + edit + [] == c.edits + edit;
    } else {
      RoundsInOrder(j, c.spot.kind, c.spot.end, d.indent);
      var rest := Rounds(j, c.spot.kind, c.spot.end, d.indent);
      InOrderWider(rest, til, Place(j, c.spot.end), last, last);
      InOrderConcat(c.edits + edit, rest, Place(j, end), til, last);
    }
  }

  /** Whatever the text: the edits lie in the document, are in order and do not overlap. */
  lemma EditsInOrder(j: Job)
    requires j.Valid()
    ensures InOrder(Edits(j), j.start, j.start + |j.text|) && InOrder(Edits(j), 0, |j.doc|)
  {
    hide NextSpot, AddEdit, Rounds, InOrder;
    var first := NextSpot(j.text, 0);
    var last := j.start + |j.text|;
    NothingInOrder(j.start);
    InOrderWider([], j.start, j.start, j.start, last);
    if !first.kind.EOF? {
      var indent := AddEdit(j, first.bad, Repeated(j.indentValue, j.initialIndent), j.start, j.start + first.start);
      AddEditInOrder(j, first.bad, Repeated(j.indentValue, j.initialIndent), 0, first);
      RoundsInOrder(j, first.kind, first.end, 0);
      var rest := Rounds(j, first.kind, first.end, 0);
      InOrderWider(rest, j.start + first.start, Place(j, first.end), last, last);
      InOrderConcat(indent, rest, j.start, j.start + first.start, last);
    }
    InOrderWider(Edits(j), 0, j.start, last, |j.doc|);
  }
}
