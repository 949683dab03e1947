// applyEdit, applyEdits and withFormatting (jsonEdit.ts, lines 122-176).
module JsonEdit {
  import opened Wrappers
  import opened JsonScan
  import opened JsonScanner
  import opened JsonLex
  import opened JsonFormatSpec
  import opened JsonFormatMeaning
  import JsonFormatter

  function ApplyEdit(text: Text, edit: Edit): Text {
    Substring(text, 0, edit.offset) + edit.content + Substring(text, edit.offset + edit.length, |text|)
  }

  // An edit of a text.
  ghost predicate Fits(e: Edit, text: Text) {
    0 <= e.offset && 0 <= e.length && e.End() <= |text|
  }

  lemma ApplyFitting(text: Text, e: Edit)
    requires Fits(e, text)
    ensures ApplyEdit(text, e) == text[..e.offset] + e.content + text[e.End()..]
  {
  }

  // The last of several edits in order may be applied first.
  lemma {:induction false} PeelLast(s: Text, base: int, edits: seq<Edit>)
    requires InOrder(edits, base, base + |s|) && edits != []
    ensures var e := edits[|edits| - 1];
      && base <= e.offset && 0 <= e.length && e.End() <= base + |s|
      && Turns(s[..e.offset - base] + e.content + s[e.End() - base..], base, edits[..|edits| - 1], Applied(s, base, edits))
    decreases |edits|
  {
    hide Applied, InOrder, Turns;
    AppliedStep(s, base, edits);
    var f, more := edits[0], edits[1..];
    if more == [] {
      assert edits[..|edits| - 1] == [] && edits == [f];
      OnlyEdit(s, base, f);
    } else {
      var t := s[f.End() - base..];
      PeelLast(t, f.End(), more);
      var e := edits[|edits| - 1];
      assert e == more[|more| - 1];
      assert edits[..|edits| - 1] == [f] + more[..|more| - 1];
      var t' := t[..e.offset - f.End()] + e.content + t[e.End() - f.End()..];
      PeelParts(s, f.End() - base, e.offset - base, e.End() - base, e.content);
      CutInside(s, f.offset - base, f.End() - base, t');
      TurnsFront(s[..f.End() - base] + t', base, f, more[..|more| - 1], Applied(t, f.End(), more));
    }
  }

  lemma OnlyEdit(s: Text, base: int, e: Edit)
    requires base <= e.offset <= e.End() <= base + |s| && InOrder([e], base, base + |s|)
    ensures Turns(s[..e.offset - base] + e.content + s[e.End() - base..], base, [], Applied(s, base, [e]))
  {
    assert [e][1..] == [];
    AppliedStep(s, base, [e]);
  }

  lemma PeelParts(s: Text, i: nat, j: nat, k: nat, content: Text)
    requires i <= j <= k <= |s|
    ensures s[..j] + content + s[k..] == s[..i] + (s[i..][..j - i] + content + s[i..][k - i..])
  {
    assert s[..j] == s[..i] + s[i..][..j - i] && s[i..][k - i..] == s[k..];
  }

  lemma CutInside(s: Text, i: nat, j: nat, t: Text)
    requires i <= j <= |s|
    ensures (s[..j] + t)[..i] == s[..i] && (s[..j] + t)[j..] == t
  {
  }

  // An edit in front of others.
  lemma TurnsFront(s: Text, base: int, f: Edit, edits: seq<Edit>, r: Text)
    requires base <= f.offset && 0 <= f.length && f.End() <= base + |s| && Turns(s[f.End() - base..], f.End(), edits, r)
    ensures Turns(s, base, [f] + edits, s[..f.offset - base] + f.content + r)
  {
    assert ([f] + edits)[1..] == edits;
  }

  // Where the formatted text can be cut into the old text's beginning and end, with everything new in between.
  ghost predicate Framed(text: Text, now: Text, begin: int, end: int) {
    && 0 <= begin <= end <= |now| && begin <= |text| - (|now| - end)
    && now[..begin] == text[..begin] && now[end..] == text[|text| - (|now| - end)..]
  }

  lemma FramedEdit(text: Text, now: Text, begin: int, end: int)
    requires Framed(text, now, begin, end)
    ensures var e := Edit(begin, |text| - (|now| - end) - begin, now[begin..end]);
      Fits(e, text) && ApplyEdit(text, e) == now
  {
    assert now == now[..begin] + now[begin..end] + now[end..];
  }

  // One more edit widens the frame as lines 143-146 say.
  lemma FramedMore(text: Text, now: Text, begin: int, end: int, e: Edit)
    requires Framed(text, now, begin, end) && Fits(e, now)
    ensures var now' := ApplyEdit(now, e);
      var end1 := if e.End() > end then e.End() else end;
      Framed(text, now', if e.offset < begin then e.offset else begin, end1 + |e.content| - e.length)
  {
    hide ApplyEdit, Fits;
    var begin' := if e.offset < begin then e.offset else begin;
    var end1 := if e.End() > end then e.End() else end;
    ApplyFitting(now, e);
    FitsMeans(now, e);
    SamePrefix(now, text, begin, begin', now[..e.offset], e.content + now[e.End()..]);
    Regroup(now[..e.offset], e.content, now[e.End()..]);
    SameSuffix(now, end, text, |text| - (|now| - end), end1, now[..e.offset] + e.content, e.End());
  }

  lemma FitsMeans(text: Text, e: Edit)
    requires Fits(e, text)
    ensures 0 <= e.offset <= e.End() <= |text| && 0 <= e.length
  {
  }

  // A shorter common prefix, also of a text that begins alike.
  lemma SamePrefix(now: Text, text: Text, begin: int, k: int, front: Text, back: Text)
    requires 0 <= k <= begin <= |now| && begin <= |text| && now[..begin] == text[..begin] && k <= |front| && front <= now
    ensures (front + back)[..k] == text[..k]
  {
    assert (front + back)[..k] == front[..k] == now[..k] == now[..begin][..k] == text[..begin][..k];
  }

  // A shorter common suffix, also of a text that ends alike.
  lemma SameSuffix(now: Text, end: int, text: Text, s: int, end1: int, front: Text, from: int)
    requires 0 <= end <= end1 <= |now| && 0 <= s <= |text| && |now| - end == |text| - s && now[end..] == text[s..]
    requires 0 <= from <= end1
    ensures (front + now[from..])[|front| + end1 - from..] == text[s + end1 - end..]
  {
    assert (front + now[from..])[|front| + end1 - from..] == now[from..][end1 - from..] == now[end1..];
    assert now[end1..] == now[end..][end1 - end..] && text[s + end1 - end..] == text[s..][end1 - end..];
  }

  lemma FramedStart(text: Text, edit: Edit, begin: int, end: int)
    requires Fits(edit, text) && 0 <= begin <= edit.offset && edit.offset + |edit.content| <= end <= |ApplyEdit(text, edit)|
    ensures Framed(text, ApplyEdit(text, edit), begin, end)
  {
    var now := ApplyEdit(text, edit);
    ApplyFitting(text, edit);
    assert now[..begin] == text[..begin];
    var k := end - (edit.offset + |edit.content|);
    assert now[end..] == text[edit.End()..][k..] == text[edit.End() + k..];
  }

  // The range that is formatted: for an insertion or a removal its whole lines.
  function FormatRange(text: Text, edit: Edit): (r: Range)
    requires Fits(edit, text)
    ensures r.offset <= edit.offset && edit.offset + |edit.content| <= r.offset + r.length <= |ApplyEdit(text, edit)|
  {
    var now := ApplyEdit(text, edit);
    ApplyFitting(text, edit);
    var end := edit.offset + |edit.content|;
    if edit.length == 0 || edit.content == [] then
      Range(LineStart(now, edit.offset), LineEnd(now, end) - LineStart(now, edit.offset))
    else Range(edit.offset, |edit.content|)
  }

  /** withFormatting: one edit, which does what the given edit and then all formatting edits do. */
  method WithFormatting(text: Text, edit: Edit, options: FormattingOptions) returns (r: Edit)
    requires Fits(edit, text)
    ensures Fits(r, text)
    ensures var j := JobFor(ApplyEdit(text, edit), FormatRange(text, edit), options);
      Turns(ApplyEdit(text, edit), 0, Edits(j), ApplyEdit(text, r))
  {
    hide Edits, Turns, InOrder, Applied, ApplyEdit, Framed, JobFor;
    ApplyFitting(text, edit);
    var newText := ApplyEdit(text, edit);
    var begin, end: int := edit.offset, edit.offset + |edit.content|;
    if edit.length == 0 || |edit.content| == 0 {
      begin, end := JsonFormatter.FindLine(newText, begin, end);
    }
    var range := Range(begin, end - begin);
    assert range == FormatRange(text, edit);
    FramedStart(text, edit, begin, end);
    var edits := JsonFormatter.Format(newText, Some(range), options);
    ghost var result := Applied(newText, 0, edits);
    AllTurn(newText, edits);
    var i := |edits| - 1;
    assert edits[..i + 1] == edits;
    while i >= 0
      invariant -1 <= i < |edits| && Framed(text, newText, begin, end)
      invariant Turns(newText, 0, edits[..i + 1], result)
    {
      var curr := edits[i];
      PeelOne(newText, edits, i, result);
      FramedMore(text, newText, begin, end, curr);
      newText := ApplyEdit(newText, curr);
      begin := if curr.offset < begin then curr.offset else begin;
      end := if curr.offset + curr.length > end then curr.offset + curr.length else end;
      end := end + |curr.content| - curr.length;
      i := i - 1;
    }
    NothingTurned(newText, edits[..0], result);
    FramedEdit(text, newText, begin, end);
    FrameBounds(text, newText, begin, end);
    var editLength := |text| - (|newText| - end) - begin;
    r := Edit(begin, editLength, newText[begin..end]);
  }

  lemma FrameBounds(text: Text, now: Text, begin: int, end: int)
    requires Framed(text, now, begin, end)
    ensures 0 <= begin <= end <= |now|
  {
  }

  lemma AllTurn(s: Text, edits: seq<Edit>)
    requires InOrder(edits, 0, |s|)
    ensures Turns(s, 0, edits, Applied(s, 0, edits))
  {
  }

  lemma NothingTurned(s: Text, edits: seq<Edit>, r: Text)
    requires Turns(s, 0, edits, r) && edits == []
    ensures r == s
  {
  }

  lemma PeelOne(s: Text, edits: seq<Edit>, i: nat, r: Text)
    requires i < |edits| && Turns(s, 0, edits[..i + 1], r)
    ensures Fits(edits[i], s) && Turns(ApplyEdit(s, edits[i]), 0, edits[..i], r)
  {
    PeelLast(s, 0, edits[..i + 1]);
    assert edits[..i + 1][..i] == edits[..i] && edits[..i + 1][i] == edits[i];
    ApplyFitting(s, edits[i]);
  }

  /** The merged edit of a change to a clean text keeps the tokens of the changed text. */
  lemma MergedKeepsTokens(text: Text, edit: Edit, options: FormattingOptions, r: Text)
    requires Fits(edit, text) && Clean(ApplyEdit(text, edit)) && AllTrivia(options.eol)
    requires Turns(ApplyEdit(text, edit), 0, Edits(JobFor(ApplyEdit(text, edit), FormatRange(text, edit), options)), r)
    ensures Clean(r) && Lexemes(r) == Lexemes(ApplyEdit(text, edit))
  {
    hide Clean, Lexemes, Edits, JobFor, Formatted;
    var now, range := ApplyEdit(text, edit), FormatRange(text, edit);
    JobsValid(now, range, options);
    JobsBlank(now, range, options);
    JobDoc(now, range, options);
    FormatKeepsTokens(JobFor(now, range, options));
  }

  lemma JobDoc(doc: Text, range: Range, o: FormattingOptions)
    requires range.offset + range.length <= |doc|
    ensures JobFor(doc, range, o).doc == doc
  {
  }

  datatype Outcome = Edited(text: Text) | OverlappingEdit

  predicate Before(a: Edit, b: Edit) {
    a.offset < b.offset || (a.offset == b.offset && a.length <= b.length)
  }

  /** applyEdits, given its edits sorted by offset and length: they take effect exactly if they do not overlap. */
  method ApplyEdits(text: Text, edits: seq<Edit>, sorted: seq<Edit>) returns (r: Outcome)
    requires multiset(sorted) == multiset(edits) && forall i, j :: 0 <= i < j < |sorted| ==> Before(sorted[i], sorted[j])
    requires forall e :: e in sorted ==> 0 <= e.offset && 0 <= e.length
    ensures r.Edited? <==> InOrder(sorted, 0, |text|)
    ensures r.Edited? ==> Turns(text, 0, sorted, r.text)
  {
    hide InOrder, Turns, Applied, ApplyEdit, Before;
    var now := text;
    var lastModifiedOffset: int := |text|;
    var i := |sorted| - 1;
    assert sorted[..i + 1] == sorted;
    Unedited(text, sorted);
    while i >= 0
      invariant -1 <= i < |sorted| && 0 <= lastModifiedOffset <= |now| && lastModifiedOffset <= |text|
      invariant InOrder(sorted, 0, |text|) <==> InOrder(sorted[..i + 1], 0, lastModifiedOffset)
      invariant InOrder(sorted[..i + 1], 0, lastModifiedOffset) ==> Same(text, sorted, now, sorted[..i + 1])
    {
      var e := sorted[i];
      assert e in sorted;
      LastInOrder(sorted, i, lastModifiedOffset);
      if e.offset + e.length <= lastModifiedOffset {
        if InOrder(sorted[..i], 0, e.offset) {
          InOrderWider(sorted[..i + 1], 0, 0, lastModifiedOffset, |now|);
          SamePeeled(text, sorted, now, i);
        }
        ApplyFitting(now, e);
        now := ApplyEdit(now, e);
      } else {
        return OverlappingEdit;
      }
      lastModifiedOffset := e.offset;
      i := i - 1;
    }
    NoneInOrder(sorted[..0], lastModifiedOffset);
    SameDone(text, sorted, now);
    return Edited(now);
  }

  // What remains of the edits does to the text so far what all do to the original.
  ghost predicate Same(text: Text, all: seq<Edit>, now: Text, rest: seq<Edit>) {
    InOrder(all, 0, |text|) && Turns(now, 0, rest, Applied(text, 0, all))
  }

  lemma Unedited(text: Text, all: seq<Edit>)
    ensures InOrder(all, 0, |text|) ==> Same(text, all, text, all)
  {
  }

  lemma SameDone(text: Text, all: seq<Edit>, now: Text)
    requires Same(text, all, now, all[..0])
    ensures Turns(text, 0, all, now)
  {
  }

  lemma SamePeeled(text: Text, all: seq<Edit>, now: Text, i: nat)
    requires i < |all| && Same(text, all, now, all[..i + 1])
    ensures Same(text, all, ApplyEdit(now, all[i]), all[..i])
  {
    PeelOne(now, all, i, Applied(text, 0, all));
  }

  lemma NoneInOrder(edits: seq<Edit>, end: int)
    requires edits == [] && 0 <= end
    ensures InOrder(edits, 0, end)
  {
  }

  lemma LastInOrder(edits: seq<Edit>, i: nat, end: int)
    requires i < |edits| && 0 <= edits[i].offset && 0 <= edits[i].length
    ensures InOrder(edits[..i + 1], 0, end) <==> edits[i].End() <= end && InOrder(edits[..i], 0, edits[i].offset)
  {
    InOrderSnoc(edits[..i], edits[i], 0, end);
    assert edits[..i + 1] == edits[..i] + [edits[i]];
  }

  lemma {:induction false} InOrderSnoc(edits: seq<Edit>, e: Edit, from: int, end: int)
    requires 0 <= e.length
    ensures InOrder(edits + [e], from, end) <==> e.End() <= end && InOrder(edits, from, e.offset)
    decreases |edits|
  {
    var all := edits + [e];
    if edits == [] {
      assert all[1..] == [];
    } else {
      assert all[1..] == edits[1..] + [e];
      InOrderSnoc(edits[1..], e, edits[0].End(), end);
    }
  }
}
