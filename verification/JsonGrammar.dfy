// The JSON documents, and how visit (json.ts) relates to them: it reports no error exactly on them, and
// on any text at all its begin and end events match.
module JsonGrammar {
  import opened JsonScan
  import JsonScanner
  import opened JsonSyntax

  datatype Sep = NoComma | AComma(tok: Tok)

  // A value with all its tokens.
  datatype Node = Lit(tok: Tok) | Obj(open: Tok, members: MemberList) | Arr(open: Tok, items: ItemList)
  datatype MemberList =
    | EndMembers(sep: Sep, close: Tok)
    | ConsMember(sep: Sep, key: Tok, colon: Tok, value: Node, more: MemberList)
  datatype ItemList =
    | EndItems(sep: Sep, close: Tok)
    | ConsItem(sep: Sep, value: Node, more: ItemList)

  // What is written between what came before and the next item: nothing before the first one.
  predicate SepFits(s: Sep, first: bool) {
    if first then s.NoComma? else s.AComma? && s.tok.kind.Comma?
  }

  predicate EndSepFits(s: Sep, first: bool, o: Options) {
    s.NoComma? || (!first && o.allowTrailingComma && s.tok.kind.Comma?)
  }

  predicate WellFormed(n: Node, o: Options) {
    match n
    case Lit(t) => t.kind.IsScalar() && (t.kind.Number? ==> Parses(t.value))
    case Obj(open, ms) => open.kind.OpenBrace? && MembersWellFormed(ms, true, o)
    case Arr(open, xs) => open.kind.OpenBracket? && ItemsWellFormed(xs, true, o)
  }

  predicate MembersWellFormed(ms: MemberList, first: bool, o: Options) {
    match ms
    case EndMembers(s, close) => close.kind.CloseBrace? && EndSepFits(s, first, o)
    case ConsMember(s, key, colon, v, more) =>
      SepFits(s, first) && key.kind.String? && colon.kind.Colon? && WellFormed(v, o) && MembersWellFormed(more, false, o)
  }

  predicate ItemsWellFormed(xs: ItemList, first: bool, o: Options) {
    match xs
    case EndItems(s, close) => close.kind.CloseBracket? && EndSepFits(s, first, o)
    case ConsItem(s, v, more) => SepFits(s, first) && WellFormed(v, o) && ItemsWellFormed(more, false, o)
  }

  // The tokens of a tree, written in front of others.
  function PutSep(s: Sep, tail: Stream): Stream {
    match s case NoComma => tail case AComma(t) => More(t, tail)
  }

  function Put(n: Node, tail: Stream): Stream {
    match n
    case Lit(t) => More(t, tail)
    case Obj(open, ms) => More(open, PutMembers(ms, tail))
    case Arr(open, xs) => More(open, PutItems(xs, tail))
  }

  function PutMembers(ms: MemberList, tail: Stream): Stream {
    match ms
    case EndMembers(s, close) => PutSep(s, More(close, tail))
    case ConsMember(s, key, colon, v, more) => PutSep(s, More(key, More(colon, Put(v, PutMembers(more, tail)))))
  }

  function PutItems(xs: ItemList, tail: Stream): Stream {
    match xs
    case EndItems(s, close) => PutSep(s, More(close, tail))
    case ConsItem(s, v, more) => PutSep(s, Put(v, PutItems(more, tail)))
  }

  // The visitor's calls on a tree.
  function SepEvents(s: Sep): seq<Event> {
    match s case NoComma => [] case AComma(t) => [Separator(Comma, t.offset, t.length)] + Notes(t.after)
  }

  function Events(n: Node): seq<Event> {
    match n
    case Lit(t) => [LiteralValue(ScalarOf(t), t.offset, t.length)] + Notes(t.after)
    case Obj(open, ms) => [ObjectBegin(open.offset, open.length)] + Notes(open.after) + MembersEvents(ms)
    case Arr(open, xs) => [ArrayBegin(open.offset, open.length)] + Notes(open.after) + ItemsEvents(xs)
  }

  function NameEvents(key: Tok, colon: Tok): seq<Event> {
    [ObjectProperty(key.value, key.offset, key.length)] + Notes(key.after)
    + [Separator(Colon, colon.offset, colon.length)] + Notes(colon.after)
  }

  function MembersEvents(ms: MemberList): seq<Event> {
    match ms
    case EndMembers(s, close) => SepEvents(s) + [ObjectEnd(close.offset, close.length)] + Notes(close.after)
    case ConsMember(s, key, colon, v, more) => SepEvents(s) + NameEvents(key, colon) + Events(v) + MembersEvents(more)
  }

  function ItemsEvents(xs: ItemList): seq<Event> {
    match xs
    case EndItems(s, close) => SepEvents(s) + [ArrayEnd(close.offset, close.length)] + Notes(close.after)
    case ConsItem(s, v, more) => SepEvents(s) + Events(v) + ItemsEvents(more)
  }

  ghost predicate NoErrors(events: seq<Event>) {
    forall i :: 0 <= i < |events| ==> !(events[i].Note? && events[i].remark.Error?)
  }

  lemma NoErrorsConcat(a: seq<Event>, b: seq<Event>)
    ensures NoErrors(a + b) <==> NoErrors(a) && NoErrors(b)
  {
    if NoErrors(a + b) {
      assert forall i :: 0 <= i < |a| ==> (a + b)[i] == a[i];
      assert forall i :: 0 <= i < |b| ==> (a + b)[|a| + i] == b[i];
    }
  }

  lemma FaultIsError(ts: Stream, code: ErrorCode, more: seq<Event>)
    ensures !NoErrors(Fault(ts, code)) && !NoErrors(Fault(ts, code) + more)
  {
    var e := Fault(ts, code)[0];
    assert e.Note? && e.remark.Error?;
    NoErrorsConcat(Fault(ts, code), more);
  }

  lemma HandledIsError(ts: Stream, code: ErrorCode, after: set<Kind>, until: set<Kind>)
    ensures !NoErrors(HandleError(ts, code, after, until).events)
  {
    assert HandleError(ts, code, after, until).events[0] == Fault(ts, code)[0];
  }

  // The parser on the tokens of a tree.

  lemma LeadReads(s: Sep, tail: Stream, first: bool)
    requires SepFits(s, first) && !tail.Kind().Comma?
    ensures Lead1(PutSep(s, tail), !first) == Result(SepEvents(s), tail, true)
  {
  }

  lemma {:induction false} ValueReads(n: Node, tail: Stream, o: Options)
    requires WellFormed(n, o)
    ensures Value(Put(n, tail), o) == Result(Events(n), tail, true)
    ensures Put(n, tail).Kind() !in {Comma, CloseBrace, CloseBracket, EOF}
  {
    match n
    case Lit(t) =>
    case Obj(open, ms) => MembersRead(ms, tail, true, o);
    case Arr(open, xs) => ItemsRead(xs, tail, true, o);
  }

  lemma {:induction false} ItemsRead(xs: ItemList, tail: Stream, first: bool, o: Options)
    requires ItemsWellFormed(xs, first, o)
    ensures Items(PutItems(xs, tail), !first, o) == Result(ItemsEvents(xs), tail, true)
  {
    match xs
    case EndItems(s, close) =>
      var last := More(close, tail);
      assert ItemsEnd(last) == Result([ArrayEnd(close.offset, close.length)] + Notes(close.after), tail, true);
      if s.AComma? {
        assert Lead1(PutSep(s, last), !first).events == SepEvents(s);
      }
    case ConsItem(s, v, more) =>
      ValueReads(v, PutItems(more, tail), o);
      ItemsRead(more, tail, false, o);
      hide Lead1, Events;
      var start := Put(v, PutItems(more, tail));
      LeadReads(s, start, first);
      assert Item(start, o) == Value(start, o);
  }

  lemma {:induction false} MembersRead(ms: MemberList, tail: Stream, first: bool, o: Options)
    requires MembersWellFormed(ms, first, o)
    ensures Members(PutMembers(ms, tail), !first, o) == Result(MembersEvents(ms), tail, true)
  {
    match ms
    case EndMembers(s, close) =>
      var last := More(close, tail);
      assert MembersEnd(last) == Result([ObjectEnd(close.offset, close.length)] + Notes(close.after), tail, true);
      if s.AComma? {
        assert Lead1(PutSep(s, last), !first).events == SepEvents(s);
      }
    case ConsMember(s, key, colon, v, more) =>
      hide Value, Member, Events, NameEvents, Lead1;
      ValueReads(v, PutMembers(more, tail), o);
      MembersRead(more, tail, false, o);
      var start := More(key, More(colon, Put(v, PutMembers(more, tail))));
      LeadReads(s, start, first);
      MemberReads(key, colon, v, PutMembers(more, tail), o);
      assert SepEvents(s) + (NameEvents(key, colon) + Events(v)) == SepEvents(s) + NameEvents(key, colon) + Events(v);
  }

  lemma MemberReads(key: Tok, colon: Tok, v: Node, tail: Stream, o: Options)
    requires key.kind.String? && colon.kind.Colon? && Value(Put(v, tail), o) == Result(Events(v), tail, true)
    ensures Member(More(key, More(colon, Put(v, tail))), o) == Result(NameEvents(key, colon) + Events(v), tail, true)
  {
    var start := More(key, More(colon, Put(v, tail)));
    var rest := PropertyRest(start.tail, o);
    assert rest == Result([Separator(Colon, colon.offset, colon.length)] + Notes(colon.after) + Events(v), tail, true);
    assert Property(start, o).events == NameEvents(key, colon) + Events(v);
  }

  // A parse without errors comes from a tree.

  lemma {:induction false} ValueSound(ts: Stream, o: Options) returns (n: Node)
    requires var r := Value(ts, o); r.ok && NoErrors(r.events)
    ensures WellFormed(n, o) && ts == Put(n, Value(ts, o).rest)
    decreases ts.Size(), 0
  {
    var r := Value(ts, o);
    if ts.Kind().OpenBracket? {
      NoErrorsConcat([ArrayBegin(ts.head.offset, ts.head.length)] + ts.Moved(), Items(ts.Next(), false, o).events);
      var xs := ItemsSound(ts.Next(), false, o);
      n := Arr(ts.head, xs);
    } else if ts.Kind().OpenBrace? {
      NoErrorsConcat([ObjectBegin(ts.head.offset, ts.head.length)] + ts.Moved(), Members(ts.Next(), false, o).events);
      var ms := MembersSound(ts.Next(), false, o);
      n := Obj(ts.head, ms);
    } else {
      n := Lit(ts.head);
      var rest := [LiteralValue(ScalarOf(ts.head), ts.head.offset, ts.head.length)] + ts.Moved();
      FaultIsError(ts, InvalidNumberFormat, rest);
      assert ts.Kind().Number? && !Parses(ts.head.value) ==> r.events == Fault(ts, InvalidNumberFormat) + rest;
    }
  }

  // Without an error the separator is the one that belongs there.
  lemma LeadSound(ts: Stream, needsComma: bool) returns (s: Sep)
    requires NoErrors(Lead1(ts, needsComma).events)
    ensures ts == PutSep(s, Lead1(ts, needsComma).rest) && SepFits(s, !needsComma)
  {
    var lead := Lead1(ts, needsComma);
    if ts.Kind().Comma? {
      s := AComma(ts.head);
      var rest := [Separator(Comma, ts.head.offset, ts.head.length)] + ts.Moved();
      FaultIsError(ts, ValueExpected, rest);
      assert !needsComma ==> lead.events == Fault(ts, ValueExpected) + rest;
    } else {
      s := NoComma;
      FaultIsError(ts, CommaExpected, []);
    }
  }

  lemma {:induction false} ItemsSound(ts: Stream, needsComma: bool, o: Options) returns (xs: ItemList)
    requires NoErrors(Items(ts, needsComma, o).events)
    ensures ItemsWellFormed(xs, !needsComma, o) && ts == PutItems(xs, Items(ts, needsComma, o).rest)
    decreases ts.Size(), 3
  {
    if ts.Kind().CloseBracket? || ts.Kind().EOF? {
      ItemsEndSound(ts);
      xs := EndItems(NoComma, ts.head);
    } else {
      var lead := Lead1(ts, needsComma);
      if ts.Kind().Comma? && lead.rest.Kind().CloseBracket? && o.allowTrailingComma {
        NoErrorsConcat(lead.events, ItemsEnd(lead.rest).events);
        ItemsEndSound(lead.rest);
        var s := LeadSound(ts, needsComma);
        xs := EndItems(s, lead.rest.head);
      } else {
        var item := Item(lead.rest, o);
        NoErrorsConcat(lead.events + item.events, Items(item.rest, true, o).events);
        NoErrorsConcat(lead.events, item.events);
        var s := LeadSound(ts, needsComma);
        ItemSound(lead.rest, o);
        var v := ValueSound(lead.rest, o);
        var more := ItemsSound(item.rest, true, o);
        xs := ConsItem(s, v, more);
      }
    }
  }

  lemma ItemSound(ts: Stream, o: Options)
    requires NoErrors(Item(ts, o).events)
    ensures Item(ts, o) == Value(ts, o) && Value(ts, o).ok
  {
    var v := Value(ts, o);
    NoErrorsConcat(v.events, HandleError(v.rest, ValueExpected, {}, ITEM_ENDS).events);
    HandledIsError(v.rest, ValueExpected, {}, ITEM_ENDS);
  }

  lemma ItemsEndSound(ts: Stream)
    requires NoErrors(ItemsEnd(ts).events)
    ensures ts.Kind().CloseBracket? && ts == More(ts.head, ItemsEnd(ts).rest)
  {
    NoErrorsConcat([ArrayEnd(ts.Head().offset, ts.Head().length)], HandleError(ts, CloseBracketExpected, {CloseBracket}, {}).events);
    HandledIsError(ts, CloseBracketExpected, {CloseBracket}, {});
  }

  lemma {:induction false} MembersSound(ts: Stream, needsComma: bool, o: Options) returns (ms: MemberList)
    requires NoErrors(Members(ts, needsComma, o).events)
    ensures MembersWellFormed(ms, !needsComma, o) && ts == PutMembers(ms, Members(ts, needsComma, o).rest)
    decreases ts.Size(), 3
  {
    if ts.Kind().CloseBrace? || ts.Kind().EOF? {
      MembersEndSound(ts);
      ms := EndMembers(NoComma, ts.head);
    } else {
      var lead := Lead1(ts, needsComma);
      if ts.Kind().Comma? && lead.rest.Kind().CloseBrace? && o.allowTrailingComma {
        NoErrorsConcat(lead.events, MembersEnd(lead.rest).events);
        MembersEndSound(lead.rest);
        var s := LeadSound(ts, needsComma);
        ms := EndMembers(s, lead.rest.head);
      } else {
        var member := Member(lead.rest, o);
        NoErrorsConcat(lead.events + member.events, Members(member.rest, true, o).events);
        NoErrorsConcat(lead.events, member.events);
        var s := LeadSound(ts, needsComma);
        MemberSound(lead.rest, o);
        var v := ValueSound(lead.rest.tail.tail, o);
        var more := MembersSound(member.rest, true, o);
        ms := ConsMember(s, lead.rest.head, lead.rest.tail.head, v, more);
      }
    }
  }

  lemma MemberSound(ts: Stream, o: Options)
    requires NoErrors(Member(ts, o).events)
    ensures ts.More? && ts.head.kind.String? && ts.tail.More? && ts.tail.head.kind.Colon?
    ensures var v := Value(ts.tail.tail, o); v.ok && NoErrors(v.events) && v.rest == Member(ts, o).rest
  {
    var p := Property(ts, o);
    NoErrorsConcat(p.events, HandleError(p.rest, ValueExpected, {}, PROPERTY_ENDS).events);
    HandledIsError(p.rest, ValueExpected, {}, PROPERTY_ENDS);
    HandledIsError(ts, PropertyNameExpected, {}, PROPERTY_ENDS);
    var rest := PropertyRest(ts.Next(), o);
    NoErrorsConcat([ObjectProperty(ts.Head().value, ts.Head().offset, ts.Head().length)] + ts.Moved(), rest.events);
    HandledIsError(ts.Next(), ColonExpected, {}, PROPERTY_ENDS);
    var v := Value(ts.Next().Next(), o);
    var colon := ts.Next().Head();
    NoErrorsConcat(v.events, HandleError(v.rest, ValueExpected, {}, PROPERTY_ENDS).events);
    HandledIsError(v.rest, ValueExpected, {}, PROPERTY_ENDS);
    NoErrorsConcat([Separator(Colon, colon.offset, colon.length)] + ts.Next().Moved(),
      (if v.ok then v else Then(v.events, HandleError(v.rest, ValueExpected, {}, PROPERTY_ENDS))).events);
  }

  lemma MembersEndSound(ts: Stream)
    requires NoErrors(MembersEnd(ts).events)
    ensures ts.Kind().CloseBrace? && ts == More(ts.head, MembersEnd(ts).rest)
  {
    NoErrorsConcat([ObjectEnd(ts.Head().offset, ts.Head().length)], HandleError(ts, CloseBraceExpected, {CloseBrace}, {}).events);
    HandledIsError(ts, CloseBraceExpected, {CloseBrace}, {});
  }

  // A stream holds nothing but real tokens in front of its end.
  ghost predicate Proper(ts: Stream) {
    ts.Last? || (ts.head.kind.IsReal() && Proper(ts.tail))
  }

  lemma {:induction false} TokensProper(text: Text, pos: nat, o: Options)
    ensures Proper(Tokens(text, pos, o).stream)
    decreases if pos < |text| then |text| - pos else 0
  {
    hide Scan, Remarks;
    var r := Scan(JsonScanner.From(text, pos));
    if !r.kind.EOF? {
      TokensProper(text, pos + r.length, o);
    }
  }

  lemma PutProper(n: Node, tail: Stream)
    requires Proper(Put(n, tail))
    ensures Proper(tail)
  {
    match n
    case Lit(_) =>
    case Obj(_, ms) => PutMembersProper(ms, tail);
    case Arr(_, xs) => PutItemsProper(xs, tail);
  }

  lemma PutMembersProper(ms: MemberList, tail: Stream)
    requires Proper(PutMembers(ms, tail))
    ensures Proper(tail)
  {
    if ms.ConsMember? {
      var value := Put(ms.value, PutMembers(ms.more, tail));
      assert Proper(More(ms.key, More(ms.colon, value)));
      assert Proper(More(ms.colon, value));
      PutProper(ms.value, PutMembers(ms.more, tail));
      PutMembersProper(ms.more, tail);
    }
  }

  lemma PutItemsProper(xs: ItemList, tail: Stream)
    requires Proper(PutItems(xs, tail))
    ensures Proper(tail)
  {
    if xs.ConsItem? {
      PutProper(xs.value, PutItems(xs.more, tail));
      PutItemsProper(xs.more, tail);
    }
  }

  /** The text is the document n: these are all its tokens, and nothing in it is reported as an error. */
  ghost predicate IsDocument(text: Text, n: Node, o: Options) {
    var lead := Tokens(text, 0, o);
    && WellFormed(n, o) && NoErrors(Notes(lead.before)) && NoErrors(Events(n))
    && exists eof :: lead.stream == Put(n, Last(eof))
  }

  /** visit reports exactly the events of a document. */
  lemma VisitDocument(text: Text, n: Node, o: Options)
    requires IsDocument(text, n, o)
    ensures Visit(text, o).events == Notes(Tokens(text, 0, o).before) + Events(n)
    ensures NoErrors(Visit(text, o).events) && Visit(text, o).ok
  {
    var lead := Tokens(text, 0, o);
    var eof :| lead.stream == Put(n, Last(eof));
    ValueReads(n, Last(eof), o);
    NoErrorsConcat(Notes(lead.before), Events(n));
  }

  /** The text has no tokens, which is allowed, and nothing in it is reported as an error. */
  ghost predicate IsNothing(text: Text, o: Options) {
    var lead := Tokens(text, 0, o);
    o.allowEmptyContent && lead.stream.Kind().EOF? && NoErrors(Notes(lead.before))
  }

  lemma VisitNothing(text: Text, o: Options)
    requires IsNothing(text, o)
    ensures Visit(text, o).events == Notes(Tokens(text, 0, o).before)
  {
    var notes := Notes(Tokens(text, 0, o).before);
    assert notes + [] == notes;
  }

  /** visit reports no error exactly on documents, and on empty texts where these are allowed. */
  lemma ErrorFreeIffDocument(text: Text, o: Options)
    ensures NoErrors(Visit(text, o).events) <==> IsNothing(text, o) || exists n :: IsDocument(text, n, o)
  {
    if n :| IsDocument(text, n, o) {
      VisitDocument(text, n, o);
    }
    hide Tokens, Value, NoErrors, Events;
    TokensProper(text, 0, o);
    var lead := Tokens(text, 0, o);
    var ts := lead.stream;
    var d := Document(ts, o);
    NoErrorsConcat(Notes(lead.before), d.events);
    if ts.Kind().EOF? {
      HandledIsError(ts, ValueExpected, {}, {});
    } else if NoErrors(Visit(text, o).events) {
      var v := Value(ts, o);
      NoErrorsConcat(v.events, HandleError(v.rest, ValueExpected, {}, {}).events);
      HandledIsError(v.rest, ValueExpected, {}, {});
      NoErrorsConcat(v.events, HandleError(v.rest, EndOfFileExpected, {}, {}).events);
      HandledIsError(v.rest, EndOfFileExpected, {}, {});
      var n := ValueSound(ts, o);
      ValueReads(n, v.rest, o);
      PutProper(n, v.rest);
      assert IsDocument(text, n, o);
    }
  }
}
