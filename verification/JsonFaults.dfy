// Which error visit reports for which mistake (json.ts, lines 1138-1305), on token streams without comments.
module JsonFaults {
  import opened JsonScan
  import opened JsonSyntax

  datatype Mistake = Mistake(code: ErrorCode, offset: nat)

  // The error that a call reports, if it does.
  function MistakeOf(e: Event): seq<Mistake> {
    if e.Note? && e.remark.Error? then [Mistake(e.remark.code, e.remark.offset)] else []
  }

  /** The errors among the calls of a visitor, with the places they name. */
  function Mistakes(events: seq<Event>): seq<Mistake> {
    if events == [] then [] else MistakeOf(events[0]) + Mistakes(events[1..])
  }

  lemma MistakesStep(events: seq<Event>)
    ensures Mistakes(events) == if events == [] then [] else MistakeOf(events[0]) + Mistakes(events[1..])
  {
    hide MistakeOf;
  }

  lemma {:induction false} MistakesConcat(a: seq<Event>, b: seq<Event>)
    ensures Mistakes(a + b) == Mistakes(a) + Mistakes(b)
  {
    hide *;
    var c := a + b;
    MistakesStep(a);
    MistakesStep(c);
    if a == [] {
      assert c == b;
    } else {
      MistakesConcat(a[1..], b);
      assert c[0] == a[0] && c[1..] == a[1..] + b;
      Regroup(MistakeOf(a[0]), Mistakes(a[1..]), Mistakes(b));
    }
  }

  lemma Regroup<T>(a: seq<T>, b: seq<T>, c: seq<T>)
    ensures a + (b + c) == a + b + c
  {
  }

  lemma MistakesThen(events: seq<Event>, r: Result)
    ensures Mistakes(Then(events, r).events) == Mistakes(events) + Mistakes(r.events)
  {
    MistakesConcat(events, r.events);
  }

  // A token behind which the scanner has no error to report.
  ghost predicate Calm(t: Tok) {
    Mistakes(Notes(t.after)) == []
  }

  ghost predicate IsValue(t: Tok) {
    Calm(t) && t.kind.IsScalar() && (t.kind.Number? ==> Parses(t.value))
  }

  lemma LiteralMistakes(ts: Stream, o: Options)
    requires ts.More? && IsValue(ts.head)
    ensures var v := Value(ts, o); v.ok && v.rest == ts.tail && Mistakes(v.events) == []
  {
    var t := ts.head;
    var call := [LiteralValue(ScalarOf(t), t.offset, t.length)];
    assert call[1..] == [] && [] + call == call;
    MistakesConcat(call, Notes(t.after));
  }

  lemma FaultMistake(ts: Stream, code: ErrorCode)
    ensures Mistakes(Fault(ts, code)) == [Mistake(code, ts.Head().offset)]
  {
    assert Fault(ts, code)[1..] == [];
  }

  // A call that is no error, and the remarks behind its token.
  lemma CallMistakes(call: Event, ts: Stream)
    requires ts.More? && Calm(ts.head) && !call.Note?
    ensures Mistakes([call] + ts.Moved()) == []
  {
    assert [call][1..] == [];
    MistakesConcat([call], ts.Moved());
  }

  /** In an array: a value without a comma in front is reported as such, and reading goes on behind it. */
  lemma ItemMistakes(ts: Stream, needsComma: bool, o: Options)
    requires ts.More? && IsValue(ts.head)
    ensures Mistakes(Items(ts, needsComma, o).events)
      == (if needsComma then [Mistake(CommaExpected, ts.head.offset)] else []) + Mistakes(Items(ts.tail, true, o).events)
  {
    hide Value, Mistakes, Items, HandleError;
    ItemsUnfold(ts, needsComma, o);
    LiteralMistakes(ts, o);
    FaultMistake(ts, CommaExpected);
    NoMistakes();
    var lead, item := Lead1(ts, needsComma), Item(ts, o);
    MistakesConcat(lead.events, item.events);
    MistakesThen(lead.events + item.events, Items(ts.tail, true, o));
  }

  lemma NoMistakes()
    ensures Mistakes([]) == []
  {
  }

  lemma ItemsUnfold(ts: Stream, needsComma: bool, o: Options)
    requires !ts.Kind().CloseBracket? && !ts.Kind().EOF?
    requires ts.Kind().Comma? ==> !Lead1(ts, needsComma).rest.Kind().CloseBracket?
    ensures var lead := Lead1(ts, needsComma); var item := Item(lead.rest, o);
      Items(ts, needsComma, o) == Then(lead.events + item.events, Items(item.rest, true, o))
  {
  }

  /** In an array: a comma with no value in front of it is reported, and the value behind it is read. */
  lemma ItemCommaMistakes(ts: Stream, needsComma: bool, o: Options)
    requires ts.More? && ts.head.kind.Comma? && Calm(ts.head) && ts.tail.More? && IsValue(ts.tail.head)
    ensures Mistakes(Items(ts, needsComma, o).events)
      == (if needsComma then [] else [Mistake(ValueExpected, ts.head.offset)]) + Mistakes(Items(ts.tail.tail, true, o).events)
  {
    hide Value, Mistakes, Items, HandleError;
    ItemsUnfold(ts, needsComma, o);
    LiteralMistakes(ts.tail, o);
    FaultMistake(ts, ValueExpected);
    NoMistakes();
    var comma := Separator(Comma, ts.head.offset, ts.head.length);
    CallMistakes(comma, ts);
    var fault := if needsComma then [] else Fault(ts, ValueExpected);
    MistakesConcat(fault, [comma] + ts.Moved());
    var lead, item := Lead1(ts, needsComma), Item(ts.tail, o);
    assert lead.events == fault + ([comma] + ts.Moved());
    MistakesConcat(lead.events, item.events);
    MistakesThen(lead.events + item.events, Items(ts.tail.tail, true, o));
  }

  /** An array ends with its bracket, or with the text: that is reported at the end. */
  lemma ArrayEndMistakes(ts: Stream, needsComma: bool, o: Options)
    requires ts.Last? || (ts.head.kind.CloseBracket? && Calm(ts.head))
    ensures ts.Last? ==> Mistakes(Items(ts, needsComma, o).events) == [Mistake(CloseBracketExpected, ts.eof.offset)]
    ensures ts.More? ==> Mistakes(Items(ts, needsComma, o).events) == []
  {
    hide Mistakes;
    NoMistakes();
    var end := ArrayEnd(ts.Head().offset, ts.Head().length);
    if ts.More? {
      CallMistakes(end, ts);
    } else {
      OneCall(end);
      var r := HandleError(ts, CloseBracketExpected, {CloseBracket}, {});
      MistakesThen([end], r);
      FaultMistake(ts, CloseBracketExpected);
      MistakesThen(Fault(ts, CloseBracketExpected), Skip(ts, {CloseBracket}, {}));
    }
  }

  lemma OneCall(call: Event)
    requires !call.Note?
    ensures Mistakes([call]) == []
  {
    assert [call][1..] == [];
  }

  // ---- objects

  lemma MembersUnfold(ts: Stream, needsComma: bool, o: Options)
    requires !ts.Kind().CloseBrace? && !ts.Kind().EOF? && !ts.Kind().Comma?
    ensures var member := Member(ts, o);
      Members(ts, needsComma, o) == Then((if needsComma then Fault(ts, CommaExpected) else []) + member.events, Members(member.rest, true, o))
  {
  }

  lemma MembersMistakes(ts: Stream, needsComma: bool, o: Options)
    requires !ts.Kind().CloseBrace? && !ts.Kind().EOF? && !ts.Kind().Comma?
    ensures var member := Member(ts, o);
      Mistakes(Members(ts, needsComma, o).events)
        == (if needsComma then [Mistake(CommaExpected, ts.Head().offset)] else []) + Mistakes(member.events)
           + Mistakes(Members(member.rest, true, o).events)
  {
    hide Mistakes, Members, Member;
    MembersUnfold(ts, needsComma, o);
    FaultMistake(ts, CommaExpected);
    NoMistakes();
    var lead, member := if needsComma then Fault(ts, CommaExpected) else [], Member(ts, o);
    MistakesConcat(lead, member.events);
    MistakesThen(lead + member.events, Members(member.rest, true, o));
  }

  // What is skipped when the very next token is where the parser goes on.
  lemma SkipNothing(ts: Stream, code: ErrorCode, until: set<Kind>)
    requires ts.Kind() in until
    ensures var r := HandleError(ts, code, {}, until); r.rest == ts && Mistakes(r.events) == [Mistake(code, ts.Head().offset)]
  {
    FaultMistake(ts, code);
    MistakesThen(Fault(ts, code), Skip(ts, {}, until));
  }

  lemma SkipOne(ts: Stream, code: ErrorCode, until: set<Kind>)
    requires ts.More? && Calm(ts.head) && ts.Kind() !in until && ts.tail.Kind() in until && !ts.Kind().EOF?
    ensures var r := HandleError(ts, code, {}, until); r.rest == ts.tail && Mistakes(r.events) == [Mistake(code, ts.Head().offset)]
  {
    FaultMistake(ts, code);
    MistakesThen(Fault(ts, code), Skip(ts, {}, until));
    MistakesThen(ts.Moved(), Skip(ts.tail, {}, until));
  }

  // A name, in front of the rest of a property.
  lemma NameMistakes(ts: Stream, o: Options)
    requires ts.More? && ts.head.kind.String? && Calm(ts.head)
    ensures Member(ts, o).rest == PropertyRest(ts.tail, o).rest
    ensures Mistakes(Member(ts, o).events) == Mistakes(PropertyRest(ts.tail, o).events)
  {
    hide Mistakes, PropertyRest;
    var name := ObjectProperty(ts.head.value, ts.head.offset, ts.head.length);
    CallMistakes(name, ts);
    MistakesThen([name] + ts.Moved(), PropertyRest(ts.tail, o));
  }

  /** In an object: a property without a comma in front is reported as such, and reading goes on behind it. */
  lemma PropertyMistakes(ts: Stream, needsComma: bool, o: Options)
    requires ts.More? && ts.head.kind.String? && Calm(ts.head)
    requires ts.tail.More? && ts.tail.head.kind.Colon? && Calm(ts.tail.head) && ts.tail.tail.More? && IsValue(ts.tail.tail.head)
    ensures Mistakes(Members(ts, needsComma, o).events)
      == (if needsComma then [Mistake(CommaExpected, ts.head.offset)] else []) + Mistakes(Members(ts.tail.tail.tail, true, o).events)
  {
    hide Value, Mistakes, Members, Member, HandleError;
    MembersMistakes(ts, needsComma, o);
    NameMistakes(ts, o);
    var t := ts.tail;
    LiteralMistakes(t.tail, o);
    var colon := Separator(Colon, t.head.offset, t.head.length);
    CallMistakes(colon, t);
    MistakesThen([colon] + t.Moved(), Value(t.tail, o));
  }

  /** In an object: what is no string is reported as a missing name, and the comma or brace behind it as a missing value. */
  lemma NoNameMistakes(ts: Stream, o: Options)
    requires ts.More? && Calm(ts.head) && ts.tail.Kind() in {CloseBrace, Comma}
    requires !ts.Kind().String? && ts.Kind() !in {CloseBrace, Comma, EOF}
    ensures Mistakes(Members(ts, false, o).events)
      == [Mistake(PropertyNameExpected, ts.head.offset), Mistake(ValueExpected, ts.tail.Head().offset)]
         + Mistakes(Members(ts.tail, true, o).events)
  {
    hide Value, Mistakes, Members, HandleError;
    MembersMistakes(ts, false, o);
    SkipOne(ts, PropertyNameExpected, PROPERTY_ENDS);
    SkipNothing(ts.tail, ValueExpected, PROPERTY_ENDS);
    MistakesThen(HandleError(ts, PropertyNameExpected, {}, PROPERTY_ENDS).events, HandleError(ts.tail, ValueExpected, {}, PROPERTY_ENDS));
  }

  /** In an object: what follows a name in place of a colon is reported, and skipped. */
  lemma NoColonMistakes(ts: Stream, o: Options)
    requires ts.More? && ts.head.kind.String? && Calm(ts.head)
    requires ts.tail.More? && Calm(ts.tail.head) && ts.tail.Kind() !in {Colon, CloseBrace, Comma, EOF}
    requires ts.tail.tail.Kind() in {CloseBrace, Comma}
    ensures Mistakes(Members(ts, false, o).events)
      == [Mistake(ColonExpected, ts.tail.head.offset)] + Mistakes(Members(ts.tail.tail, true, o).events)
  {
    hide Value, Mistakes, Members, Member, HandleError;
    MembersMistakes(ts, false, o);
    NameMistakes(ts, o);
    SkipOne(ts.tail, ColonExpected, PROPERTY_ENDS);
  }

  /** In an object: a comma or brace behind a colon is reported as a missing value. */
  lemma NoValueMistakes(ts: Stream, o: Options)
    requires ts.More? && ts.head.kind.String? && Calm(ts.head)
    requires ts.tail.More? && ts.tail.head.kind.Colon? && Calm(ts.tail.head) && ts.tail.tail.Kind() in {CloseBrace, Comma}
    ensures Mistakes(Members(ts, false, o).events)
      == [Mistake(ValueExpected, ts.tail.tail.Head().offset)] + Mistakes(Members(ts.tail.tail, true, o).events)
  {
    hide Mistakes, Members, Member, HandleError;
    MembersMistakes(ts, false, o);
    NameMistakes(ts, o);
    var t := ts.tail;
    SkipNothing(t.tail, ValueExpected, PROPERTY_ENDS);
    var colon := Separator(Colon, t.head.offset, t.head.length);
    CallMistakes(colon, t);
    var skip := HandleError(t.tail, ValueExpected, {}, PROPERTY_ENDS);
    assert Value(t.tail, o) == Result([], t.tail, false);
    assert Then([], skip).events == skip.events;
    MistakesThen([colon] + t.Moved(), Then([], skip));
    NoMistakes();
  }

  /** An object ends with its brace, or with the text: that is reported at the end. */
  lemma ObjectEndMistakes(ts: Stream, needsComma: bool, o: Options)
    requires ts.Last? || (ts.head.kind.CloseBrace? && Calm(ts.head))
    ensures ts.Last? ==> Mistakes(Members(ts, needsComma, o).events) == [Mistake(CloseBraceExpected, ts.eof.offset)]
    ensures ts.More? ==> Mistakes(Members(ts, needsComma, o).events) == []
  {
    hide Mistakes;
    NoMistakes();
    var end := ObjectEnd(ts.Head().offset, ts.Head().length);
    if ts.More? {
      CallMistakes(end, ts);
    } else {
      OneCall(end);
      var r := HandleError(ts, CloseBraceExpected, {CloseBrace}, {});
      MistakesThen([end], r);
      FaultMistake(ts, CloseBraceExpected);
      MistakesThen(Fault(ts, CloseBraceExpected), Skip(ts, {CloseBrace}, {}));
    }
  }

  // ---- whole texts

  /** A value and no more, a value and more, or nothing at all. */
  lemma DocumentMistakes(ts: Stream, o: Options)
    ensures ts.Last? ==> Mistakes(Document(ts, o).events) == if o.allowEmptyContent then [] else [Mistake(ValueExpected, ts.eof.offset)]
    ensures ts.More? && IsValue(ts.head) ==>
      Mistakes(Document(ts, o).events) == if ts.tail.Last? then [] else
        if ts.tail.Kind().EOF? then [] else [Mistake(EndOfFileExpected, ts.tail.head.offset)]
  {
    hide Mistakes, Value;
    NoMistakes();
    if ts.Last? {
      FaultMistake(ts, ValueExpected);
    } else if IsValue(ts.head) {
      LiteralMistakes(ts, o);
      FaultMistake(ts.tail, EndOfFileExpected);
      MistakesThen(Value(ts, o).events, HandleError(ts.tail, EndOfFileExpected, {}, {}));
    }
  }

  /** [a b]: just the comma is missed, at b. */
  lemma TwoItems(open: Tok, a: Tok, b: Tok, close: Tok, eof: Tok, o: Options)
    requires open.kind.OpenBracket? && close.kind.CloseBracket? && Calm(open) && Calm(close) && IsValue(a) && IsValue(b)
    ensures Mistakes(Document(More(open, More(a, More(b, More(close, Last(eof))))), o).events) == [Mistake(CommaExpected, b.offset)]
  {
    hide Mistakes, Items;
    var end := More(close, Last(eof));
    var ts := More(a, More(b, end));
    ArrayEndMistakes(end, true, o);
    ItemMistakes(More(b, end), true, o);
    ItemMistakes(ts, false, o);
    var begin := ArrayBegin(open.offset, open.length);
    CallMistakes(begin, More(open, ts));
    MistakesThen([begin] + Notes(open.after), Items(ts, false, o));
    TwoItemsRest(ts, o);
    WholeArray(open, ts, o);
  }

  // Where the array is read to.
  lemma TwoItemsRest(ts: Stream, o: Options)
    requires ts.More? && ts.tail.More? && ts.tail.tail.More? && ts.tail.tail.tail.Last? && ts.tail.tail.head.kind.CloseBracket?
    requires IsValue(ts.head) && IsValue(ts.tail.head)
    ensures Items(ts, false, o).rest == ts.tail.tail.tail
  {
    hide Mistakes, Value, HandleError;
    LiteralMistakes(ts, o);
    LiteralMistakes(ts.tail, o);
    ItemsUnfold(ts, false, o);
    ItemsUnfold(ts.tail, true, o);
  }

  lemma WholeArray(open: Tok, ts: Stream, o: Options)
    requires open.kind.OpenBracket? && Items(ts, false, o).rest.Last?
    ensures Document(More(open, ts), o).events == [ArrayBegin(open.offset, open.length)] + Notes(open.after) + Items(ts, false, o).events
  {
    hide Items;
  }
}
