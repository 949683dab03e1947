// On any text the begin and end events of visit (json.ts) match.
module JsonBrackets {
  import opened JsonScan
  import opened JsonSyntax
  import opened JsonFold

  // The containers begun and not yet ended: true for an array, false for an object.
  datatype Nesting = Broken | Open(stack: seq<bool>)

  function Step(e: Event, n: Nesting): Nesting {
    if n.Broken? then n
    else
      match e
      case ArrayBegin(_, _) => Open(n.stack + [true])
      case ObjectBegin(_, _) => Open(n.stack + [false])
      case ArrayEnd(_, _) => if n.stack != [] && n.stack[|n.stack| - 1] then Open(n.stack[..|n.stack| - 1]) else Broken
      case ObjectEnd(_, _) => if n.stack != [] && !n.stack[|n.stack| - 1] then Open(n.stack[..|n.stack| - 1]) else Broken
      case _ => n
  }

  function Track(events: seq<Event>, n: Nesting): Nesting {
    Fold(Step, events, n)
  }

  // The events leave what is open as it is.
  ghost predicate Neutral(events: seq<Event>) {
    forall st: seq<bool> :: Track(events, Open(st)) == Open(st)
  }

  // The events end the innermost open container, which is of the given kind.
  ghost predicate Closes(events: seq<Event>, isArray: bool) {
    forall st: seq<bool> :: Track(events, Open(st + [isArray])) == Open(st)
  }

  lemma NeutralConcat(a: seq<Event>, b: seq<Event>)
    requires Neutral(a) && Neutral(b)
    ensures Neutral(a + b)
  {
    forall st: seq<bool> ensures Track(a + b, Open(st)) == Open(st) {
      FoldConcat(Step, a, b, Open(st));
    }
  }

  lemma ClosesConcat(a: seq<Event>, b: seq<Event>, isArray: bool)
    requires Neutral(a) && Closes(b, isArray)
    ensures Closes(a + b, isArray)
  {
    forall st: seq<bool> ensures Track(a + b, Open(st + [isArray])) == Open(st) {
      FoldConcat(Step, a, b, Open(st + [isArray]));
    }
  }

  lemma ClosesThenNeutral(a: seq<Event>, b: seq<Event>, isArray: bool)
    requires Closes(a, isArray) && Neutral(b)
    ensures Closes(a + b, isArray)
  {
    forall st: seq<bool> ensures Track(a + b, Open(st + [isArray])) == Open(st) {
      FoldConcat(Step, a, b, Open(st + [isArray]));
    }
  }

  lemma Wrapped(begin: Event, a: seq<Event>, b: seq<Event>, isArray: bool)
    requires if isArray then begin.ArrayBegin? else begin.ObjectBegin?
    requires Neutral(a) && Closes(b, isArray)
    ensures Neutral([begin] + a + b)
  {
    forall st: seq<bool> ensures Track([begin] + a + b, Open(st)) == Open(st) {
      assert Track([], Open(st)) == Open(st) && [begin][..0] == [];
      assert Track([begin], Open(st)) == Open(st + [isArray]);
      FoldConcat(Step, [begin], a, Open(st));
      FoldConcat(Step, [begin] + a, b, Open(st));
    }
  }

  // A single event that is neither begin nor end.
  lemma OneNeutral(e: Event)
    requires !e.ArrayBegin? && !e.ObjectBegin? && !e.ArrayEnd? && !e.ObjectEnd?
    ensures Neutral([e])
  {
    forall st: seq<bool> ensures Track([e], Open(st)) == Open(st) {
      assert [e][..0] == [] && Track([], Open(st)) == Open(st);
    }
  }

  lemma NoneNeutral()
    ensures Neutral([])
  {
  }

  lemma OneCloses(e: Event, isArray: bool)
    requires if isArray then e.ArrayEnd? else e.ObjectEnd?
    ensures Closes([e], isArray)
  {
    forall st: seq<bool> ensures Track([e], Open(st + [isArray])) == Open(st) {
      assert [e][..0] == [] && Track([], Open(st + [isArray])) == Open(st + [isArray]);
      assert (st + [isArray])[..|st + [isArray]| - 1] == st;
    }
  }

  lemma {:induction false} NotesNeutral(remarks: seq<Remark>)
    ensures Neutral(Notes(remarks))
    decreases |remarks|
  {
    if remarks == [] {
      NoneNeutral();
      assert Notes(remarks) == [];
    } else {
      var k := |remarks| - 1;
      NotesNeutral(remarks[..k]);
      OneNeutral(Note(remarks[k]));
      NeutralConcat(Notes(remarks[..k]), [Note(remarks[k])]);
      assert Notes(remarks) == Notes(remarks[..k]) + [Note(remarks[k])];
    }
  }

  lemma MovedNeutral(ts: Stream)
    ensures Neutral(ts.Moved())
  {
    if ts.Last? {
      NoneNeutral();
    } else {
      NotesNeutral(ts.head.after);
    }
  }

  lemma {:induction false} SkipNeutral(ts: Stream, after: set<Kind>, until: set<Kind>)
    ensures Neutral(Skip(ts, after, until).events)
    decreases ts.Size()
  {
    hide Neutral;
    NoneNeutral();
    MovedNeutral(ts);
    if ts.Kind() != EOF && ts.Kind() !in after && ts.Kind() !in until {
      SkipNeutral(ts.Next(), after, until);
      NeutralConcat(ts.Moved(), Skip(ts.Next(), after, until).events);
    }
  }

  lemma HandledNeutral(ts: Stream, code: ErrorCode, after: set<Kind>, until: set<Kind>)
    ensures Neutral(HandleError(ts, code, after, until).events)
  {
    hide Neutral, Skip;
    FaultNeutral(ts, code);
    SkipNeutral(ts, after, until);
    NeutralConcat(Fault(ts, code), Skip(ts, after, until).events);
  }

  lemma FaultNeutral(ts: Stream, code: ErrorCode)
    ensures Neutral(Fault(ts, code))
  {
    OneNeutral(Fault(ts, code)[0]);
  }

  lemma LiteralNeutral(ts: Stream)
    ensures Neutral(Literal(ts).events)
  {
    hide Neutral;
    NoneNeutral();
    if ts.Kind().IsScalar() {
      var t := ts.head;
      var fault := if t.kind.Number? && !Parses(t.value) then Fault(ts, InvalidNumberFormat) else [];
      FaultNeutral(ts, InvalidNumberFormat);
      OneNeutral(LiteralValue(ScalarOf(t), t.offset, t.length));
      NeutralConcat(fault, [LiteralValue(ScalarOf(t), t.offset, t.length)]);
      MovedNeutral(ts);
      NeutralConcat(fault + [LiteralValue(ScalarOf(t), t.offset, t.length)], ts.Moved());
    }
  }

  lemma LeadNeutral(ts: Stream, needsComma: bool)
    ensures Neutral(Lead1(ts, needsComma).events)
  {
    hide Neutral;
    NoneNeutral();
    FaultNeutral(ts, ValueExpected);
    FaultNeutral(ts, CommaExpected);
    if ts.Kind().Comma? {
      var sep := [Separator(Comma, ts.head.offset, ts.head.length)];
      var fault := if needsComma then [] else Fault(ts, ValueExpected);
      OneNeutral(sep[0]);
      MovedNeutral(ts);
      NeutralConcat(fault, sep);
      NeutralConcat(fault + sep, ts.Moved());
    }
  }

  lemma {:induction false} ValueNeutral(ts: Stream, o: Options)
    ensures Neutral(Value(ts, o).events)
    decreases ts.Size(), 0
  {
    hide Neutral, Closes, Items, Members, Literal;
    MovedNeutral(ts);
    if ts.Kind().OpenBracket? {
      ItemsClose(ts.Next(), false, o);
      Wrapped(ArrayBegin(ts.head.offset, ts.head.length), ts.Moved(), Items(ts.Next(), false, o).events, true);
    } else if ts.Kind().OpenBrace? {
      MembersClose(ts.Next(), false, o);
      Wrapped(ObjectBegin(ts.head.offset, ts.head.length), ts.Moved(), Members(ts.Next(), false, o).events, false);
    } else {
      LiteralNeutral(ts);
    }
  }

  lemma {:induction false} ItemsClose(ts: Stream, needsComma: bool, o: Options)
    ensures Closes(Items(ts, needsComma, o).events, true)
    decreases ts.Size(), 3
  {
    hide Neutral, Closes, ItemsEnd, Item;
    if ts.Kind().CloseBracket? || ts.Kind().EOF? {
      ItemsEndCloses(ts);
    } else {
      var lead := Lead1(ts, needsComma);
      LeadNeutral(ts, needsComma);
      if ts.Kind().Comma? && lead.rest.Kind().CloseBracket? && o.allowTrailingComma {
        ItemsEndCloses(lead.rest);
        ClosesConcat(lead.events, ItemsEnd(lead.rest).events, true);
      } else {
        var item := Item(lead.rest, o);
        ItemNeutral(lead.rest, o);
        ItemsClose(item.rest, true, o);
        NeutralConcat(lead.events, item.events);
        ClosesConcat(lead.events + item.events, Items(item.rest, true, o).events, true);
      }
    }
  }

  lemma ItemNeutral(ts: Stream, o: Options)
    ensures Neutral(Item(ts, o).events)
    decreases ts.Size(), 2
  {
    hide Neutral, HandleError, Value;
    var v := Value(ts, o);
    ValueNeutral(ts, o);
    HandledNeutral(v.rest, ValueExpected, {}, ITEM_ENDS);
    NeutralConcat(v.events, HandleError(v.rest, ValueExpected, {}, ITEM_ENDS).events);
  }

  lemma ItemsEndCloses(ts: Stream)
    ensures Closes(ItemsEnd(ts).events, true)
  {
    hide Neutral, Closes, HandleError;
    var end := ArrayEnd(ts.Head().offset, ts.Head().length);
    OneCloses(end, true);
    MovedNeutral(ts);
    ClosesThenNeutral([end], ts.Moved(), true);
    HandledNeutral(ts, CloseBracketExpected, {CloseBracket}, {});
    ClosesThenNeutral([end], HandleError(ts, CloseBracketExpected, {CloseBracket}, {}).events, true);
  }

  lemma {:induction false} MembersClose(ts: Stream, needsComma: bool, o: Options)
    ensures Closes(Members(ts, needsComma, o).events, false)
    decreases ts.Size(), 3
  {
    hide Neutral, Closes, MembersEnd, Member;
    if ts.Kind().CloseBrace? || ts.Kind().EOF? {
      MembersEndCloses(ts);
    } else {
      var lead := Lead1(ts, needsComma);
      LeadNeutral(ts, needsComma);
      if ts.Kind().Comma? && lead.rest.Kind().CloseBrace? && o.allowTrailingComma {
        MembersEndCloses(lead.rest);
        ClosesConcat(lead.events, MembersEnd(lead.rest).events, false);
      } else {
        var member := Member(lead.rest, o);
        MemberNeutral(lead.rest, o);
        MembersClose(member.rest, true, o);
        NeutralConcat(lead.events, member.events);
        ClosesConcat(lead.events + member.events, Members(member.rest, true, o).events, false);
      }
    }
  }

  lemma MemberNeutral(ts: Stream, o: Options)
    ensures Neutral(Member(ts, o).events)
    decreases ts.Size(), 2
  {
    hide Neutral, HandleError, Property;
    var p := Property(ts, o);
    PropertyNeutral(ts, o);
    HandledNeutral(p.rest, ValueExpected, {}, PROPERTY_ENDS);
    NeutralConcat(p.events, HandleError(p.rest, ValueExpected, {}, PROPERTY_ENDS).events);
  }

  lemma PropertyNeutral(ts: Stream, o: Options)
    ensures Neutral(Property(ts, o).events)
    decreases ts.Size(), 1
  {
    hide Neutral, HandleError, PropertyRest;
    if ts.Kind().String? {
      var name := ObjectProperty(ts.head.value, ts.head.offset, ts.head.length);
      OneNeutral(name);
      MovedNeutral(ts);
      NeutralConcat([name], ts.Moved());
      PropertyRestNeutral(ts.Next(), o);
      NeutralConcat([name] + ts.Moved(), PropertyRest(ts.Next(), o).events);
    } else {
      HandledNeutral(ts, PropertyNameExpected, {}, PROPERTY_ENDS);
    }
  }

  lemma PropertyRestNeutral(ts: Stream, o: Options)
    ensures Neutral(PropertyRest(ts, o).events)
    decreases ts.Size(), 1
  {
    hide Neutral, HandleError, Value;
    if ts.Kind().Colon? {
      var colon := Separator(Colon, ts.head.offset, ts.head.length);
      OneNeutral(colon);
      MovedNeutral(ts);
      NeutralConcat([colon], ts.Moved());
      var v := Value(ts.Next(), o);
      ValueNeutral(ts.Next(), o);
      HandledNeutral(v.rest, ValueExpected, {}, PROPERTY_ENDS);
      NeutralConcat(v.events, HandleError(v.rest, ValueExpected, {}, PROPERTY_ENDS).events);
      NeutralConcat([colon] + ts.Moved(),
        (if v.ok then v else Then(v.events, HandleError(v.rest, ValueExpected, {}, PROPERTY_ENDS))).events);
    } else {
      HandledNeutral(ts, ColonExpected, {}, PROPERTY_ENDS);
    }
  }

  lemma MembersEndCloses(ts: Stream)
    ensures Closes(MembersEnd(ts).events, false)
  {
    hide Neutral, Closes, HandleError;
    var end := ObjectEnd(ts.Head().offset, ts.Head().length);
    OneCloses(end, false);
    MovedNeutral(ts);
    ClosesThenNeutral([end], ts.Moved(), false);
    HandledNeutral(ts, CloseBraceExpected, {CloseBrace}, {});
    ClosesThenNeutral([end], HandleError(ts, CloseBraceExpected, {CloseBrace}, {}).events, false);
  }

  /** Whatever the text: every end event ends the container begun last, and nothing stays open. */
  lemma VisitBalanced(text: Text, o: Options)
    ensures Track(Visit(text, o).events, Open([])) == Open([])
  {
    var lead := Tokens(text, 0, o);
    hide Tokens, Neutral, Value, HandleError;
    NotesNeutral(lead.before);
    NoneNeutral();
    var ts := lead.stream;
    HandledNeutral(ts, ValueExpected, {}, {});
    var v := Value(ts, o);
    ValueNeutral(ts, o);
    HandledNeutral(v.rest, ValueExpected, {}, {});
    NeutralConcat(v.events, HandleError(v.rest, ValueExpected, {}, {}).events);
    HandledNeutral(v.rest, EndOfFileExpected, {}, {});
    NeutralConcat(v.events, HandleError(v.rest, EndOfFileExpected, {}, {}).events);
    NeutralConcat(Notes(lead.before), Document(ts, o).events);
    IsNeutral(Visit(text, o).events, []);
  }

  lemma IsNeutral(events: seq<Event>, st: seq<bool>)
    requires Neutral(events)
    ensures Track(events, Open(st)) == Open(st)
  {
  }
}
