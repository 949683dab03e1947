// visit (json.ts, lines 1069-1309): the recursive descent over a scanner, proved equal to JsonSyntax.Visit.
module JsonVisitor {
  import opened JsonScan
  import opened JsonScanner
  import opened JsonSyntax

  class Visitor {
    const scanner: Scanner
    const options: Options
    var events: seq<Event>

    constructor (text: Text, options: Options)
      ensures fresh(scanner) && scanner.text == text && this.options == options && scanner.pos == 0 && events == []
    {
      scanner := new Scanner(text, false);
      this.options := options;
      events := [];
    }

    // The token the scanner stands on, as the stream sees it.
    function Current(): Tok
      reads scanner
      requires scanner.tokenOffset <= scanner.pos
    {
      Tok(scanner.token, scanner.tokenOffset, scanner.pos - scanner.tokenOffset, scanner.value, [])
    }

    ghost predicate Valid()
      reads scanner
      ensures Valid() ==> scanner.tokenOffset <= scanner.pos
    {
      && scanner.tokenOffset <= scanner.pos
      && (scanner.token.IsReal() || (scanner.token.EOF? && scanner.pos >= |scanner.text| && Current() == AtEnd()))
    }

    ghost function AtEnd(): Tok
      reads scanner
      requires scanner.pos >= |scanner.text|
    {
      Tok(EOF, |scanner.text|, scanner.pos - |scanner.text|, [], [])
    }

    /** The tokens still to be parsed, the current one first. */
    ghost function Pending(): (ts: Stream)
      reads scanner
      requires Valid()
      ensures ts.Kind() == scanner.token && (ts.Last? <==> scanner.token.EOF?)
      ensures ts.Head().(after := []) == Current() || ts.Last?
      ensures ts.Head().offset == Offset() && ts.Head().length == Length()
    {
      if scanner.token.EOF? then Last(Current())
      else
        var lead := Tokens(scanner.text, scanner.pos, options);
        More(Current().(after := lead.before), lead.stream)
    }

    function Offset(): nat
      reads scanner
    {
      scanner.tokenOffset
    }

    function Length(): nat
      reads scanner
      requires scanner.tokenOffset <= scanner.pos
    {
      scanner.pos - scanner.tokenOffset
    }

    method OnError(code: ErrorCode)
      requires scanner.tokenOffset <= scanner.pos
      modifies this
      ensures events == old(events) + [Note(Error(code, Offset(), Length()))]
    {
      events := events + [Note(Error(code, Offset(), Length()))];
    }

    method ScanNext() returns (token: Kind)
      modifies this, scanner
      ensures Valid() && token == Pending().Kind()
      ensures var lead := Tokens(scanner.text, old(scanner.pos), options);
        events == old(events) + Notes(lead.before) && Pending() == lead.stream
    {
      hide Scan, Tokens, Remarks, Notes, From;
      ghost var start, said: seq<Remark> := scanner.pos, [];
      NotesNothing(events);
      while true
        invariant said + Tokens(scanner.text, scanner.pos, options).before == Tokens(scanner.text, start, options).before
        invariant Tokens(scanner.text, scanner.pos, options).stream == Tokens(scanner.text, start, options).stream
        invariant events == old(events) + Notes(said)
        decreases if scanner.pos < |scanner.text| then |scanner.text| - scanner.pos else 0
      {
        ghost var at := scanner.pos;
        token := scanner.ScanNext();
        ghost var r := Scan(From(scanner.text, at));
        ghost var t := TokenAt(r, scanner.text, at);
        ghost var rest := Tokens(scanner.text, scanner.pos, options);
        TokensStep(scanner.text, at, options);
        assert t.offset == Offset() && t.length == Length();
        Remark(r, t.offset, t.length);
        ghost var remarks := Remarks(r, t.offset, t.length, options);
        NotesConcat(said, remarks);
        SeqAssoc(old(events), Notes(said), Notes(remarks));
        if token.IsReal() || token.EOF? {
          return;
        }
        SeqAssoc(said, remarks, rest.before);
        said := said + remarks;
      }
    }

    // the two switches of lines 1095-1134
    method Remark(ghost r: Scanned, ghost offset: nat, ghost length: nat)
      requires scanner.tokenOffset <= scanner.pos && offset == Offset() && length == Length()
      requires r.kind == scanner.token && r.error == scanner.scanError
      modifies this
      ensures events == old(events) + Notes(Remarks(r, offset, length, options))
    {
      hide FaultRemarks;
      RemarkFault(r, offset, length);
      ghost var said := events;
      match scanner.token {
        case LineComment =>
          OnComment();
        case BlockComment =>
          OnComment();
        case Unknown => OnError(InvalidSymbol);
        case _ =>
      }
      assert events == said + Notes(KindRemarks(r.kind, offset, length, options));
      NotesConcat(FaultRemarks(r.error, offset, length, options), KindRemarks(r.kind, offset, length, options));
    }

    // the first one
    method RemarkFault(ghost r: Scanned, ghost offset: nat, ghost length: nat)
      requires scanner.tokenOffset <= scanner.pos && offset == Offset() && length == Length()
      requires r.error == scanner.scanError
      modifies this
      ensures events == old(events) + Notes(FaultRemarks(r.error, offset, length, options))
    {
      match scanner.scanError {
        case InvalidUnicode => OnError(ErrorCode.InvalidUnicode);
        case InvalidEscapeCharacter => OnError(ErrorCode.InvalidEscapeCharacter);
        case UnexpectedEndOfNumber => OnError(ErrorCode.UnexpectedEndOfNumber);
        case UnexpectedEndOfComment =>
          if !options.disallowComments {
            OnError(ErrorCode.UnexpectedEndOfComment);
          }
        case UnexpectedEndOfString => OnError(ErrorCode.UnexpectedEndOfString);
        case InvalidCharacter => OnError(ErrorCode.InvalidCharacter);
        case NoError =>
      }
    }

    method OnComment()
      requires scanner.tokenOffset <= scanner.pos
      modifies this
      ensures events == old(events) + [Note(
        if options.disallowComments then Error(InvalidCommentToken, Offset(), Length()) else Comment(Offset(), Length()))]
    {
      if options.disallowComments {
        OnError(InvalidCommentToken);
      } else {
        events := events + [Note(Comment(Offset(), Length()))];
      }
    }

    method Move()
      requires Valid()
      modifies this, scanner
      ensures Valid() && Pending() == old(Pending().Next()) && events == old(events + Pending().Moved())
    {
      hide Scan, Tokens;
      ghost var at := scanner.pos;
      TokensStep(scanner.text, at, options);
      var _ := ScanNext();
      NotesNothing(old(events));
    }

    method HandleError(code: ErrorCode, after: set<Kind>, until: set<Kind>)
      requires Valid()
      modifies this, scanner
      ensures Valid()
      ensures var r := JsonSyntax.HandleError(old(Pending()), code, after, until);
        Pending() == r.rest && events == old(events) + r.events
    {
      hide Pending, Valid, Skip;
      ghost var ts := Pending();
      OnError(code);
      if after + until != {} {
        SkipTokens(after, until);
        SeqAssoc(old(events), Fault(ts, code), Skip(ts, after, until).events);
      }
    }

    method SkipTokens(after: set<Kind>, until: set<Kind>)
      requires Valid()
      modifies this, scanner
      ensures Valid()
      ensures var r := Skip(old(Pending()), after, until);
        Pending() == r.rest && events == old(events) + r.events
    {
      hide Pending, Valid;
      var token := scanner.token;
      ghost var skipped := Skip(Pending(), after, until);
      while token != EOF
        invariant Valid() && token == Pending().Kind()
        invariant Skip(Pending(), after, until).rest == skipped.rest
        invariant events + Skip(Pending(), after, until).events == old(events) + skipped.events
        decreases Pending().Size()
      {
        if token in after {
          Move();
          NoMoreEvents(events);
          return;
        } else if token in until {
          break;
        }
        SeqAssoc(events, Pending().Moved(), Skip(Pending().Next(), after, until).events);
        Move();
        token := scanner.token;
      }
      NoMoreEvents(events);
    }

    method ParseString(isValue: bool)
      requires Valid() && scanner.token.String?
      modifies this, scanner
      ensures Valid() && Pending() == old(Pending()).tail
      ensures var t := old(Pending()).head;
        events == old(events)
          + [if isValue then LiteralValue(StringValue(t.value), t.offset, t.length) else ObjectProperty(t.value, t.offset, t.length)]
          + old(Pending().Moved())
    {
      hide Pending, Valid;
      var value := scanner.value;
      if isValue {
        events := events + [LiteralValue(StringValue(value), Offset(), Length())];
      } else {
        events := events + [ObjectProperty(value, Offset(), Length())];
      }
      Move();
    }

    method ParseLiteral() returns (ok: bool)
      requires Valid() && !scanner.token.String?
      modifies this, scanner
      ensures Valid()
      ensures var r := Literal(old(Pending()));
        ok == r.ok && Pending() == r.rest && events == old(events) + r.events
    {
      hide Pending, Valid, JsonSyntax.HandleError;
      ghost var ts := Pending();
      var value: Scalar;
      ghost var fault: seq<Event> := [];
      match scanner.token {
        case Number =>
          if Parses(scanner.value) {
            value := NumberValue(scanner.value);
          } else {
            value := NumberValue([ZERO]);
            OnError(InvalidNumberFormat);
            fault := Fault(ts, InvalidNumberFormat);
          }
        case Null => value := NullValue;
        case True => value := BoolValue(true);
        case False => value := BoolValue(false);
        case _ =>
          NoMoreEvents(events);
          return false;
      }
      NoMoreEvents(old(events));
      events := events + [LiteralValue(value, Offset(), Length())];
      Move();
      LiteralReads(old(events), ts, value, fault);
      ok := true;
    }

    method ParseProperty() returns (ok: bool)
      requires Valid()
      modifies this, scanner
      ensures Valid()
      ensures var r := Property(old(Pending()), options);
        ok == r.ok && Pending() == r.rest && events == old(events) + r.events
      decreases Pending().Size(), 1
    {
      hide Pending, Valid, PropertyRest, JsonSyntax.HandleError;
      if !scanner.token.String? {
        HandleError(PropertyNameExpected, {}, {CloseBrace, Comma});
        return false;
      }
      ghost var ts := Pending();
      ParseString(false);
      ParsePropertyRest();
      ghost var name := [ObjectProperty(ts.head.value, ts.head.offset, ts.head.length)];
      SeqAssoc(old(events), name + ts.Moved(), PropertyRest(ts.Next(), options).events);
      SeqAssoc(old(events), name, ts.Moved());
      ok := true;
    }

    // lines 1203-1212
    method ParsePropertyRest()
      requires Valid()
      modifies this, scanner
      ensures Valid()
      ensures var r := PropertyRest(old(Pending()), options);
        Pending() == r.rest && events == old(events) + r.events
      decreases Pending().Size(), 2
    {
      hide Pending, Valid, Value, JsonSyntax.HandleError;
      ghost var ts := Pending();
      if scanner.token.Colon? {
        ghost var colon := [Separator(Colon, Offset(), Length())];
        events := events + [Separator(Colon, Offset(), Length())];
        Move();
        ghost var v := Value(Pending(), options);
        SeqAssoc(old(events), colon, ts.Moved());
        SeqAssoc(old(events), colon + ts.Moved(), v.events);
        var parsed := ParseValue();
        if !parsed {
          ghost var h := JsonSyntax.HandleError(v.rest, ValueExpected, {}, PROPERTY_ENDS);
          HandleError(ValueExpected, {}, {CloseBrace, Comma});
          SeqAssoc(old(events) + (colon + ts.Moved()), v.events, h.events);
          SeqAssoc(old(events), colon + ts.Moved(), v.events + h.events);
        }
      } else {
        HandleError(ColonExpected, {}, {CloseBrace, Comma});
      }
    }

    // The part of the two loops in front of an item.
    method ParseComma(needsComma: bool)
      requires Valid()
      modifies this, scanner
      ensures Valid()
      ensures var r := Lead1(old(Pending()), needsComma);
        Pending() == r.rest && events == old(events) + r.events
    {
      hide Pending, Valid;
      if scanner.token.Comma? {
        if !needsComma {
          HandleError(ValueExpected, {}, {});
        }
        events := events + [Separator(Comma, Offset(), Length())];
        Move();
      } else if needsComma {
        HandleError(CommaExpected, {}, {});
      }
    }

    method ParseObject()
      requires Valid() && scanner.token.OpenBrace?
      modifies this, scanner
      ensures Valid()
      ensures var r := Value(old(Pending()), options);
        Pending() == r.rest && events == old(events) + r.events
      decreases Pending().Size(), 0
    {
      hide Lead1, Pending, Valid, Member, MembersEnd;
      ghost var ts := Pending();
      ghost var begin := [ObjectBegin(Offset(), Length())];
      events := events + [ObjectBegin(Offset(), Length())];
      Move();
      ghost var all := Members(Pending(), false, options);
      SeqAssoc(old(events), begin, ts.Moved());
      SeqAssoc(old(events), begin + ts.Moved(), all.events);
      ghost var start := events;
      ghost var size := Pending().Size();
      var needsComma := false;
      while !scanner.token.CloseBrace? && !scanner.token.EOF?
        invariant Valid() && Pending().Size() <= size
        invariant Members(Pending(), needsComma, options).rest == all.rest
        invariant events + Members(Pending(), needsComma, options).events == start + all.events
        decreases Pending().Size()
      {
        ghost var now, before := Pending(), events;
        ghost var lead := Lead1(now, needsComma);
        var comma := scanner.token.Comma?;
        ParseComma(needsComma);
        if comma && scanner.token.CloseBrace? && options.allowTrailingComma {
          SeqAssoc(before, lead.events, MembersEnd(lead.rest).events);
          break;
        }
        ghost var member := Member(lead.rest, options);
        ParseMember();
        SeqAssoc(before, lead.events, member.events);
        SeqAssoc(before, lead.events + member.events, Members(member.rest, true, options).events);
        needsComma := true;
      }
      ParseObjectEnd();
    }

    method ParseMember()
      requires Valid()
      modifies this, scanner
      ensures Valid()
      ensures var r := Member(old(Pending()), options);
        Pending() == r.rest && events == old(events) + r.events
      decreases Pending().Size(), 2
    {
      hide Pending, Valid, Property, JsonSyntax.HandleError;
      ghost var p := Property(Pending(), options);
      var parsed := ParseProperty();
      if !parsed {
        HandleError(ValueExpected, {}, {CloseBrace, Comma});
        SeqAssoc(old(events), p.events, JsonSyntax.HandleError(p.rest, ValueExpected, {}, PROPERTY_ENDS).events);
      }
    }

    method ParseObjectEnd()
      requires Valid()
      modifies this, scanner
      ensures Valid()
      ensures var r := MembersEnd(old(Pending()));
        Pending() == r.rest && events == old(events) + r.events
    {
      hide Pending, Valid, JsonSyntax.HandleError;
      ghost var ts := Pending();
      ghost var end := [ObjectEnd(Offset(), Length())];
      events := events + [ObjectEnd(Offset(), Length())];
      if !scanner.token.CloseBrace? {
        HandleError(CloseBraceExpected, {CloseBrace}, {});
        SeqAssoc(old(events), end, JsonSyntax.HandleError(ts, CloseBraceExpected, {CloseBrace}, {}).events);
      } else {
        Move();
        SeqAssoc(old(events), end, ts.Moved());
      }
    }

    method ParseArray()
      requires Valid() && scanner.token.OpenBracket?
      modifies this, scanner
      ensures Valid()
      ensures var r := Value(old(Pending()), options);
        Pending() == r.rest && events == old(events) + r.events
      decreases Pending().Size(), 0
    {
      hide Lead1, Pending, Valid, Item, ItemsEnd;
      ghost var ts := Pending();
      ghost var begin := [ArrayBegin(Offset(), Length())];
      events := events + [ArrayBegin(Offset(), Length())];
      Move();
      ghost var all := Items(Pending(), false, options);
      SeqAssoc(old(events), begin, ts.Moved());
      SeqAssoc(old(events), begin + ts.Moved(), all.events);
      ghost var start := events;
      ghost var size := Pending().Size();
      var needsComma := false;
      while !scanner.token.CloseBracket? && !scanner.token.EOF?
        invariant Valid() && Pending().Size() <= size
        invariant Items(Pending(), needsComma, options).rest == all.rest
        invariant events + Items(Pending(), needsComma, options).events == start + all.events
        decreases Pending().Size()
      {
        ghost var now, before := Pending(), events;
        ghost var lead := Lead1(now, needsComma);
        var comma := scanner.token.Comma?;
        ParseComma(needsComma);
        if comma && scanner.token.CloseBracket? && options.allowTrailingComma {
          SeqAssoc(before, lead.events, ItemsEnd(lead.rest).events);
          break;
        }
        ghost var item := Item(lead.rest, options);
        ParseItem();
        SeqAssoc(before, lead.events, item.events);
        SeqAssoc(before, lead.events + item.events, Items(item.rest, true, options).events);
        needsComma := true;
      }
      ParseArrayEnd();
    }

    method ParseItem()
      requires Valid()
      modifies this, scanner
      ensures Valid()
      ensures var r := Item(old(Pending()), options);
        Pending() == r.rest && events == old(events) + r.events
      decreases Pending().Size(), 2
    {
      hide Pending, Valid, Value, JsonSyntax.HandleError;
      ghost var v := Value(Pending(), options);
      var parsed := ParseValue();
      if !parsed {
        HandleError(ValueExpected, {}, {CloseBracket, Comma});
        SeqAssoc(old(events), v.events, JsonSyntax.HandleError(v.rest, ValueExpected, {}, ITEM_ENDS).events);
      }
    }

    method ParseArrayEnd()
      requires Valid()
      modifies this, scanner
      ensures Valid()
      ensures var r := ItemsEnd(old(Pending()));
        Pending() == r.rest && events == old(events) + r.events
    {
      hide Pending, Valid, JsonSyntax.HandleError;
      ghost var ts := Pending();
      ghost var end := [ArrayEnd(Offset(), Length())];
      events := events + [ArrayEnd(Offset(), Length())];
      if !scanner.token.CloseBracket? {
        HandleError(CloseBracketExpected, {CloseBracket}, {});
        SeqAssoc(old(events), end, JsonSyntax.HandleError(ts, CloseBracketExpected, {CloseBracket}, {}).events);
      } else {
        Move();
        SeqAssoc(old(events), end, ts.Moved());
      }
    }

    method ParseValue() returns (ok: bool)
      requires Valid()
      modifies this, scanner
      ensures Valid()
      ensures var r := Value(old(Pending()), options);
        ok == r.ok && Pending() == r.rest && events == old(events) + r.events
      decreases Pending().Size(), 1
    {
      hide Pending, Valid;
      match scanner.token {
        case OpenBracket => ParseArray(); ok := true;
        case OpenBrace => ParseObject(); ok := true;
        case String => ParseString(true); ok := true;
        case _ => ok := ParseLiteral();
      }
    }
  }

  /** The body of visit, lines 1293-1308. */
  method Visit(text: Text, options: Options) returns (events: seq<Event>, ok: bool)
    ensures Result(events, JsonSyntax.Visit(text, options).rest, ok) == JsonSyntax.Visit(text, options)
  {
    hide Tokens, Value, JsonSyntax.HandleError;
    var v := new Visitor(text, options);
    ghost var lead := Tokens(text, 0, options);
    ghost var start := Notes(lead.before);
    var token := v.ScanNext();
    assert v.events == start;
    ghost var ts := v.Pending();
    if token.EOF? {
      if options.allowEmptyContent {
        NoMoreEvents(start);
        return v.events, true;
      }
      v.HandleError(ValueExpected, {}, {});
      return v.events, false;
    }
    var parsed := v.ParseValue();
    ghost var r := Value(ts, options);
    if !parsed {
      v.HandleError(ValueExpected, {}, {});
      SeqAssoc(start, r.events, JsonSyntax.HandleError(r.rest, ValueExpected, {}, {}).events);
      return v.events, false;
    }
    if !v.scanner.token.EOF? {
      v.HandleError(EndOfFileExpected, {}, {});
      SeqAssoc(start, r.events, JsonSyntax.HandleError(r.rest, EndOfFileExpected, {}, {}).events);
    }
    return v.events, true;
  }

  lemma NotesConcat(a: seq<Remark>, b: seq<Remark>)
    ensures Notes(a + b) == Notes(a) + Notes(b)
  {
  }

  lemma LiteralReads(events: seq<Event>, ts: Stream, value: Scalar, fault: seq<Event>)
    requires ts.More? && ts.Kind().IsScalar() && value == ScalarOf(ts.head)
    requires fault == if ts.Kind().Number? && !Parses(ts.head.value) then Fault(ts, InvalidNumberFormat) else []
    ensures events + Literal(ts).events == (events + fault) + [LiteralValue(value, ts.head.offset, ts.head.length)] + ts.Moved()
  {
  }

  lemma NoMoreEvents(events: seq<Event>)
    ensures events + [] == events
  {
  }

  lemma NotesNothing(events: seq<Event>)
    ensures events + Notes([]) == events
  {
  }

  lemma SeqAssoc<T>(a: seq<T>, b: seq<T>, c: seq<T>)
    ensures a + (b + c) == (a + b) + c
  {
  }
}
