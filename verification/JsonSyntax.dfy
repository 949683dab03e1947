// The token stream the parser reads and what visit (json.ts, lines 1069-1309) does with it, as functions.
module JsonSyntax {
  import opened CodeUnits
  import opened JsonScan
  import JsonScanner

  datatype Options = Options(disallowComments: bool, allowTrailingComma: bool, allowEmptyContent: bool)

  // ParseOptions.DEFAULT
  const DEFAULT := Options(false, true, false)

  datatype ErrorCode =
    | InvalidSymbol | InvalidNumberFormat | PropertyNameExpected | ValueExpected | ColonExpected | CommaExpected
    | CloseBraceExpected | CloseBracketExpected | EndOfFileExpected | InvalidCommentToken
    | UnexpectedEndOfComment | UnexpectedEndOfString | UnexpectedEndOfNumber
    | InvalidUnicode | InvalidEscapeCharacter | InvalidCharacter

  // What a visitor hears besides the structure of the document.
  datatype Remark = Comment(offset: nat, length: nat) | Error(code: ErrorCode, offset: nat, length: nat)

  // A number stays the text that JSON.parse would read.
  datatype Scalar = NullValue | BoolValue(b: bool) | NumberValue(lexeme: Text) | StringValue(s: Text)

  // The calls of a visitor, in order.
  datatype Event =
    | ObjectBegin(offset: nat, length: nat)
    | ObjectProperty(name: Text, offset: nat, length: nat)
    | ObjectEnd(offset: nat, length: nat)
    | ArrayBegin(offset: nat, length: nat)
    | ArrayEnd(offset: nat, length: nat)
    | LiteralValue(value: Scalar, offset: nat, length: nat)
    | Separator(character: Kind, offset: nat, length: nat)
    | Note(remark: Remark)

  function Notes(remarks: seq<Remark>): (r: seq<Event>)
    ensures |r| == |remarks|
  {
    seq(|remarks|, i requires 0 <= i < |remarks| => Note(remarks[i]))
  }

  // A token and what is remarked while the scanner moves on from it to the next one.
  datatype Tok = Tok(kind: Kind, offset: nat, length: nat, value: Text, after: seq<Remark>)

  // All tokens that are neither trivia nor comments nor unknown; a stream ends with EOF.
  datatype Stream = Last(eof: Tok) | More(head: Tok, tail: Stream) {
    function Head(): Tok {
      if Last? then eof else head
    }

    function Kind(): Kind {
      if Last? then EOF else head.kind
    }

    function Next(): Stream {
      if Last? then this else tail
    }

    // The events of moving on.
    function Moved(): seq<Event> {
      if Last? then [] else Notes(head.after)
    }

    function Size(): nat {
      if Last? then 0 else 1 + tail.Size()
    }
  }

  datatype Lead = Lead(before: seq<Remark>, stream: Stream)

  // What scanNext (lines 1092-1136) remarks about one scanned item: first about its error, then about its kind.
  function Remarks(r: Scanned, offset: nat, length: nat, o: Options): seq<Remark> {
    FaultRemarks(r.error, offset, length, o) + KindRemarks(r.kind, offset, length, o)
  }

  function FaultRemarks(error: ScanError, offset: nat, length: nat, o: Options): seq<Remark> {
    match error
    case InvalidUnicode => [Error(ErrorCode.InvalidUnicode, offset, length)]
    case InvalidEscapeCharacter => [Error(ErrorCode.InvalidEscapeCharacter, offset, length)]
    case UnexpectedEndOfNumber => [Error(ErrorCode.UnexpectedEndOfNumber, offset, length)]
    case UnexpectedEndOfComment => if o.disallowComments then [] else [Error(ErrorCode.UnexpectedEndOfComment, offset, length)]
    case UnexpectedEndOfString => [Error(ErrorCode.UnexpectedEndOfString, offset, length)]
    case InvalidCharacter => [Error(ErrorCode.InvalidCharacter, offset, length)]
    case NoError => []
  }

  function KindRemarks(kind: Kind, offset: nat, length: nat, o: Options): seq<Remark> {
    if kind.IsComment() then
      if o.disallowComments then [Error(InvalidCommentToken, offset, length)] else [Comment(offset, length)]
    else if kind.Unknown? then [Error(InvalidSymbol, offset, length)]
    else []
  }

  function TokenAt(r: Scanned, text: Text, pos: nat): Tok {
    Tok(r.kind, if pos < |text| then pos else |text|, if pos < |text| then r.length else pos - |text|, r.value, [])
  }

  /** The tokens from a position on, with the remarks made before the first one. */
  function Tokens(text: Text, pos: nat, o: Options): Lead
    decreases if pos < |text| then |text| - pos else 0
  {
    var r := Scan(JsonScanner.From(text, pos));
    var t := TokenAt(r, text, pos);
    if r.kind.EOF? then Lead([], Last(t))
    else
      var rest := Tokens(text, pos + r.length, o);
      var said := Remarks(r, t.offset, t.length, o);
      if r.kind.IsReal() then Lead(said, More(t.(after := rest.before), rest.stream))
      else Lead(said + rest.before, rest.stream)
  }

  lemma TokensStep(text: Text, pos: nat, o: Options)
    ensures var r := Scan(JsonScanner.From(text, pos)); var t := TokenAt(r, text, pos); var rest := Tokens(text, pos + r.length, o);
      var said := Remarks(r, t.offset, t.length, o);
      if r.kind.EOF? then Tokens(text, pos, o) == Lead([], Last(t)) && said == []
      else if r.kind.IsReal() then Tokens(text, pos, o) == Lead(said, More(t.(after := rest.before), rest.stream))
      else Tokens(text, pos, o) == Lead(said + rest.before, rest.stream)
  {
    hide Scan;
  }

  datatype Result = Result(events: seq<Event>, rest: Stream, ok: bool)

  function Then(events: seq<Event>, r: Result): Result {
    r.(events := events + r.events)
  }

  function Fault(ts: Stream, code: ErrorCode): seq<Event> {
    [Note(Error(code, ts.Head().offset, ts.Head().length))]
  }

  // handleError's way forward
  function Skip(ts: Stream, after: set<Kind>, until: set<Kind>): (r: Result)
    ensures r.ok && r.rest.Size() <= ts.Size()
    ensures ts.Kind() !in until + {EOF} ==> r.rest.Size() < ts.Size()
    ensures after == {} ==> r.rest.Kind() in until + {EOF}
  {
    if ts.Kind() == EOF then Result([], ts, true)
    else if ts.Kind() in after then Result(ts.Moved(), ts.Next(), true)
    else if ts.Kind() in until then Result([], ts, true)
    else Then(ts.Moved(), Skip(ts.Next(), after, until))
  }

  function HandleError(ts: Stream, code: ErrorCode, after: set<Kind>, until: set<Kind>): (r: Result)
    ensures r.ok && r.rest.Size() <= ts.Size()
    ensures after + until != {} && ts.Kind() !in until + {EOF} ==> r.rest.Size() < ts.Size()
    ensures after == {} != until ==> r.rest.Kind() in until + {EOF}
  {
    if after + until == {} then Result(Fault(ts, code), ts, true) else Then(Fault(ts, code), Skip(ts, after, until))
  }

  // Whether JSON.parse reads a number token: the scanner leaves nothing else to check.
  predicate Parses(lexeme: Text) {
    lexeme != [] && lexeme[|lexeme| - 1] != DOT
  }

  function ScalarOf(t: Tok): Scalar {
    match t.kind
    case String => StringValue(t.value)
    case Number => NumberValue(if Parses(t.value) then t.value else [ZERO])
    case True => BoolValue(true)
    case False => BoolValue(false)
    case _ => NullValue
  }

  // parseString(true) and parseLiteral
  function Literal(ts: Stream): (r: Result)
    ensures r.rest.Size() <= ts.Size()
    ensures r.ok <==> ts.Kind().IsScalar()
    ensures r.ok ==> r.rest.Size() < ts.Size()
  {
    if !ts.Kind().IsScalar() then Result([], ts, false)
    else
      var t := ts.head;
      var fault := if t.kind.Number? && !Parses(t.value) then Fault(ts, InvalidNumberFormat) else [];
      Result(fault + [LiteralValue(ScalarOf(t), t.offset, t.length)] + ts.Moved(), ts.Next(), true)
  }

  const PROPERTY_ENDS := {CloseBrace, Comma}
  const ITEM_ENDS := {CloseBracket, Comma}

  function Value(ts: Stream, o: Options): (r: Result)
    ensures r.rest.Size() <= ts.Size()
    ensures r.ok ==> r.rest.Size() < ts.Size()
    decreases ts.Size(), 0
  {
    if ts.Kind().OpenBracket? then
      Then([ArrayBegin(ts.head.offset, ts.head.length)] + ts.Moved(), Items(ts.Next(), false, o))
    else if ts.Kind().OpenBrace? then
      Then([ObjectBegin(ts.head.offset, ts.head.length)] + ts.Moved(), Members(ts.Next(), false, o))
    else Literal(ts)
  }

  // The comma in front of an item or property: what it says, and where the parser stands then.
  function Lead1(ts: Stream, needsComma: bool): (r: Result)
    ensures r.rest.Size() <= ts.Size()
    ensures ts.Kind().Comma? ==> r.rest.Size() < ts.Size()
    ensures !ts.Kind().Comma? ==> r.rest == ts
  {
    if ts.Kind().Comma? then
      Result(
        (if needsComma then [] else Fault(ts, ValueExpected)) + [Separator(Comma, ts.head.offset, ts.head.length)] + ts.Moved(),
        ts.Next(), true)
    else Result(if needsComma then Fault(ts, CommaExpected) else [], ts, true)
  }

  // The loop of parseArray and what follows it.
  function Items(ts: Stream, needsComma: bool, o: Options): (r: Result)
    ensures r.ok && r.rest.Size() <= ts.Size()
    decreases ts.Size(), 3
  {
    if ts.Kind().CloseBracket? || ts.Kind().EOF? then ItemsEnd(ts)
    else
      var lead := Lead1(ts, needsComma);
      if ts.Kind().Comma? && lead.rest.Kind().CloseBracket? && o.allowTrailingComma then Then(lead.events, ItemsEnd(lead.rest))
      else
        var item := Item(lead.rest, o);
        assert item.rest.Size() < ts.Size();
        Then(lead.events + item.events, Items(item.rest, true, o))
  }

  function Item(ts: Stream, o: Options): (r: Result)
    ensures r.rest.Size() <= ts.Size()
    ensures ts.Kind() !in ITEM_ENDS + {EOF} ==> r.rest.Size() < ts.Size()
    decreases ts.Size(), 2
  {
    var v := Value(ts, o);
    if v.ok then v else Then(v.events, HandleError(v.rest, ValueExpected, {}, ITEM_ENDS))
  }

  function ItemsEnd(ts: Stream): (r: Result)
    ensures r.ok && r.rest.Size() <= ts.Size()
  {
    var end := [ArrayEnd(ts.Head().offset, ts.Head().length)];
    if ts.Kind().CloseBracket? then Result(end + ts.Moved(), ts.Next(), true)
    else Then(end, HandleError(ts, CloseBracketExpected, {CloseBracket}, {}))
  }

  // The loop of parseObject and what follows it.
  function Members(ts: Stream, needsComma: bool, o: Options): (r: Result)
    ensures r.ok && r.rest.Size() <= ts.Size()
    decreases ts.Size(), 3
  {
    if ts.Kind().CloseBrace? || ts.Kind().EOF? then MembersEnd(ts)
    else
      var lead := Lead1(ts, needsComma);
      if ts.Kind().Comma? && lead.rest.Kind().CloseBrace? && o.allowTrailingComma then Then(lead.events, MembersEnd(lead.rest))
      else
        var member := Member(lead.rest, o);
        assert member.rest.Size() < ts.Size();
        Then(lead.events + member.events, Members(member.rest, true, o))
  }

  function Member(ts: Stream, o: Options): (r: Result)
    ensures r.rest.Size() <= ts.Size()
    ensures ts.Kind() !in PROPERTY_ENDS + {EOF} ==> r.rest.Size() < ts.Size()
    decreases ts.Size(), 2
  {
    var p := Property(ts, o);
    if p.ok then p else Then(p.events, HandleError(p.rest, ValueExpected, {}, PROPERTY_ENDS))
  }

  // parseProperty
  function Property(ts: Stream, o: Options): (r: Result)
    ensures r.rest.Size() <= ts.Size()
    ensures ts.Kind() !in PROPERTY_ENDS + {EOF} ==> r.rest.Size() < ts.Size()
    decreases ts.Size(), 1
  {
    if !ts.Kind().String? then HandleError(ts, PropertyNameExpected, {}, PROPERTY_ENDS).(ok := false)
    else Then([ObjectProperty(ts.head.value, ts.head.offset, ts.head.length)] + ts.Moved(), PropertyRest(ts.Next(), o))
  }

  // Behind the name of a property.
  function PropertyRest(ts: Stream, o: Options): (r: Result)
    ensures r.ok && r.rest.Size() <= ts.Size()
    decreases ts.Size(), 1
  {
    if !ts.Kind().Colon? then HandleError(ts, ColonExpected, {}, PROPERTY_ENDS)
    else
      var v := Value(ts.Next(), o);
      Then([Separator(Colon, ts.head.offset, ts.head.length)] + ts.Moved(),
        if v.ok then v else Then(v.events, HandleError(v.rest, ValueExpected, {}, PROPERTY_ENDS)))
  }

  function MembersEnd(ts: Stream): (r: Result)
    ensures r.ok && r.rest.Size() <= ts.Size()
  {
    var end := [ObjectEnd(ts.Head().offset, ts.Head().length)];
    if ts.Kind().CloseBrace? then Result(end + ts.Moved(), ts.Next(), true)
    else Then(end, HandleError(ts, CloseBraceExpected, {CloseBrace}, {}))
  }

  /** Everything visit reports about a text, and what it returns. */
  function Visit(text: Text, o: Options): Result {
    var lead := Tokens(text, 0, o);
    Then(Notes(lead.before), Document(lead.stream, o))
  }

  function Document(ts: Stream, o: Options): Result {
    if ts.Kind().EOF? then
      if o.allowEmptyContent then Result([], ts, true) else HandleError(ts, ValueExpected, {}, {}).(ok := false)
    else
      var v := Value(ts, o);
      if !v.ok then Then(v.events, HandleError(v.rest, ValueExpected, {}, {}).(ok := false))
      else if v.rest.Kind().EOF? then v
      else Then(v.events, HandleError(v.rest, EndOfFileExpected, {}, {}))
  }
}
