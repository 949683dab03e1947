// parse (json.ts, lines 846-890): the value built from the visitor's calls.
module JsonParse {
  import opened Wrappers
  import opened JsonScan
  import opened JsonSyntax
  import opened JsonGrammar
  import opened JsonBrackets
  import opened JsonFold
  import opened JsonValue
  import JsonVisitor

  // A container that is being filled, and where its own next child belongs.
  datatype Frame = Frame(parent: Json, property: Option<Text>)

  datatype State = State(current: Json, property: Option<Text>, previous: seq<Frame>)

  // onValue: an object without a current property drops the value.
  function Add(parent: Json, property: Option<Text>, v: Json): Json {
    match parent
    case Array(items) => Array(items + [v])
    case Object(members) => if property.Some? then Object(members[property.value := v]) else parent
    case _ => parent
  }

  function Begin(s: State, empty: Json): State {
    State(empty, None, s.previous + [Frame(s.current, s.property)])
  }

  // A finished container takes its place in its parent.
  function End(s: State): State
    requires s.previous != []
  {
    var f := s.previous[|s.previous| - 1];
    State(Add(f.parent, f.property, s.current), s.property, s.previous[..|s.previous| - 1])
  }

  // What one call of the visitor does; None is the underflow of the stack of parents.
  function Call(e: Event, s: Option<State>): Option<State> {
    if s.None? then None
    else
      match e
      case ObjectBegin(_, _) => Some(Begin(s.value, Object(map[])))
      case ArrayBegin(_, _) => Some(Begin(s.value, Array([])))
      case ObjectProperty(name, _, _) => Some(s.value.(property := Some(name)))
      case ObjectEnd(_, _) => if s.value.previous == [] then None else Some(End(s.value))
      case ArrayEnd(_, _) => if s.value.previous == [] then None else Some(End(s.value))
      case LiteralValue(v, _, _) => Some(s.value.(current := Add(s.value.current, s.value.property, FromScalar(v))))
      case _ => s
  }

  lemma CallIsDeaf()
    ensures Deaf(Call)
  {
  }

  // The calls for a value add it where the next value belongs and leave the parents alone.
  ghost predicate Adds(before: State, after: Option<State>, v: Json) {
    && after.Some? && after.value.previous == before.previous
    && after.value.current == Add(before.current, before.property, v)
  }

  lemma {:induction false} RunValue(n: Node, s: State)
    ensures Adds(s, Fold(Call, Events(n), Some(s)), ValueOf(n))
    decreases n
  {
    hide Fold, Notes;
    match n
    case Lit(t) => FoldStep(Call, LiteralValue(ScalarOf(t), t.offset, t.length), t.after, Some(s));
    case Obj(open, ms) =>
      var begin := [ObjectBegin(open.offset, open.length)] + Notes(open.after);
      FoldStep(Call, ObjectBegin(open.offset, open.length), open.after, Some(s));
      FoldConcat(Call, begin, MembersEvents(ms), Some(s));
      RunMembers(ms, Begin(s, Object(map[])), map[], s);
    case Arr(open, xs) =>
      var begin := [ArrayBegin(open.offset, open.length)] + Notes(open.after);
      FoldStep(Call, ArrayBegin(open.offset, open.length), open.after, Some(s));
      FoldConcat(Call, begin, ItemsEvents(xs), Some(s));
      RunItems(xs, Begin(s, Array([])), [], s);
      assert [] + ItemValues(xs) == ItemValues(xs);
  }

  // s is the state in which the container was begun, inside the state within it.
  ghost predicate Inside(inner: State, s: State) {
    inner.previous == s.previous + [Frame(s.current, s.property)]
  }

  lemma RunArrayEnd(sep: Sep, close: Tok, inner: State)
    requires inner.previous != []
    ensures Fold(Call, ItemsEvents(EndItems(sep, close)), Some(inner)) == Some(End(inner))
  {
    hide SepEvents, Notes;
    FoldSep(Call, sep, Some(inner));
    var close' := [ArrayEnd(close.offset, close.length)] + Notes(close.after);
    FoldStep(Call, ArrayEnd(close.offset, close.length), close.after, Some(inner));
    assert ItemsEvents(EndItems(sep, close)) == SepEvents(sep) + close';
    FoldConcat(Call, SepEvents(sep), close', Some(inner));
  }

  lemma {:induction false} RunItems(xs: ItemList, inner: State, items: seq<Json>, s: State)
    requires Inside(inner, s) && inner.current == Array(items)
    ensures Adds(s, Fold(Call, ItemsEvents(xs), Some(inner)), Array(items + ItemValues(xs)))
    decreases xs
  {
    hide Events, ValueOf, SepEvents, Notes, Fold;
    match xs
    case EndItems(sep, close) =>
      RunArrayEnd(sep, close, inner);
      assert items + [] == items;
    case ConsItem(sep, v, more) =>
      FoldSep(Call, sep, Some(inner));
      RunValue(v, inner);
      var after := Fold(Call, Events(v), Some(inner));
      RunItems(more, after.value, items + [ValueOf(v)], s);
      FoldThree(Call, SepEvents(sep), Events(v), ItemsEvents(more), Some(inner));
      assert items + [ValueOf(v)] + ItemValues(more) == items + ([ValueOf(v)] + ItemValues(more));
  }

  lemma {:induction false} RunMembers(ms: MemberList, inner: State, members: map<Text, Json>, s: State)
    requires Inside(inner, s) && inner.current == Object(members)
    ensures Adds(s, Fold(Call, MembersEvents(ms), Some(inner)), Object(MembersInto(ms, members)))
    decreases ms
  {
    hide Events, ValueOf, SepEvents, Notes, NameEvents;
    match ms
    case EndMembers(sep, close) =>
      FoldSep(Call, sep, Some(inner));
      FoldStep(Call, ObjectEnd(close.offset, close.length), close.after, Some(inner));
      assert MembersEvents(ms) == SepEvents(sep) + ([ObjectEnd(close.offset, close.length)] + Notes(close.after));
      FoldConcat(Call, SepEvents(sep), [ObjectEnd(close.offset, close.length)] + Notes(close.after), Some(inner));
    case ConsMember(sep, key, colon, v, more) =>
      var named := inner.(property := Some(key.value));
      FoldSep(Call, sep, Some(inner));
      RunName(key, colon, inner);
      RunValue(v, named);
      var after := Fold(Call, Events(v), Some(named));
      RunMembers(more, after.value, members[key.value := ValueOf(v)], s);
      FoldConcat(Call, SepEvents(sep), NameEvents(key, colon), Some(inner));
      FoldConcat(Call, SepEvents(sep) + NameEvents(key, colon), Events(v), Some(inner));
      FoldConcat(Call, SepEvents(sep) + NameEvents(key, colon) + Events(v), MembersEvents(more), Some(inner));
  }

  lemma RunName(key: Tok, colon: Tok, inner: State)
    ensures Fold(Call, NameEvents(key, colon), Some(inner)) == Some(inner.(property := Some(key.value)))
  {
    var name := [ObjectProperty(key.value, key.offset, key.length)] + Notes(key.after);
    var sep := [Separator(Colon, colon.offset, colon.length)] + Notes(colon.after);
    var named := Some(inner.(property := Some(key.value)));
    FoldStep(Call, name[0], key.after, Some(inner));
    FoldStep(Call, sep[0], colon.after, named);
    FoldConcat(Call, name, sep, Some(inner));
    assert NameEvents(key, colon) == name + sep;
  }

  // The stack of parents follows the nesting of the events.
  lemma {:induction false} RunTracks(events: seq<Event>, s: State)
    requires s.previous == [] && Track(events, Open([])).Open?
    ensures Fold(Call, events, Some(s)).Some? && |Fold(Call, events, Some(s)).value.previous| == |Track(events, Open([])).stack|
    decreases |events|
  {
    if events != [] {
      RunTracks(events[..|events| - 1], s);
    }
  }

  // The bottom of the stack, below everything that is still open.
  function Bottom(s: State): Json {
    if s.previous == [] then s.current else s.previous[0].parent
  }

  lemma {:induction false} BottomIsArray(events: seq<Event>, s: State)
    requires Bottom(s).Array? && Fold(Call, events, Some(s)).Some?
    ensures Bottom(Fold(Call, events, Some(s)).value).Array?
    decreases |events|
  {
    if events != [] {
      BottomIsArray(events[..|events| - 1], s);
    }
  }

  const START := Some(State(Array([]), None, []))

  /** On any text the stack of parents never underflows and ends at the artificial root. */
  lemma ParseReturnsToRoot(text: Text, o: Options)
    ensures var s := Fold(Call, Visit(text, o).events, START);
      s.Some? && s.value.previous == [] && s.value.current.Array?
  {
    VisitBalanced(text, o);
    RunTracks(Visit(text, o).events, START.value);
    BottomIsArray(Visit(text, o).events, START.value);
  }

  function ErrorsIn(events: seq<Event>): seq<Remark> {
    if events == [] then []
    else
      var e := events[|events| - 1];
      ErrorsIn(events[..|events| - 1]) + (if e.Note? && e.remark.Error? then [e.remark] else [])
  }

  lemma {:induction false} NoErrorsIn(events: seq<Event>)
    ensures ErrorsIn(events) == [] <==> NoErrors(events)
    decreases |events|
  {
    if events != [] {
      var k := |events| - 1;
      NoErrorsIn(events[..k]);
      assert events == events[..k] + [events[k]];
      NoErrorsConcat(events[..k], [events[k]]);
      assert NoErrors([events[k]]) <==> !([events[k]][0].Note? && [events[k]][0].remark.Error?);
    }
  }

  /** What parse returns for a text. */
  ghost function Parsed(text: Text, o: Options): Option<Json> {
    var s := Fold(Call, Visit(text, o).events, START);
    if s.Some? && s.value.current.Array? && s.value.current.items != [] then Some(s.value.current.items[0]) else None
  }

  /** A document parses to its value. */
  lemma ParsedDocument(text: Text, n: Node, o: Options)
    requires IsDocument(text, n, o)
    ensures Parsed(text, o) == Some(ValueOf(n))
  {
    VisitDocument(text, n, o);
    hide IsDocument, Visit, Events, Tokens, ValueOf, Notes;
    var before := Notes(Tokens(text, 0, o).before);
    FoldNotes(Call, Tokens(text, 0, o).before, START);
    FoldConcat(Call, before, Events(n), START);
    RunValue(n, START.value);
  }

  lemma ParsedNothing(text: Text, o: Options)
    requires IsNothing(text, o)
    ensures Parsed(text, o) == None
  {
    VisitNothing(text, o);
    CallIsDeaf();
    FoldNotes(Call, Tokens(text, 0, o).before, START);
  }

  class Builder {
    var currentProperty: Option<Text>
    var currentParent: Json
    var previousParents: seq<Frame>
    var errors: seq<Remark>

    constructor ()
      ensures Some(Current()) == START && errors == []
    {
      currentProperty, currentParent, previousParents, errors := None, Array([]), [], [];
    }

    ghost function Current(): State
      reads this
    {
      State(currentParent, currentProperty, previousParents)
    }

    method OnValue(value: Json)
      modifies this`currentParent
      ensures currentParent == Add(old(currentParent), currentProperty, value)
    {
      if currentParent.Array? {
        currentParent := Array(currentParent.items + [value]);
      } else if currentParent.Object? && currentProperty != None {
        currentParent := Object(currentParent.members[currentProperty.value := value]);
      }
    }

    method OnBegin(container: Json)
      modifies this
      ensures Current() == Begin(old(Current()), container) && errors == old(errors)
    {
      previousParents := previousParents + [Frame(currentParent, currentProperty)];
      currentParent := container;
      currentProperty := None;
    }

    method OnEnd()
      requires previousParents != []
      modifies this
      ensures Current() == End(old(Current())) && errors == old(errors)
    {
      var frame := previousParents[|previousParents| - 1];
      previousParents := previousParents[..|previousParents| - 1];
      var property, finished := currentProperty, currentParent;
      currentParent, currentProperty := frame.parent, frame.property;
      OnValue(finished);
      currentProperty := property;
    }

    method OnEvent(e: Event)
      requires Call(e, Some(Current())).Some?
      modifies this
      ensures Some(Current()) == Call(e, Some(old(Current())))
      ensures errors == old(errors) + (if e.Note? && e.remark.Error? then [e.remark] else [])
    {
      match e {
        case ObjectBegin(_, _) => OnBegin(Object(map[]));
        case ArrayBegin(_, _) => OnBegin(Array([]));
        case ObjectProperty(name, _, _) => currentProperty := Some(name);
        case ObjectEnd(_, _) => OnEnd();
        case ArrayEnd(_, _) => OnEnd();
        case LiteralValue(value, _, _) => OnValue(FromScalar(value));
        case Separator(_, _, _) =>
        case Note(remark) =>
          if remark.Error? {
            errors := errors + [remark];
          }
      }
    }
  }

  /** parse: total on every text; on a document it is the document's value, and it reports an error exactly elsewhere. */
  method Parse(text: Text, o: Options) returns (value: Option<Json>, errors: seq<Remark>)
    ensures value == Parsed(text, o) && errors == ErrorsIn(Visit(text, o).events)
    ensures forall n :: IsDocument(text, n, o) ==> value == Some(ValueOf(n))
    ensures IsNothing(text, o) ==> value == None
    ensures errors == [] <==> IsNothing(text, o) || exists n :: IsDocument(text, n, o)
  {
    hide Visit, Call, IsDocument, IsNothing;
    var builder := new Builder();
    var events, _ := JsonVisitor.Visit(text, o);
    ParseReturnsToRoot(text, o);
    for i := 0 to |events|
      invariant Fold(Call, events[..i], START) == Some(builder.Current())
      invariant builder.errors == ErrorsIn(events[..i])
    {
      assert events[..i + 1][..i] == events[..i];
      RunPrefix(events, i + 1, START);
      builder.OnEvent(events[i]);
    }
    assert events[..|events|] == events;
    value := if builder.currentParent.items == [] then None else Some(builder.currentParent.items[0]);
    errors := builder.errors;
    NoErrorsIn(events);
    ErrorFreeIffDocument(text, o);
    forall n | IsDocument(text, n, o) ensures value == Some(ValueOf(n)) {
      ParsedDocument(text, n, o);
    }
    if IsNothing(text, o) {
      ParsedNothing(text, o);
    }
  }

  // Once underflown, always underflown.
  lemma {:induction false} RunPrefix(events: seq<Event>, i: nat, s: Option<State>)
    requires i <= |events| && Fold(Call, events, s).Some?
    ensures Fold(Call, events[..i], s).Some?
    decreases |events|
  {
    if i < |events| {
      RunPrefix(events[..|events| - 1], i, s);
      assert events[..|events| - 1][..i] == events[..i];
    } else {
      assert events[..i] == events;
    }
  }
}
