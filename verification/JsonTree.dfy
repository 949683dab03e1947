// parseTree, getNodeValue and findNodeAtOffset (json.ts, lines 896-956 and 1016-1063).
module JsonTree {
  import opened Wrappers
  import opened JsonScan
  import opened JsonSyntax
  import opened JsonGrammar
  import opened JsonBrackets
  import opened JsonFold
  import opened JsonValue
  import JsonParse
  import JsonScanner
  import JsonVisitor

  datatype NodeType = ObjectType | ArrayType | PropertyType | StringType | NumberType | BooleanType | NullType

  // A node of the DOM. Its parent is the node that has it among its children.
  datatype Dom = Dom(
    nodeType: NodeType, value: Option<Scalar>, offset: int, length: int, colonOffset: Option<nat>, children: seq<Dom>)
  {
    function End(): int {
      offset + length
    }
  }

  function GetNodeType(value: Scalar): NodeType {
    match value
    case NullValue => NullType
    case BoolValue(_) => BooleanType
    case NumberValue(_) => NumberType
    case StringValue(_) => StringType
  }

  function Leaf(value: Scalar, offset: int, length: int): Dom {
    Dom(GetNodeType(value), Some(value), offset, length, None, [])
  }

  function Container(nodeType: NodeType, offset: int): Dom {
    Dom(nodeType, None, offset, -1, None, [])
  }

  // The nodes from the artificial root to the current parent.
  type Spine = s: seq<Dom> | s != [] witness [Dom(ArrayType, None, -1, -1, None, [])]

  const ROOT: Dom := Container(ArrayType, -1)
  const START: Option<Spine> := Some([ROOT])

  function Top(s: Spine): Dom {
    s[|s| - 1]
  }

  function SetTop(s: Spine, d: Dom): Spine {
    s[..|s| - 1] + [d]
  }

  // onValue
  function AddChild(s: Spine, d: Dom): Spine {
    SetTop(s, Top(s).(children := Top(s).children + [d]))
  }

  // currentParent = currentParent.parent; None where there is none
  function Pop(s: Spine): Option<Spine> {
    if |s| == 1 then None else Some(AddChild(s[..|s| - 1], Top(s)))
  }

  function SetEnd(s: Spine, end: int): Spine {
    SetTop(s, Top(s).(length := end - Top(s).offset))
  }

  // ensurePropertyComplete
  function Complete(s: Spine, end: int): Option<Spine> {
    if Top(s).nodeType.PropertyType? then Pop(SetEnd(s, end)) else Some(s)
  }

  // onObjectEnd and onArrayEnd: whatever the current node is.
  function Ended(s: Spine, end: int): Option<Spine> {
    match Pop(SetEnd(s, end))
    case None => None
    case Some(t) => Complete(t, end)
  }

  function Call(e: Event, st: Option<Spine>): Option<Spine> {
    if st.None? then None
    else
      var s := st.value;
      match e
      case ObjectBegin(offset, _) => Some(s + [Container(ObjectType, offset)])
      case ArrayBegin(offset, _) => Some(s + [Container(ArrayType, offset)])
      case ObjectProperty(name, offset, length) =>
        Some(s + [Container(PropertyType, offset).(children := [Leaf(StringValue(name), offset, length)])])
      case ObjectEnd(offset, length) => Ended(s, offset + length)
      case ArrayEnd(offset, length) => Ended(s, offset + length)
      case LiteralValue(value, offset, length) => Complete(AddChild(s, Leaf(value, offset, length)), offset + length)
      case Separator(character, offset, _) =>
        if !Top(s).nodeType.PropertyType? then st
        else if character.Colon? then Some(SetTop(s, Top(s).(colonOffset := Some(offset))))
        else if character.Comma? then Complete(s, offset)
        else st
      case Note(_) => st
  }

  lemma CallIsDeaf()
    ensures Deaf(Call)
  {
  }

  // The containers, as opposed to properties, on the way to the root.
  function Containers(s: seq<Dom>): nat {
    if s == [] then 0
    else Containers(s[..|s| - 1]) + (if s[|s| - 1].nodeType.PropertyType? then 0 else 1)
  }

  // At least one container is open for every one that the events left open, besides the root.
  ghost predicate Covered(s: Spine, open: nat) {
    Containers(s) >= 1 + open && s[0].nodeType.ArrayType?
  }

  lemma ContainersOfTop(s: Spine, d: Dom)
    ensures Containers(SetTop(s, d)) == Containers(s[..|s| - 1]) + (if d.nodeType.PropertyType? then 0 else 1)
    ensures Containers(s + [d]) == Containers(s) + (if d.nodeType.PropertyType? then 0 else 1)
  {
    assert SetTop(s, d)[..|s| - 1] == s[..|s| - 1];
    assert (s + [d])[..|s|] == s;
  }

  lemma SetTopKeeps(s: Spine, d: Dom)
    requires d.nodeType == Top(s).nodeType
    ensures Containers(SetTop(s, d)) == Containers(s) && SetTop(s, d)[0].nodeType == s[0].nodeType
  {
    ContainersOfTop(s, d);
    ContainersOfTop(s, Top(s));
    assert SetTop(s, Top(s)) == s;
  }

  lemma PopKeeps(s: Spine)
    requires s[0].nodeType.ArrayType? && |s| > 1
    ensures Pop(s).Some? && Pop(s).value[0].nodeType.ArrayType?
    ensures Containers(Pop(s).value) == Containers(s) - (if Top(s).nodeType.PropertyType? then 0 else 1)
  {
    var t := s[..|s| - 1];
    SetTopKeeps(t, Top(t).(children := Top(t).children + [Top(s)]));
  }

  lemma CompleteKeeps(s: Spine, end: int, open: nat)
    requires Covered(s, open)
    ensures Complete(s, end).Some? && Covered(Complete(s, end).value, open)
  {
    if Top(s).nodeType.PropertyType? {
      SetTopKeeps(s, Top(s).(length := end - Top(s).offset));
      assert |s| > 1;
      PopKeeps(SetEnd(s, end));
    }
  }

  lemma EndedKeeps(s: Spine, end: int, open: nat)
    requires Covered(s, open + 1)
    ensures Ended(s, end).Some? && Covered(Ended(s, end).value, open)
  {
    assert |s| > 1 by {
      assert s[..0] == [] && Containers([]) == 0;
    }
    SetTopKeeps(s, Top(s).(length := end - Top(s).offset));
    PopKeeps(SetEnd(s, end));
    CompleteKeeps(Pop(SetEnd(s, end)).value, end, open);
  }

  lemma CallKeeps(e: Event, s: Spine, n: Nesting)
    requires n.Open? && Covered(s, |n.stack|) && Step(e, n).Open?
    ensures Call(e, Some(s)).Some? && Covered(Call(e, Some(s)).value, |Step(e, n).stack|)
  {
    hide Containers, Complete, Ended;
    var open := |n.stack|;
    match e
    case ObjectBegin(offset, _) => ContainersOfTop(s, Container(ObjectType, offset));
    case ArrayBegin(offset, _) => ContainersOfTop(s, Container(ArrayType, offset));
    case ObjectProperty(name, offset, length) =>
      ContainersOfTop(s, Container(PropertyType, offset).(children := [Leaf(StringValue(name), offset, length)]));
    case ObjectEnd(offset, length) => EndedKeeps(s, offset + length, open - 1);
    case ArrayEnd(offset, length) => EndedKeeps(s, offset + length, open - 1);
    case LiteralValue(value, offset, length) =>
      SetTopKeeps(s, Top(s).(children := Top(s).children + [Leaf(value, offset, length)]));
      CompleteKeeps(AddChild(s, Leaf(value, offset, length)), offset + length, open);
    case Separator(character, offset, _) =>
      SetTopKeeps(s, Top(s).(colonOffset := Some(offset)));
      CompleteKeeps(s, offset, open);
    case Note(_) =>
  }

  lemma {:induction false} RunKeeps(events: seq<Event>)
    requires Track(events, Open([])).Open?
    ensures var s := Fold(Call, events, START); s.Some? && Covered(s.value, |Track(events, Open([])).stack|)
    decreases |events|
  {
    if events == [] {
      assert [ROOT][..0] == [] && Containers([]) == 0;
    } else {
      var k := |events| - 1;
      RunKeeps(events[..k]);
      CallKeeps(events[k], Fold(Call, events[..k], START).value, Track(events[..k], Open([])));
    }
  }

  /** On any text parseTree never climbs above its artificial root. */
  lemma TreeNeverUnderflows(text: Text, o: Options)
    ensures Fold(Call, Visit(text, o).events, START).Some?
  {
    VisitBalanced(text, o);
    RunKeeps(Visit(text, o).events);
  }

  // The DOM of a document.
  function TokEnd(t: Tok): nat {
    t.offset + t.length
  }

  function NodeOffset(n: Node): nat {
    match n case Lit(t) => t.offset case Obj(open, _) => open.offset case Arr(open, _) => open.offset
  }

  function NodeEnd(n: Node): nat {
    match n
    case Lit(t) => TokEnd(t)
    case Obj(_, ms) => TokEnd(MembersClose(ms))
    case Arr(_, xs) => TokEnd(ItemsClose(xs))
  }

  function MembersClose(ms: MemberList): Tok {
    match ms case EndMembers(_, close) => close case ConsMember(_, _, _, _, more) => MembersClose(more)
  }

  function ItemsClose(xs: ItemList): Tok {
    match xs case EndItems(_, close) => close case ConsItem(_, _, more) => ItemsClose(more)
  }

  function DomOf(n: Node): Dom
    decreases n, 0
  {
    match n
    case Lit(t) => Leaf(ScalarOf(t), t.offset, t.length)
    case Obj(open, ms) => Dom(ObjectType, None, open.offset, NodeEnd(n) - open.offset, None, MembersDom(ms))
    case Arr(open, xs) => Dom(ArrayType, None, open.offset, NodeEnd(n) - open.offset, None, ItemsDom(xs))
  }

  function MembersDom(ms: MemberList): seq<Dom> {
    match ms
    case EndMembers(_, _) => []
    case ConsMember(_, key, colon, v, more) => [PropertyDom(key, colon, v)] + MembersDom(more)
  }

  function PropertyDom(key: Tok, colon: Tok, v: Node): Dom
    decreases v, 1
  {
    Dom(PropertyType, None, key.offset, NodeEnd(v) - key.offset, Some(colon.offset),
      [Leaf(StringValue(key.value), key.offset, key.length), DomOf(v)])
  }

  function ItemsDom(xs: ItemList): seq<Dom> {
    match xs
    case EndItems(_, _) => []
    case ConsItem(_, v, more) => [DomOf(v)] + ItemsDom(more)
  }

  // A finished value becomes a child, and completes the property it belongs to.
  function Placed(s: Spine, d: Dom): Option<Spine> {
    Complete(AddChild(s, d), d.End())
  }

  lemma {:induction false} RunValue(n: Node, s: Spine)
    ensures Fold(Call, Events(n), Some(s)) == Placed(s, DomOf(n))
    decreases n, 0
  {
    hide Complete, Fold;
    CallIsDeaf();
    match n
    case Lit(t) => FoldStep(Call, LiteralValue(ScalarOf(t), t.offset, t.length), t.after, Some(s));
    case Obj(open, ms) =>
      var begin := [ObjectBegin(open.offset, open.length)] + Notes(open.after);
      FoldStep(Call, ObjectBegin(open.offset, open.length), open.after, Some(s));
      FoldConcat(Call, begin, MembersEvents(ms), Some(s));
      RunMembers(ms, s, Container(ObjectType, open.offset));
      assert [] + MembersDom(ms) == MembersDom(ms);
    case Arr(open, xs) =>
      var begin := [ArrayBegin(open.offset, open.length)] + Notes(open.after);
      FoldStep(Call, ArrayBegin(open.offset, open.length), open.after, Some(s));
      FoldConcat(Call, begin, ItemsEvents(xs), Some(s));
      RunItems(xs, s, Container(ArrayType, open.offset));
      assert [] + ItemsDom(xs) == ItemsDom(xs);
  }

  lemma CommaInContainer(s: Spine, d: Dom, sep: Sep)
    requires !d.nodeType.PropertyType?
    ensures Fold(Call, SepEvents(sep), Some(s + [d])) == Some(s + [d])
  {
    CallIsDeaf();
    assert Top(s + [d]) == d;
    FoldSep(Call, sep, Some(s + [d]));
  }

  lemma EndPlaces(s: Spine, d: Dom, end: int)
    ensures Ended(s + [d], end) == Placed(s, d.(length := end - d.offset))
  {
    var d' := d.(length := end - d.offset);
    assert (s + [d])[..|s|] == s && SetEnd(s + [d], end) == s + [d'];
    assert (s + [d'])[..|s|] == s;
  }

  lemma PlacedInContainer(s: Spine, d: Dom, child: Dom)
    requires !d.nodeType.PropertyType?
    ensures Placed(s + [d], child) == Some(s + [d.(children := d.children + [child])])
  {
    assert (s + [d])[..|s|] == s;
  }

  lemma {:induction false} RunItems(xs: ItemList, s: Spine, d: Dom)
    requires d.nodeType.ArrayType?
    ensures Fold(Call, ItemsEvents(xs), Some(s + [d])) ==
      Placed(s, d.(children := d.children + ItemsDom(xs), length := TokEnd(ItemsClose(xs)) - d.offset))
    decreases xs
  {
    hide Placed, Events, Complete, Ended, Fold, DomOf, SepEvents;
    CallIsDeaf();
    var inner: Option<Spine> := Some(s + [d]);
    match xs
    case EndItems(sep, close) =>
      CommaInContainer(s, d, sep);
      FoldStep(Call, ArrayEnd(close.offset, close.length), close.after, inner);
      FoldConcat(Call, SepEvents(sep), [ArrayEnd(close.offset, close.length)] + Notes(close.after), inner);
      assert SepEvents(sep) + [ArrayEnd(close.offset, close.length)] + Notes(close.after)
        == SepEvents(sep) + ([ArrayEnd(close.offset, close.length)] + Notes(close.after));
      EndPlaces(s, d, TokEnd(close));
      assert d.children + [] == d.children;
    case ConsItem(sep, v, more) =>
      CommaInContainer(s, d, sep);
      RunValue(v, s + [d]);
      PlacedInContainer(s, d, DomOf(v));
      var d' := d.(children := d.children + [DomOf(v)]);
      RunItems(more, s, d');
      FoldThree(Call, SepEvents(sep), Events(v), ItemsEvents(more), inner);
      assert d'.children + ItemsDom(more) == d.children + ([DomOf(v)] + ItemsDom(more));
  }

  lemma {:induction false} RunMembers(ms: MemberList, s: Spine, d: Dom)
    requires d.nodeType.ObjectType?
    ensures Fold(Call, MembersEvents(ms), Some(s + [d])) ==
      Placed(s, d.(children := d.children + MembersDom(ms), length := TokEnd(MembersClose(ms)) - d.offset))
    decreases ms
  {
    hide Placed, Events, Complete, Ended, NameEvents, Fold, DomOf, PropertyDom, SepEvents;
    CallIsDeaf();
    var inner: Option<Spine> := Some(s + [d]);
    match ms
    case EndMembers(sep, close) =>
      CommaInContainer(s, d, sep);
      FoldStep(Call, ObjectEnd(close.offset, close.length), close.after, inner);
      FoldConcat(Call, SepEvents(sep), [ObjectEnd(close.offset, close.length)] + Notes(close.after), inner);
      assert SepEvents(sep) + [ObjectEnd(close.offset, close.length)] + Notes(close.after)
        == SepEvents(sep) + ([ObjectEnd(close.offset, close.length)] + Notes(close.after));
      EndPlaces(s, d, TokEnd(close));
      assert d.children + [] == d.children;
    case ConsMember(sep, key, colon, v, more) =>
      CommaInContainer(s, d, sep);
      RunMember(key, colon, v, s, d);
      var d' := d.(children := d.children + [PropertyDom(key, colon, v)]);
      RunMembers(more, s, d');
      FoldFour(Call, SepEvents(sep), NameEvents(key, colon), Events(v), MembersEvents(more), inner);
      assert d'.children + MembersDom(more) == d.children + ([PropertyDom(key, colon, v)] + MembersDom(more));
  }

  lemma RunMember(key: Tok, colon: Tok, v: Node, s: Spine, d: Dom)
    requires d.nodeType.ObjectType?
    ensures var inner: Option<Spine> := Some(s + [d]);
      Fold(Call, Events(v), Fold(Call, NameEvents(key, colon), inner))
      == Some(s + [d.(children := d.children + [PropertyDom(key, colon, v)])])
    decreases v, 1
  {
    hide Placed, Events, Complete, NameEvents, Fold, DomOf, PropertyDom;
    assert Top(s + [d]) == d;
    RunName(key, colon, s + [d]);
    RunValue(v, s + [d] + [Named(key, colon)]);
    PlacedInProperty(s + [d], key, colon, v);
    PlacedInContainer(s, d, PropertyDom(key, colon, v));
  }

  // A property whose value is still missing.
  function Named(key: Tok, colon: Tok): Dom {
    Dom(PropertyType, None, key.offset, -1, Some(colon.offset), [Leaf(StringValue(key.value), key.offset, key.length)])
  }

  lemma RunName(key: Tok, colon: Tok, s: Spine)
    ensures Fold(Call, NameEvents(key, colon), Some(s)) == Some(s + [Named(key, colon)])
  {
    CallIsDeaf();
    var begun := s + [Named(key, colon).(colonOffset := None)];
    assert begun[..|s|] == s;
    var name := ObjectProperty(key.value, key.offset, key.length);
    var sep := Separator(Colon, colon.offset, colon.length);
    FoldStep(Call, name, key.after, Some(s));
    FoldStep(Call, sep, colon.after, Some(begun));
    FoldConcat(Call, [name] + Notes(key.after), [sep] + Notes(colon.after), Some(s));
    assert NameEvents(key, colon) == ([name] + Notes(key.after)) + ([sep] + Notes(colon.after));
  }

  lemma PlacedInProperty(s: Spine, key: Tok, colon: Tok, v: Node)
    requires !Top(s).nodeType.PropertyType?
    ensures Placed(s + [Named(key, colon)], DomOf(v)) == Placed(s, PropertyDom(key, colon, v))
  {
    DomEnd(v);
    var t := s + [Named(key, colon)];
    assert t[..|s|] == s && Top(t) == Named(key, colon);
    var full := AddChild(t, DomOf(v));
    assert Named(key, colon).children + [DomOf(v)] == PropertyDom(key, colon, v).children;
    assert full == s + [Named(key, colon).(children := PropertyDom(key, colon, v).children)];
    assert full[..|s|] == s;
    var ended := SetEnd(full, NodeEnd(v));
    assert ended == s + [PropertyDom(key, colon, v)];
    assert ended[..|s|] == s;
  }

  lemma DomEnd(n: Node)
    ensures DomOf(n).offset == NodeOffset(n) && DomOf(n).End() == NodeEnd(n)
  {
  }

  /** What parseTree returns: the first child of the current node. */
  ghost function Tree(text: Text, o: Options): Option<Dom> {
    var s := Fold(Call, Visit(text, o).events, START);
    if s.Some? && Top(s.value).children != [] then Some(Top(s.value).children[0]) else None
  }

  lemma TreeOfDocument(text: Text, n: Node, o: Options)
    requires IsDocument(text, n, o)
    ensures Tree(text, o) == Some(DomOf(n))
  {
    VisitDocument(text, n, o);
    hide IsDocument, Visit, Events, Tokens, DomOf, Notes;
    CallIsDeaf();
    var before := Tokens(text, 0, o).before;
    FoldNotes(Call, before, START);
    FoldConcat(Call, Notes(before), Events(n), START);
    RunValue(n, [ROOT]);
  }

  // getNodeValue; undefined for a property node.
  function GetNodeValue(d: Dom): Option<Json>
    decreases d
  {
    match d.nodeType
    case ArrayType => Some(Array(ItemsValue(d.children)))
    case ObjectType => Some(Object(PropertiesValue(d.children, map[])))
    case PropertyType => None
    case _ => if d.value.Some? then Some(FromScalar(d.value.value)) else None
  }

  // An undefined item, which only a malformed text can bring about, is left out.
  function ItemsValue(ds: seq<Dom>): seq<Json>
    decreases ds
  {
    if ds == [] then []
    else (match GetNodeValue(ds[0]) case Some(v) => [v] case None => []) + ItemsValue(ds[1..])
  }

  function PropertiesValue(ds: seq<Dom>, m: map<Text, Json>): map<Text, Json>
    decreases ds
  {
    if ds == [] then m
    else
      var children := ds[0].children;
      if |children| < 2 || !(children[0].value.Some? && children[0].value.value.StringValue?) then PropertiesValue(ds[1..], m)
      else
        match GetNodeValue(children[1])
        case Some(v) => PropertiesValue(ds[1..], m[children[0].value.value.s := v])
        case None => PropertiesValue(ds[1..], m)
  }

  lemma {:induction false} NodeValueOfDom(n: Node)
    ensures GetNodeValue(DomOf(n)) == Some(ValueOf(n))
    decreases n
  {
    match n
    case Lit(_) =>
    case Obj(_, ms) => PropertiesValueOfDom(ms, map[]);
    case Arr(_, xs) => ItemsValueOfDom(xs);
  }

  lemma {:induction false} ItemsValueOfDom(xs: ItemList)
    ensures ItemsValue(ItemsDom(xs)) == ItemValues(xs)
    decreases xs
  {
    if xs.ConsItem? {
      NodeValueOfDom(xs.value);
      ItemsValueOfDom(xs.more);
      assert ItemsDom(xs)[1..] == ItemsDom(xs.more);
    }
  }

  lemma {:induction false} PropertiesValueOfDom(ms: MemberList, m: map<Text, Json>)
    ensures PropertiesValue(MembersDom(ms), m) == MembersInto(ms, m)
    decreases ms
  {
    if ms.ConsMember? {
      NodeValueOfDom(ms.value);
      PropertiesValueOfDom(ms.more, m[ms.key.value := ValueOf(ms.value)]);
      assert MembersDom(ms)[1..] == MembersDom(ms.more);
    }
  }

  lemma TreeOfNothing(text: Text, o: Options)
    requires IsNothing(text, o)
    ensures Tree(text, o) == None
  {
    VisitNothing(text, o);
    CallIsDeaf();
    FoldNotes(Call, Tokens(text, 0, o).before, START);
  }

  /** On a text parsed without errors both builders agree; a text without tokens has no node and no value. */
  lemma BuildersAgree(text: Text, o: Options)
    requires NoErrors(Visit(text, o).events)
    ensures (match Tree(text, o) case None => None case Some(d) => GetNodeValue(d)) == JsonParse.Parsed(text, o)
    ensures Tree(text, o) == None <==> IsNothing(text, o)
  {
    hide Visit, NoErrors, Tree, JsonParse.Parsed, IsNothing, IsDocument, GetNodeValue, DomOf;
    ErrorFreeIffDocument(text, o);
    if n :| IsDocument(text, n, o) {
      TreeOfDocument(text, n, o);
      JsonParse.ParsedDocument(text, n, o);
      NodeValueOfDom(n);
      DocumentIsSomething(text, n, o);
    } else {
      TreeOfNothing(text, o);
      JsonParse.ParsedNothing(text, o);
    }
  }

  lemma DocumentIsSomething(text: Text, n: Node, o: Options)
    requires IsDocument(text, n, o)
    ensures !IsNothing(text, o)
  {
  }

  class Builder {
    var spine: Spine
    var errors: seq<Remark>

    constructor ()
      ensures Some(spine) == START && errors == []
    {
      spine, errors := [ROOT], [];
    }

    method EnsurePropertyComplete(endOffset: int)
      requires Complete(spine, endOffset).Some?
      modifies this`spine
      ensures Some(spine) == Complete(old(spine), endOffset)
    {
      if Top(spine).nodeType.PropertyType? {
        spine := SetEnd(spine, endOffset);
        Climb();
      }
    }

    // currentParent = currentParent.parent
    method Climb()
      requires Pop(spine).Some?
      modifies this`spine
      ensures Some(spine) == Pop(old(spine))
    {
      spine := AddChild(spine[..|spine| - 1], Top(spine));
    }

    method OnEnd(endOffset: int)
      requires Ended(spine, endOffset).Some?
      modifies this`spine
      ensures Some(spine) == Ended(old(spine), endOffset)
    {
      spine := SetEnd(spine, endOffset);
      Climb();
      EnsurePropertyComplete(endOffset);
    }

    method OnSeparator(character: Kind, offset: nat, ghost length: nat)
      requires Call(Separator(character, offset, length), Some(spine)).Some?
      modifies this`spine
      ensures Some(spine) == Call(Separator(character, offset, length), Some(old(spine)))
    {
      if Top(spine).nodeType.PropertyType? {
        if character.Colon? {
          spine := SetTop(spine, Top(spine).(colonOffset := Some(offset)));
        } else if character.Comma? {
          EnsurePropertyComplete(offset);
        }
      }
    }

    method OnEvent(e: Event)
      requires Call(e, Some(spine)).Some?
      modifies this
      ensures Some(spine) == Call(e, Some(old(spine)))
      ensures errors == old(errors) + (if e.Note? && e.remark.Error? then [e.remark] else [])
    {
      hide Complete, Ended;
      match e {
        case ObjectBegin(offset, _) => spine := spine + [Container(ObjectType, offset)];
        case ArrayBegin(offset, _) => spine := spine + [Container(ArrayType, offset)];
        case ObjectProperty(name, offset, length) =>
          spine := spine + [Container(PropertyType, offset).(children := [Leaf(StringValue(name), offset, length)])];
        case ObjectEnd(offset, length) => OnEnd(offset + length);
        case ArrayEnd(offset, length) => OnEnd(offset + length);
        case LiteralValue(value, offset, length) =>
          spine := AddChild(spine, Leaf(value, offset, length));
          EnsurePropertyComplete(offset + length);
        case Separator(character, offset, length) => OnSeparator(character, offset, length);
        case Note(remark) =>
          if remark.Error? {
            errors := errors + [remark];
          }
      }
    }
  }

  lemma {:induction false} FoldPrefix(events: seq<Event>, i: nat, st: Option<Spine>)
    requires i <= |events| && Fold(Call, events, st).Some?
    ensures Fold(Call, events[..i], st).Some?
    decreases |events|
  {
    if i < |events| {
      FoldPrefix(events[..|events| - 1], i, st);
      assert events[..|events| - 1][..i] == events[..i];
    } else {
      assert events[..i] == events;
    }
  }

  /** parseTree: total on every text, and on a document the document's nodes. */
  method ParseTree(text: Text, o: Options) returns (root: Option<Dom>, errors: seq<Remark>)
    ensures root == Tree(text, o) && errors == JsonParse.ErrorsIn(Visit(text, o).events)
    ensures forall n :: IsDocument(text, n, o) ==> root == Some(DomOf(n))
    ensures IsNothing(text, o) ==> root == None
    ensures errors == [] <==> IsNothing(text, o) || exists n :: IsDocument(text, n, o)
  {
    hide Visit, Call, IsDocument, IsNothing, DomOf;
    var builder := new Builder();
    var events, _ := JsonVisitor.Visit(text, o);
    TreeNeverUnderflows(text, o);
    for i := 0 to |events|
      invariant Fold(Call, events[..i], START) == Some(builder.spine)
      invariant builder.errors == JsonParse.ErrorsIn(events[..i])
    {
      assert events[..i + 1][..i] == events[..i];
      FoldNext(Call, events, i, START);
      FoldPrefix(events, i + 1, START);
      builder.OnEvent(events[i]);
    }
    assert events[..|events|] == events;
    var children := Top(builder.spine).children;
    root := if children == [] then None else Some(children[0]);
    errors := builder.errors;
    JsonParse.NoErrorsIn(events);
    ErrorFreeIffDocument(text, o);
    forall n | IsDocument(text, n, o) ensures root == Some(DomOf(n)) {
      TreeOfDocument(text, n, o);
    }
    if IsNothing(text, o) {
      TreeOfNothing(text, o);
    }
  }

  // Ranges.

  // contains
  predicate Contains(d: Dom, offset: int, includeRightBound: bool) {
    d.offset <= offset < d.End() || (includeRightBound && offset == d.End())
  }

  /** Ranges lie inside that of the parent; those of siblings are in order and do not even touch. */
  ghost predicate Nested(d: Dom) {
    && d.length > 0
    && (forall i :: 0 <= i < |d.children| ==>
      d.offset <= d.children[i].offset && d.children[i].End() <= d.End() && Nested(d.children[i]))
    && (forall i, j :: 0 <= i < j < |d.children| ==> d.children[i].End() < d.children[j].offset)
  }

  // t is d or somewhere below it.
  ghost predicate Within(t: Dom, d: Dom) {
    t == d || exists i :: 0 <= i < |d.children| && Within(t, d.children[i])
  }

  lemma {:induction false} AncestorsContain(t: Dom, d: Dom, offset: int, includeRightBound: bool)
    requires Nested(d) && Within(t, d) && Contains(t, offset, includeRightBound)
    ensures Contains(d, offset, includeRightBound)
    decreases d
  {
    if t != d {
      var i :| 0 <= i < |d.children| && Within(t, d.children[i]);
      AncestorsContain(t, d.children[i], offset, includeRightBound);
    }
  }

  /** r is the innermost node of d at the offset: it lies inside every node that contains the offset. */
  ghost predicate Innermost(r: Dom, d: Dom, offset: int, includeRightBound: bool) {
    && Within(r, d) && Contains(r, offset, includeRightBound)
    && forall t :: Within(t, d) && Contains(t, offset, includeRightBound) ==> Within(r, t)
  }

  // No two children contain the same offset.
  lemma OneChildContains(d: Dom, i: nat, j: nat, offset: int, includeRightBound: bool)
    requires Nested(d) && i < |d.children| && j < |d.children|
    requires Contains(d.children[i], offset, includeRightBound) && Contains(d.children[j], offset, includeRightBound)
    ensures i == j
  {
  }

  lemma InnermostOfChild(r: Dom, d: Dom, i: nat, offset: int, includeRightBound: bool)
    requires Nested(d) && i < |d.children| && Innermost(r, d.children[i], offset, includeRightBound)
    ensures Innermost(r, d, offset, includeRightBound)
  {
    assert forall j :: 0 <= j < |d.children| ==> Nested(d.children[j]);
    hide Nested, Contains;
    AncestorsContain(r, d.children[i], offset, includeRightBound);
    forall t | Within(t, d) && Contains(t, offset, includeRightBound) ensures Within(r, t) {
      if t != d {
        var j :| 0 <= j < |d.children| && Within(t, d.children[j]);
        AncestorsContain(t, d.children[j], offset, includeRightBound);
        OneChildContains(d, i, j, offset, includeRightBound);
      }
    }
  }

  lemma InnermostItself(d: Dom, offset: int, includeRightBound: bool)
    requires Nested(d) && Contains(d, offset, includeRightBound)
    requires forall i :: 0 <= i < |d.children| ==> !Contains(d.children[i], offset, includeRightBound)
    ensures Innermost(d, d, offset, includeRightBound)
  {
    forall t | Within(t, d) && Contains(t, offset, includeRightBound) ensures Within(d, t) {
      if t != d {
        var j :| 0 <= j < |d.children| && Within(t, d.children[j]);
        AncestorsContain(t, d.children[j], offset, includeRightBound);
      }
    }
  }

  // The children from one that begins behind the offset on do not contain it.
  lemma BeyondOffset(d: Dom, i: nat, offset: int, includeRightBound: bool)
    requires Nested(d) && i <= |d.children| && (i < |d.children| ==> d.children[i].offset > offset)
    ensures forall j :: i <= j < |d.children| ==> !Contains(d.children[j], offset, includeRightBound)
  {
    forall j | i <= j < |d.children| ensures d.children[j].offset > offset {
      assert i < j ==> d.children[i].End() < d.children[j].offset;
    }
  }

  method FindNodeAtOffset(node: Dom, offset: int, includeRightBound: bool) returns (r: Option<Dom>)
    ensures Nested(node) ==> (r.Some? <==> Contains(node, offset, includeRightBound))
    ensures Nested(node) && r.Some? ==> Innermost(r.value, node, offset, includeRightBound)
    decreases node
  {
    hide Within, Innermost;
    if Contains(node, offset, includeRightBound) {
      var children := node.children;
      var i := 0;
      while i < |children| && children[i].offset <= offset
        invariant 0 <= i <= |children|
        invariant Nested(node) ==> forall j :: 0 <= j < i ==> !Contains(children[j], offset, includeRightBound)
      {
        var item := FindNodeAtOffset(children[i], offset, includeRightBound);
        if item.Some? {
          if Nested(node) {
            InnermostOfChild(item.value, node, i, offset, includeRightBound);
          }
          return item;
        }
        i := i + 1;
      }
      if Nested(node) {
        BeyondOffset(node, i, offset, includeRightBound);
        InnermostItself(node, offset, includeRightBound);
      }
      return Some(node);
    }
    return None;
  }

  // Tokens follow each other without overlap.
  ghost predicate Ordered(ts: Stream) {
    ts.Last? || (ts.head.length > 0 && TokEnd(ts.head) <= ts.tail.Head().offset && Ordered(ts.tail))
  }

  lemma {:induction false} TokensOrdered(text: Text, pos: nat, o: Options)
    ensures Ordered(Tokens(text, pos, o).stream)
    ensures pos <= |text| ==> Tokens(text, pos, o).stream.Head().offset >= pos
    ensures Tokens(text, pos, o).stream.Head().offset <= |text|
    ensures pos > |text| ==> Tokens(text, pos, o).stream.Head().offset == |text|
    decreases if pos < |text| then |text| - pos else 0
  {
    hide Scan, Remarks, Tokens;
    var s := JsonScanner.From(text, pos);
    var r := Scan(s);
    ScanLength(s);
    TokensStep(text, pos, o);
    if !r.kind.EOF? {
      TokensOrdered(text, pos + r.length, o);
      BareIsNotReal(s);
    }
  }

  lemma BareIsNotReal(s: Text)
    ensures IsBareComment(s) ==> Scan(s).kind.BlockComment?
  {
  }

  lemma {:induction false} ValueNested(n: Node, tail: Stream, o: Options)
    requires WellFormed(n, o) && Ordered(Put(n, tail))
    ensures Nested(DomOf(n)) && Ordered(tail)
    ensures NodeOffset(n) == Put(n, tail).Head().offset && NodeEnd(n) <= tail.Head().offset
    decreases n
  {
    DomEnd(n);
    match n
    case Lit(t) =>
    case Obj(open, ms) => MembersNested(ms, tail, true, o);
    case Arr(open, xs) => ItemsNested(xs, tail, true, o);
  }

  // Where the next value begins, or behind the comma in front of it.
  function BehindComma(ts: Stream): int {
    if ts.Kind().Comma? then TokEnd(ts.Head()) else ts.Head().offset
  }

  lemma PutStarts(n: Node, tail: Stream, o: Options)
    requires WellFormed(n, o)
    ensures !Put(n, tail).Kind().Comma?
  {
  }

  lemma PropertyNested(key: Tok, colon: Tok, v: Node)
    requires key.length > 0 && colon.length > 0 && TokEnd(key) <= colon.offset && TokEnd(colon) <= NodeOffset(v)
    requires Nested(DomOf(v))
    ensures Nested(PropertyDom(key, colon, v))
  {
    DomEnd(v);
    assert Nested(Leaf(StringValue(key.value), key.offset, key.length));
  }

  // Nodes in order, all of them from one offset up to another.
  ghost predicate InRange(ds: seq<Dom>, from: int, end: int) {
    && from <= end
    && (forall i :: 0 <= i < |ds| ==> from <= ds[i].offset && ds[i].End() <= end && Nested(ds[i]))
    && (forall i, j :: 0 <= i < j < |ds| ==> ds[i].End() < ds[j].offset)
  }

  lemma OneMoreInRange(d: Dom, ds: seq<Dom>, from: int, middle: int, end: int)
    requires Nested(d) && from <= d.offset && d.End() <= middle && InRange(ds, middle, end)
    requires ds != [] ==> d.End() < middle
    ensures InRange([d] + ds, from, end)
  {
  }

  lemma {:induction false} ItemsNested(xs: ItemList, tail: Stream, first: bool, o: Options)
    requires ItemsWellFormed(xs, first, o) && Ordered(PutItems(xs, tail))
    ensures Ordered(tail) && ItemsClose(xs).length > 0 && TokEnd(ItemsClose(xs)) <= tail.Head().offset
    ensures PutItems(xs, tail).Head().length > 0
    ensures InRange(ItemsDom(xs), BehindComma(PutItems(xs, tail)), ItemsClose(xs).offset)
    decreases xs
  {
    hide Nested;
    match xs
    case EndItems(sep, close) =>
    case ConsItem(sep, v, more) =>
      DomEnd(v);
      PutStarts(v, PutItems(more, tail), o);
      ValueNested(v, PutItems(more, tail), o);
      ItemsNested(more, tail, false, o);
      OneMoreInRange(DomOf(v), ItemsDom(more), BehindComma(PutItems(xs, tail)), BehindComma(PutItems(more, tail)), ItemsClose(xs).offset);
  }

  lemma {:induction false} MembersNested(ms: MemberList, tail: Stream, first: bool, o: Options)
    requires MembersWellFormed(ms, first, o) && Ordered(PutMembers(ms, tail))
    ensures Ordered(tail) && MembersClose(ms).length > 0 && TokEnd(MembersClose(ms)) <= tail.Head().offset
    ensures PutMembers(ms, tail).Head().length > 0
    ensures InRange(MembersDom(ms), BehindComma(PutMembers(ms, tail)), MembersClose(ms).offset)
    decreases ms
  {
    hide Nested;
    match ms
    case EndMembers(sep, close) =>
    case ConsMember(sep, key, colon, v, more) =>
      var rest := PutMembers(more, tail);
      assert Ordered(More(key, More(colon, Put(v, rest))));
      assert Ordered(More(colon, Put(v, rest)));
      ValueNested(v, rest, o);
      MembersNested(more, tail, false, o);
      PropertyNested(key, colon, v);
      OneMoreInRange(PropertyDom(key, colon, v), MembersDom(more), BehindComma(PutMembers(ms, tail)), BehindComma(rest), MembersClose(ms).offset);
  }

  /** The nodes of a document nest, so that findNodeAtOffset finds the innermost one. */
  lemma DocumentNested(text: Text, n: Node, o: Options)
    requires IsDocument(text, n, o)
    ensures Tree(text, o) == Some(DomOf(n)) && Nested(DomOf(n))
  {
    TreeOfDocument(text, n, o);
    TokensOrdered(text, 0, o);
    hide Tokens, Events, Nested, DomOf, NoErrors, WellFormed, Ordered, Put;
    var eof :| Tokens(text, 0, o).stream == Put(n, Last(eof));
    ValueNested(n, Last(eof), o);
  }
}
