// findNodeAtLocation (json.ts, lines 961-991) and the body of setProperty (jsonEdit.ts, lines 14-120), for paths of keys.
module JsonPropertyEdit {
  import opened Wrappers
  import opened JsonScan
  import opened JsonScanner
  import opened JsonSyntax
  import opened JsonGrammar
  import opened JsonValue
  import opened JsonLex
  import opened JsonWords
  import opened JsonTree
  import opened JsonUpdate
  import opened JsonQuote
  import opened JsonSetProperty
  import opened JsonShape
  import opened JsonLonely
  import opened JsonFormatSpec
  import opened JsonFormatMeaning
  import opened JsonEdit
  import JsonParse

  predicate HasName(d: Dom, key: Text) {
    d.children != [] && d.children[0].value == Some(StringValue(key))
  }

  // The first property with a name; their number if there is none.
  function PropertyIndex(ds: seq<Dom>, key: Text): (i: nat)
    ensures i <= |ds| && (i < |ds| ==> HasName(ds[i], key)) && forall j :: 0 <= j < i ==> !HasName(ds[j], key)
  {
    if ds == [] || HasName(ds[0], key) then 0 else 1 + PropertyIndex(ds[1..], key)
  }

  // One step of findNodeAtLocation; a property without a value has undefined there.
  function Child(d: Dom, key: Text): Option<Dom> {
    var i := PropertyIndex(d.children, key);
    if !d.nodeType.ObjectType? || i == |d.children| || |d.children[i].children| < 2 then None else Some(d.children[i].children[1])
  }

  function Locate(d: Dom, path: Keys): Option<Dom>
    decreases |path|
  {
    if path == [] then Some(d)
    else
      match Child(d, path[0])
      case None => None
      case Some(c) => Locate(c, path[1..])
  }

  method FindNodeAtLocation(root: Option<Dom>, path: Keys) returns (r: Option<Dom>)
    ensures r == if root.None? then None else Locate(root.value, path)
  {
    if root.None? {
      return None;
    }
    var node := root.value;
    assert path[0..] == path;
    for i := 0 to |path|
      invariant Locate(root.value, path) == Locate(node, path[i..])
    {
      var segment := path[i];
      assert path[i..][0] == segment && path[i..][1..] == path[i + 1..];
      if !node.nodeType.ObjectType? {
        return None;
      }
      var k := 0;
      while k < |node.children| && !HasName(node.children[k], segment)
        invariant k <= |node.children| && forall j :: 0 <= j < k ==> !HasName(node.children[j], segment)
      {
        k := k + 1;
      }
      assert PropertyIndex(node.children, segment) == k;
      if k == |node.children| || |node.children[k].children| < 2 {
        return None;
      }
      node := node.children[k].children[1];
    }
    r := Some(node);
  }

  // The children of an object's node are its members.

  lemma {:induction false} ChildOfDom(ms: MemberList, i: nat)
    ensures |MembersDom(ms)| == Count(ms) == |KeysOf(ms)|
    ensures i < Count(ms) ==> Drop(ms, i).ConsMember?
    ensures i < Count(ms) ==> MembersDom(ms)[i] == PropertyDom(Drop(ms, i).key, Drop(ms, i).colon, Drop(ms, i).value)
    decreases ms
  {
    if ms.ConsMember? {
      ChildOfDom(ms.more, if i > 0 then i - 1 else 0);
    }
  }

  lemma {:induction false} PropertyOfDom(ms: MemberList, key: Text)
    ensures var i := PropertyIndex(MembersDom(ms), key);
      && (i < |MembersDom(ms)| <==> key in KeysOf(ms)) && |MembersDom(ms)| == Count(ms)
      && (i < Count(ms) ==> IsFirst(ms, i, key) && Drop(ms, i).ConsMember? && Find(ms, key) == Some(Drop(ms, i).value))
    decreases ms
  {
    if ms.ConsMember? {
      PropertyOfDom(ms.more, key);
      assert MembersDom(ms)[1..] == MembersDom(ms.more);
      var c := MembersDom(ms)[0].children[0];
      assert c.value == Some(StringValue(ms.key.value));
    }
  }

  lemma ChildOfNode(n: Node, key: Text)
    ensures Child(DomOf(n), key) ==
      if n.Obj? && Find(n.members, key).Some? then Some(DomOf(Find(n.members, key).value)) else None
  {
    if n.Obj? {
      PropertyOfDom(n.members, key);
      ChildOfDom(n.members, PropertyIndex(MembersDom(n.members), key));
      FindIffKey(n.members, key);
    }
  }

  /** The DOM of a document is searched like the document. */
  lemma {:induction false} LocateNode(n: Node, path: Keys)
    ensures Locate(DomOf(n), path) == (match Lookup(n, path) case None => None case Some(m) => Some(DomOf(m)))
    decreases |path|
  {
    if path != [] {
      hide Child, DomOf;
      ChildOfNode(n, path[0]);
      if n.Obj? && Find(n.members, path[0]).Some? {
        LocateNode(Find(n.members, path[0]).value, path[1..]);
      }
    }
  }

  // Where the first k children end, and where a child begins.
  lemma {:induction false} EndOfDom(ms: MemberList, k: nat, q: nat)
    requires 0 < k <= Count(ms) && |MembersDom(ms)| == Count(ms)
    ensures MembersDom(ms)[k - 1].End() == EndPos(ms, k, q)
    decreases ms
  {
    DomEnd(ms.value);
    ChildOfDom(ms.more, 0);
    if k > 1 {
      EndOfDom(ms.more, k - 1, NodeEnd(ms.value));
      assert MembersDom(ms)[k - 1] == MembersDom(ms.more)[k - 2];
    }
  }

  /** The text has no comments, and is a document or has no tokens at all. */
  ghost predicate Readable(text: Text, n: Option<Node>) {
    && Clean(text)
    && match n case Some(d) => IsDocument(text, d, DEFAULT) && UniqueKeys(d) case None => Lexemes(text) == []
  }

  lemma EmptyTree(text: Text, o: Options)
    requires Clean(text) && Lexemes(text) == []
    ensures Tree(text, o) == None
  {
    CleanIffSilent(text, 0, o);
    WordsOfTokens(text, 0, o);
    FromZero(text);
    var lead := Tokens(text, 0, o);
    assert lead.stream.Last?;
    var events := JsonSyntax.Visit(text, o).events;
    assert Notes([]) == [];
    var remarks := if o.allowEmptyContent then [] else [Error(ValueExpected, lead.stream.eof.offset, lead.stream.eof.length)];
    assert events == Notes(remarks);
    CallIsDeaf();
    JsonFold.FoldNotes(Call, remarks, START);
  }

  // What setProperty has found out when its loop ends.
  datatype Target = Target(parent: Option<Dom>, path: Keys, last: Option<Text>, value: Option<Text>)

  // Objects around a node.
  function NestNode(path: Keys, n: Node): Node
    decreases |path|
  {
    if path == [] then n else WrappedNode(path[0], NestNode(path[1..], n))
  }

  lemma {:induction false} NestValue(path: Keys, n: Node)
    ensures ValueOf(NestNode(path, n)) == Nest(path, ValueOf(n))
    decreases |path|
  {
    if path != [] {
      NestValue(path[1..], n);
      hide ValueOf;
      var inner := NestNode(path[1..], n);
      var end := EndMembers(NoComma, New(CloseBrace, []));
      ObjValue(New(OpenBrace, []), WrappedNode(path[0], inner).members);
      assert MembersInto(WrappedNode(path[0], inner).members, map[]) == MembersInto(end, map[][path[0] := ValueOf(inner)]);
    }
  }

  lemma NestEmpty(n: Node)
    ensures NestNode([], n) == n
  {
  }

  // One segment less.
  lemma PathStep(path: Keys, k: nat, before: Keys, v: Node)
    requires before <= path && |before| == k + 1
    ensures before[..k] <= path && before == before[..k] + [before[k]] && before[k] == path[k]
    ensures NestNode(path[k..], v) == WrappedNode(before[k], NestNode(path[k + 1..], v))
  {
    assert path[k..][0] == path[k] && path[k..][1..] == path[k + 1..];
  }

  // The loop of lines 21-33.
  method FindParent(root: Option<Dom>, originalPath: Keys, value: Option<Text>, ghost v: Node) returns (t: Target)
    requires value.Some? ==> DenotesTree(value.value, v)
    ensures t.value.Some? <==> value.Some?
    ensures originalPath == [] ==> t == Target(None, [], None, value)
    ensures originalPath != [] ==> t.last.Some? && t.path + [t.last.value] <= originalPath
    ensures originalPath != [] ==> t.parent == (if root.None? then None else Locate(root.value, t.path))
    ensures originalPath != [] && value.None? ==> t.path == Parent(originalPath)
    ensures originalPath != [] && t.parent.None? && value.Some? ==> t.path == []
    ensures value.Some? ==> (var rest := if originalPath == [] then [] else originalPath[|t.path| + 1..];
      DenotesTree(t.value.value, if originalPath != [] && t.parent.None? then NestNode(originalPath, v) else NestNode(rest, v)))
    ensures originalPath != [] && |t.path| + 1 < |originalPath| && root.Some? && value.Some? ==>
      Locate(root.value, t.path + [t.last.value]) == None
  {
    assert root.Some? ==> Locate(root.value, []).Some?;
    hide DenotesTree, Locate, NestNode, Wrapped, ValueOf, WrappedNode;
    assert NestNode([], v) == v by {
      NestEmpty(v);
    }
    var path, text, parent: Option<Dom>, last := originalPath, value, None, None;
    assert originalPath[|originalPath|..] == [];
    while path != []
      invariant path <= originalPath && (text.Some? <==> value.Some?)
      invariant text.Some? ==> DenotesTree(text.value, NestNode(originalPath[|path|..], v))
      invariant parent == None && (path == originalPath ==> last == None && text == value)
      invariant path != originalPath ==> last == Some(originalPath[|path|]) && value.Some?
      invariant path != originalPath ==> root.None? || Locate(root.value, path) == None
    {
      ghost var before := path;
      last := Some(path[|path| - 1]);
      path := path[..|path| - 1];
      PathStep(originalPath, |path|, before, v);
      parent := FindNodeAtLocation(root, path);
      if parent.None? && text.Some? {
        var content := Wrapped(last.value, text.value);
        WrappedTree(last.value, text.value, NestNode(originalPath[|before|..], v));
        text := Some(content);
      } else {
        return Target(parent, path, last, text);
      }
    }
    assert originalPath[0..] == originalPath;
    t := Target(parent, path, last, text);
  }

  // What an edit of a readable text has to achieve.

  /** The edit fits the text and turns it into a document with the given value. */
  ghost predicate Yields(text: Text, e: Edit, to_: Json) {
    && Fits(e, text) && JsonParse.Parsed(ApplyEdit(text, e), DEFAULT) == Some(to_)
    && exists d :: IsDocument(ApplyEdit(text, e), d, DEFAULT) && ValueOf(d) == to_
  }

  /** The edit fits the text and turns it into a document with the given tree. */
  ghost predicate Shapes(text: Text, e: Edit, t: Node) {
    Fits(e, text) && exists d :: IsDocument(ApplyEdit(text, e), d, DEFAULT) && Alike(d, t)
  }

  // A change that leads to a clean text; formatting it does not change what it parses to.
  ghost predicate Leads(text: Text, e: Edit, t: Node) {
    Fits(e, text) && DenotesTree(ApplyEdit(text, e), t)
  }

  lemma LeadsFormatted(text: Text, e: Edit, r: Edit, options: FormattingOptions, t: Node)
    requires Leads(text, e, t) && AllTrivia(options.eol)
    requires Turns(ApplyEdit(text, e), 0, Edits(JobFor(ApplyEdit(text, e), FormatRange(text, e), options)), ApplyEdit(text, r))
    requires Fits(r, text)
    ensures Yields(text, r, ValueOf(t)) && Shapes(text, r, t)
  {
    hide *;
    LeadsFits(text, e, t);
    MergedKeepsTokens(text, e, options, ApplyEdit(text, r));
    DocumentByWords(ApplyEdit(text, r), t, DEFAULT);
    YieldsBy(text, r, t);
  }

  // A change that leads to a clean text with a comma behind an opening brace.
  ghost predicate Misleads(text: Text, e: Edit) {
    Fits(e, text) && Clean(ApplyEdit(text, e)) && HasSlot(Lexemes(ApplyEdit(text, e)))
  }

  lemma MisleadsFormatted(text: Text, e: Edit, r: Edit, options: FormattingOptions)
    requires Misleads(text, e) && AllTrivia(options.eol)
    requires Turns(ApplyEdit(text, e), 0, Edits(JobFor(ApplyEdit(text, e), FormatRange(text, e), options)), ApplyEdit(text, r))
    ensures forall to_ :: !Yields(text, r, to_)
  {
    hide Clean, Lexemes, HasSlot, ApplyEdit, Turns, Edits, JobFor, FormatRange, IsDocument;
    var now := ApplyEdit(text, r);
    MergedKeepsTokens(text, e, options, now);
    forall d ensures !IsDocument(now, d, DEFAULT) {
      SlotIsNoDocument(now, d, DEFAULT);
    }
  }

  lemma YieldsBy(text: Text, e: Edit, t: Node)
    requires Fits(e, text) && JsonParse.Parsed(ApplyEdit(text, e), DEFAULT) == Some(ValueOf(t))
    requires exists d :: IsDocument(ApplyEdit(text, e), d, DEFAULT) && ValueOf(d) == ValueOf(t) && Alike(d, t)
    ensures Yields(text, e, ValueOf(t)) && Shapes(text, e, t)
  {
  }

  lemma LeadsFits(text: Text, e: Edit, t: Node)
    requires Leads(text, e, t)
    ensures Fits(e, text) && Clean(ApplyEdit(text, e)) && WellFormed(t, DEFAULT) && Lexemes(ApplyEdit(text, e)) == NodeWords(t)
  {
  }

  lemma BecomesLeads(text: Text, e: Edit, n: Node, path: Keys, m: Node)
    requires Fits(e, text) && BecomesTree(ApplyEdit(text, e), n, path, m) && WellFormed(n, DEFAULT) && UniqueKeys(n)
    ensures Lookup(n, path).Some? && Leads(text, e, Replace(n, path, m))
    ensures ValueOf(Replace(n, path, m)) == SetIn(ValueOf(n), path, ValueOf(m))
  {
    hide ValueOf, NodeWords, Replace, Lexemes, Clean, Fits, ApplyEdit, UniqueKeys;
    ReplaceWellFormed(n, path, m, DEFAULT);
    ValueReplaced(n, path, m);
  }

  // The edits of setProperty before they are formatted.

  /** An existing value is overwritten. */
  lemma Overwrites(text: Text, n: Node, path: Keys, content: Text, v: Node) returns (m: Node)
    requires Clean(text) && IsDocument(text, n, DEFAULT) && UniqueKeys(n) && Lookup(n, path).Some? && DenotesTree(content, v)
    ensures Lookup(n, path) == Some(m)
    ensures Leads(text, Edit(DomOf(m).offset, DomOf(m).length, content), Replace(n, path, v))
    ensures ValueOf(Replace(n, path, v)) == SetIn(ValueOf(n), path, ValueOf(v))
  {
    hide Clean, IsDocument, UniqueKeys, Lookup, DenotesTree, Leads, DomOf, NodeOffset, NodeEnd, Becomes, BecomesTree, ApplyEdit, SetIn, ValueOf,
      WellFormed, Stands, Replace;
    m := Lookup(n, path).value;
    var rest := StandsAt(text, n, path);
    ReplacedValue(text, n, path, rest, content, v);
    DomEnd(m);
    StandsIn(text, n, path, rest);
    var e := Edit(DomOf(m).offset, DomOf(m).length, content);
    ApplyFitting(text, e);
    BecomesLeads(text, e, n, path, v);
  }

  lemma StandsIn(text: Text, n: Node, path: Keys, rest: Stream)
    requires Stands(text, n, path, rest)
    ensures WellFormed(n, DEFAULT) && Lookup(n, path).Some?
    ensures var m := Lookup(n, path).value; NodeOffset(m) <= NodeEnd(m) <= |text|
  {
  }

  // An opening brace is one unit long.
  lemma BraceLength(text: Text, n: Node, path: Keys, rest: Stream)
    requires Stands(text, n, path, rest) && Lookup(n, path).value.Obj?
    ensures TokEnd(Lookup(n, path).value.open) == NodeOffset(Lookup(n, path).value) + 1
  {
    var m := Lookup(n, path).value;
    ReplaceWellFormed(n, path, n, DEFAULT);
    JsonCut.MarksCut(text, NodeOffset(m), Put(m, rest), DEFAULT);
    JsonCut.MarksNext(text, NodeOffset(m), Put(m, rest), DEFAULT);
    TokensAt(text, NodeOffset(m), Put(m, rest));
  }

  lemma TokensAt(text: Text, q: nat, ts: Stream)
    requires JsonCut.Marks(text, q, ts, DEFAULT) && ts.More? && ts.head.offset == q && ts.head.kind.IsPunctuation()
    ensures ts.head.length == 1
  {
    TokensFirst(text, q, DEFAULT);
  }

  // A punctuation token at the position itself is one unit long.
  lemma {:induction false} TokensFirst(text: Text, q: nat, o: Options)
    ensures var ts := Tokens(text, q, o).stream; ts.More? && ts.head.kind.IsPunctuation() ==> ts.head.length == 1
    decreases if q < |text| then |text| - q else 0
  {
    hide Remarks, Scan, Tokens, From;
    var r := Scan(From(text, q));
    TokensStep(text, q, o);
    PunctuationLength(From(text, q));
    if !r.kind.EOF? && !r.kind.IsReal() {
      TokensFirst(text, q + r.length, o);
    }
  }

  lemma PunctuationLength(s: Text)
    ensures Scan(s).kind.IsPunctuation() ==> Scan(s).length == 1
  {
  }

  // A member is written behind the first k children of an object.
  function InsertionEdit(parent: Dom, k: nat, key: Text, content: Text): Edit
    requires k <= |parent.children|
  {
    Edit(if k > 0 then parent.children[k - 1].End() else parent.offset + 1, 0, InsertedText(key, content, k, |parent.children|))
  }

  lemma Inserts(text: Text, n: Node, at: Keys, k: nat, key: Text, content: Text, v: Node)
    requires Clean(text) && IsDocument(text, n, DEFAULT) && UniqueKeys(n) && DenotesTree(content, v)
    requires Lookup(n, at).Some? && Lookup(n, at).value.Obj? && key !in KeysOf(Lookup(n, at).value.members)
    requires k <= |DomOf(Lookup(n, at).value).children|
    ensures var m := Lookup(n, at).value;
      k <= |KeysOf(m.members)| &&
      var t := Replace(n, at, Obj(m.open, WithMember(m.members, k, key, v)));
      && Leads(text, InsertionEdit(DomOf(m), k, key, content), t)
      && ValueOf(t) == SetIn(ValueOf(n), at, Object(MembersInto(m.members, map[])[key := ValueOf(v)]))
  {
    var m := Lookup(n, at).value;
    var ms := m.members;
    assert DomOf(m).children == MembersDom(ms);
    ChildOfDom(ms, 0);
    DomEnd(m);
    var rest := StandsAt(text, n, at);
    BraceLength(text, n, at, rest);
    InsertedMember(text, n, at, rest, k, key, content, v);
    var q := EndPos(ms, k, TokEnd(m.open));
    if k > 0 {
      EndOfDom(ms, k, TokEnd(m.open));
    }
    var e := InsertionEdit(DomOf(m), k, key, content);
    assert e.offset == q && e.length == 0;
    StandsIn(text, n, at, rest);
    IntoInserted(ms, k, New(Kind.String, key), New(Colon, []), v, New(Comma, []), map[]);
    ObjValue(m.open, WithMember(ms, k, key, v));
    hide *;
    FitsAt(text, e, q, q);
    BecomesLeads(text, e, n, at, Obj(m.open, WithMember(ms, k, key, v)));
  }

  lemma FitsAt(text: Text, e: Edit, b: nat, end: nat)
    requires b <= end <= |text| && e.offset == b && e.length == end - b
    ensures Fits(e, text) && ApplyEdit(text, e) == text[..b] + e.content + text[end..]
  {
  }

  // lines 48-63
  function RemovalEdit(parent: Dom, index: nat): Edit
    requires index < |parent.children|
  {
    var begin := if index > 0 then parent.children[index - 1].End() else parent.offset + 1;
    var end := if index == 0 && |parent.children| > 1 then parent.children[1].offset else parent.children[index].End();
    Edit(begin, end - begin, [])
  }

  lemma Cuts(text: Text, n: Node, at: Keys, k: nat, key: Text)
    requires Clean(text) && IsDocument(text, n, DEFAULT) && UniqueKeys(n)
    requires Lookup(n, at).Some? && Lookup(n, at).value.Obj?
    requires k < Count(Lookup(n, at).value.members) && IsFirst(Lookup(n, at).value.members, k, key)
    requires k < |DomOf(Lookup(n, at).value).children|
    requires k > 0 || !Lonely(Lookup(n, at).value.members)
    ensures var m := Lookup(n, at).value;
      var t := Replace(n, at, Obj(m.open, RemoveFrom(m.members, key, true)));
      && Leads(text, RemovalEdit(DomOf(m), k), t)
      && ValueOf(t) == SetIn(ValueOf(n), at, Object(MembersInto(m.members, map[]) - {key}))
  {
    var m := Lookup(n, at).value;
    var ms := m.members;
    assert DomOf(m).children == MembersDom(ms);
    ChildOfDom(ms, 1);
    DomEnd(m);
    LookupValue(n, at);
    var rest := StandsAt(text, n, at);
    BraceLength(text, n, at, rest);
    var e := RemovalEdit(DomOf(m), k);
    EndOfDom(ms, k + 1, TokEnd(m.open));
    StandsIn(text, n, at, rest);
    ghost var b, end: nat;
    if k > 0 {
      EndOfDom(ms, k, TokEnd(m.open));
      RemovedLater(text, n, at, rest, k, key);
      b, end := EndPos(ms, k, TokEnd(m.open)), EndPos(ms, k + 1, TokEnd(m.open));
    } else {
      RemovedFirst(text, n, at, rest, key);
      b, end := TokEnd(m.open), if ms.more.ConsMember? then ms.more.key.offset else NodeEnd(ms.value);
      assert ms.more.ConsMember? ==> Drop(ms, 1) == ms.more;
    }
    assert e == Edit(b, end - b, []);
    FirstIsFound(ms, k, key);
    IntoRemoved(ms, map[], key, true);
    ObjValue(m.open, RemoveFrom(ms, key, true));
    hide *;
    FitsAt(text, e, b, end);
    BecomesLeads(text, e, n, at, Obj(m.open, RemoveFrom(ms, key, true)));
  }

  lemma CutsLonely(text: Text, n: Node, at: Keys)
    requires Clean(text) && IsDocument(text, n, DEFAULT)
    requires Lookup(n, at).Some? && Lookup(n, at).value.Obj? && Lonely(Lookup(n, at).value.members)
    requires DomOf(Lookup(n, at).value).children != []
    ensures Misleads(text, RemovalEdit(DomOf(Lookup(n, at).value), 0))
  {
    var m := Lookup(n, at).value;
    var ms := m.members;
    assert DomOf(m).children == MembersDom(ms);
    ChildOfDom(ms, 1);
    DomEnd(m);
    var rest := StandsAt(text, n, at);
    BraceLength(text, n, at, rest);
    var e := RemovalEdit(DomOf(m), 0);
    EndOfDom(ms, 1, TokEnd(m.open));
    LonelyLeft(text, n, at, rest);
    var b, end := TokEnd(m.open), NodeEnd(ms.value);
    assert e == Edit(b, end - b, []);
    hide *;
    FitsAt(text, e, b, end);
    MisleadsBy(text, e);
  }

  lemma MisleadsBy(text: Text, e: Edit)
    requires Fits(e, text) && Clean(ApplyEdit(text, e)) && HasSlot(Lexemes(ApplyEdit(text, e)))
    ensures Misleads(text, e)
  {
  }

  // The names of the properties, as getInsertionIndex is given them.
  function Names(ds: seq<Dom>): seq<Text> {
    if ds == [] then []
    else
      var d := ds[0];
      [if d.children != [] && d.children[0].value.Some? && d.children[0].value.value.StringValue? then d.children[0].value.value.s else []]
      + Names(ds[1..])
  }

  lemma {:induction false} NamesAreKeys(ms: MemberList)
    ensures Names(MembersDom(ms)) == KeysOf(ms)
    decreases ms
  {
    if ms.ConsMember? {
      NamesAreKeys(ms.more);
      assert MembersDom(ms)[1..] == MembersDom(ms.more);
      assert MembersDom(ms)[0].children[0].value == Some(StringValue(ms.key.value));
    }
  }

  datatype Response = Changes(edits: seq<Edit>) | CannotAdd

  // The parent object of the path exists and has nothing but the property and a trailing comma.
  ghost predicate LonelyAt(n: Node, path: Keys)
    requires path != []
  {
    var m := Lookup(n, Parent(path));
    m.Some? && m.value.Obj? && Lonely(m.value.members) && m.value.members.key.value == LastKey(path)
  }

  /** What setProperty promises for a value: missing parents are created; anything else on the way but an object is an error. */
  ghost predicate SetDone(text: Text, n: Option<Node>, path: Keys, v: Json, r: Response) {
    if n.Some? && !Settable(ValueOf(n.value), path) then r == CannotAdd
    else
      && r.Changes? && |r.edits| == 1
      && Yields(text, r.edits[0], if n.Some? then SetValue(ValueOf(n.value), path, v) else Nest(path, v))
  }

  /** What it promises for undefined: the property is removed where it exists; the text is a document again unless a comma stays alone. */
  ghost predicate RemoveDone(text: Text, n: Option<Node>, path: Keys, r: Response) {
    if path == [] || n.None? || Get(ValueOf(n.value), Parent(path)) == None then r == Changes([])
    else
      var parent := Get(ValueOf(n.value), Parent(path)).value;
      if !parent.Object? then r == CannotAdd
      else if LastKey(path) !in parent.members then r == Changes([])
      else
        r.Changes? && |r.edits| == 1
        && (Yields(text, r.edits[0], RemoveValue(ValueOf(n.value), path)) <==> !LonelyAt(n.value, path))
  }

  /**
   * Where setProperty puts the value: in the deepest object on the way that exists, at the place of the key if it is there,
   * else behind the other members or where the caller says. Everything else stays, and so does the order of the others.
   */
  ghost predicate SetPlaced(text: Text, n: Option<Node>, path: Keys, content: Text, getInsertionIndex: Option<Keys -> nat>, r: Response) {
    r.Changes? ==>
      |r.edits| == 1 && Fits(r.edits[0], text) &&
      exists v, d ::
        DenotesTree(content, v) && IsDocument(ApplyEdit(text, r.edits[0]), d, DEFAULT) &&
        if n.None? || path == [] then Alike(d, NestNode(path, v))
        else
          var k := Depth(n.value, path);
          MemberPlaced(n.value, d, path[..k], path[k], NestNode(path[k + 1..], v), getInsertionIndex)
  }

  /** A removed member leaves everything else as it is, and the others in their order. */
  ghost predicate RemovePlaced(text: Text, n: Option<Node>, path: Keys, r: Response) {
    r.Changes? && r.edits != [] ==>
      |r.edits| == 1 && path != [] && n.Some? && Fits(r.edits[0], text) &&
      (!LonelyAt(n.value, path) ==>
        exists d :: IsDocument(ApplyEdit(text, r.edits[0]), d, DEFAULT) && MemberGone(n.value, d, Parent(path), LastKey(path)))
  }

  // The last step: the edit is merged with the formatting of what it touches.
  method Finish(text: Text, e: Edit, options: FormattingOptions, ghost t: Node) returns (r: Response)
    requires Fits(e, text) && AllTrivia(options.eol)
    ensures r.Changes? && |r.edits| == 1 && Fits(r.edits[0], text)
    ensures Leads(text, e, t) ==> Yields(text, r.edits[0], ValueOf(t)) && Shapes(text, r.edits[0], t)
    ensures Misleads(text, e) ==> forall to_ :: !Yields(text, r.edits[0], to_)
  {
    hide Leads, Yields, Misleads, Shapes;
    var merged := WithFormatting(text, e, options);
    if Leads(text, e, t) {
      LeadsFormatted(text, e, merged, options, t);
    }
    if Misleads(text, e) {
      MisleadsFormatted(text, e, merged, options);
    }
    r := Changes([merged]);
  }

  /** The root is written, or nothing is there to write to. */
  method SetRoot(text: Text, root: Option<Dom>, content: Text, options: FormattingOptions, ghost n: Option<Node>, ghost v: Node)
    returns (r: Response)
    requires Readable(text, n) && AllTrivia(options.eol) && DenotesTree(content, v)
    requires root == (match n case Some(d) => Some(DomOf(d)) case None => None)
    ensures r.Changes? && |r.edits| == 1 && Yields(text, r.edits[0], ValueOf(v)) && Shapes(text, r.edits[0], v)
  {
    hide DenotesTree, Leads, DomOf, Clean, IsDocument, UniqueKeys, Lexemes, Yields, Shapes, ValueOf;
    var e := Edit(if root.Some? then root.value.offset else 0, if root.Some? then root.value.length else 0, content);
    if n.Some? {
      RootLookup(n.value);
      var _ := Overwrites(text, n.value, [], content, v);
    } else {
      WriteEmpty(text, content, v);
    }
    LeadsFits(text, e, v);
    r := Finish(text, e, options, v);
  }

  lemma RootLookup(n: Node)
    ensures Lookup(n, []) == Some(n) && forall m :: Replace(n, [], m) == m
  {
  }

  lemma WriteEmpty(text: Text, content: Text, n: Node)
    requires Clean(text) && Lexemes(text) == [] && DenotesTree(content, n)
    ensures Leads(text, Edit(0, 0, content), n)
  {
    TreeParts(content, n);
    var e := Edit(0, 0, content);
    EmptyEdit(text, content);
    StartsApartEmpty(content, text);
    hide *;
    Concat(content, text);
    Nothing(Lexemes(content));
    LeadsBy(text, e, n);
  }

  lemma EmptyEdit(text: Text, content: Text)
    ensures var e := Edit(0, 0, content); Fits(e, text) && ApplyEdit(text, e) == content + text
  {
    ApplyFitting(text, Edit(0, 0, content));
    assert [] + content + text == content + text && text[..0] == [] && text[0..] == text;
  }

  lemma LeadsBy(text: Text, e: Edit, n: Node)
    requires Fits(e, text) && Clean(ApplyEdit(text, e)) && WellFormed(n, DEFAULT) && Lexemes(ApplyEdit(text, e)) == NodeWords(n)
    ensures Leads(text, e, n)
  {
  }

  lemma TreeParts(t: Text, n: Node)
    requires DenotesTree(t, n)
    ensures Clean(t) && WellFormed(n, DEFAULT) && Lexemes(t) == NodeWords(n)
  {
  }

  lemma StartsApartEmpty(x: Text, y: Text)
    requires Clean(y) && Lexemes(y) == []
    ensures Apart(x, y)
  {
    JsonHole.StartsApart(y);
  }

  // lines 41-84: the parent is an object.
  method SetMember(text: Text, parent: Dom, key: Text, value: Option<Text>, options: FormattingOptions,
                   getInsertionIndex: Option<seq<Text> -> nat>, ghost n: Node, ghost at: Keys, ghost v: Node)
    returns (r: Response)
    requires Readable(text, Some(n)) && AllTrivia(options.eol) && (value.Some? ==> DenotesTree(value.value, v))
    requires IsObject(n, at) && parent == DomOf(Lookup(n, at).value)
    requires getInsertionIndex.Some? ==> forall names :: getInsertionIndex.value(names) <= |names|
    ensures value.Some? ==>
      && r.Changes? && |r.edits| == 1 && Position(KeysOf(MembersAt(n, at)), getInsertionIndex) <= |KeysOf(MembersAt(n, at))|
      && Yields(text, r.edits[0], SetIn(ValueOf(n), at, Object(MembersInto(MembersAt(n, at), map[])[key := ValueOf(v)])))
      && Shapes(text, r.edits[0], Replace(n, at, Obj(Lookup(n, at).value.open, MemberSet(MembersAt(n, at), key, v, getInsertionIndex))))
    ensures value.None? && key !in KeysOf(MembersAt(n, at)) ==> r == Changes([])
    ensures value.None? && key in KeysOf(MembersAt(n, at)) ==>
      var ms := MembersAt(n, at); var lonely := Lonely(ms) && ms.key.value == key;
      && r.Changes? && |r.edits| == 1 && Fits(r.edits[0], text)
      && (Yields(text, r.edits[0], SetIn(ValueOf(n), at, Object(MembersInto(ms, map[]) - {key}))) <==> !lonely)
      && (!lonely ==> Shapes(text, r.edits[0], Replace(n, at, Obj(Lookup(n, at).value.open, RemoveFrom(ms, key, true)))))
  {
    hide DenotesTree, Leads, Clean, IsDocument, UniqueKeys, Yields, Shapes, SetIn, MembersInto, Lookup, ValueOf, Find, ReplaceIn, Replace, RemoveFrom,
      WithMember;
    ghost var m := Lookup(n, at).value;
    ghost var ms := m.members;
    assert parent.children == MembersDom(ms);
    NamesAreKeys(ms);
    hide DomOf, MembersDom;
    var index := PropertyIndex(parent.children, key);
    PropertyOfDom(ms, key);
    ChildOfDom(ms, index);
    if index < |parent.children| {
      if value.None? {
        var e := RemovalEdit(parent, index);
        CutFits(text, n, at, index);
        if index > 0 || !Lonely(ms) {
          Cuts(text, n, at, index, key);
        } else {
          CutsLonely(text, n, at);
        }
        r := Finish(text, e, options, Replace(n, at, Obj(m.open, RemoveFrom(ms, key, true))));
      } else {
        ExistingValue(n, at, ms, key, ValueOf(v));
        ReplaceLonger(n, at, key, v);
        ghost var x := Overwrites(text, n, at + [key], value.value, v);
        var existing := parent.children[index].children[1];
        assert existing == DomOf(x);
        var e := Edit(existing.offset, existing.length, value.value);
        ghost var t := Replace(n, at + [key], v);
        LeadsFits(text, e, t);
        r := Finish(text, e, options, t);
      }
    } else {
      if value.None? {
        return Changes([]);
      }
      var names := Names(parent.children);
      var k := if getInsertionIndex.Some? then getInsertionIndex.value(names) else |parent.children|;
      var e := InsertionEdit(parent, k, key, value.value);
      Inserts(text, n, at, k, key, value.value, v);
      ghost var t := Replace(n, at, Obj(m.open, WithMember(ms, k, key, v)));
      LeadsFits(text, e, t);
      r := Finish(text, e, options, t);
    }
  }

  // Cutting out a child stays inside the text, also where a comma is left alone.
  lemma CutFits(text: Text, n: Node, at: Keys, k: nat)
    requires Clean(text) && IsDocument(text, n, DEFAULT) && Lookup(n, at).Some? && Lookup(n, at).value.Obj?
    requires k < |DomOf(Lookup(n, at).value).children|
    ensures Fits(RemovalEdit(DomOf(Lookup(n, at).value), k), text)
  {
    var m := Lookup(n, at).value;
    var ms := m.members;
    assert DomOf(m).children == MembersDom(ms);
    ChildOfDom(ms, 1);
    DomEnd(m);
    var rest := StandsAt(text, n, at);
    BraceLength(text, n, at, rest);
    ReplaceWellFormed(n, at, n, DEFAULT);
    EndOfDom(ms, k + 1, TokEnd(m.open));
    var b := MemberSurroundings(text, n, at, rest, k);
    EndPosGrows(text, ms, k, TokEnd(m.open), b, rest);
    var e := MemberSurroundings(text, n, at, rest, k + 1);
    if k > 0 {
      EndOfDom(ms, k, TokEnd(m.open));
    } else if Count(ms) > 1 {
      assert Drop(ms, 1) == ms.more;
      var named := JsonHole.MemberSpan(text, e, ms.more, rest, DEFAULT);
    }
  }

  // Overwriting the value of a member is overwriting the value at the longer path.
  lemma ExistingValue(n: Node, at: Keys, ms: MemberList, key: Text, v: Json)
    requires Lookup(n, at).Some? && Lookup(n, at).value.Obj? && ms == Lookup(n, at).value.members && Find(ms, key).Some?
    requires UniqueKeys(n)
    ensures Lookup(n, at + [key]) == Find(ms, key)
    ensures SetIn(ValueOf(n), at + [key], v) == SetIn(ValueOf(n), at, Object(MembersInto(ms, map[])[key := v]))
  {
    LookupLonger(n, at, key);
    LookupValue(n, at);
    MemberValue(Lookup(n, at).value, key);
    ObjValue(Lookup(n, at).value.open, ms);
    SetInLonger(ValueOf(n), at, key, v);
  }

  lemma {:induction false} LookupLonger(n: Node, at: Keys, key: Text)
    requires Lookup(n, at).Some? && Lookup(n, at).value.Obj?
    ensures Lookup(n, at + [key]) == Find(Lookup(n, at).value.members, key)
    decreases |at|
  {
    var path := at + [key];
    if at == [] {
      assert path[0] == key && path[1..] == [];
    } else {
      assert path[0] == at[0] && path[1..] == at[1..] + [key];
      LookupLonger(Find(n.members, at[0]).value, at[1..], key);
    }
  }

  lemma {:induction false} SetInLonger(j: Json, at: Keys, key: Text, v: Json)
    requires Get(j, at).Some? && Get(j, at).value.Object? && key in Get(j, at).value.members
    ensures SetIn(j, at + [key], v) == SetIn(j, at, Object(Get(j, at).value.members[key := v]))
    decreases |at|
  {
    var path := at + [key];
    if at == [] {
      assert path[0] == key && path[1..] == [];
    } else {
      assert path[0] == at[0] && path[1..] == at[1..] + [key];
      SetInLonger(j.members[at[0]], at[1..], key, v);
    }
  }

  // The value's side of setting a member in the parent that was found.
  lemma TargetSet(n: Node, path: Keys, at: Keys, key: Text, v: Json)
    requires UniqueKeys(n) && at + [key] <= path && Lookup(n, at).Some?
    requires |at| + 1 < |path| ==> Lookup(n, at + [key]) == None
    ensures var m := Lookup(n, at).value; var rest := path[|at| + 1..];
      if m.Obj? then
        && Settable(ValueOf(n), path)
        && SetValue(ValueOf(n), path, v) == SetIn(ValueOf(n), at, Object(MembersInto(m.members, map[])[key := Nest(rest, v)]))
      else !Settable(ValueOf(n), path)
  {
    var m := Lookup(n, at).value;
    var rest := path[|at| + 1..];
    assert path == at + [key] + rest;
    LookupValue(n, at);
    if m.Obj? {
      LookupLonger(n, at, key);
      MemberValue(m, key);
      ObjValue(m.open, m.members);
      SetInParent(ValueOf(n), at, key, rest, v);
    } else {
      NotObject(m);
      NotSettable(ValueOf(n), at, key, rest);
    }
  }

  // And of removing it.
  lemma TargetRemoved(n: Node, path: Keys)
    requires UniqueKeys(n) && path != []
    ensures var at, key := Parent(path), LastKey(path);
      && (Get(ValueOf(n), at) == None <==> Lookup(n, at) == None)
      && (Lookup(n, at).Some? ==>
        var m := Lookup(n, at).value;
        && (Get(ValueOf(n), at).value.Object? <==> m.Obj?)
        && (m.Obj? ==> (key in Get(ValueOf(n), at).value.members <==> key in KeysOf(m.members)))
        && (m.Obj? && key in KeysOf(m.members) ==>
          RemoveValue(ValueOf(n), path) == SetIn(ValueOf(n), at, Object(MembersInto(m.members, map[]) - {key}))))
  {
    var at, key := Parent(path), LastKey(path);
    assert path == at + [key];
    LookupValue(n, at);
    RemoveInParent(ValueOf(n), at, key);
    if Lookup(n, at).Some? {
      var m := Lookup(n, at).value;
      if m.Obj? {
        MemberValue(m, key);
        FindIffKey(m.members, key);
        ObjValue(m.open, m.members);
      } else {
        NotObject(m);
      }
    }
  }

  lemma NodeTypes(n: Node)
    ensures DomOf(n).nodeType.ObjectType? <==> n.Obj?
  {
    if n.Lit? {
      assert !GetNodeType(ScalarOf(n.tok)).ObjectType?;
    }
  }

  lemma RootOf(text: Text, n: Option<Node>, root: Option<Dom>)
    requires Readable(text, n) && root == Tree(text, DEFAULT)
    ensures root == (match n case Some(d) => Some(DomOf(d)) case None => None)
  {
    match n
    case Some(d) => TreeOfDocument(text, d, DEFAULT);
    case None => EmptyTree(text, DEFAULT);
  }

  lemma NothingPlaced(text: Text, n: Option<Node>, path: Keys, content: Text, getInsertionIndex: Option<Keys -> nat>)
    ensures SetPlaced(text, n, path, content, getInsertionIndex, CannotAdd)
    ensures RemovePlaced(text, n, path, CannotAdd) && RemovePlaced(text, n, path, Changes([]))
  {
  }

  // The tree that was aimed at, in terms of its members.
  lemma SetShapes(text: Text, n: Node, path: Keys, at: Keys, key: Text, content: Text, v: Node, getInsertionIndex: Option<Keys -> nat>, r: Response)
    requires r.Changes? && |r.edits| == 1 && DenotesTree(content, v)
    requires at + [key] <= path && IsObject(n, at) && (|at| + 1 < |path| ==> Lookup(n, at + [key]) == None)
    requires Position(KeysOf(MembersAt(n, at)), getInsertionIndex) <= |KeysOf(MembersAt(n, at))|
    requires var t := NestNode(path[|at| + 1..], v);
      Shapes(text, r.edits[0], Replace(n, at, Obj(Lookup(n, at).value.open, MemberSet(MembersAt(n, at), key, t, getInsertionIndex))))
    ensures SetPlaced(text, Some(n), path, content, getInsertionIndex, r)
  {
    hide DenotesTree, IsDocument, Alike, Replace, MemberSet, MemberPlaced, Lookup, NestNode, ApplyEdit, Depth;
    var t := NestNode(path[|at| + 1..], v);
    var d :| IsDocument(ApplyEdit(text, r.edits[0]), d, DEFAULT)
      && Alike(d, Replace(n, at, Obj(Lookup(n, at).value.open, MemberSet(MembersAt(n, at), key, t, getInsertionIndex))));
    SetPlaces(n, d, at, key, t, getInsertionIndex);
    DepthIs(n, path, at, key);
    assert path[..|at|] == at && path[|at|] == key;
  }

  lemma RootShapes(text: Text, n: Option<Node>, path: Keys, content: Text, v: Node, getInsertionIndex: Option<Keys -> nat>, r: Response)
    requires r.Changes? && |r.edits| == 1 && DenotesTree(content, v) && (n.None? || path == [])
    requires Shapes(text, r.edits[0], NestNode(path, v))
    ensures SetPlaced(text, n, path, content, getInsertionIndex, r)
  {
    hide DenotesTree, IsDocument, Alike, NestNode, ApplyEdit;
    var d :| IsDocument(ApplyEdit(text, r.edits[0]), d, DEFAULT) && Alike(d, NestNode(path, v));
  }

  lemma RemovalShapes(text: Text, n: Node, path: Keys, r: Response)
    requires path != [] && r.Changes? && |r.edits| == 1 && IsObject(n, Parent(path)) && UniqueKeys(n)
    requires LastKey(path) in KeysOf(MembersAt(n, Parent(path)))
    requires Fits(r.edits[0], text)
    requires !LonelyAt(n, path) ==> Shapes(text, r.edits[0],
        Replace(n, Parent(path), Obj(Lookup(n, Parent(path)).value.open, RemoveFrom(MembersAt(n, Parent(path)), LastKey(path), true))))
    ensures RemovePlaced(text, Some(n), path, r)
  {
    var at, key := Parent(path), LastKey(path);
    LookupValue(n, at);
    assert Distinct(KeysOf(MembersAt(n, at)));
    hide IsDocument, Alike, Replace, RemoveFrom, MemberGone, Lookup, ApplyEdit, UniqueKeys, LonelyAt, Distinct, KeysOf;
    if !LonelyAt(n, path) {
      var d :| IsDocument(ApplyEdit(text, r.edits[0]), d, DEFAULT)
        && Alike(d, Replace(n, at, Obj(Lookup(n, at).value.open, RemoveFrom(MembersAt(n, at), key, true))));
      RemovalPlaces(n, d, at, key);
    }
  }

  /** setProperty, and removeProperty where there is no value: one edit, formatted, that changes just the given path. */
  method SetProperty(text: Text, originalPath: Keys, value: Option<Text>, options: FormattingOptions,
                     getInsertionIndex: Option<seq<Text> -> nat>, ghost n: Option<Node>, ghost v: Json)
    returns (r: Response)
    requires Readable(text, n) && AllTrivia(options.eol) && (value.Some? ==> Denotes(value.value, v))
    requires getInsertionIndex.Some? ==> forall names :: getInsertionIndex.value(names) <= |names|
    ensures value.Some? ==> SetDone(text, n, originalPath, v, r) && SetPlaced(text, n, originalPath, value.value, getInsertionIndex, r)
    ensures value.None? ==> RemoveDone(text, n, originalPath, r) && RemovePlaced(text, n, originalPath, r)
  {
    hide DenotesTree, NestNode, MemberSet, Clean, IsDocument, UniqueKeys, Yields, Shapes, SetPlaced, RemovePlaced, SetIn, MembersInto, Lookup, ValueOf, Find, DomOf, Locate, SetValue,
      RemoveValue, Settable, Get, Lexemes, Tree, JsonParse.ErrorsIn, Visit, KeysOf;
    var root, _ := ParseTree(text, DEFAULT);
    RootOf(text, n, root);
    ghost var vn := Lit(New(EOF, []));
    NothingPlaced(text, n, originalPath, if value.Some? then value.value else [], getInsertionIndex);
    if value.Some? {
      vn :| DenotesTree(value.value, vn) && ValueOf(vn) == v;
    }
    var t := FindParent(root, originalPath, value, vn);
    if n.Some? && originalPath != [] {
      LocateNode(n.value, t.path);
      LocateNode(n.value, t.path + [t.last.value]);
      if value.None? {
        TargetRemoved(n.value, originalPath);
      }
    }
    if t.parent.None? {
      if t.value.None? {
        return Changes([]);
      }
      AtRoot(n, originalPath, v);
      NestValue(originalPath, vn);
      r := SetRoot(text, root, t.value.value, options, n, NestNode(originalPath, vn));
      RootShapes(text, n, originalPath, value.value, vn, getInsertionIndex, r);
      return;
    }
    ghost var m := Lookup(n.value, t.path).value;
    NodeTypes(m);
    ghost var rest := originalPath[|t.path| + 1..];
    if value.Some? {
      TargetSet(n.value, originalPath, t.path, t.last.value, v);
    }
    if t.parent.value.nodeType.ObjectType? {
      NestValue(rest, vn);
      r := SetMember(text, t.parent.value, t.last.value, t.value, options, getInsertionIndex, n.value, t.path, NestNode(rest, vn));
      if value.Some? {
        SetShapes(text, n.value, originalPath, t.path, t.last.value, value.value, vn, getInsertionIndex, r);
      } else if r.edits != [] {
        RemovalShapes(text, n.value, originalPath, r);
      }
    } else {
      r := CannotAdd;
    }
  }

  lemma AtRoot(n: Option<Node>, path: Keys, v: Json)
    ensures Nest([], v) == v
    ensures n.Some? ==> Lookup(n.value, []).Some? && Settable(ValueOf(n.value), []) && SetValue(ValueOf(n.value), [], v) == v
    ensures n.Some? ==> Locate(DomOf(n.value), []).Some?
  {
  }
}
