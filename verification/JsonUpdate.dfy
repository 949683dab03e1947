// Documents as trees with named members: looking up a path, replacing what is there, and what that
// does to the words of the document and to its value.
module JsonUpdate {
  import opened Wrappers
  import opened JsonScan
  import opened JsonSyntax
  import opened JsonGrammar
  import opened JsonValue
  import opened JsonLex
  import opened JsonWords

  type Keys = seq<Text>

  function KeysOf(ms: MemberList): Keys {
    match ms case EndMembers(_, _) => [] case ConsMember(_, key, _, _, more) => [key.value] + KeysOf(more)
  }

  ghost predicate Distinct(keys: Keys) {
    forall i, j :: 0 <= i < j < |keys| ==> keys[i] != keys[j]
  }

  /** No object of the document has two members with the same key. */
  ghost predicate UniqueKeys(n: Node) {
    match n
    case Lit(_) => true
    case Obj(_, ms) => Distinct(KeysOf(ms)) && MembersUnique(ms)
    case Arr(_, xs) => ItemsUnique(xs)
  }

  ghost predicate MembersUnique(ms: MemberList) {
    ms.EndMembers? || (UniqueKeys(ms.value) && MembersUnique(ms.more))
  }

  ghost predicate ItemsUnique(xs: ItemList) {
    xs.EndItems? || (UniqueKeys(xs.value) && ItemsUnique(xs.more))
  }

  // The first member with a key.
  function Find(ms: MemberList, key: Text): Option<Node> {
    match ms
    case EndMembers(_, _) => None
    case ConsMember(_, k, _, v, more) => if k.value == key then Some(v) else Find(more, key)
  }

  /** The value at a path of keys. */
  function Lookup(n: Node, path: Keys): Option<Node>
    decreases |path|
  {
    if path == [] then Some(n)
    else if !n.Obj? then None
    else
      match Find(n.members, path[0])
      case None => None
      case Some(v) => Lookup(v, path[1..])
  }

  function ReplaceIn(ms: MemberList, key: Text, v': Node): MemberList {
    match ms
    case EndMembers(_, _) => ms
    case ConsMember(s, k, colon, v, more) =>
      if k.value == key then ConsMember(s, k, colon, v', more) else ConsMember(s, k, colon, v, ReplaceIn(more, key, v'))
  }

  /** The document with another value at a path. */
  function Replace(n: Node, path: Keys, m: Node): Node
    requires Lookup(n, path).Some?
    decreases |path|
  {
    if path == [] then m
    else Obj(n.open, ReplaceIn(n.members, path[0], Replace(Find(n.members, path[0]).value, path[1..], m)))
  }

  // The words in front of the member with a key, its name included, and behind its value.
  function WordsBefore(ms: MemberList, key: Text): seq<Lexeme> {
    match ms
    case EndMembers(_, _) => []
    case ConsMember(s, k, colon, v, more) =>
      SepWords(s) + [Lex(k), Lex(colon)] + (if k.value == key then [] else NodeWords(v) + WordsBefore(more, key))
  }

  function WordsAfter(ms: MemberList, key: Text): seq<Lexeme> {
    match ms
    case EndMembers(_, _) => []
    case ConsMember(_, k, _, _, more) => if k.value == key then MembersWords(more) else WordsAfter(more, key)
  }

  function Pre(n: Node, path: Keys): seq<Lexeme>
    requires Lookup(n, path).Some?
    decreases |path|
  {
    if path == [] then []
    else [Lex(n.open)] + WordsBefore(n.members, path[0]) + Pre(Find(n.members, path[0]).value, path[1..])
  }

  function Post(n: Node, path: Keys): seq<Lexeme>
    requires Lookup(n, path).Some?
    decreases |path|
  {
    if path == [] then []
    else Post(Find(n.members, path[0]).value, path[1..]) + WordsAfter(n.members, path[0])
  }

  lemma {:induction false} WordsReplacedIn(ms: MemberList, key: Text, v: Node)
    requires Find(ms, key).Some?
    ensures MembersWords(ReplaceIn(ms, key, v)) == WordsBefore(ms, key) + NodeWords(v) + WordsAfter(ms, key)
    decreases ms
  {
    if ms.key.value == key {
      var name := SepWords(ms.sep) + [Lex(ms.key), Lex(ms.colon)];
      assert name + [] == name;
    } else {
      hide NodeWords, WordsBefore, WordsAfter, SepWords;
      WordsReplacedIn(ms.more, key, v);
      BeforeStep(ms, key);
      Shift(SepWords(ms.sep) + [Lex(ms.key), Lex(ms.colon)], NodeWords(ms.value), WordsBefore(ms.more, key), NodeWords(v), WordsAfter(ms.more, key));
    }
  }

  lemma Shift<T>(name: seq<T>, w: seq<T>, b: seq<T>, v: seq<T>, a: seq<T>)
    ensures name + w + (b + v + a) == name + (w + b) + v + a
  {
  }

  lemma BeforeStep(ms: MemberList, key: Text)
    requires ms.ConsMember? && ms.key.value != key
    ensures WordsBefore(ms, key) == SepWords(ms.sep) + [Lex(ms.key), Lex(ms.colon)] + (NodeWords(ms.value) + WordsBefore(ms.more, key))
    ensures WordsAfter(ms, key) == WordsAfter(ms.more, key)
  {
  }

  /** Replacing a value changes just its words. */
  lemma {:induction false} WordsReplaced(n: Node, path: Keys, m: Node)
    requires Lookup(n, path).Some?
    ensures NodeWords(Replace(n, path, m)) == Pre(n, path) + NodeWords(m) + Post(n, path)
    decreases |path|
  {
    if path == [] {
      assert [] + NodeWords(m) + [] == NodeWords(m);
    } else {
      hide NodeWords, WordsBefore, WordsAfter, Pre, Post, ReplaceIn, MembersWords, Find;
      var v := Find(n.members, path[0]).value;
      var v' := Replace(v, path[1..], m);
      WordsReplaced(v, path[1..], m);
      WordsReplacedIn(n.members, path[0], v');
      PrePost(n, path);
      ObjWords(n.open, ReplaceIn(n.members, path[0], v'));
      Around([Lex(n.open)], WordsBefore(n.members, path[0]), Pre(v, path[1..]), NodeWords(m), Post(v, path[1..]), WordsAfter(n.members, path[0]));
    }
  }

  lemma Around<T>(o: seq<T>, b: seq<T>, p: seq<T>, w: seq<T>, q: seq<T>, a: seq<T>)
    ensures o + (b + (p + w + q) + a) == (o + b + p) + w + (q + a)
  {
  }

  lemma ObjWords(open: Tok, ms: MemberList)
    ensures NodeWords(Obj(open, ms)) == [Lex(open)] + MembersWords(ms)
  {
  }

  lemma PrePost(n: Node, path: Keys)
    requires Lookup(n, path).Some? && path != []
    ensures var v := Find(n.members, path[0]).value;
      && Pre(n, path) == [Lex(n.open)] + WordsBefore(n.members, path[0]) + Pre(v, path[1..])
      && Post(n, path) == Post(v, path[1..]) + WordsAfter(n.members, path[0])
  {
  }

  lemma {:induction false} ReplaceSame(n: Node, path: Keys)
    requires Lookup(n, path).Some?
    ensures Replace(n, path, Lookup(n, path).value) == n
    decreases |path|
  {
    if path != [] {
      ReplaceSame(Find(n.members, path[0]).value, path[1..]);
      ReplaceInSame(n.members, path[0]);
    }
  }

  lemma {:induction false} ReplaceInSame(ms: MemberList, key: Text)
    requires Find(ms, key).Some?
    ensures ReplaceIn(ms, key, Find(ms, key).value) == ms
  {
    if ms.key.value != key {
      ReplaceInSame(ms.more, key);
    }
  }

  lemma {:induction false} ReplaceWellFormed(n: Node, path: Keys, m: Node, o: Options)
    requires Lookup(n, path).Some? && WellFormed(n, o) && WellFormed(m, o)
    ensures WellFormed(Replace(n, path, m), o) && WellFormed(Lookup(n, path).value, o)
    decreases |path|
  {
    if path != [] {
      FindWellFormed(n.members, path[0], true, o);
      var v := Find(n.members, path[0]).value;
      ReplaceWellFormed(v, path[1..], m, o);
      ReplaceInWellFormed(n.members, path[0], Replace(v, path[1..], m), true, o);
    }
  }

  lemma {:induction false} FindWellFormed(ms: MemberList, key: Text, first: bool, o: Options)
    requires MembersWellFormed(ms, first, o) && Find(ms, key).Some?
    ensures WellFormed(Find(ms, key).value, o)
  {
    if ms.key.value != key {
      FindWellFormed(ms.more, key, false, o);
    }
  }

  lemma {:induction false} ReplaceInWellFormed(ms: MemberList, key: Text, v: Node, first: bool, o: Options)
    requires MembersWellFormed(ms, first, o) && WellFormed(v, o)
    ensures MembersWellFormed(ReplaceIn(ms, key, v), first, o)
  {
    if ms.ConsMember? && ms.key.value != key {
      ReplaceInWellFormed(ms.more, key, v, false, o);
    }
  }

  // Values.

  lemma DistinctTail(ms: MemberList)
    requires ms.ConsMember? && Distinct(KeysOf(ms))
    ensures Distinct(KeysOf(ms.more)) && ms.key.value !in KeysOf(ms.more)
  {
    var all, tail := KeysOf(ms), KeysOf(ms.more);
    assert forall i :: 0 <= i < |tail| ==> tail[i] == all[i + 1];
    assert all[0] == ms.key.value;
  }

  lemma FindIffKey(ms: MemberList, key: Text)
    ensures Find(ms, key).Some? <==> key in KeysOf(ms)
  {
    if ms.ConsMember? {
      FindIffKey(ms.more, key);
    }
  }

  lemma {:induction false} IntoOther(ms: MemberList, m: map<Text, Json>, key: Text, v: Json)
    requires key !in KeysOf(ms)
    ensures MembersInto(ms, m[key := v]) == MembersInto(ms, m)[key := v]
    decreases ms
  {
    if ms.ConsMember? {
      hide ValueOf;
      var x := ValueOf(ms.value);
      assert m[key := v][ms.key.value := x] == m[ms.key.value := x][key := v];
      IntoOther(ms.more, m[ms.key.value := x], key, v);
    }
  }

  lemma {:induction false} IntoReplaced(ms: MemberList, m: map<Text, Json>, key: Text, v: Node)
    requires Distinct(KeysOf(ms)) && Find(ms, key).Some?
    ensures MembersInto(ReplaceIn(ms, key, v), m) == MembersInto(ms, m)[key := ValueOf(v)]
    ensures key in MembersInto(ms, m) && MembersInto(ms, m)[key] == ValueOf(Find(ms, key).value)
    decreases ms
  {
    hide ValueOf;
    DistinctTail(ms);
    if ms.key.value == key {
      IntoOther(ms.more, m, key, ValueOf(v));
      IntoOther(ms.more, m, key, ValueOf(ms.value));
    } else {
      IntoReplaced(ms.more, m[ms.key.value := ValueOf(ms.value)], key, v);
    }
  }

  lemma {:induction false} IntoMissing(ms: MemberList, m: map<Text, Json>, key: Text)
    requires key !in KeysOf(ms)
    ensures key in MembersInto(ms, m) <==> key in m
    decreases ms
  {
    if ms.ConsMember? {
      IntoMissing(ms.more, m[ms.key.value := ValueOf(ms.value)], key);
    }
  }

  // The members without one of them; the next one loses its comma if it becomes the first.
  function RemoveFrom(ms: MemberList, key: Text, first: bool): MemberList {
    match ms
    case EndMembers(_, _) => ms
    case ConsMember(s, k, colon, v, more) =>
      if k.value == key then if first then Headless(more) else more
      else ConsMember(s, k, colon, v, RemoveFrom(more, key, false))
  }

  function Headless(ms: MemberList): MemberList {
    match ms
    case EndMembers(_, _) => ms
    case ConsMember(_, k, colon, v, more) => ConsMember(NoComma, k, colon, v, more)
  }

  lemma {:induction false} IntoRemoved(ms: MemberList, m: map<Text, Json>, key: Text, first: bool)
    requires Distinct(KeysOf(ms)) && Find(ms, key).Some? && key !in m
    ensures MembersInto(RemoveFrom(ms, key, first), m) == MembersInto(ms, m) - {key}
    decreases ms
  {
    hide ValueOf;
    DistinctTail(ms);
    if ms.key.value == key {
      IntoOther(ms.more, m, key, ValueOf(ms.value));
      IntoMissing(ms.more, m, key);
      assert MembersInto(Headless(ms.more), m) == MembersInto(ms.more, m);
    } else {
      IntoRemoved(ms.more, m[ms.key.value := ValueOf(ms.value)], key, false);
    }
  }

  // The members with a new one behind the first k, which take a comma between them.
  function Insert(ms: MemberList, k: nat, key: Tok, colon: Tok, v: Node, comma: Tok): MemberList
    requires k <= |KeysOf(ms)|
  {
    if k == 0 then ConsMember(NoComma, key, colon, v, Second(ms, comma))
    else InsertBehind(ms, k, key, colon, v, comma)
  }

  function Second(ms: MemberList, comma: Tok): MemberList {
    match ms
    case EndMembers(_, _) => ms
    case ConsMember(_, k, colon, v, more) => ConsMember(AComma(comma), k, colon, v, more)
  }

  function InsertBehind(ms: MemberList, k: nat, key: Tok, colon: Tok, v: Node, comma: Tok): MemberList
    requires 0 < k <= |KeysOf(ms)|
  {
    ms.(more := if k == 1 then ConsMember(AComma(comma), key, colon, v, ms.more)
      else InsertBehind(ms.more, k - 1, key, colon, v, comma))
  }

  lemma IntoSecond(ms: MemberList, m: map<Text, Json>, comma: Tok)
    ensures MembersInto(Second(ms, comma), m) == MembersInto(ms, m)
  {
  }

  lemma {:induction false} IntoInsertedBehind(ms: MemberList, k: nat, key: Tok, colon: Tok, v: Node, comma: Tok, m: map<Text, Json>)
    requires 0 < k <= |KeysOf(ms)| && key.value !in KeysOf(ms)
    ensures MembersInto(InsertBehind(ms, k, key, colon, v, comma), m) == MembersInto(ms, m)[key.value := ValueOf(v)]
    decreases ms
  {
    hide ValueOf;
    var m' := m[ms.key.value := ValueOf(ms.value)];
    if k == 1 {
      IntoOther(ms.more, m', key.value, ValueOf(v));
    } else {
      IntoInsertedBehind(ms.more, k - 1, key, colon, v, comma, m');
    }
  }

  lemma IntoInserted(ms: MemberList, k: nat, key: Tok, colon: Tok, v: Node, comma: Tok, m: map<Text, Json>)
    requires k <= |KeysOf(ms)| && key.value !in KeysOf(ms)
    ensures MembersInto(Insert(ms, k, key, colon, v, comma), m) == MembersInto(ms, m)[key.value := ValueOf(v)]
  {
    if k == 0 {
      IntoSecond(ms, m[key.value := ValueOf(v)], comma);
      IntoOther(ms, m, key.value, ValueOf(v));
    } else {
      IntoInsertedBehind(ms, k, key, colon, v, comma, m);
    }
  }

  // Updates of values.

  /** A value with another one at an existing path. */
  function SetIn(j: Json, path: Keys, v: Json): Json
    decreases |path|
  {
    if path == [] then v
    else if !j.Object? || path[0] !in j.members then j
    else Object(j.members[path[0] := SetIn(j.members[path[0]], path[1..], v)])
  }

  function Get(j: Json, path: Keys): Option<Json>
    decreases |path|
  {
    if path == [] then Some(j)
    else if !j.Object? || path[0] !in j.members then None
    else Get(j.members[path[0]], path[1..])
  }

  // Objects around a value.
  function Nest(path: Keys, v: Json): Json
    decreases |path|
  {
    if path == [] then v else Object(map[path[0] := Nest(path[1..], v)])
  }

  /** A value with the path set: parents that are missing are created. */
  function SetValue(j: Json, path: Keys, v: Json): Json
    decreases |path|
  {
    if path == [] then v
    else if !j.Object? then j
    else if path[0] in j.members then Object(j.members[path[0] := SetValue(j.members[path[0]], path[1..], v)])
    else Object(j.members[path[0] := Nest(path[1..], v)])
  }

  /** Whatever exists on the way to the end of the path is an object. */
  ghost predicate Settable(j: Json, path: Keys)
    decreases |path|
  {
    path == [] || (j.Object? && (path[0] in j.members ==> Settable(j.members[path[0]], path[1..])))
  }

  /** A value with the path removed, where it exists. */
  function RemoveValue(j: Json, path: Keys): Json
    requires path != []
    decreases |path|
  {
    if !j.Object? || path[0] !in j.members then j
    else if |path| == 1 then Object(j.members - {path[0]})
    else Object(j.members[path[0] := RemoveValue(j.members[path[0]], path[1..])])
  }

  lemma {:induction false} FindUnique(ms: MemberList, key: Text)
    requires MembersUnique(ms) && Find(ms, key).Some?
    ensures UniqueKeys(Find(ms, key).value)
  {
    if ms.key.value != key {
      FindUnique(ms.more, key);
    }
  }

  // What an object's value says about its members.
  lemma MemberValue(n: Node, key: Text)
    requires n.Obj? && UniqueKeys(n)
    ensures ValueOf(n).Object? && (key in ValueOf(n).members <==> Find(n.members, key).Some?)
    ensures Find(n.members, key).Some? ==>
      ValueOf(n).members[key] == ValueOf(Find(n.members, key).value) && UniqueKeys(Find(n.members, key).value)
  {
    hide ValueOf;
    FindIffKey(n.members, key);
    if Find(n.members, key).Some? {
      IntoReplaced(n.members, map[], key, n);
      FindUnique(n.members, key);
    } else {
      IntoMissing(n.members, map[], key);
    }
    ObjValue(n.open, n.members);
  }

  lemma ObjValue(open: Tok, ms: MemberList)
    ensures ValueOf(Obj(open, ms)) == Object(MembersInto(ms, map[]))
  {
  }

  lemma NotObject(n: Node)
    requires !n.Obj?
    ensures !ValueOf(n).Object?
  {
  }

  /** Looking up a path in the document finds the value at that path. */
  lemma {:induction false} LookupValue(n: Node, path: Keys)
    requires UniqueKeys(n)
    ensures Get(ValueOf(n), path) == (match Lookup(n, path) case None => None case Some(m) => Some(ValueOf(m)))
    ensures Lookup(n, path).Some? ==> UniqueKeys(Lookup(n, path).value)
    decreases |path|
  {
    hide ValueOf, UniqueKeys;
    if path != [] {
      if n.Obj? {
        MemberValue(n, path[0]);
        if Find(n.members, path[0]).Some? {
          LookupValue(Find(n.members, path[0]).value, path[1..]);
        }
      } else {
        NotObject(n);
      }
    }
  }

  /** Replacing a value in the document sets it in the document's value. */
  lemma {:induction false} ValueReplaced(n: Node, path: Keys, m: Node)
    requires UniqueKeys(n) && Lookup(n, path).Some?
    ensures ValueOf(Replace(n, path, m)) == SetIn(ValueOf(n), path, ValueOf(m))
    decreases |path|
  {
    if path != [] {
      var v := Find(n.members, path[0]).value;
      MemberValue(n, path[0]);
      ValueReplaced(v, path[1..], m);
      IntoReplaced(n.members, map[], path[0], Replace(v, path[1..], m));
    }
  }

  // The last key of a path is set or removed in its parent object.

  function Parent(path: Keys): Keys
    requires path != []
  {
    path[..|path| - 1]
  }

  function LastKey(path: Keys): Text
    requires path != []
  {
    path[|path| - 1]
  }

  lemma {:induction false} SetInParent(j: Json, at: Keys, key: Text, rest: Keys, v: Json)
    requires Get(j, at).Some? && Get(j, at).value.Object?
    requires rest == [] || key !in Get(j, at).value.members
    ensures SetValue(j, at + [key] + rest, v) == SetIn(j, at, Object(Get(j, at).value.members[key := Nest(rest, v)]))
    ensures Settable(j, at + [key] + rest)
    decreases |at|
  {
    var path := at + [key] + rest;
    if at == [] {
      assert path[0] == key && path[1..] == rest;
    } else {
      assert path[0] == at[0] && path[1..] == at[1..] + [key] + rest;
      SetInParent(j.members[at[0]], at[1..], key, rest, v);
    }
  }

  lemma {:induction false} NotSettable(j: Json, at: Keys, key: Text, rest: Keys)
    requires Get(j, at).Some? && !Get(j, at).value.Object?
    ensures !Settable(j, at + [key] + rest)
    decreases |at|
  {
    var path := at + [key] + rest;
    if at == [] {
      assert path[0] == key && path[1..] == rest;
    } else {
      assert path[0] == at[0] && path[1..] == at[1..] + [key] + rest;
      NotSettable(j.members[at[0]], at[1..], key, rest);
    }
  }

  lemma {:induction false} RemoveInParent(j: Json, at: Keys, key: Text)
    ensures Get(j, at).Some? && Get(j, at).value.Object? && key in Get(j, at).value.members ==>
      RemoveValue(j, at + [key]) == SetIn(j, at, Object(Get(j, at).value.members - {key}))
    ensures Get(j, at).None? || !Get(j, at).value.Object? || key !in Get(j, at).value.members ==> RemoveValue(j, at + [key]) == j
    decreases |at|
  {
    var path := at + [key];
    if at == [] {
      assert path[0] == key;
    } else {
      assert path[0] == at[0] && path[1..] == at[1..] + [key];
      if j.Object? && at[0] in j.members {
        RemoveInParent(j.members[at[0]], at[1..], key);
        if RemoveValue(j.members[at[0]], path[1..]) == j.members[at[0]] {
          assert j.members[at[0] := j.members[at[0]]] == j.members;
        }
      }
    }
  }
}
