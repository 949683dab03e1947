// Where the members of a document stand: paths, replacements, insertions and removals up to what separates the tokens.
module JsonShape {
  import opened Wrappers
  import opened JsonScan
  import opened JsonSyntax
  import opened JsonGrammar
  import opened JsonValue
  import opened JsonWords
  import opened JsonUpdate
  import opened JsonSetProperty

  lemma {:induction false} BareKeys(ms: MemberList)
    ensures KeysOf(BareMembers(ms)) == KeysOf(ms)
    decreases ms
  {
    if ms.ConsMember? {
      BareKeys(ms.more);
    }
  }

  lemma {:induction false} BareFind(ms: MemberList, key: Text)
    ensures Find(BareMembers(ms), key) == (match Find(ms, key) case None => None case Some(v) => Some(Bare(v)))
    decreases ms
  {
    if ms.ConsMember? && ms.key.value != key {
      BareFind(ms.more, key);
    }
  }

  lemma {:induction false} BareLookup(n: Node, path: Keys)
    ensures Lookup(Bare(n), path) == (match Lookup(n, path) case None => None case Some(v) => Some(Bare(v)))
    decreases |path|
  {
    if path != [] && n.Obj? {
      BareFind(n.members, path[0]);
      if Find(n.members, path[0]).Some? {
        BareLookup(Find(n.members, path[0]).value, path[1..]);
      }
    }
  }

  lemma {:induction false} BareReplaceIn(ms: MemberList, key: Text, v: Node)
    ensures BareMembers(ReplaceIn(ms, key, v)) == ReplaceIn(BareMembers(ms), key, Bare(v))
    decreases ms
  {
    if ms.ConsMember? && ms.key.value != key {
      BareReplaceIn(ms.more, key, v);
    }
  }

  lemma {:induction false} BareReplace(n: Node, path: Keys, m: Node)
    requires Lookup(n, path).Some?
    ensures Lookup(Bare(n), path).Some? && Bare(Replace(n, path, m)) == Replace(Bare(n), path, Bare(m))
    decreases |path|
  {
    BareLookup(n, path);
    if path != [] {
      var v := Find(n.members, path[0]).value;
      BareFind(n.members, path[0]);
      BareReplace(v, path[1..], m);
      BareReplaceIn(n.members, path[0], Replace(v, path[1..], m));
    }
  }

  /** Documents alike have alike values at every path. */
  lemma AlikeLookup(a: Node, b: Node, path: Keys)
    requires Alike(a, b)
    ensures Lookup(a, path).Some? <==> Lookup(b, path).Some?
    ensures Lookup(a, path).Some? ==> Alike(Lookup(a, path).value, Lookup(b, path).value)
  {
    BareLookup(a, path);
    BareLookup(b, path);
  }

  lemma AlikeMembers(a: Node, b: Node)
    requires Alike(a, b) && b.Obj?
    ensures a.Obj? && KeysOf(a.members) == KeysOf(b.members)
    ensures forall key :: Find(a.members, key).Some? <==> Find(b.members, key).Some?
    ensures forall key :: Find(b.members, key).Some? ==> Alike(Find(a.members, key).value, Find(b.members, key).value)
  {
    BareKeys(a.members);
    BareKeys(b.members);
    forall key ensures Find(a.members, key).Some? <==> Find(b.members, key).Some?
      ensures Find(b.members, key).Some? ==> Alike(Find(a.members, key).value, Find(b.members, key).value)
    {
      BareFind(a.members, key);
      BareFind(b.members, key);
    }
  }

  lemma AlikeReplaced(n: Node, path: Keys, m: Node, m': Node)
    requires Lookup(n, path).Some? && Alike(m, m')
    ensures Alike(Replace(n, path, m), Replace(n, path, m'))
  {
    BareReplace(n, path, m);
    BareReplace(n, path, m');
  }

  lemma {:induction false} FindReplaced(ms: MemberList, key: Text, v: Node)
    requires Find(ms, key).Some?
    ensures KeysOf(ReplaceIn(ms, key, v)) == KeysOf(ms) && Find(ReplaceIn(ms, key, v), key) == Some(v)
    ensures forall other :: other != key ==> Find(ReplaceIn(ms, key, v), other) == Find(ms, other)
    decreases ms
  {
    if ms.key.value != key {
      FindReplaced(ms.more, key, v);
    }
  }

  lemma {:induction false} LookupReplaced(n: Node, path: Keys, m: Node)
    requires Lookup(n, path).Some?
    ensures Lookup(Replace(n, path, m), path) == Some(m)
    decreases |path|
  {
    if path != [] {
      var v := Replace(Find(n.members, path[0]).value, path[1..], m);
      LookupReplaced(Find(n.members, path[0]).value, path[1..], m);
      FindReplaced(n.members, path[0], v);
    }
  }

  /** Replacing the value of a member is replacing its object by one with the same keys. */
  lemma {:induction false} ReplaceLonger(n: Node, at: Keys, key: Text, v: Node)
    requires Lookup(n, at).Some? && Lookup(n, at).value.Obj? && Find(Lookup(n, at).value.members, key).Some?
    ensures Lookup(n, at + [key]).Some?
    ensures var m := Lookup(n, at).value; Replace(n, at + [key], v) == Replace(n, at, Obj(m.open, ReplaceIn(m.members, key, v)))
    decreases |at|
  {
    var path := at + [key];
    if at == [] {
      assert path[0] == key && path[1..] == [];
    } else {
      assert path[0] == at[0] && path[1..] == at[1..] + [key];
      ReplaceLonger(Find(n.members, at[0]).value, at[1..], key, v);
    }
  }

  lemma {:induction false} InsertedBehind(ms: MemberList, k: nat, key: Tok, colon: Tok, v: Node, comma: Tok)
    requires 0 < k <= |KeysOf(ms)| && key.value !in KeysOf(ms)
    ensures var r := InsertBehind(ms, k, key, colon, v, comma);
      && KeysOf(r) == KeysOf(ms)[..k] + [key.value] + KeysOf(ms)[k..]
      && Find(r, key.value) == Some(v) && forall other :: other != key.value ==> Find(r, other) == Find(ms, other)
    decreases ms
  {
    var keys, tail := KeysOf(ms), KeysOf(ms.more);
    assert keys == [ms.key.value] + tail && keys[0] == ms.key.value;
    assert keys[k..] == tail[k - 1..] && keys[..k] == [ms.key.value] + tail[..k - 1];
    if k > 1 {
      InsertedBehind(ms.more, k - 1, key, colon, v, comma);
    } else {
      assert tail[0..] == tail;
    }
  }

  /** A new member is put behind the first k; the others stay. */
  lemma InsertedAt(ms: MemberList, k: nat, key: Text, v: Node)
    requires k <= |KeysOf(ms)| && key !in KeysOf(ms)
    ensures var r := WithMember(ms, k, key, v);
      && KeysOf(r) == KeysOf(ms)[..k] + [key] + KeysOf(ms)[k..]
      && Find(r, key) == Some(v) && forall other :: other != key ==> Find(r, other) == Find(ms, other)
  {
    if k == 0 {
      var second := Second(ms, New(Comma, []));
      assert KeysOf(second) == KeysOf(ms) && forall other :: Find(second, other) == Find(ms, other);
      assert [] + [key] + KeysOf(ms) == [key] + KeysOf(ms);
    } else {
      InsertedBehind(ms, k, New(Kind.String, key), New(Colon, []), v, New(Comma, []));
    }
  }

  // The keys without one of them.
  function Without(keys: Keys, key: Text): Keys {
    if keys == [] then [] else if keys[0] == key then keys[1..] else [keys[0]] + Without(keys[1..], key)
  }

  /** A removed member leaves the order of the others. */
  lemma {:induction false} RemovedAt(ms: MemberList, key: Text, first: bool)
    requires Distinct(KeysOf(ms)) && key in KeysOf(ms)
    ensures var r := RemoveFrom(ms, key, first);
      && KeysOf(r) == Without(KeysOf(ms), key)
      && Find(r, key) == None && forall other :: other != key ==> Find(r, other) == Find(ms, other)
    decreases ms
  {
    DistinctTail(ms);
    assert KeysOf(ms)[1..] == KeysOf(ms.more);
    if ms.key.value == key {
      FindIffKey(ms.more, key);
      var h := Headless(ms.more);
      assert KeysOf(h) == KeysOf(ms.more) && forall other :: Find(h, other) == Find(ms.more, other);
    } else {
      RemovedAt(ms.more, key, false);
    }
  }

  // ---- one member of an object set or removed

  /** Where a new member goes: behind the last one, or where the caller says. */
  function Position(names: Keys, getInsertionIndex: Option<Keys -> nat>): nat {
    if getInsertionIndex.Some? then getInsertionIndex.value(names) else |names|
  }

  ghost predicate IsObject(n: Node, at: Keys) {
    Lookup(n, at).Some? && Lookup(n, at).value.Obj?
  }

  ghost function MembersAt(n: Node, at: Keys): MemberList
    requires IsObject(n, at)
  {
    Lookup(n, at).value.members
  }

  /** All but the members of the object is as before, and so are its members other than the key's. */
  ghost predicate RestStays(n: Node, d: Node, at: Keys, key: Text)
    requires IsObject(n, at) && IsObject(d, at)
  {
    && Alike(d, Replace(n, at, Lookup(d, at).value))
    && forall other :: other != key ==>
      match Find(MembersAt(n, at), other)
      case None => Find(MembersAt(d, at), other) == None
      case Some(v) => Find(MembersAt(d, at), other).Some? && Alike(Find(MembersAt(d, at), other).value, v)
  }

  /** In d the member has the value, at its place if there was one, else at the given position; nothing else has changed. */
  ghost predicate MemberPlaced(n: Node, d: Node, at: Keys, key: Text, v: Node, getInsertionIndex: Option<Keys -> nat>) {
    && IsObject(n, at) && IsObject(d, at) && RestStays(n, d, at, key)
    && Find(MembersAt(d, at), key).Some? && Alike(Find(MembersAt(d, at), key).value, v)
    && var keys, keys' := KeysOf(MembersAt(n, at)), KeysOf(MembersAt(d, at));
    if key in keys then keys' == keys
    else
      var k := if getInsertionIndex.Some? then getInsertionIndex.value(keys) else |keys|;
      k <= |keys| && keys' == keys[..k] + [key] + keys[k..]
  }

  /** In d the member is gone; nothing else has changed, not even the order. */
  ghost predicate MemberGone(n: Node, d: Node, at: Keys, key: Text) {
    && IsObject(n, at) && IsObject(d, at) && RestStays(n, d, at, key)
    && Find(MembersAt(d, at), key) == None
    && KeysOf(MembersAt(d, at)) == Without(KeysOf(MembersAt(n, at)), key)
  }

  // What such a change makes of the members.

  function MemberSet(ms: MemberList, key: Text, v: Node, getInsertionIndex: Option<Keys -> nat>): MemberList
    requires Position(KeysOf(ms), getInsertionIndex) <= |KeysOf(ms)|
  {
    if key in KeysOf(ms) then ReplaceIn(ms, key, v) else WithMember(ms, Position(KeysOf(ms), getInsertionIndex), key, v)
  }

  lemma SetFound(ms: MemberList, key: Text, v: Node, getInsertionIndex: Option<Keys -> nat>)
    requires Position(KeysOf(ms), getInsertionIndex) <= |KeysOf(ms)|
    ensures var r := MemberSet(ms, key, v, getInsertionIndex);
      && Find(r, key) == Some(v) && (forall other :: other != key ==> Find(r, other) == Find(ms, other))
      && KeysOf(r) == if key in KeysOf(ms) then KeysOf(ms) else
          var k := Position(KeysOf(ms), getInsertionIndex); KeysOf(ms)[..k] + [key] + KeysOf(ms)[k..]
  {
    FindIffKey(ms, key);
    if key in KeysOf(ms) {
      FindReplaced(ms, key, v);
    } else {
      InsertedAt(ms, Position(KeysOf(ms), getInsertionIndex), key, v);
    }
  }

  // A document like n with other members in one object.
  lemma MembersChanged(n: Node, d: Node, at: Keys, ms: MemberList)
    requires IsObject(n, at) && Alike(d, Replace(n, at, Obj(Lookup(n, at).value.open, ms)))
    ensures IsObject(d, at) && Alike(d, Replace(n, at, Lookup(d, at).value))
    ensures KeysOf(MembersAt(d, at)) == KeysOf(ms)
    ensures forall key :: Find(MembersAt(d, at), key).Some? <==> Find(ms, key).Some?
    ensures forall key :: Find(ms, key).Some? ==> Alike(Find(MembersAt(d, at), key).value, Find(ms, key).value)
  {
    hide Find, KeysOf, Lookup, Replace, Bare;
    var m := Obj(Lookup(n, at).value.open, ms);
    LookupReplaced(n, at, m);
    AlikeLookup(d, Replace(n, at, m), at);
    AlikeMembers(Lookup(d, at).value, m);
    AlikeReplaced(n, at, m, Lookup(d, at).value);
  }

  lemma SetPlaces(n: Node, d: Node, at: Keys, key: Text, v: Node, getInsertionIndex: Option<Keys -> nat>)
    requires IsObject(n, at) && Position(KeysOf(MembersAt(n, at)), getInsertionIndex) <= |KeysOf(MembersAt(n, at))|
    requires Alike(d, Replace(n, at, Obj(Lookup(n, at).value.open, MemberSet(MembersAt(n, at), key, v, getInsertionIndex))))
    ensures MemberPlaced(n, d, at, key, v, getInsertionIndex)
  {
    hide Find, KeysOf, Lookup, Replace, Alike, MemberSet;
    var r := MemberSet(MembersAt(n, at), key, v, getInsertionIndex);
    SetFound(MembersAt(n, at), key, v, getInsertionIndex);
    MembersChanged(n, d, at, r);
  }

  lemma RemovalPlaces(n: Node, d: Node, at: Keys, key: Text)
    requires IsObject(n, at) && Distinct(KeysOf(MembersAt(n, at))) && key in KeysOf(MembersAt(n, at))
    requires Alike(d, Replace(n, at, Obj(Lookup(n, at).value.open, RemoveFrom(MembersAt(n, at), key, true))))
    ensures MemberGone(n, d, at, key)
  {
    hide Find, KeysOf, Lookup, Replace, Alike, RemoveFrom;
    RemovedAt(MembersAt(n, at), key, true);
    MembersChanged(n, d, at, RemoveFrom(MembersAt(n, at), key, true));
  }

  // ---- how much of a path is there

  /** How many keys of the path lead through existing values, the last key left aside. */
  function Depth(n: Node, path: Keys): (k: nat)
    requires path != []
    ensures k < |path|
    decreases |path|
  {
    if |path| == 1 || !n.Obj? || Find(n.members, path[0]).None? then 0
    else 1 + Depth(Find(n.members, path[0]).value, path[1..])
  }

  lemma {:induction false} DepthIs(n: Node, path: Keys, at: Keys, key: Text)
    requires at + [key] <= path && Lookup(n, at).Some?
    requires |at| + 1 < |path| ==> Lookup(n, at + [key]) == None
    ensures Depth(n, path) == |at|
    decreases |at|
  {
    if at == [] {
      assert path[0] == key && ([] + [key])[0] == key && ([] + [key])[1..] == [];
    } else {
      assert path[0] == at[0] && path[1..][..|at|] == at[1..] + [key];
      assert (at + [key])[0] == at[0] && (at + [key])[1..] == at[1..] + [key];
      DepthIs(Find(n.members, at[0]).value, path[1..], at[1..], key);
    }
  }
}
