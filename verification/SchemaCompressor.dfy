// getCompressedContent and traverseNodes (jsonSchema.ts, lines 186-330).
module SchemaCompressor {
  import opened Wrappers
  import opened SchemaSpec

  const ENTRY_KEYS := ["additionalItems", "additionalProperties", "not", "contains", "propertyNames", "if", "then", "else",
                       "unevaluatedItems", "unevaluatedProperties"]
  const MAP_KEYS := ["definitions", "$defs", "properties", "patternProperties", "dependencies", "dependentSchemas"]
  const ARRAY_KEYS := ["anyOf", "allOf", "oneOf", "prefixItems"]

  // A property of an object; an array has none of the names that matter.
  function Get(n: Node, key: string): Option<Node> {
    if n.Obj? then GetField(n.fields, key) else None
  }

  // The objects in a list, and in the values of an object or array.
  function ItemEntries(xs: Items): seq<Node> {
    match xs case NoItems => [] case Item(h, t) => (if h.IsObject() then [h] else []) + ItemEntries(t)
  }

  function FieldEntries(fs: Fields): seq<Node> {
    match fs case NoFields => [] case Field(_, v, r) => (if v.IsObject() then [v] else []) + FieldEntries(r)
  }

  function MapEntries(n: Option<Node>): seq<Node> {
    match n
    case Some(Arr(_, items)) => ItemEntries(items)
    case Some(Obj(_, fields)) => FieldEntries(fields)
    case _ => []
  }

  function ArrayEntries(n: Option<Node>): seq<Node> {
    match n case Some(Arr(_, items)) => ItemEntries(items) case _ => []
  }

  function Entry(n: Option<Node>): seq<Node> {
    if n.Some? && n.value.IsObject() then [n.value] else []
  }

  // A part of an object: an object that occurs inside it.
  ghost predicate IsPart(c: Node, n: Node) {
    c.IsObject() && Occurs(c, n) && Size(c) < Size(n)
  }

  ghost predicate Parts(cs: seq<Node>, n: Node) {
    forall i :: 0 <= i < |cs| ==> IsPart(cs[i], n)
  }

  lemma {:induction false} FieldOccurs(fs: Fields, key: string)
    requires GetField(fs, key).Some?
    ensures OccursFields(GetField(fs, key).value, fs) && Size(GetField(fs, key).value) <= FieldsSize(fs)
  {
    if fs.key != key {
      FieldOccurs(fs.rest, key);
    }
  }

  lemma {:induction false} ItemEntriesOccur(xs: Items)
    ensures forall i :: 0 <= i < |ItemEntries(xs)| ==> OccursItems(ItemEntries(xs)[i], xs) && ItemEntries(xs)[i].IsObject()
  {
    if xs.Item? {
      ItemEntriesOccur(xs.tail);
    }
  }

  lemma {:induction false} FieldEntriesOccur(fs: Fields)
    ensures forall i :: 0 <= i < |FieldEntries(fs)| ==> OccursFields(FieldEntries(fs)[i], fs) && FieldEntries(fs)[i].IsObject()
  {
    if fs.Field? {
      FieldEntriesOccur(fs.rest);
    }
  }

  lemma PropertyParts(n: Node, key: string)
    ensures Parts(Entry(Get(n, key)), n) && Parts(MapEntries(Get(n, key)), n) && Parts(ArrayEntries(Get(n, key)), n)
  {
    if Get(n, key).Some? {
      var v := Get(n, key).value;
      FieldOccurs(n.fields, key);
      match v
      case Leaf(_) =>
      case Arr(_, items) =>
        ItemEntriesOccur(items);
        forall i | 0 <= i < |ItemEntries(items)| ensures IsPart(ItemEntries(items)[i], n) {
          var c := ItemEntries(items)[i];
          OccursItemsSize(c, items);
          OccursTrans(c, v, n);
        }
      case Obj(_, fields) =>
        FieldEntriesOccur(fields);
        forall i | 0 <= i < |FieldEntries(fields)| ensures IsPart(FieldEntries(fields)[i], n) {
          var c := FieldEntries(fields)[i];
          OccursFieldsSize(c, fields);
          OccursTrans(c, v, n);
        }
    }
  }

  // The three ways of collecting.
  datatype Way = Entries | Maps | Arrays {
    function Of(n: Option<Node>): seq<Node> {
      match this case Entries => Entry(n) case Maps => MapEntries(n) case Arrays => ArrayEntries(n)
    }
  }

  function CollectKeys(n: Node, keys: seq<string>, way: Way): seq<Node> {
    if keys == [] then [] else CollectKeys(n, keys[..|keys| - 1], way) + way.Of(Get(n, keys[|keys| - 1]))
  }

  function CollectItems(items: Option<Node>): seq<Node> {
    if items.Some? && items.value.Arr? then ArrayEntries(items) else Entry(items)
  }

  /** The objects that one round of traverseNodes adds to the stack. */
  function Collected(n: Node): seq<Node> {
    CollectKeys(n, ENTRY_KEYS, Entries) + CollectKeys(n, MAP_KEYS, Maps) + CollectKeys(n, ARRAY_KEYS, Arrays) + CollectItems(Get(n, "items"))
  }

  lemma {:induction false} CollectKeysParts(n: Node, keys: seq<string>, way: Way)
    ensures Parts(CollectKeys(n, keys, way), n)
    decreases |keys|
  {
    if keys != [] {
      CollectKeysParts(n, keys[..|keys| - 1], way);
      PropertyParts(n, keys[|keys| - 1]);
    }
  }

  lemma CollectedParts(n: Node)
    ensures Parts(Collected(n), n)
  {
    CollectKeysParts(n, ENTRY_KEYS, Entries);
    CollectKeysParts(n, MAP_KEYS, Maps);
    CollectKeysParts(n, ARRAY_KEYS, Arrays);
    PropertyParts(n, "items");
  }

  method CollectWith(n: Node, keys: seq<string>, way: Way) returns (r: seq<Node>)
    ensures r == CollectKeys(n, keys, way)
  {
    r := [];
    for i := 0 to |keys|
      invariant r == CollectKeys(n, keys[..i], way)
    {
      assert keys[..i + 1][..i] == keys[..i];
      r := r + way.Of(Get(n, keys[i]));
    }
    assert keys[..|keys|] == keys;
  }

  /** The sub-schemas of a node, at every place where they occur, in the order in which the traversal comes by. */
  ghost function Walk(n: Node): (w: seq<Node>)
    ensures w != [] && w[0] == n
    decreases Size(n), 1
  {
    CollectedParts(n);
    [n] + WalkBelow(Collected(n), Size(n))
  }

  ghost function WalkBelow(ns: seq<Node>, bound: nat): seq<Node>
    requires forall i :: 0 <= i < |ns| ==> Size(ns[i]) < bound
    decreases bound, 0, |ns|
  {
    if ns == [] then [] else Walk(ns[|ns| - 1]) + WalkBelow(ns[..|ns| - 1], bound)
  }

  // What is still to come when the nodes of a stack are.
  ghost function WalkStack(ns: seq<Node>): seq<Node> {
    if ns == [] then [] else Walk(ns[|ns| - 1]) + WalkStack(ns[..|ns| - 1])
  }

  lemma {:induction false} SameWalk(ns: seq<Node>, bound: nat)
    requires forall i :: 0 <= i < |ns| ==> Size(ns[i]) < bound
    ensures WalkBelow(ns, bound) == WalkStack(ns)
    decreases |ns|
  {
    if ns != [] {
      SameWalk(ns[..|ns| - 1], bound);
    }
  }

  lemma {:induction false} WalkConcat(a: seq<Node>, b: seq<Node>)
    ensures WalkStack(a + b) == WalkStack(b) + WalkStack(a)
    decreases |b|
  {
    if b == [] {
      assert a + b == a;
    } else {
      assert (a + b)[..|a + b| - 1] == a + b[..|b| - 1];
      WalkConcat(a, b[..|b| - 1]);
      var last := Walk(b[|b| - 1]);
      assert last + (WalkStack(b[..|b| - 1]) + WalkStack(a)) == last + WalkStack(b[..|b| - 1]) + WalkStack(a);
    }
  }

  // All but the first are smaller.
  lemma {:induction false} WalkSizes(n: Node)
    ensures forall i :: 0 < i < |Walk(n)| ==> Size(Walk(n)[i]) < Size(n)
    decreases Size(n), 1
  {
    CollectedParts(n);
    hide Collected;
    WalkBelowSizes(Collected(n), Size(n));
  }

  lemma {:induction false} WalkBelowSizes(ns: seq<Node>, bound: nat)
    requires forall i :: 0 <= i < |ns| ==> Size(ns[i]) < bound
    ensures forall i :: 0 <= i < |WalkBelow(ns, bound)| ==> Size(WalkBelow(ns, bound)[i]) < bound
    decreases bound, 0, |ns|
  {
    if ns != [] {
      WalkSizes(ns[|ns| - 1]);
      WalkBelowSizes(ns[..|ns| - 1], bound);
    }
  }

  // The j-th sub-schema has the text of an earlier one other than the root, and that text is worth replacing.
  ghost predicate RepeatAt(w: seq<Node>, textLength: Node -> nat, i: int, j: int) {
    0 < i < j < |w| && textLength(Erase(w[j])) >= 30 && Erase(w[i]) == Erase(w[j])
  }

  ghost predicate Repeats(w: seq<Node>, textLength: Node -> nat) {
    exists i, j :: RepeatAt(w, textLength, i, j)
  }

  datatype Group = Group(schemas: seq<Node>, id: Option<nat>)

  // A group holds objects of the schema that have the same text.
  ghost predicate Alike(g: Group, schema: Node) {
    |g.schemas| > 0 && forall m :: m in g.schemas ==> m.IsObject() && Occurs(m, schema) && Erase(m) == Erase(g.schemas[0])
  }

  ghost predicate GroupsAlike(groups: seq<Group>, schema: Node) {
    forall g :: 0 <= g < |groups| ==> Alike(groups[g], schema)
  }

  // A text leads to the group of the objects that have it.
  ghost predicate TextsGrouped(equalsByString: map<Node, nat>, groups: seq<Group>) {
    forall t :: t in equalsByString ==>
      && equalsByString[t] < |groups| && |groups[equalsByString[t]].schemas| > 0
      && Erase(groups[equalsByString[t]].schemas[0]) == t
  }

  // So does an object.
  ghost predicate NodesGrouped(nodeToEquals: map<nat, nat>, groups: seq<Group>, schema: Node) {
    && (forall i :: i in nodeToEquals ==> nodeToEquals[i] < |groups| && |groups[nodeToEquals[i]].schemas| > 0)
    && (forall m :: Occurs(m, schema) && m.IsObject() && m.id in nodeToEquals ==>
      Erase(groups[nodeToEquals[m.id]].schemas[0]) == Erase(m))
  }

  ghost predicate NoIds(groups: seq<Group>) {
    forall g :: 0 <= g < |groups| ==> groups[g].id == None
  }

  lemma TextInRange(equalsByString: map<Node, nat>, groups: seq<Group>, t: Node)
    requires TextsGrouped(equalsByString, groups) && t in equalsByString
    ensures equalsByString[t] < |groups| && |groups[equalsByString[t]].schemas| > 0
  {
  }

  // The first object with its text opens a group.
  lemma NewGroup(equalsByString: map<Node, nat>, nodeToEquals: map<nat, nat>, groups: seq<Group>, schema: Node, next: Node)
    requires TextsGrouped(equalsByString, groups) && NodesGrouped(nodeToEquals, groups, schema) && GroupsAlike(groups, schema)
    requires Consistent(schema) && next.IsObject() && Occurs(next, schema)
    ensures var gs := groups + [Group([next], None)];
      && TextsGrouped(equalsByString[Erase(next) := |groups|], gs)
      && NodesGrouped(nodeToEquals[next.id := |groups|], gs, schema) && GroupsAlike(gs, schema)
  {
  }

  // Another one joins it.
  lemma JoinGroup(equalsByString: map<Node, nat>, nodeToEquals: map<nat, nat>, groups: seq<Group>, schema: Node, next: Node)
    requires TextsGrouped(equalsByString, groups) && NodesGrouped(nodeToEquals, groups, schema) && GroupsAlike(groups, schema)
    requires Consistent(schema) && next.IsObject() && Occurs(next, schema) && Erase(next) in equalsByString
    requires equalsByString[Erase(next)] < |groups|
    ensures var eq := equalsByString[Erase(next)];
      var gs := groups[eq := groups[eq].(schemas := groups[eq].schemas + [next])];
      && TextsGrouped(equalsByString, gs) && NodesGrouped(nodeToEquals[next.id := eq], gs, schema) && GroupsAlike(gs, schema)
  {
    hide Occurs, Consistent, Alike, TextsGrouped, NodesGrouped, GroupsAlike;
    var eq := equalsByString[Erase(next)];
    var gs := groups[eq := groups[eq].(schemas := groups[eq].schemas + [next])];
    TextIsThere(equalsByString, groups, Erase(next));
    JoinedAlike(groups, schema, eq, next);
    SameHeads(equalsByString, nodeToEquals, groups, gs, schema);
    NodeGrouped(nodeToEquals, gs, schema, next, eq);
  }

  lemma TextIsThere(equalsByString: map<Node, nat>, groups: seq<Group>, t: Node)
    requires TextsGrouped(equalsByString, groups) && t in equalsByString
    ensures |groups[equalsByString[t]].schemas| > 0 && Erase(groups[equalsByString[t]].schemas[0]) == t
  {
  }

  lemma JoinedAlike(groups: seq<Group>, schema: Node, eq: nat, next: Node)
    requires GroupsAlike(groups, schema) && eq < |groups| && next.IsObject() && Occurs(next, schema)
    requires |groups[eq].schemas| > 0 && Erase(groups[eq].schemas[0]) == Erase(next)
    ensures var gs := groups[eq := groups[eq].(schemas := groups[eq].schemas + [next])];
      && GroupsAlike(gs, schema)
      && forall g :: 0 <= g < |gs| ==> |gs[g].schemas| > 0 && |groups[g].schemas| > 0 && gs[g].schemas[0] == groups[g].schemas[0]
  {
    hide Occurs;
    var gs := groups[eq := groups[eq].(schemas := groups[eq].schemas + [next])];
    forall g | 0 <= g < |gs| ensures Alike(gs[g], schema) && |groups[g].schemas| > 0 && gs[g].schemas[0] == groups[g].schemas[0] {
      assert Alike(groups[g], schema);
    }
  }

  lemma SameHeads(equalsByString: map<Node, nat>, nodeToEquals: map<nat, nat>, groups: seq<Group>, gs: seq<Group>, schema: Node)
    requires TextsGrouped(equalsByString, groups) && NodesGrouped(nodeToEquals, groups, schema)
    requires |gs| == |groups|
    requires forall g :: 0 <= g < |gs| ==> |gs[g].schemas| > 0 && |groups[g].schemas| > 0 && gs[g].schemas[0] == groups[g].schemas[0]
    ensures TextsGrouped(equalsByString, gs) && NodesGrouped(nodeToEquals, gs, schema)
  {
    hide Occurs;
  }

  lemma NodeGrouped(nodeToEquals: map<nat, nat>, groups: seq<Group>, schema: Node, next: Node, eq: nat)
    requires NodesGrouped(nodeToEquals, groups, schema) && Consistent(schema) && next.IsObject() && Occurs(next, schema)
    requires eq < |groups| && |groups[eq].schemas| > 0 && Erase(groups[eq].schemas[0]) == Erase(next)
    ensures NodesGrouped(nodeToEquals[next.id := eq], groups, schema)
  {
    hide Occurs;
  }

  // Every object of a group leads to it, and so does the text.
  ghost predicate Members(equalsByString: map<Node, nat>, nodeToEquals: map<nat, nat>, groups: seq<Group>, schema: Node) {
    forall g :: 0 <= g < |groups| ==> MembersOf(equalsByString, nodeToEquals, groups[g], g, schema)
  }

  ghost predicate MembersOf(equalsByString: map<Node, nat>, nodeToEquals: map<nat, nat>, group: Group, g: nat, schema: Node) {
    forall m :: m in group.schemas ==>
      && m.IsObject() && m != schema && m.id in nodeToEquals && nodeToEquals[m.id] == g && Erase(m) in equalsByString && equalsByString[Erase(m)] == g
  }

  // An object that joins group g moves no other one, as only itself can have its identity.
  lemma MemberJoins(equalsByString: map<Node, nat>, nodeToEquals: map<nat, nat>, groups: seq<Group>, schema: Node, next: Node, g: nat)
    requires Members(equalsByString, nodeToEquals, groups, schema) && GroupsAlike(groups, schema) && Consistent(schema)
    requires next.IsObject() && Occurs(next, schema) && next != schema
    requires Erase(next) in equalsByString ==> equalsByString[Erase(next)] == g
    ensures Members(equalsByString[Erase(next) := g], nodeToEquals[next.id := g], groups, schema)
  {
    hide Occurs, Consistent;
    forall k, m | 0 <= k < |groups| && m in groups[k].schemas ensures m.id == next.id ==> k == g {
      assert Alike(groups[k], schema) && MembersOf(equalsByString, nodeToEquals, groups[k], k, schema);
      SameObject(schema, m, next);
    }
    forall k | 0 <= k < |groups|
      ensures MembersOf(equalsByString[Erase(next) := g], nodeToEquals[next.id := g], groups[k], k, schema)
    {
      assert MembersOf(equalsByString, nodeToEquals, groups[k], k, schema);
    }
  }

  lemma MemberAlone(equalsByString: map<Node, nat>, nodeToEquals: map<nat, nat>, groups: seq<Group>, schema: Node, next: Node)
    requires Members(equalsByString, nodeToEquals, groups, schema) && next != schema && next.IsObject()
    requires next.id in nodeToEquals && nodeToEquals[next.id] == |groups|
    requires Erase(next) in equalsByString && equalsByString[Erase(next)] == |groups|
    ensures Members(equalsByString, nodeToEquals, groups + [Group([next], None)], schema)
  {
  }

  lemma MemberMore(equalsByString: map<Node, nat>, nodeToEquals: map<nat, nat>, groups: seq<Group>, schema: Node, next: Node)
    requires Members(equalsByString, nodeToEquals, groups, schema) && next != schema && next.IsObject()
    requires next.id in nodeToEquals && nodeToEquals[next.id] < |groups|
    requires Erase(next) in equalsByString && equalsByString[Erase(next)] == nodeToEquals[next.id]
    ensures var eq := nodeToEquals[next.id];
      Members(equalsByString, nodeToEquals, groups[eq := groups[eq].(schemas := groups[eq].schemas + [next])], schema)
  {
    var eq := nodeToEquals[next.id];
    var gs := groups[eq := groups[eq].(schemas := groups[eq].schemas + [next])];
    forall g | 0 <= g < |gs| ensures MembersOf(equalsByString, nodeToEquals, gs[g], g, schema) {
      assert MembersOf(equalsByString, nodeToEquals, groups[g], g, schema);
    }
  }

  lemma SameObject(schema: Node, m: Node, m': Node)
    requires Consistent(schema) && Occurs(m, schema) && Occurs(m', schema) && m.IsObject() && m'.IsObject()
    ensures m.id == m'.id ==> m == m'
  {
  }

  // What the traversal keeps of its tables.
  ghost predicate Tabled(equalsByString: map<Node, nat>, nodeToEquals: map<nat, nat>, groups: seq<Group>, schema: Node) {
    && TextsGrouped(equalsByString, groups) && NodesGrouped(nodeToEquals, groups, schema) && GroupsAlike(groups, schema)
    && Members(equalsByString, nodeToEquals, groups, schema) && NoIds(groups)
  }

  lemma GroupOpened(equalsByString: map<Node, nat>, nodeToEquals: map<nat, nat>, groups: seq<Group>, schema: Node, next: Node)
    requires Tabled(equalsByString, nodeToEquals, groups, schema) && Consistent(schema)
    requires next.IsObject() && Occurs(next, schema) && next != schema && Erase(next) !in equalsByString
    ensures var gs := groups + [Group([next], None)];
      && Tabled(equalsByString[Erase(next) := |groups|], nodeToEquals[next.id := |groups|], gs, schema)
      && forall g :: 0 <= g < |groups| ==> gs[g] == groups[g]
  {
    hide Occurs, Consistent, Alike, TextsGrouped, NodesGrouped, GroupsAlike, Members;
    NewGroup(equalsByString, nodeToEquals, groups, schema, next);
    MemberJoins(equalsByString, nodeToEquals, groups, schema, next, |groups|);
    MemberAlone(equalsByString[Erase(next) := |groups|], nodeToEquals[next.id := |groups|], groups, schema, next);
  }

  lemma GroupJoined(equalsByString: map<Node, nat>, nodeToEquals: map<nat, nat>, groups: seq<Group>, schema: Node, next: Node)
    requires Tabled(equalsByString, nodeToEquals, groups, schema) && Consistent(schema)
    requires next.IsObject() && Occurs(next, schema) && next != schema && Erase(next) in equalsByString
    ensures var eq := equalsByString[Erase(next)];
      && eq < |groups| && |groups[eq].schemas| > 0
      && Tabled(equalsByString, nodeToEquals[next.id := eq], groups[eq := groups[eq].(schemas := groups[eq].schemas + [next])], schema)
  {
    hide Occurs, Consistent, Alike, TextsGrouped, NodesGrouped, GroupsAlike, Members;
    var eq := equalsByString[Erase(next)];
    TextInRange(equalsByString, groups, Erase(next));
    JoinGroup(equalsByString, nodeToEquals, groups, schema, next);
    MemberJoins(equalsByString, nodeToEquals, groups, schema, next, eq);
    assert equalsByString[Erase(next) := eq] == equalsByString;
    MemberMore(equalsByString, nodeToEquals[next.id := eq], groups, schema, next);
  }

  datatype Output = Plain(text: Node) | WithDefs(root: Node, name: string, defs: seq<Node>)

  class Compressor {
    const schema: Node
    // The length of the JSON text of a value.
    const textLength: Node -> nat
    var equalsByString: map<Node, nat>
    var nodeToEquals: map<nat, nat>
    var groups: seq<Group>
    var hasDups: bool
    var definitions: seq<Node>

    constructor (schema: Node, textLength: Node -> nat)
      ensures this.schema == schema && this.textLength == textLength
      ensures equalsByString == map[] && nodeToEquals == map[] && groups == [] && !hasDups && definitions == []
    {
      this.schema := schema;
      this.textLength := textLength;
      equalsByString, nodeToEquals, groups, hasDups, definitions := map[], map[], [], false, [];
    }

    ghost predicate Grouped()
      reads this
    {
      && Tabled(equalsByString, nodeToEquals, groups, schema)
      && (hasDups ==> exists g :: 0 <= g < |groups| && |groups[g].schemas| > 1)
    }

    /** visitSchemas: whether to go on below a node. */
    method VisitSchemas(next: Node) returns (goOn: bool)
      requires Consistent(schema) && Grouped() && definitions == [] && next.IsObject() && Occurs(next, schema)
      modifies this
      ensures Grouped() && definitions == []
      ensures next == schema || textLength(Erase(next)) < 30 ==>
        goOn && equalsByString == old(equalsByString) && nodeToEquals == old(nodeToEquals) && groups == old(groups) && hasDups == old(hasDups)
      ensures next != schema && textLength(Erase(next)) >= 30 ==>
        && (goOn <==> Erase(next) !in old(equalsByString)) && hasDups == (old(hasDups) || !goOn)
        && equalsByString.Keys == old(equalsByString.Keys) + {Erase(next)}
        && next.id in nodeToEquals && nodeToEquals[next.id] < |groups| && next in groups[nodeToEquals[next.id]].schemas
    {
      hide Occurs, Consistent, Tabled, Erase;
      if next == schema {
        return true;
      }
      var val := Erase(next);
      if textLength(val) < 30 {
        return true;
      }
      if val !in equalsByString {
        GroupOpened(equalsByString, nodeToEquals, groups, schema, next);
        equalsByString := equalsByString[val := |groups|];
        nodeToEquals := nodeToEquals[next.id := |groups|];
        groups := groups + [Group([next], None)];
        return true;
      }
      GroupJoined(equalsByString, nodeToEquals, groups, schema, next);
      var eq := equalsByString[val];
      nodeToEquals := nodeToEquals[next.id := eq];
      groups := groups[eq := groups[eq].(schemas := groups[eq].schemas + [next])];
      assert |groups[eq].schemas| > 1;
      hasDups := true;
      return false;
    }

    /** traverseNodes with visitSchemas: finds out whether a sub-schema of 30 or more characters is repeated. */
    method TraverseNodes()
      requires Consistent(schema) && schema.IsObject() && Grouped() && groups == [] && definitions == []
      requires equalsByString == map[] && !hasDups
      modifies this
      ensures Grouped() && definitions == []
      ensures hasDups <==> Repeats(Walk(schema), textLength)
    {
      hide Collected, Grouped, Walk, Repeats, OnWay;
      var toWalk := [schema];
      ghost var seen: seq<Node> := [];
      WayStarts(schema, textLength);
      assert equalsByString.Keys == {};
      while toWalk != []
        invariant Grouped() && definitions == []
        invariant OnWay(hasDups, equalsByString.Keys, seen, toWalk, schema, textLength)
        invariant forall i :: 0 <= i < |toWalk| ==> toWalk[i].IsObject() && Occurs(toWalk[i], schema)
        decreases |WalkStack(toWalk)|
      {
        var next := toWalk[|toWalk| - 1];
        ghost var below := toWalk[..|toWalk| - 1];
        assert toWalk == below + [next];
        toWalk := toWalk[..|toWalk| - 1];
        RoundStep(below, next);
        ghost var known, texts := hasDups, equalsByString.Keys;
        var visitChildren := VisitSchemas(next);
        if visitChildren {
          var entries := CollectWith(next, ENTRY_KEYS, Entries);
          var maps := CollectWith(next, MAP_KEYS, Maps);
          var arrays := CollectWith(next, ARRAY_KEYS, Arrays);
          CollectedIs(next);
          PartsOccur(next, schema);
          toWalk := toWalk + (entries + maps + arrays + CollectItems(Get(next, "items")));
        }
        WayStep(known, texts, seen, below, next, schema, textLength, hasDups, equalsByString.Keys, visitChildren);
        seen := seen + [next];
      }
      WayEnds(hasDups, equalsByString.Keys, seen, schema, textLength);
    }

    // The objects that occur more than once, and the numbers given out so far.
    ghost function Dups(): set<nat>
      reads this
    {
      DupsIn(nodeToEquals, groups)
    }

    ghost function Numbers(): map<nat, nat>
      reads this
    {
      NumbersIn(nodeToEquals, groups)
    }

    // Every group with a number is a definition.
    ghost predicate Defining()
      reads this
    {
      && NodesGrouped(nodeToEquals, groups, schema) && GroupsAlike(groups, schema)
      && Listed(groups, definitions) && OpenGroups(groups) + |definitions| == |groups|
      && DefinitionsOccur(definitions, schema)
    }

    // The reference that stands for an object which occurs more than once.
    method Reference(value: Node, name: string) returns (r: Node)
      requires Defining() && value.IsObject() && value.id in Dups()
      modifies this`groups, this`definitions
      ensures Defining() && value.id in Numbers() && r == Ref(name, Numbers()[value.id])
      ensures Dups() == old(Dups()) && Extends(old(Numbers()), Numbers(), Dups())
      ensures old(definitions) <= definitions && |groups| == |old(groups)|
    {
      hide NodesGrouped, GroupsAlike, Occurs, Erase, Ref, Listed, DefinitionsOccur, Extends;
      var g := nodeToEquals[value.id];
      NumbersExtend(nodeToEquals, groups);
      if groups[g].id == None {
        NumberGroup(nodeToEquals, groups, definitions, schema, g);
        definitions := definitions + [groups[g].schemas[0]];
        groups := groups[g := groups[g].(id := Some(|definitions| - 1))];
      }
      r := Ref(name, groups[g].id.value);
    }

    // stringify's replacer, on a value and on everything below it.
    method StringifyValue(value: Node, root: nat, name: string) returns (r: Node)
      requires Defining()
      modifies this`groups, this`definitions
      ensures Defining() && Dups() == old(Dups()) && Extends(old(Numbers()), Numbers(), Dups())
      ensures old(definitions) <= definitions && |groups| == |old(groups)|
      ensures r == Rewrite(value, root, name, Numbers()) && Settled(value, root, Numbers(), Dups())
      decreases value, 1
    {
      hide Defining, Ref, DupsIn, NumbersIn, Extends, OpenGroups;
      NumbersExtend(nodeToEquals, groups);
      InDups(nodeToEquals, groups);
      NodesInRange(this);
      if value.IsObject() && value.id != root && value.id in nodeToEquals && |groups[nodeToEquals[value.id]].schemas| > 1 {
        r := Reference(value, name);
      } else {
        r := StringifyInside(value, root, name);
        NotNumbered(old(Numbers()), Numbers(), Dups());
      }
    }

    method StringifyInside(value: Node, root: nat, name: string) returns (r: Node)
      requires Defining()
      modifies this`groups, this`definitions
      ensures Defining() && Dups() == old(Dups()) && Extends(old(Numbers()), Numbers(), Dups())
      ensures old(definitions) <= definitions && |groups| == |old(groups)|
      ensures r == RewriteInside(value, root, name, Numbers()) && SettledInside(value, root, Numbers(), Dups())
      decreases value, 0
    {
      hide Defining, DupsIn, NumbersIn, Extends, OpenGroups;
      NumbersExtend(nodeToEquals, groups);
      match value {
        case Leaf(_) => r := value;
        case Arr(_, items) =>
          var written := StringifyItems(items, root, name);
          r := Arr(0, written);
        case Obj(_, fields) =>
          var written := StringifyFields(fields, root, name);
          r := Obj(0, written);
      }
    }

    method StringifyItems(xs: Items, root: nat, name: string) returns (r: Items)
      requires Defining()
      modifies this`groups, this`definitions
      ensures Defining() && Dups() == old(Dups()) && Extends(old(Numbers()), Numbers(), Dups())
      ensures old(definitions) <= definitions && |groups| == |old(groups)|
      ensures r == RewriteItems(xs, root, name, Numbers()) && SettledItems(xs, root, Numbers(), Dups())
      decreases xs
    {
      hide Defining, DupsIn, NumbersIn, Extends, Rewrite, Settled, OpenGroups;
      NumbersExtend(nodeToEquals, groups);
      if xs.NoItems? {
        return NoItems;
      }
      var head := StringifyValue(xs.head, root, name);
      ghost var numbers := Numbers();
      var tail := StringifyItems(xs.tail, root, name);
      SettledStays(xs.head, root, name, numbers, Numbers(), Dups());
      ExtendsTrans(old(Numbers()), numbers, Numbers(), Dups());
      r := Item(head, tail);
    }

    method StringifyFields(fs: Fields, root: nat, name: string) returns (r: Fields)
      requires Defining()
      modifies this`groups, this`definitions
      ensures Defining() && Dups() == old(Dups()) && Extends(old(Numbers()), Numbers(), Dups())
      ensures old(definitions) <= definitions && |groups| == |old(groups)|
      ensures r == RewriteFields(fs, root, name, Numbers()) && SettledFields(fs, root, Numbers(), Dups())
      decreases fs
    {
      hide Defining, DupsIn, NumbersIn, Extends, Rewrite, Settled, OpenGroups;
      NumbersExtend(nodeToEquals, groups);
      if fs.NoFields? {
        return NoFields;
      }
      var value := StringifyValue(fs.value, root, name);
      ghost var numbers := Numbers();
      var rest := StringifyFields(fs.rest, root, name);
      SettledStays(fs.value, root, name, numbers, Numbers(), Dups());
      ExtendsTrans(old(Numbers()), numbers, Numbers(), Dups());
      r := Field(fs.key, value, rest);
    }

    // The loop of lines 253-255: writing a definition can add further ones.
    method WriteDefinitions(name: string) returns (defStrings: seq<Node>)
      requires Defining()
      modifies this`groups, this`definitions
      ensures Defining() && Dups() == old(Dups()) && Extends(old(Numbers()), Numbers(), Dups())
      ensures old(definitions) <= definitions && |groups| == |old(groups)| && |defStrings| == |definitions|
      ensures forall k :: 0 <= k < |definitions| ==>
        definitions[k].IsObject() && defStrings[k] == RewriteInside(definitions[k], definitions[k].id, name, Numbers())
    {
      hide Defining, DupsIn, NumbersIn, Extends, RewriteInside, SettledInside, OpenGroups;
      defStrings := [];
      NumbersExtend(nodeToEquals, groups);
      var i := 0;
      while i < |definitions|
        invariant i == |defStrings| <= |definitions| && Defining() && |groups| == |old(groups)|
        invariant Dups() == old(Dups()) && Extends(old(Numbers()), Numbers(), Dups()) && old(definitions) <= definitions
        invariant forall k :: 0 <= k < i ==> Written(definitions[k], name, Numbers(), Dups(), defStrings[k])
        decreases |groups| - i
      {
        BoundedDefinitions(this);
        ghost var numbers, before := Numbers(), definitions;
        DefinitionIs(this, i);
        var written := StringifyInside(definitions[i], definitions[i].id, name);
        forall k | 0 <= k < i ensures Written(definitions[k], name, Numbers(), Dups(), defStrings[k]) {
          assert before[k] == definitions[k];
          WrittenStays(definitions[k], name, numbers, Numbers(), Dups(), defStrings[k]);
        }
        assert before[i] == definitions[i];
        ExtendsTrans(old(Numbers()), numbers, Numbers(), Dups());
        defStrings := defStrings + [written];
        i := i + 1;
      }
      assert forall k :: 0 <= k < |definitions| ==> Written(definitions[k], name, Numbers(), Dups(), defStrings[k]);
    }

    /** getCompressedContent: the output reads as the schema once its references are followed. */
    method GetCompressedContent() returns (out: Output)
      requires Consistent(schema) && schema.Obj?
      requires equalsByString == map[] && nodeToEquals == map[] && groups == [] && !hasDups && definitions == []
      modifies this
      ensures out.WithDefs? <==> Repeats(Walk(schema), textLength)
      ensures out.Plain? ==> out.text == Erase(schema)
      ensures out.WithDefs? ==>
        && GetField(schema.fields, out.name) == None && out.root.Obj? && GetField(out.root.fields, out.name) == None
        && (NoRefs(schema, out.name) ==> Expand(out.root, out.name, out.defs, Size(schema)) == Erase(schema))
      ensures out.WithDefs? ==>
        out.root == RewriteInside(schema, schema.id, out.name, Numbers()) && SettledInside(schema, schema.id, Numbers(), Dups())
    {
      hide Expand, RewriteInside, Consistent, NoRefs, Settled, SettledInside;
      TraverseNodes();
      ghost var texts := equalsByString;
      equalsByString := map[];
      if !hasDups {
        return Plain(Erase(schema));
      }
      ghost var m := DupOf(texts, nodeToEquals, groups, schema);
      var name := FreshName(schema.fields);
      StartDefining(nodeToEquals, groups, schema);
      var str := StringifyInside(schema, schema.id, name);
      ghost var numbers := Numbers();
      var defStrings := WriteDefinitions(name);
      SettledInsideStays(schema, schema.id, name, numbers, Numbers(), Dups());
      if |defStrings| == 0 {
        NoNumbers(this);
        UnsettledDup(schema, m, schema.id, Dups());
        // dead: a repeated object has got a number
        assert false;
      }
      RewriteKeepsKeys(schema, schema.id, name, Numbers(), name);
      if NoRefs(schema, name) {
        AllDefined(this, name, defStrings);
        ghost var s := Setting(schema, name, Numbers(), definitions, defStrings);
        assert Occurs(schema, schema);
        ExpandInside(s, schema, Size(schema));
      }
      out := WithDefs(str, name, defStrings);
    }
  }

  lemma CollectedIs(n: Node)
    ensures Collected(n) ==
      CollectKeys(n, ENTRY_KEYS, Entries) + CollectKeys(n, MAP_KEYS, Maps) + CollectKeys(n, ARRAY_KEYS, Arrays) + CollectItems(Get(n, "items"))
  {
  }

  lemma PartsOccur(n: Node, schema: Node)
    requires Occurs(n, schema)
    ensures forall i :: 0 <= i < |Collected(n)| ==> Collected(n)[i].IsObject() && Occurs(Collected(n)[i], schema)
  {
    CollectedParts(n);
    hide Collected;
    forall i | 0 <= i < |Collected(n)| ensures Occurs(Collected(n)[i], schema) {
      assert IsPart(Collected(n)[i], n);
      OccursTrans(Collected(n)[i], n, schema);
    }
  }

  // Each round takes a node off the stack and can only put its parts there.
  lemma RoundStep(below: seq<Node>, next: Node)
    ensures WalkStack(below + [next]) == [next] + WalkStack(below + Collected(next))
    ensures |WalkStack(below)| < |WalkStack(below + [next])|
  {
    CollectedParts(next);
    hide Collected;
    WalkConcat(below, [next]);
    WalkConcat(below, Collected(next));
    assert [next][..0] == [] && WalkStack([next]) == Walk(next) + WalkStack([]);
    assert forall i :: 0 <= i < |Collected(next)| ==> IsPart(Collected(next)[i], next);
    SameWalk(Collected(next), Size(next));
    var c, w := WalkStack(Collected(next)), WalkStack(below);
    assert [next] + (c + w) == [next] + c + w;
  }

  // The texts are those met so far, the root's left out.
  ghost predicate Met(texts: set<Node>, seen: seq<Node>, textLength: Node -> nat) {
    && (forall i :: 0 < i < |seen| && textLength(Erase(seen[i])) >= 30 ==> Erase(seen[i]) in texts)
    && (forall t :: t in texts ==> MetAt(seen, t))
  }

  ghost predicate MetAt(seen: seq<Node>, t: Node) {
    exists i :: 0 < i < |seen| && Erase(seen[i]) == t
  }

  // Where the traversal is: a repetition is known, or what it has come by holds none.
  ghost predicate OnWay(known: bool, texts: set<Node>, seen: seq<Node>, toWalk: seq<Node>, schema: Node, textLength: Node -> nat) {
    if known then Repeats(Walk(schema), textLength)
    else seen + WalkStack(toWalk) == Walk(schema) && Met(texts, seen, textLength) && !Repeats(seen, textLength)
  }

  lemma WayStarts(schema: Node, textLength: Node -> nat)
    ensures OnWay(false, {}, [], [schema], schema, textLength)
  {
    assert [schema][..0] == [];
    assert WalkStack([schema]) == Walk(schema) + WalkStack([]);
    hide Walk;
    assert forall i, j :: !RepeatAt([], textLength, i, j);
  }

  lemma WayEnds(known: bool, texts: set<Node>, seen: seq<Node>, schema: Node, textLength: Node -> nat)
    requires OnWay(known, texts, seen, [], schema, textLength)
    ensures known <==> Repeats(Walk(schema), textLength)
  {
    hide Walk, Repeats, Met;
    assert seen + [] == seen;
  }

  // What a round of the traversal does, by the contract of visitSchemas.
  ghost predicate Visits(known: bool, texts: set<Node>, next: Node, schema: Node, textLength: Node -> nat,
                         known': bool, texts': set<Node>, goOn: bool)
  {
    if next == schema || textLength(Erase(next)) < 30 then goOn && known' == known && texts' == texts
    else (goOn <==> Erase(next) !in texts) && known' == (known || !goOn) && texts' == texts + {Erase(next)}
  }

  lemma WayStep(known: bool, texts: set<Node>, seen: seq<Node>, below: seq<Node>, next: Node, schema: Node, textLength: Node -> nat,
                known': bool, texts': set<Node>, goOn: bool)
    requires OnWay(known, texts, seen, below + [next], schema, textLength)
    requires Visits(known, texts, next, schema, textLength, known', texts', goOn)
    ensures OnWay(known', texts', seen + [next], if goOn then below + Collected(next) else below, schema, textLength)
  {
    hide Collected, Walk, Erase, Repeats, WalkStack;
    if !known {
      RoundStep(below, next);
      WalkSizes(schema);
      var w, rest := Walk(schema), WalkStack(below + Collected(next));
      assert seen + ([next] + rest) == seen + [next] + rest;
      assert w[|seen|] == next;
      assert seen == [] <==> next == schema;
      if goOn {
        MetMore(texts, seen, next, schema, textLength, texts');
      } else {
        var i :| 0 < i < |seen| && Erase(seen[i]) == Erase(next);
        assert w[i] == seen[i];
        RepeatsBy(w, textLength, i, |seen|);
      }
    }
  }

  lemma RepeatsBy(w: seq<Node>, textLength: Node -> nat, i: int, j: int)
    requires RepeatAt(w, textLength, i, j)
    ensures Repeats(w, textLength)
  {
  }

  lemma MetMore(texts: set<Node>, seen: seq<Node>, next: Node, schema: Node, textLength: Node -> nat, texts': set<Node>)
    requires Met(texts, seen, textLength) && !Repeats(seen, textLength) && (seen == [] <==> next == schema)
    requires if next == schema || textLength(Erase(next)) < 30 then texts' == texts
             else Erase(next) !in texts && texts' == texts + {Erase(next)}
    ensures Met(texts', seen + [next], textLength) && !Repeats(seen + [next], textLength)
  {
    hide Erase;
    var s := seen + [next];
    forall t | t in texts' ensures MetAt(s, t) {
      if t in texts {
        assert MetAt(seen, t);
        var i :| 0 < i < |seen| && Erase(seen[i]) == t;
        assert s[i] == seen[i];
      } else {
        assert s[|seen|] == next;
      }
    }
    forall i, j ensures !RepeatAt(s, textLength, i, j) {
      assert !RepeatAt(seen, textLength, i, j);
    }
  }

  // Numbers.

  ghost function DupsIn(nodeToEquals: map<nat, nat>, groups: seq<Group>): set<nat> {
    set i | i in nodeToEquals && nodeToEquals[i] < |groups| && |groups[nodeToEquals[i]].schemas| > 1
  }

  ghost function NumbersIn(nodeToEquals: map<nat, nat>, groups: seq<Group>): map<nat, nat> {
    map i | i in nodeToEquals && nodeToEquals[i] < |groups| && |groups[nodeToEquals[i]].schemas| > 1 && groups[nodeToEquals[i]].id.Some?
      :: groups[nodeToEquals[i]].id.value
  }

  // The number of a group is the place of its first object among the definitions.
  ghost predicate Listed(groups: seq<Group>, definitions: seq<Node>) {
    forall g :: 0 <= g < |groups| && groups[g].id.Some? ==>
      groups[g].id.value < |definitions| && |groups[g].schemas| > 0 && definitions[groups[g].id.value] == groups[g].schemas[0]
  }

  ghost predicate DefinitionsOccur(definitions: seq<Node>, schema: Node) {
    forall k :: 0 <= k < |definitions| ==> definitions[k].IsObject() && Occurs(definitions[k], schema)
  }

  ghost function OpenGroups(groups: seq<Group>): nat {
    if groups == [] then 0 else OpenGroups(groups[..|groups| - 1]) + (if groups[|groups| - 1].id == None then 1 else 0)
  }

  lemma {:induction false} OpenClosed(groups: seq<Group>, g: nat, id: nat)
    requires g < |groups| && groups[g].id == None
    ensures OpenGroups(groups[g := groups[g].(id := Some(id))]) == OpenGroups(groups) - 1
    decreases |groups|
  {
    var k := |groups| - 1;
    var gs := groups[g := groups[g].(id := Some(id))];
    if g < k {
      OpenClosed(groups[..k], g, id);
      assert gs[..k] == groups[..k][g := groups[g].(id := Some(id))];
    } else {
      assert gs[..k] == groups[..k];
    }
  }

  lemma {:induction false} AllOpen(groups: seq<Group>)
    requires NoIds(groups)
    ensures OpenGroups(groups) == |groups|
    decreases |groups|
  {
    if groups != [] {
      AllOpen(groups[..|groups| - 1]);
    }
  }

  lemma NumbersExtend(nodeToEquals: map<nat, nat>, groups: seq<Group>)
    ensures var n := NumbersIn(nodeToEquals, groups); Extends(n, n, DupsIn(nodeToEquals, groups))
  {
  }

  lemma InDups(nodeToEquals: map<nat, nat>, groups: seq<Group>)
    ensures forall i :: i in DupsIn(nodeToEquals, groups) <==>
      i in nodeToEquals && nodeToEquals[i] < |groups| && |groups[nodeToEquals[i]].schemas| > 1
  {
  }

  lemma NodesInRange(c: Compressor)
    requires c.Defining()
    ensures forall i :: i in c.nodeToEquals ==> c.nodeToEquals[i] < |c.groups|
  {
  }

  lemma NotNumbered(numbers: map<nat, nat>, numbers': map<nat, nat>, dups: set<nat>)
    requires Extends(numbers, numbers', dups)
    ensures forall i :: i !in dups ==> i !in numbers'
  {
  }

  lemma ExtendsTrans(a: map<nat, nat>, b: map<nat, nat>, c: map<nat, nat>, dups: set<nat>)
    requires Extends(a, b, dups) && Extends(b, c, dups)
    ensures Extends(a, c, dups)
  {
  }

  // A group gets the next number, and its first object becomes the next definition.
  lemma NumberGroup(nodeToEquals: map<nat, nat>, groups: seq<Group>, definitions: seq<Node>, schema: Node, g: nat)
    requires NodesGrouped(nodeToEquals, groups, schema) && GroupsAlike(groups, schema) && Listed(groups, definitions)
    requires DefinitionsOccur(definitions, schema) && g < |groups| && groups[g].id == None && |groups[g].schemas| > 1
    ensures var gs := groups[g := groups[g].(id := Some(|definitions|))];
      var ds := definitions + [groups[g].schemas[0]];
      && NodesGrouped(nodeToEquals, gs, schema) && GroupsAlike(gs, schema) && Listed(gs, ds) && DefinitionsOccur(ds, schema)
      && OpenGroups(gs) == OpenGroups(groups) - 1 && DupsIn(nodeToEquals, gs) == DupsIn(nodeToEquals, groups)
      && Extends(NumbersIn(nodeToEquals, groups), NumbersIn(nodeToEquals, gs), DupsIn(nodeToEquals, gs))
  {
    var gs := groups[g := groups[g].(id := Some(|definitions|))];
    OpenClosed(groups, g, |definitions|);
    GroupFacts(groups, schema, g);
    hide Occurs;
    SameSchemas(nodeToEquals, groups, gs, schema);
  }

  lemma GroupFacts(groups: seq<Group>, schema: Node, g: nat)
    requires GroupsAlike(groups, schema) && g < |groups|
    ensures |groups[g].schemas| > 0 && groups[g].schemas[0].IsObject() && Occurs(groups[g].schemas[0], schema)
  {
    hide Occurs;
    assert Alike(groups[g], schema);
  }

  lemma SameSchemas(nodeToEquals: map<nat, nat>, groups: seq<Group>, gs: seq<Group>, schema: Node)
    requires NodesGrouped(nodeToEquals, groups, schema) && GroupsAlike(groups, schema)
    requires |gs| == |groups| && forall g :: 0 <= g < |gs| ==> gs[g].schemas == groups[g].schemas
    ensures NodesGrouped(nodeToEquals, gs, schema) && GroupsAlike(gs, schema)
  {
    hide Occurs;
    forall g | 0 <= g < |gs| ensures Alike(gs[g], schema) {
      assert Alike(groups[g], schema);
    }
  }

  // The text of a definition, which numbers given later do not change.
  ghost predicate Written(d: Node, name: string, numbers: map<nat, nat>, dups: set<nat>, text: Node) {
    d.IsObject() && text == RewriteInside(d, d.id, name, numbers) && SettledInside(d, d.id, numbers, dups)
  }

  lemma WrittenStays(d: Node, name: string, numbers: map<nat, nat>, numbers': map<nat, nat>, dups: set<nat>, text: Node)
    requires Written(d, name, numbers, dups, text) && Extends(numbers, numbers', dups)
    ensures Written(d, name, numbers', dups, text)
  {
    SettledInsideStays(d, d.id, name, numbers, numbers', dups);
  }

  lemma BoundedDefinitions(c: Compressor)
    requires c.Defining()
    ensures |c.definitions| <= |c.groups|
  {
  }

  lemma DefinitionIs(c: Compressor, i: nat)
    requires c.Defining() && i < |c.definitions|
    ensures c.definitions[i].IsObject() && Occurs(c.definitions[i], c.schema)
  {
  }

  lemma StartDefining(nodeToEquals: map<nat, nat>, groups: seq<Group>, schema: Node)
    requires NoIds(groups)
    ensures Listed(groups, []) && OpenGroups(groups) == |groups| && DefinitionsOccur([], schema)
  {
    AllOpen(groups);
  }

  lemma NoNumbers(c: Compressor)
    requires c.Defining() && c.definitions == []
    ensures c.Numbers() == map[]
  {
  }

  // An object that occurs more than once.
  lemma DupOf(equalsByString: map<Node, nat>, nodeToEquals: map<nat, nat>, groups: seq<Group>, schema: Node) returns (m: Node)
    requires Members(equalsByString, nodeToEquals, groups, schema) && GroupsAlike(groups, schema) && Consistent(schema)
    requires schema.IsObject() && exists g :: 0 <= g < |groups| && |groups[g].schemas| > 1
    ensures m.IsObject() && Occurs(m, schema) && m != schema && m.id != schema.id && m.id in DupsIn(nodeToEquals, groups)
  {
    var g :| 0 <= g < |groups| && |groups[g].schemas| > 1;
    assert Alike(groups[g], schema) && MembersOf(equalsByString, nodeToEquals, groups[g], g, schema);
    m := groups[g].schemas[0];
    assert Occurs(schema, schema);
    SameObject(schema, m, schema);
  }

  // Text in which such an object is left is not settled without numbers.
  lemma {:induction false} UnsettledDup(n: Node, m: Node, root: nat, dups: set<nat>)
    requires Occurs(m, n) && m != n && m.IsObject() && m.id in dups && m.id != root
    ensures !SettledInside(n, root, map[], dups)
    decreases n
  {
    match n
    case Leaf(_) =>
    case Arr(_, items) => UnsettledItems(items, m, root, dups);
    case Obj(_, fields) => UnsettledFields(fields, m, root, dups);
  }

  lemma {:induction false} UnsettledItems(xs: Items, m: Node, root: nat, dups: set<nat>)
    requires OccursItems(m, xs) && m.IsObject() && m.id in dups && m.id != root
    ensures !SettledItems(xs, root, map[], dups)
    decreases xs
  {
    if Occurs(m, xs.head) {
      if m != xs.head {
        UnsettledDup(xs.head, m, root, dups);
      }
    } else {
      UnsettledItems(xs.tail, m, root, dups);
    }
  }

  lemma {:induction false} UnsettledFields(fs: Fields, m: Node, root: nat, dups: set<nat>)
    requires OccursFields(m, fs) && m.IsObject() && m.id in dups && m.id != root
    ensures !SettledFields(fs, root, map[], dups)
    decreases fs
  {
    if Occurs(m, fs.value) {
      if m != fs.value {
        UnsettledDup(fs.value, m, root, dups);
      }
    } else {
      UnsettledFields(fs.rest, m, root, dups);
    }
  }

  // At the end the definitions are what the numbers say.
  lemma AllDefined(c: Compressor, name: string, defs: seq<Node>)
    requires c.Defining() && |defs| == |c.definitions|
    requires forall k :: 0 <= k < |defs| ==> c.definitions[k].IsObject() && defs[k] == RewriteInside(c.definitions[k], c.definitions[k].id, name, c.Numbers())
    ensures Defined(name, c.Numbers(), c.definitions, defs, c.schema)
  {
  }

  // The loop of lines 223-226.
  method FreshName(fields: Fields) returns (name: string)
    ensures GetField(fields, name) == None
    ensures "$defs" <= name && forall i :: 5 <= i < |name| ==> name[i] == '_' && GetField(fields, name[..i]).Some?
  {
    name := "$defs";
    while GetField(fields, name).Some?
      invariant "$defs" <= name && forall i :: 5 <= i < |name| ==> name[i] == '_' && GetField(fields, name[..i]).Some?
      decreases LongestKey(fields) - |name|
    {
      assert forall i :: 5 <= i < |name| ==> (name + "_")[..i] == name[..i];
      assert (name + "_")[..|name|] == name;
      KeyLength(fields, name);
      name := name + "_";
    }
  }

  function LongestKey(fs: Fields): nat {
    match fs case NoFields => 0 case Field(k, _, r) => if |k| > LongestKey(r) then |k| else LongestKey(r)
  }

  lemma {:induction false} KeyLength(fs: Fields, key: string)
    requires GetField(fs, key).Some?
    ensures |key| <= LongestKey(fs)
  {
    if fs.key != key {
      KeyLength(fs.rest, key);
    }
  }

  lemma RewriteKeepsKeys(n: Node, root: nat, name: string, numbers: map<nat, nat>, key: string)
    requires n.Obj? && GetField(n.fields, key) == None
    ensures var r := RewriteInside(n, root, name, numbers); r.Obj? && GetField(r.fields, key) == None
  {
    FieldsKeepKeys(n.fields, root, name, numbers, key);
  }

  lemma {:induction false} FieldsKeepKeys(fs: Fields, root: nat, name: string, numbers: map<nat, nat>, key: string)
    requires GetField(fs, key) == None
    ensures GetField(RewriteFields(fs, root, name, numbers), key) == None
  {
    if fs.Field? {
      FieldsKeepKeys(fs.rest, root, name, numbers, key);
    }
  }
}
