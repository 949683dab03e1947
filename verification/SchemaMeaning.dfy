// The sub-schemas of a schema by their keywords, and the references as JSON pointers (RFC 6901).
module SchemaMeaning {
  import opened Wrappers
  import opened SchemaSpec
  import opened SchemaCompressor

  const SCHEMA_KEYWORDS := ["additionalItems", "additionalProperties", "not", "contains", "propertyNames", "if", "then", "else",
                            "unevaluatedItems", "unevaluatedProperties"]
  const MAP_KEYWORDS := ["definitions", "$defs", "properties", "patternProperties", "dependencies", "dependentSchemas"]
  const LIST_KEYWORDS := ["anyOf", "allOf", "oneOf", "prefixItems"]

  ghost predicate InItems(c: Node, xs: Items) {
    xs.Item? && (xs.head == c || InItems(c, xs.tail))
  }

  ghost predicate InFields(c: Node, fs: Fields) {
    fs.Field? && (fs.value == c || InFields(c, fs.rest))
  }

  // Something that n holds under one of the keywords.
  ghost predicate Under(n: Node, keywords: seq<string>, v: Node) {
    n.Obj? && exists i :: 0 <= i < |keywords| && GetField(n.fields, keywords[i]) == Some(v)
  }

  /** An object under a keyword for one schema, among those under a keyword for several, or under items. */
  ghost predicate SubSchema(c: Node, n: Node) {
    && c.IsObject()
    && (|| Under(n, SCHEMA_KEYWORDS, c)
        || (exists v :: Under(n, MAP_KEYWORDS, v) && ((v.Arr? && InItems(c, v.items)) || (v.Obj? && InFields(c, v.fields))))
        || (exists v :: Under(n, LIST_KEYWORDS, v) && v.Arr? && InItems(c, v.items))
        || (exists v :: Under(n, ["items"], v) && if v.Arr? then InItems(c, v.items) else v == c))
  }

  lemma {:induction false} ItemEntriesAre(c: Node, xs: Items)
    ensures c in ItemEntries(xs) <==> c.IsObject() && InItems(c, xs)
  {
    if xs.Item? {
      ItemEntriesAre(c, xs.tail);
    }
  }

  lemma {:induction false} FieldEntriesAre(c: Node, fs: Fields)
    ensures c in FieldEntries(fs) <==> c.IsObject() && InFields(c, fs)
  {
    if fs.Field? {
      FieldEntriesAre(c, fs.rest);
    }
  }

  // What one way of collecting takes from a value.
  ghost predicate Takes(way: Way, v: Node, c: Node) {
    c.IsObject() &&
    match way
    case Entries => v == c
    case Maps => (v.Arr? && InItems(c, v.items)) || (v.Obj? && InFields(c, v.fields))
    case Arrays => v.Arr? && InItems(c, v.items)
  }

  lemma WayTakes(way: Way, n: Option<Node>, c: Node)
    ensures c in way.Of(n) <==> n.Some? && Takes(way, n.value, c)
  {
    if n.Some? && n.value.Arr? {
      ItemEntriesAre(c, n.value.items);
    }
    if n.Some? && n.value.Obj? {
      FieldEntriesAre(c, n.value.fields);
    }
  }

  lemma {:induction false} CollectedUnder(n: Node, keys: seq<string>, way: Way, c: Node)
    ensures c in CollectKeys(n, keys, way) <==> exists v :: Under(n, keys, v) && Takes(way, v, c)
    decreases |keys|
  {
    hide Takes, Way.Of, GetField;
    if keys != [] {
      var front, last := keys[..|keys| - 1], keys[|keys| - 1];
      CollectedUnder(n, front, way, c);
      WayTakes(way, Get(n, last), c);
      forall v ensures Under(n, keys, v) <==> Under(n, front, v) || Get(n, last) == Some(v) {
        UnderLast(n, keys, v);
      }
    }
  }

  lemma UnderLast(n: Node, keys: seq<string>, v: Node)
    requires keys != []
    ensures Under(n, keys, v) <==> Under(n, keys[..|keys| - 1], v) || Get(n, keys[|keys| - 1]) == Some(v)
  {
    hide GetField;
    var front := keys[..|keys| - 1];
    assert keys == front + [keys[|keys| - 1]];
    if Under(n, keys, v) {
      var i :| 0 <= i < |keys| && GetField(n.fields, keys[i]) == Some(v);
      assert i < |front| ==> front[i] == keys[i];
    }
    if Under(n, front, v) {
      var i :| 0 <= i < |front| && GetField(n.fields, front[i]) == Some(v);
      assert front[i] == keys[i];
    }
    if Get(n, keys[|keys| - 1]) == Some(v) {
      assert GetField(n.fields, keys[|keys| - 1]) == Some(v);
    }
  }

  /** One round of the traversal adds just the sub-schemas. */
  lemma CollectedAreSubSchemas(n: Node, c: Node)
    ensures c in Collected(n) <==> SubSchema(c, n)
  {
    assert ENTRY_KEYS == SCHEMA_KEYWORDS && MAP_KEYS == MAP_KEYWORDS && ARRAY_KEYS == LIST_KEYWORDS;
    CollectedUnder(n, SCHEMA_KEYWORDS, Entries, c);
    CollectedUnder(n, MAP_KEYWORDS, Maps, c);
    CollectedUnder(n, LIST_KEYWORDS, Arrays, c);
    ItemsCollected(n, c);
    CollectedIs(n);
    hide Under, CollectKeys, CollectItems, Get, InItems, InFields;
  }

  lemma ItemsCollected(n: Node, c: Node)
    ensures c in CollectItems(Get(n, "items")) <==>
      c.IsObject() && exists v :: Under(n, ["items"], v) && if v.Arr? then InItems(c, v.items) else v == c
  {
    hide GetField;
    var items := Get(n, "items");
    assert forall v :: Under(n, ["items"], v) <==> items == Some(v) by {
      assert ["items"][0] == "items";
    }
    WayTakes(Arrays, items, c);
  }

  // ---- references

  function PartsOf(s: string): seq<string> {
    if s == "" then [""]
    else if s[0] == '/' then [""] + PartsOf(s[1..])
    else [[s[0]] + PartsOf(s[1..])[0]] + PartsOf(s[1..])[1..]
  }

  function Follow(n: Node, parts: seq<string>): Option<Node>
    decreases |parts|
  {
    if parts == [] then Some(n)
    else if !n.Obj? then None
    else match GetField(n.fields, parts[0]) case None => None case Some(v) => Follow(v, parts[1..])
  }

  /** What a reference into the document itself stands for, read as section 6 of RFC 6901 does (no part holds a tilde). */
  function Deref(document: Node, reference: string): Option<Node> {
    if |reference| >= 2 && reference[..2] == "#/" then Follow(document, PartsOf(reference[2..])) else None
  }

  predicate NoSlash(s: string) {
    forall i :: 0 <= i < |s| ==> s[i] != '/'
  }

  lemma {:induction false} OnePart(s: string)
    requires NoSlash(s)
    ensures PartsOf(s) == [s]
  {
    if s != "" {
      OnePart(s[1..]);
      assert [s[0]] + s[1..] == s;
    }
  }

  lemma {:induction false} TwoParts(a: string, b: string)
    requires NoSlash(a) && NoSlash(b)
    ensures PartsOf(a + ("/" + b)) == [a, b]
  {
    var s := a + ("/" + b);
    if a == "" {
      OnePart(b);
      assert s == "/" + b && s[1..] == b;
    } else {
      TwoParts(a[1..], b);
      assert s[0] == a[0] && s[1..] == a[1..] + ("/" + b);
      assert [a[0]] + a[1..] == a && [a[1..], b][1..] == [b];
    }
  }

  lemma {:induction false} DecimalNoSlash(k: nat)
    ensures NoSlash(Decimal(k))
  {
    if k >= 10 {
      DecimalNoSlash(k / 10);
    }
  }

  /** The k-th reference, read as a pointer into the assembled document, finds the k-th definition. */
  lemma ReferenceDerefs(root: Node, name: string, defs: seq<Node>, k: nat)
    requires root.Obj? && GetField(root.fields, name) == None && NoSlash(name) && k < |defs|
    ensures exists t :: GetField(Ref(name, k).fields, "$ref") == Some(Leaf(t)) && Deref(Assemble(root, name, defs), t) == Some(defs[k])
  {
    var t := RefText(name, k);
    var d := DefId(k);
    var document := Assemble(root, name, defs);
    var shared := Obj(0, DefFields(defs, 0));
    GetAppended(root.fields, name, shared);
    GetDef(defs, 0, k);
    DecimalNoSlash(k);
    TwoParts(name, d);
    hide Assemble, PartsOf, DefFields, Decimal;
    assert t[..2] == "#/" && t[2..] == name + ("/" + d);
    assert [name, d][1..] == [d] && [d][1..] == [];
    assert Follow(defs[k], []) == Some(defs[k]);
    assert Follow(shared, [d]) == Some(defs[k]);
    assert Deref(document, t) == Some(defs[k]);
    assert GetField(Ref(name, k).fields, "$ref") == Some(Leaf(t));
  }
}
