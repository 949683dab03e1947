// JSON schemas as object graphs, and references to shared definitions (jsonSchema.ts, lines 186-260).
module SchemaSpec {
  import opened Wrappers

  // A JSON value. Arrays and objects have an identity; text stands for a string or another primitive.
  datatype Node = Leaf(text: string) | Arr(id: nat, items: Items) | Obj(id: nat, fields: Fields) {
    predicate IsObject() { Arr? || Obj? }
  }
  datatype Items = NoItems | Item(head: Node, tail: Items)
  datatype Fields = NoFields | Field(key: string, value: Node, rest: Fields)

  /** What JSON.stringify makes of a value: two values have the same text exactly if they are equal up to identity. */
  function Erase(n: Node): Node {
    match n
    case Leaf(_) => n
    case Arr(_, items) => Arr(0, EraseItems(items))
    case Obj(_, fields) => Obj(0, EraseFields(fields))
  }

  function EraseItems(xs: Items): Items {
    match xs case NoItems => NoItems case Item(h, t) => Item(Erase(h), EraseItems(t))
  }

  function EraseFields(fs: Fields): Fields {
    match fs case NoFields => NoFields case Field(k, v, r) => Field(k, Erase(v), EraseFields(r))
  }

  function Size(n: Node): nat {
    match n case Leaf(_) => 1 case Arr(_, items) => 1 + ItemsSize(items) case Obj(_, fields) => 1 + FieldsSize(fields)
  }

  function ItemsSize(xs: Items): nat {
    match xs case NoItems => 0 case Item(h, t) => Size(h) + ItemsSize(t)
  }

  function FieldsSize(fs: Fields): nat {
    match fs case NoFields => 0 case Field(_, v, r) => Size(v) + FieldsSize(r)
  }

  // All nodes of a graph, at every place where they occur.
  ghost predicate Occurs(m: Node, n: Node) {
    m == n || match n case Leaf(_) => false case Arr(_, items) => OccursItems(m, items) case Obj(_, fields) => OccursFields(m, fields)
  }

  ghost predicate OccursItems(m: Node, xs: Items) {
    xs.Item? && (Occurs(m, xs.head) || OccursItems(m, xs.tail))
  }

  ghost predicate OccursFields(m: Node, fs: Fields) {
    fs.Field? && (Occurs(m, fs.value) || OccursFields(m, fs.rest))
  }

  /** One identity, one object: sharing is allowed, cycles are not. */
  ghost predicate Consistent(schema: Node) {
    forall m, m' :: Occurs(m, schema) && Occurs(m', schema) && m.IsObject() && m'.IsObject() && m.id == m'.id ==> m == m'
  }

  // References.

  function Digit(d: nat): char
    requires d < 10
  {
    '0' + d as char
  }

  function Decimal(k: nat): string {
    if k < 10 then [Digit(k)] else Decimal(k / 10) + [Digit(k % 10)]
  }

  lemma {:induction false} DecimalInjective(j: nat, k: nat)
    requires Decimal(j) == Decimal(k)
    ensures j == k
  {
    var a, b := Decimal(j), Decimal(k);
    DecimalLength(j);
    DecimalLength(k);
    assert a[|a| - 1] == Digit(j % 10) && b[|b| - 1] == Digit(k % 10);
    assert j % 10 == k % 10;
    if j >= 10 && k >= 10 {
      assert a[..|a| - 1] == Decimal(j / 10) && b[..|b| - 1] == Decimal(k / 10);
      DecimalInjective(j / 10, k / 10);
    }
  }

  lemma DecimalLength(k: nat)
    ensures |Decimal(k)| >= 1 && (|Decimal(k)| == 1 <==> k < 10)
  {
  }

  function DefId(k: nat): string {
    "_" + Decimal(k)
  }

  function RefText(name: string, k: nat): string {
    "#/" + name + "/" + DefId(k)
  }

  lemma RefInjective(name: string, j: nat, k: nat)
    requires RefText(name, j) == RefText(name, k)
    ensures j == k
  {
    var p := "#/" + name + "/" + "_";
    assert RefText(name, j) == p + Decimal(j) && RefText(name, k) == p + Decimal(k);
    assert RefText(name, j)[|p|..] == Decimal(j) && RefText(name, k)[|p|..] == Decimal(k);
    DecimalInjective(j, k);
  }

  // { $ref: ... }
  function Ref(name: string, k: nat): Node {
    Obj(0, Field("$ref", Leaf(RefText(name, k)), NoFields))
  }

  /** The schema holds no reference of its own to the definitions of that name. */
  ghost predicate NoRefs(n: Node, name: string) {
    forall m, k :: Occurs(m, n) ==> Erase(m) != Ref(name, k)
  }

  // What the numbered objects are replaced by; the root of the text stays.
  function Rewrite(n: Node, root: nat, name: string, numbers: map<nat, nat>): Node
    decreases n, 1
  {
    if n.IsObject() && n.id != root && n.id in numbers then Ref(name, numbers[n.id]) else RewriteInside(n, root, name, numbers)
  }

  function RewriteInside(n: Node, root: nat, name: string, numbers: map<nat, nat>): Node
    decreases n, 0
  {
    match n
    case Leaf(_) => n
    case Arr(_, items) => Arr(0, RewriteItems(items, root, name, numbers))
    case Obj(_, fields) => Obj(0, RewriteFields(fields, root, name, numbers))
  }

  function RewriteItems(xs: Items, root: nat, name: string, numbers: map<nat, nat>): Items {
    match xs
    case NoItems => NoItems
    case Item(h, t) => Item(Rewrite(h, root, name, numbers), RewriteItems(t, root, name, numbers))
  }

  function RewriteFields(fs: Fields, root: nat, name: string, numbers: map<nat, nat>): Fields {
    match fs
    case NoFields => NoFields
    case Field(k, v, r) => Field(k, Rewrite(v, root, name, numbers), RewriteFields(r, root, name, numbers))
  }

  // Reading a compressed schema: every reference to a definition is replaced by that definition, in which
  // further references are resolved, up to a depth.
  function Expand(n: Node, name: string, defs: seq<Node>, depth: nat): Node
    decreases depth, n
  {
    if depth > 0 && RefIndex(n, name, |defs|) < |defs| then Expand(defs[RefIndex(n, name, |defs|)], name, defs, depth - 1)
    else
      match n
      case Leaf(_) => n
      case Arr(_, items) => Arr(0, ExpandItems(items, name, defs, depth))
      case Obj(_, fields) => Obj(0, ExpandFields(fields, name, defs, depth))
  }

  function ExpandItems(xs: Items, name: string, defs: seq<Node>, depth: nat): Items
    decreases depth, xs
  {
    match xs
    case NoItems => NoItems
    case Item(h, t) => Item(Expand(h, name, defs, depth), ExpandItems(t, name, defs, depth))
  }

  function ExpandFields(fs: Fields, name: string, defs: seq<Node>, depth: nat): Fields
    decreases depth, fs
  {
    match fs
    case NoFields => NoFields
    case Field(k, v, r) => Field(k, Expand(v, name, defs, depth), ExpandFields(r, name, defs, depth))
  }

  // Which of the first k definitions a value refers to; k if none.
  function RefIndex(n: Node, name: string, k: nat): (i: nat)
    ensures i <= k && (i < k ==> n == Ref(name, i)) && (i == k ==> forall j: nat :: j < k ==> n != Ref(name, j))
  {
    if k == 0 then 0
    else
      var i := RefIndex(n, name, k - 1);
      if i < k - 1 then i
      else if n == Ref(name, k - 1) then k - 1
      else k
  }

  // Definitions that stand for what the numbers say: the k-th is a rewritten object, equal to all those with number k.
  ghost predicate Defined(name: string, numbers: map<nat, nat>, objects: seq<Node>, defs: seq<Node>, schema: Node) {
    && |defs| == |objects|
    && (forall k :: 0 <= k < |objects| ==>
      objects[k].IsObject() && Occurs(objects[k], schema) && defs[k] == RewriteInside(objects[k], objects[k].id, name, numbers))
    && (forall m :: Occurs(m, schema) && m.IsObject() && m.id in numbers ==>
      numbers[m.id] < |objects| && Erase(objects[numbers[m.id]]) == Erase(m))
  }

  lemma RefAt(name: string, k: nat, n: nat)
    requires k < n
    ensures RefIndex(Ref(name, k), name, n) == k
  {
    var i := RefIndex(Ref(name, k), name, n);
    assert i < n ==> Ref(name, i).fields.value == Ref(name, k).fields.value;
    if i < n {
      RefInjective(name, i, k);
    }
  }

  lemma ErasedSize(n: Node)
    ensures Size(Erase(n)) == Size(n)
  {
    match n
    case Leaf(_) =>
    case Arr(_, items) => ErasedItemsSize(items);
    case Obj(_, fields) => ErasedFieldsSize(fields);
  }

  lemma ErasedItemsSize(xs: Items)
    ensures ItemsSize(EraseItems(xs)) == ItemsSize(xs)
  {
    if xs.Item? {
      ErasedSize(xs.head);
      ErasedItemsSize(xs.tail);
    }
  }

  lemma ErasedFieldsSize(fs: Fields)
    ensures FieldsSize(EraseFields(fs)) == FieldsSize(fs)
  {
    if fs.Field? {
      ErasedSize(fs.value);
      ErasedFieldsSize(fs.rest);
    }
  }

  // Objects nest strictly: a node is larger than what occurs inside it.
  lemma {:induction false} OccursSize(m: Node, n: Node)
    requires Occurs(m, n)
    ensures Size(m) <= Size(n) && (Size(m) == Size(n) ==> m == n)
  {
    if m != n {
      match n
      case Arr(_, items) => OccursItemsSize(m, items);
      case Obj(_, fields) => OccursFieldsSize(m, fields);
    }
  }

  lemma {:induction false} OccursItemsSize(m: Node, xs: Items)
    requires OccursItems(m, xs)
    ensures Size(m) <= ItemsSize(xs)
  {
    if Occurs(m, xs.head) {
      OccursSize(m, xs.head);
    } else {
      OccursItemsSize(m, xs.tail);
    }
  }

  lemma {:induction false} OccursFieldsSize(m: Node, fs: Fields)
    requires OccursFields(m, fs)
    ensures Size(m) <= FieldsSize(fs)
  {
    if Occurs(m, fs.value) {
      OccursSize(m, fs.value);
    } else {
      OccursFieldsSize(m, fs.rest);
    }
  }

  lemma {:induction false} OccursTrans(m: Node, n: Node, s: Node)
    requires Occurs(m, n) && Occurs(n, s)
    ensures Occurs(m, s)
    decreases s
  {
    if n != s {
      match s
      case Arr(_, items) => OccursInItems(m, n, items);
      case Obj(_, fields) => OccursInFields(m, n, fields);
    }
  }

  lemma {:induction false} OccursInItems(m: Node, n: Node, xs: Items)
    requires Occurs(m, n) && OccursItems(n, xs)
    ensures OccursItems(m, xs)
    decreases xs
  {
    if Occurs(n, xs.head) {
      OccursTrans(m, n, xs.head);
    } else {
      OccursInItems(m, n, xs.tail);
    }
  }

  lemma {:induction false} OccursInFields(m: Node, n: Node, fs: Fields)
    requires Occurs(m, n) && OccursFields(n, fs)
    ensures OccursFields(m, fs)
    decreases fs
  {
    if Occurs(n, fs.value) {
      OccursTrans(m, n, fs.value);
    } else {
      OccursInFields(m, n, fs.rest);
    }
  }

  // The setting of one compressed schema.
  datatype Setting = Setting(schema: Node, name: string, numbers: map<nat, nat>, objects: seq<Node>, defs: seq<Node>) {
    ghost predicate Valid() {
      Consistent(schema) && NoRefs(schema, name) && Defined(name, numbers, objects, defs, schema)
    }
  }

  /** Expanding what a node is rewritten to gives the node back, where the depth exceeds its size. */
  lemma {:induction false} ExpandRewrite(s: Setting, n: Node, root: nat, depth: nat)
    requires s.Valid() && Occurs(n, s.schema) && Size(n) <= depth
    requires forall m :: Occurs(m, n) && m.IsObject() ==> m.id != root
    ensures Expand(Rewrite(n, root, s.name, s.numbers), s.name, s.defs, depth) == Erase(n)
    decreases depth, n, 2
  {
    if n.IsObject() && n.id in s.numbers {
      var k := s.numbers[n.id];
      var o := s.objects[k];
      RefAt(s.name, k, |s.defs|);
      ErasedSize(n);
      ErasedSize(o);
      ExpandInside(s, o, depth - 1);
    } else if n.IsObject() {
      ExpandChildren(s, n, root, depth);
    }
  }

  // A definition, or the schema itself, expands to its original.
  lemma {:induction false} ExpandInside(s: Setting, n: Node, depth: nat)
    requires s.Valid() && Occurs(n, s.schema) && n.IsObject() && Size(n) <= depth + 1
    ensures Expand(RewriteInside(n, n.id, s.name, s.numbers), s.name, s.defs, depth) == Erase(n)
    decreases depth, n, 1
  {
    forall m | m != n && Occurs(m, n) && m.IsObject() ensures m.id != n.id {
      OccursSize(m, n);
      OccursTrans(m, n, s.schema);
    }
    ExpandChildren(s, n, n.id, depth);
  }

  // An object that is not replaced itself.
  lemma {:induction false} ExpandChildren(s: Setting, n: Node, root: nat, depth: nat)
    requires s.Valid() && Occurs(n, s.schema) && n.IsObject() && Size(n) <= depth + 1
    requires forall m :: m != n && Occurs(m, n) && m.IsObject() ==> m.id != root
    ensures Expand(RewriteInside(n, root, s.name, s.numbers), s.name, s.defs, depth) == Erase(n)
    decreases depth, n, 0
  {
    NotARef(s, n, root);
    forall m | m != n && Occurs(m, n) ensures Occurs(m, s.schema) {
      OccursTrans(m, n, s.schema);
    }
    Children(n);
    match n
    case Arr(_, items) =>
      ExpandTheItems(s, items, root, depth);
    case Obj(_, fields) =>
      ExpandTheFields(s, fields, root, depth);
  }

  // What occurs in the children occurs in the object and is not the object.
  lemma Children(n: Node)
    ensures n.Arr? ==> forall m :: OccursItems(m, n.items) ==> m != n && Occurs(m, n)
    ensures n.Obj? ==> forall m :: OccursFields(m, n.fields) ==> m != n && Occurs(m, n)
  {
    if n.Arr? {
      forall m | OccursItems(m, n.items) ensures m != n {
        OccursItemsSize(m, n.items);
      }
    }
    if n.Obj? {
      forall m | OccursFields(m, n.fields) ensures m != n {
        OccursFieldsSize(m, n.fields);
      }
    }
  }

  lemma NotARef(s: Setting, n: Node, root: nat)
    requires s.Valid() && Occurs(n, s.schema) && n.IsObject()
    ensures RefIndex(RewriteInside(n, root, s.name, s.numbers), s.name, |s.defs|) == |s.defs|
  {
    var r := RewriteInside(n, root, s.name, s.numbers);
    forall k: nat | k < |s.defs| ensures r != Ref(s.name, k) {
      if r == Ref(s.name, k) {
        LooksLikeRef(n, root, s.name, s.numbers, k);
        assert Erase(n) == Ref(s.name, k);
      }
    }
  }

  // Only a reference is rewritten to a reference.
  lemma LooksLikeRef(n: Node, root: nat, name: string, numbers: map<nat, nat>, k: nat)
    requires n.IsObject() && RewriteInside(n, root, name, numbers) == Ref(name, k)
    ensures Erase(n) == Ref(name, k)
  {
    var fs := n.fields;
    var r := RewriteFields(fs, root, name, numbers);
    assert r == Field("$ref", Leaf(RefText(name, k)), NoFields);
    assert fs.Field? && r == Field(fs.key, Rewrite(fs.value, root, name, numbers), RewriteFields(fs.rest, root, name, numbers));
    assert RewriteFields(fs.rest, root, name, numbers) == NoFields && fs.rest == NoFields;
    assert Rewrite(fs.value, root, name, numbers) == Leaf(RefText(name, k)) == fs.value;
    assert EraseFields(fs.rest) == NoFields && EraseFields(fs) == Field(fs.key, Erase(fs.value), EraseFields(fs.rest));
  }

  lemma {:induction false} ExpandTheItems(s: Setting, xs: Items, root: nat, depth: nat)
    requires s.Valid() && ItemsSize(xs) <= depth
    requires forall m :: OccursItems(m, xs) ==> Occurs(m, s.schema) && (m.IsObject() ==> m.id != root)
    ensures ExpandItems(RewriteItems(xs, root, s.name, s.numbers), s.name, s.defs, depth) == EraseItems(xs)
    decreases depth, xs, 3
  {
    if xs.Item? {
      assert Occurs(xs.head, xs.head) && OccursItems(xs.head, xs);
      ExpandRewrite(s, xs.head, root, depth);
      ExpandTheItems(s, xs.tail, root, depth);
    }
  }

  lemma {:induction false} ExpandTheFields(s: Setting, fs: Fields, root: nat, depth: nat)
    requires s.Valid() && FieldsSize(fs) <= depth
    requires forall m :: OccursFields(m, fs) ==> Occurs(m, s.schema) && (m.IsObject() ==> m.id != root)
    ensures ExpandFields(RewriteFields(fs, root, s.name, s.numbers), s.name, s.defs, depth) == EraseFields(fs)
    decreases depth, fs, 3
  {
    if fs.Field? {
      assert Occurs(fs.value, fs.value) && OccursFields(fs.value, fs);
      ExpandRewrite(s, fs.value, root, depth);
      ExpandTheFields(s, fs.rest, root, depth);
    }
  }

  // Which objects are met while rewriting, and whether all that will ever be numbered have their number.
  ghost predicate Settled(n: Node, root: nat, numbers: map<nat, nat>, dups: set<nat>)
    decreases n, 1
  {
    if n.IsObject() && n.id != root && n.id in dups then n.id in numbers else SettledInside(n, root, numbers, dups)
  }

  ghost predicate SettledInside(n: Node, root: nat, numbers: map<nat, nat>, dups: set<nat>)
    decreases n, 0
  {
    match n
    case Leaf(_) => true
    case Arr(_, items) => SettledItems(items, root, numbers, dups)
    case Obj(_, fields) => SettledFields(fields, root, numbers, dups)
  }

  ghost predicate SettledItems(xs: Items, root: nat, numbers: map<nat, nat>, dups: set<nat>) {
    xs.Item? ==> Settled(xs.head, root, numbers, dups) && SettledItems(xs.tail, root, numbers, dups)
  }

  ghost predicate SettledFields(fs: Fields, root: nat, numbers: map<nat, nat>, dups: set<nat>) {
    fs.Field? ==> Settled(fs.value, root, numbers, dups) && SettledFields(fs.rest, root, numbers, dups)
  }

  // More numbers.
  ghost predicate Extends(numbers: map<nat, nat>, numbers': map<nat, nat>, dups: set<nat>) {
    numbers.Keys <= numbers'.Keys <= dups && forall i :: i in numbers ==> numbers'[i] == numbers[i]
  }

  /** Numbers given later change nothing about what is already written. */
  lemma {:induction false} SettledStays(n: Node, root: nat, name: string, numbers: map<nat, nat>, numbers': map<nat, nat>, dups: set<nat>)
    requires Settled(n, root, numbers, dups) && Extends(numbers, numbers', dups)
    ensures Settled(n, root, numbers', dups) && Rewrite(n, root, name, numbers') == Rewrite(n, root, name, numbers)
    decreases n, 1
  {
    if !(n.IsObject() && n.id != root && n.id in dups) {
      SettledInsideStays(n, root, name, numbers, numbers', dups);
    }
  }

  lemma {:induction false} SettledInsideStays(n: Node, root: nat, name: string, numbers: map<nat, nat>, numbers': map<nat, nat>, dups: set<nat>)
    requires SettledInside(n, root, numbers, dups) && Extends(numbers, numbers', dups)
    ensures SettledInside(n, root, numbers', dups) && RewriteInside(n, root, name, numbers') == RewriteInside(n, root, name, numbers)
    decreases n, 0
  {
    match n
    case Leaf(_) =>
    case Arr(_, items) => SettledItemsStay(items, root, name, numbers, numbers', dups);
    case Obj(_, fields) => SettledFieldsStay(fields, root, name, numbers, numbers', dups);
  }

  lemma {:induction false} SettledItemsStay(xs: Items, root: nat, name: string, numbers: map<nat, nat>, numbers': map<nat, nat>, dups: set<nat>)
    requires SettledItems(xs, root, numbers, dups) && Extends(numbers, numbers', dups)
    ensures SettledItems(xs, root, numbers', dups) && RewriteItems(xs, root, name, numbers') == RewriteItems(xs, root, name, numbers)
  {
    if xs.Item? {
      SettledStays(xs.head, root, name, numbers, numbers', dups);
      SettledItemsStay(xs.tail, root, name, numbers, numbers', dups);
    }
  }

  lemma {:induction false} SettledFieldsStay(fs: Fields, root: nat, name: string, numbers: map<nat, nat>, numbers': map<nat, nat>, dups: set<nat>)
    requires SettledFields(fs, root, numbers, dups) && Extends(numbers, numbers', dups)
    ensures SettledFields(fs, root, numbers', dups) && RewriteFields(fs, root, name, numbers') == RewriteFields(fs, root, name, numbers)
  {
    if fs.Field? {
      SettledStays(fs.value, root, name, numbers, numbers', dups);
      SettledFieldsStay(fs.rest, root, name, numbers, numbers', dups);
    }
  }

  // The document that is written: the definitions behind the fields of the root.

  function GetField(fs: Fields, key: string): Option<Node> {
    match fs case NoFields => None case Field(k, v, r) => if k == key then Some(v) else GetField(r, key)
  }

  function Append(fs: Fields, key: string, v: Node): Fields {
    match fs case NoFields => Field(key, v, NoFields) case Field(k, x, r) => Field(k, x, Append(r, key, v))
  }

  function DefFields(defs: seq<Node>, k: nat): Fields
    requires k <= |defs|
    decreases |defs| - k
  {
    if k == |defs| then NoFields else Field(DefId(k), defs[k], DefFields(defs, k + 1))
  }

  function Assemble(root: Node, name: string, defs: seq<Node>): Node
    requires root.Obj?
  {
    Obj(0, Append(root.fields, name, Obj(0, DefFields(defs, 0))))
  }

  // What the pointer "#/name/_k" of a document points to.
  function Resolve(doc: Node, name: string, k: nat): Option<Node> {
    if !doc.Obj? then None
    else
      match GetField(doc.fields, name)
      case Some(Obj(_, fields)) => GetField(fields, DefId(k))
      case _ => None
  }

  lemma {:induction false} GetAppended(fs: Fields, key: string, v: Node)
    requires GetField(fs, key) == None
    ensures GetField(Append(fs, key, v), key) == Some(v)
  {
    if fs.Field? {
      GetAppended(fs.rest, key, v);
    }
  }

  lemma {:induction false} GetDef(defs: seq<Node>, i: nat, k: nat)
    requires i <= k < |defs|
    ensures GetField(DefFields(defs, i), DefId(k)) == Some(defs[k])
    decreases k - i
  {
    if i < k {
      if DefId(i) == DefId(k) {
        assert DefId(i)[1..] == Decimal(i) && DefId(k)[1..] == Decimal(k);
        DecimalInjective(i, k);
      }
      GetDef(defs, i + 1, k);
    }
  }

  /** In the assembled document each reference points to its definition. */
  lemma PointersResolve(root: Node, name: string, defs: seq<Node>, k: nat)
    requires root.Obj? && GetField(root.fields, name) == None && k < |defs|
    ensures Resolve(Assemble(root, name, defs), name, k) == Some(defs[k])
  {
    GetAppended(root.fields, name, Obj(0, DefFields(defs, 0)));
    GetDef(defs, 0, k);
  }
}
