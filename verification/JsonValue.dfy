// JSON values, and the value a document denotes.
module JsonValue {
  import opened JsonScan
  import opened JsonSyntax
  import opened JsonGrammar

  // An object is a map from its keys; a number stays its text.
  datatype Json =
    | Null
    | Bool(b: bool)
    | Number(lexeme: Text)
    | String(s: Text)
    | Array(items: seq<Json>)
    | Object(members: map<Text, Json>)

  function FromScalar(s: Scalar): Json {
    match s
    case NullValue => Json.Null
    case BoolValue(b) => Bool(b)
    case NumberValue(n) => Json.Number(n)
    case StringValue(t) => Json.String(t)
  }

  /** The value of a document: of equal keys the last one counts. */
  function ValueOf(n: Node): Json {
    match n
    case Lit(t) => FromScalar(ScalarOf(t))
    case Obj(_, ms) => Object(MembersInto(ms, map[]))
    case Arr(_, xs) => Array(ItemValues(xs))
  }

  function MembersInto(ms: MemberList, m: map<Text, Json>): map<Text, Json> {
    match ms
    case EndMembers(_, _) => m
    case ConsMember(_, key, _, v, more) => MembersInto(more, m[key.value := ValueOf(v)])
  }

  function ItemValues(xs: ItemList): seq<Json> {
    match xs
    case EndItems(_, _) => []
    case ConsItem(_, v, more) => [ValueOf(v)] + ItemValues(more)
  }
}
