/** The adapter that turns an authoritative schema into the strict,
    self-contained schema handed to the model. */
module SchemaCompiler {
  import opened Text
  import opened Json
  import opened SchemaMeaning
  import JsonText

  datatype Error = RefSiblings | UnknownReference | UnsupportedKeyword | NoFixedProperties | RecursionLimit
                 | NotApproved | RootNotObject

  datatype Result<+T> = Ok(value: T) | Err(error: Error)

  predicate IsDropped(key: string) {
    key in {"$schema", "$id", "$defs", "uniqueItems"}
  }

  predicate IsUnsupported(key: string) {
    key in {"allOf", "not", "dependentRequired", "dependentSchemas", "if", "then", "else"}
  }

  // ---- fields the host fills in, and the narrowed maps ----------------

  const TIME_SENTINEL := "RUNTIME_BOUND_BY_HOST"
  const HASH_SENTINEL := "HOST_COMPUTES_SHA256"

  /** The placeholder planted at a schema path, judged by its last step. */
  function SentinelAt(path: seq<string>): Option<string> {
    if path == [] then None
    else
      var last := path[|path| - 1];
      if last == "created_at" then Some(TIME_SENTINEL)
      else if last == "output_hash" then Some(HASH_SENTINEL)
      else if last == "proposal_hash" && "proposal" in path then Some(HASH_SENTINEL)
      else None
  }

  function SentinelSchema(sentinel: string): Json {
    Obj([Member("type", Str("string")), Member("const", Str(sentinel))])
  }

  function Typed(name: string): Json { Obj([Member("type", Str(name))]) }

  function StrictCosts(): Json {
    Obj([Member("type", Str("object")),
         Member("description", Str("Net economic effect under the mandatory 1x, 2x, and 3x cost stresses.")),
         Member("additionalProperties", Bool(false)),
         Member("required", Arr([Str("cost_1x"), Str("cost_2x"), Str("cost_3x")])),
         Member("properties", Obj([Member("cost_1x", Typed("number")), Member("cost_2x", Typed("number")),
                                   Member("cost_3x", Typed("number"))]))])
  }

  function ClosedObject(names: seq<Json>, properties: seq<Member>): Json {
    Obj([Member("type", Str("object")), Member("additionalProperties", Bool(false)),
         Member("required", Arr(names)), Member("properties", Obj(properties))])
  }

  function StrictMap(field: string): Option<Json> {
    if field == "estimated_cost_sensitivity" then Some(StrictCosts())
    else if field == "minimum_economic_effect" then
      Some(ClosedObject([Str("metric"), Str("threshold"), Str("comparison")],
                        [Member("metric", Typed("string")), Member("threshold", Typed("number")),
                         Member("comparison", Typed("string"))]))
    else if field == "estimated_capacity" then
      Some(ClosedObject([Str("usd")], [Member("usd", Typed("number"))]))
    else if field == "estimated_turnover" then
      Some(ClosedObject([Str("one_way_daily")], [Member("one_way_daily", Typed("number"))]))
    else None
  }

  function StrictMapAt(path: seq<string>): Option<Json> {
    if path == [] then None else StrictMap(path[|path| - 1])
  }

  // ---- the walk --------------------------------------------------------

  function LiteralType(v: Json): string {
    match v
    case Null => "null"
    case Bool(_) => "boolean"
    case Int(_) => "integer"
    case Float(_) => "number"
    case NonFinite => "number"
    case Str(_) => "string"
    case Arr(_) => "array"
    case Obj(_) => "object"
  }

  function ReferenceOf(ms: seq<Member>): Option<string> {
    match Find(ms, "$ref")
    case Some(Str(reference)) => Some(reference)
    case _ => None
  }

  predicate HasUnsupported(ms: seq<Member>) {
    exists i :: 0 <= i < |ms| && IsUnsupported(ms[i].key)
  }

  function Expand(files: map<string, seq<Member>>, root: seq<Member>, value: Json, path: seq<string>, depth: nat)
    : Result<Json>
    decreases depth, value, 1
  {
    match value
    case Arr(items) =>
      var r := ExpandItems(files, root, items, path, depth);
      if r.Err? then Err(r.error) else Ok(Arr(r.value))
    case Obj(ms) =>
      if SentinelAt(path).Some? then Ok(SentinelSchema(SentinelAt(path).value))
      else if ReferenceOf(ms).Some? then ExpandReference(files, root, ms, path, depth)
      else if StrictMapAt(path).Some? then Ok(StrictMapAt(path).value)
      else if HasUnsupported(ms) then Err(UnsupportedKeyword)
      else
        var r := ExpandMembers(files, root, ms, path, depth);
        if r.Err? then Err(r.error) else Finish(r.value)
    case _ => Ok(value)
  }

  function ExpandReference(files: map<string, seq<Member>>, root: seq<Member>, ms: seq<Member>, path: seq<string>,
                           depth: nat)
    : Result<Json>
    requires ReferenceOf(ms).Some?
    decreases depth, ms, 0
  {
    if |ms| != 1 then Err(RefSiblings)
    else
      match Resolve(files, root, ReferenceOf(ms).value)
      case None => Err(UnknownReference)
      case Some(t) =>
        if depth == 0 then Err(RecursionLimit) else Expand(files, t.root, t.schema, path, depth - 1)
  }

  function ExpandItems(files: map<string, seq<Member>>, root: seq<Member>, items: seq<Json>, path: seq<string>,
                       depth: nat)
    : (r: Result<seq<Json>>)
    ensures r.Ok? ==> |r.value| == |items|
    decreases depth, items, 2
  {
    if items == [] then Ok([])
    else
      var n := |items| - 1;
      var init := ExpandItems(files, root, items[..n], path, depth);
      if init.Err? then init
      else
        var e := Expand(files, root, items[n], path + [JsonText.NatText(n)], depth);
        if e.Err? then Err(e.error) else Ok(init.value + [e.value])
  }

  function ExpandMembers(files: map<string, seq<Member>>, root: seq<Member>, ms: seq<Member>, path: seq<string>,
                         depth: nat)
    : Result<seq<Member>>
    decreases depth, ms, 2
  {
    if ms == [] then Ok([])
    else
      var n := |ms| - 1;
      var init := ExpandMembers(files, root, ms[..n], path, depth);
      if init.Err? || IsDropped(ms[n].key) then init
      else
        var e := Expand(files, root, ms[n].value, path + [ms[n].key], depth);
        if e.Err? then Err(e.error) else Ok(init.value + [Member(ms[n].key, e.value)])
  }

  /** The type a lone constant or a uniform enumeration implies. */
  function AddType(ms: seq<Member>): seq<Member> {
    if HasKey(ms, "type") then ms
    else
      match Find(ms, "const")
      case Some(v) => ms + [Member("type", Str(LiteralType(v)))]
      case None =>
        match Find(ms, "enum")
        case Some(Arr(vs)) =>
          if vs != [] && (forall i :: 0 <= i < |vs| ==> LiteralType(vs[i]) == LiteralType(vs[0]))
          then ms + [Member("type", Str(LiteralType(vs[0])))] else ms
        case _ => ms
  }

  predicate IsObjectNode(ms: seq<Member>) { Find(ms, "type") == Some(Str("object")) }

  function Names(ms: seq<Member>): (r: seq<Json>)
    ensures |r| == |ms| && forall i :: 0 <= i < |ms| ==> r[i] == Str(ms[i].key)
  {
    seq(|ms|, i requires 0 <= i < |ms| => Str(ms[i].key))
  }

  /** Objects are closed: exactly the described properties, all of them required. */
  function Close(ms: seq<Member>): Result<Json> {
    if !IsObjectNode(ms) then Ok(Obj(ms))
    else
      match Find(ms, "properties")
      case Some(Obj(ps)) =>
        Ok(Obj(Assign(Assign(ms, "additionalProperties", Bool(false)), "required", Arr(Names(ps)))))
      case _ => Err(NoFixedProperties)
  }

  function Finish(ms: seq<Member>): Result<Json> { Close(AddType(ms)) }

  /** `structured_output_schema` of an approved schema file. */
  function StructuredOutputSchema(files: map<string, seq<Member>>, approved: set<string>, name: string,
                                  depth: nat): Result<Json> {
    if name !in approved || name !in files then Err(NotApproved)
    else
      var r := Expand(files, files[name], Obj(files[name]), [], depth);
      if r.Err? then r
      else if !r.value.Obj? || !IsObjectNode(r.value.members) || HasKey(r.value.members, "anyOf") then
        Err(RootNotObject)
      else r
  }
}
