/** When a schema accepts a document (JSON Schema Draft 2020-12: Core sections
    8.2.3.1, 10.2.1.2, 10.3.1.2, 10.3.2.1 and 10.3.2.3; Validation sections 6.1,
    6.4.3 and 6.5.3). */
module SchemaMeaning {
  import opened Text
  import opened Json
  import Canonical

  /** All that the size, range, pattern and format keywords look at. */
  datatype Shape = Scalar(value: Json) | Array(length: nat) | Object(size: nat)

  function ShapeOf(doc: Json): Shape {
    match doc
    case Arr(items) => Array(|items|)
    case Obj(ms) => Object(|ms|)
    case _ => Scalar(doc)
  }

  /** The schema files by name, the reading of the keywords whose argument is not
      a schema, and whether `uniqueItems` is enforced. */
  datatype Env = Env(files: map<string, seq<Member>>, assertion: (string, Json, Shape) -> bool, unique: bool)

  const DEFS_PREFIX := "#/$defs/"

  datatype Target = Target(root: seq<Member>, schema: Json)

  /** A reference names a definition of its own file or a whole other file. */
  function Resolve(files: map<string, seq<Member>>, root: seq<Member>, reference: string): Option<Target> {
    if StartsWith(reference, DEFS_PREFIX) then
      match Find(root, "$defs")
      case Some(Obj(defs)) =>
        var found := Find(defs, reference[|DEFS_PREFIX|..]);
        if found.Some? then Some(Target(root, found.value)) else None
      case _ => None
    else if reference in files then Some(Target(files[reference], Obj(files[reference])))
    else None
  }

  predicate IsAnnotation(key: string) {
    key in {"title", "description", "default", "examples", "deprecated", "readOnly", "writeOnly",
            "$comment", "$schema", "$id", "$defs"}
  }

  /** The stripped decimal of a number; equal numbers have one, whatever their spelling. */
  function NumberOf(v: Json): Option<(bool, nat, int)> {
    match v
    case Int(i) => var (d, e) := Canonical.Strip(if i < 0 then -i else i, 0); Some((i < 0, d, e))
    case Float(f) => var (d, e) := Canonical.Strip(f.digits, f.exp); Some((f.neg && f.digits != 0, d, e))
    case _ => None
  }

  predicate SameJson(v: Json, w: Json) {
    match v
    case Arr(items) =>
      w.Arr? && |items| == |w.items| && forall i :: 0 <= i < |items| ==> SameJson(items[i], w.items[i])
    case Obj(ms) =>
      w.Obj? && |ms| == |w.members|
      && forall i :: 0 <= i < |ms| ==>
           exists j :: 0 <= j < |w.members| && ms[i].key == w.members[j].key
               && SameJson(ms[i].value, w.members[j].value)
    case _ => v == w || (NumberOf(v).Some? && NumberOf(v) == NumberOf(w))
  }

  predicate HasType(doc: Json, name: string) {
    match doc
    case Null => name == "null"
    case Bool(_) => name == "boolean"
    case Int(_) => name == "integer" || name == "number"
    case Float(f) => name == "number" || (name == "integer" && Canonical.Strip(f.digits, f.exp).1 >= 0)
    case NonFinite => name == "number"
    case Str(_) => name == "string"
    case Arr(_) => name == "array"
    case Obj(_) => name == "object"
  }

  predicate Distinct(items: seq<Json>) {
    forall i, j :: 0 <= i < j < |items| ==> !SameJson(items[i], items[j])
  }

  /** Every array of the document, at any depth, has no repeated item. */
  predicate ArraysDistinct(doc: Json) {
    match doc
    case Arr(items) => Distinct(items) && forall i :: 0 <= i < |items| ==> ArraysDistinct(items[i])
    case Obj(ms) => forall i :: 0 <= i < |ms| ==> ArraysDistinct(ms[i].value)
    case _ => true
  }

  /** The names a node's `properties` keyword describes. */
  predicate Describes(node: seq<Member>, name: string) {
    match Find(node, "properties")
    case Some(Obj(ps)) => HasKey(ps, name)
    case _ => false
  }

  /** `doc` is valid against `schema`, following at most `depth` references. */
  predicate Accepts(env: Env, root: seq<Member>, schema: Json, doc: Json, depth: nat)
    decreases depth, schema, 1
  {
    match schema
    case Bool(b) => b
    case Obj(ms) => forall i :: 0 <= i < |ms| ==> Holds(env, root, ms, ms[i].key, ms[i].value, doc, depth)
    case _ => false
  }

  /** One keyword of a node holds of `doc`. */
  predicate Holds(env: Env, root: seq<Member>, node: seq<Member>, key: string, arg: Json, doc: Json, depth: nat)
    decreases depth, arg, 2
  {
    if key == "$ref" then RefHolds(env, root, arg, doc, depth)
    else if key == "anyOf" then
      arg.Arr? ==> exists i :: 0 <= i < |arg.items| && Accepts(env, root, arg.items[i], doc, depth)
    else if key == "allOf" then
      arg.Arr? ==> forall i :: 0 <= i < |arg.items| ==> Accepts(env, root, arg.items[i], doc, depth)
    else if key == "oneOf" then
      arg.Arr? ==> ExactlyOne(env, root, arg.items, doc, depth)
    else if key == "not" then !Accepts(env, root, arg, doc, depth)
    else if key == "items" then
      doc.Arr? ==> forall i :: 0 <= i < |doc.items| ==> Accepts(env, root, arg, doc.items[i], depth)
    else if key == "properties" then
      arg.Obj? && doc.Obj? ==>
        forall i, j :: 0 <= i < |arg.members| && 0 <= j < |doc.members| && arg.members[i].key == doc.members[j].key ==>
          Accepts(env, root, arg.members[i].value, doc.members[j].value, depth)
    else if key == "additionalProperties" then
      doc.Obj? ==>
        forall j :: 0 <= j < |doc.members| && !Describes(node, doc.members[j].key) ==>
          Accepts(env, root, arg, doc.members[j].value, depth)
    else FlatHolds(env, key, arg, doc)
  }

  predicate ExactlyOne(env: Env, root: seq<Member>, items: seq<Json>, doc: Json, depth: nat)
    decreases depth, items, 1
  {
    exists i :: 0 <= i < |items| && Sole(env, root, items, i, doc, depth)
  }

  /** Item `i` accepts and no other does. */
  predicate Sole(env: Env, root: seq<Member>, items: seq<Json>, i: nat, doc: Json, depth: nat)
    requires i < |items|
    decreases depth, items, 0
  {
    Accepts(env, root, items[i], doc, depth)
    && forall j :: 0 <= j < |items| && j != i ==> !Accepts(env, root, items[j], doc, depth)
  }

  predicate RefHolds(env: Env, root: seq<Member>, arg: Json, doc: Json, depth: nat)
    decreases depth, arg, 0
  {
    if !arg.Str? then true
    else
      match Resolve(env.files, root, arg.s)
      case Some(t) => depth > 0 && Accepts(env, t.root, t.schema, doc, depth - 1)
      case None => false
  }

  /** The keywords without a subschema. */
  predicate FlatHolds(env: Env, key: string, arg: Json, doc: Json) {
    if IsAnnotation(key) then true
    else if key == "type" then
      match arg
      case Str(name) => HasType(doc, name)
      case Arr(names) => exists i :: 0 <= i < |names| && names[i].Str? && HasType(doc, names[i].s)
      case _ => true
    else if key == "const" then SameJson(arg, doc)
    else if key == "enum" then
      arg.Arr? ==> exists i :: 0 <= i < |arg.items| && SameJson(arg.items[i], doc)
    else if key == "required" then
      arg.Arr? && doc.Obj? ==> forall i :: 0 <= i < |arg.items| && arg.items[i].Str? ==>
          HasKey(doc.members, arg.items[i].s)
    else if key == "uniqueItems" then
      env.unique && arg == Bool(true) && doc.Arr? ==> Distinct(doc.items)
    else env.assertion(key, arg, ShapeOf(doc))
  }
}
