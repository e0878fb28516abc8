/** The compiled schema accepts exactly what is asked for: the other direction of the refinement. */
module SchemaExact {
  import opened Text
  import opened Json
  import opened SchemaMeaning
  import opened SchemaCompiler
  import opened SchemaRefinement
  import opened SchemaSoundness
  import opened SchemaDemands
  import Canonical
  import JsonText

  // ---- what is asked for ------------------------------------------------------------------

  /** The text that must stand at a path, where the host fills in the field afterwards. */
  function PlaceholderAt(path: seq<string>): Option<string> {
    if path == [] then None
    else
      match path[|path| - 1]
      case "created_at" => Some("RUNTIME_BOUND_BY_HOST")
      case "output_hash" => Some("HOST_COMPUTES_SHA256")
      case "proposal_hash" => if "proposal" in path then Some("HOST_COMPUTES_SHA256") else None
      case _ => None
  }

  function Branch(path: seq<string>, key: string, i: nat): seq<string> { path + [key] + [JsonText.NatText(i)] }

  /** What the schema at a path of the authoritative file asks of a document. */
  ghost predicate Demands(env: Env, root: seq<Member>, schema: Json, doc: Json, path: seq<string>, depth: nat)
    decreases depth, schema, 1
  {
    match schema
    case Bool(b) => b
    case Obj(ms) =>
      if PlaceholderAt(path).Some? then doc == Str(PlaceholderAt(path).value)
      else if ReferenceOf(ms).Some? then
        (match Resolve(env.files, root, ReferenceOf(ms).value)
         case Some(t) => depth > 0 && Demands(env, t.root, t.schema, doc, path, depth - 1)
         case None => false)
      else if IsMapField(path) then HasExactly(doc, MapFields(path[|path| - 1]))
      else
        && (forall i :: 0 <= i < |ms| ==> Demanded(env, root, ms, ms[i].key, ms[i].value, doc, path, depth))
        && (IsObjectNode(ms) && doc.Obj? ==> SameNames(ms, doc.members))
    case _ => false
  }

  /** The described properties, all of them and no other. */
  ghost predicate SameNames(node: seq<Member>, members: seq<Member>) {
    forall name :: HasKey(members, name) <==> Describes(node, name)
  }

  /** What one keyword of a node asks; four are left to the host, two say less than the names do. */
  ghost predicate Demanded(env: Env, root: seq<Member>, node: seq<Member>, key: string, arg: Json, doc: Json,
                           path: seq<string>, depth: nat)
    decreases depth, arg, 2
  {
    if key in {"$schema", "$id", "$defs", "uniqueItems"} then true
    else if IsObjectNode(node) && key in {"additionalProperties", "required"} then true
    else if key == "anyOf" then
      arg.Arr? ==>
        exists i :: 0 <= i < |arg.items| && Demands(env, root, arg.items[i], doc, Branch(path, "anyOf", i), depth)
    else if key == "oneOf" then
      arg.Arr? ==> ChoiceDemanded(env, root, arg.items, doc, path, depth)
    else if key == "items" then
      doc.Arr? ==> forall i :: 0 <= i < |doc.items| ==> Demands(env, root, arg, doc.items[i], path + ["items"], depth)
    else if key == "properties" then
      arg.Obj? && doc.Obj? ==>
        forall i, j :: 0 <= i < |arg.members| && 0 <= j < |doc.members| && arg.members[i].key == doc.members[j].key ==>
          Demands(env, root, arg.members[i].value, doc.members[j].value, path + ["properties"] + [arg.members[i].key],
                  depth)
    else if key == "additionalProperties" then
      doc.Obj? ==>
        forall j :: 0 <= j < |doc.members| && !Describes(node, doc.members[j].key) ==>
          Demands(env, root, arg, doc.members[j].value, path + ["additionalProperties"], depth)
    else FlatHolds(env, key, arg, doc)
  }

  ghost predicate ChoiceDemanded(env: Env, root: seq<Member>, items: seq<Json>, doc: Json, path: seq<string>,
                                 depth: nat)
    decreases depth, items, 1
  {
    exists i :: 0 <= i < |items| && OneDemanded(env, root, items, i, doc, path, depth)
  }

  /** Branch `i` asks for this document, and no other does. */
  ghost predicate OneDemanded(env: Env, root: seq<Member>, items: seq<Json>, i: nat, doc: Json, path: seq<string>,
                              depth: nat)
    requires i < |items|
    decreases depth, items, 0
  {
    forall j :: 0 <= j < |items| ==>
      (j == i <==> Demands(env, root, items[j], doc, Branch(path, "oneOf", j), depth))
  }

  // ---- a node as a list of keywords ---------------------------------------------------------

  lemma SamePlaceholder(path: seq<string>)
    ensures PlaceholderAt(path) == SentinelAt(path)
  {
  }

  lemma SameMapField(path: seq<string>)
    ensures IsMapField(path) <==> StrictMapAt(path).Some?
  {
  }

  lemma SentinelExact(env: Env, root: seq<Member>, sentinel: string, doc: Json, depth: nat)
    ensures Accepts(env, root, SentinelSchema(sentinel), doc, depth) <==> doc == Str(sentinel)
  {
    var node := SentinelSchema(sentinel).members;
    if Accepts(env, root, SentinelSchema(sentinel), doc, depth) { SentinelForces(env, root, sentinel, doc, depth); }
    if doc == Str(sentinel) {
      forall i | 0 <= i < 2 ensures Holds(env, root, node, node[i].key, node[i].value, doc, depth) { }
    }
  }

  lemma AddTypeUnique(es: seq<Member>)
    requires UniqueKeys(es)
    ensures UniqueKeys(AddType(es))
  {
  }

  lemma FinishUnique(es: seq<Member>)
    requires UniqueKeys(es) && Finish(es).Ok?
    ensures Finish(es).value.Obj? && UniqueKeys(Finish(es).value.members)
  {
    hide AddType;
    AddTypeUnique(es);
    var ts := AddType(es);
    if IsObjectNode(ts) {
      var ps := Find(ts, "properties").value.members;
      AssignUnique(ts, "additionalProperties", Bool(false));
      AssignUnique(Assign(ts, "additionalProperties", Bool(false)), "required", Arr(Names(ps)));
    }
  }

  /** The type a node gets where it has none. */
  predicate TypeAdded(es: seq<Member>, name: string) {
    && !HasKey(es, "type")
    && (match Find(es, "const")
        case Some(v) => name == LiteralType(v)
        case None =>
          match Find(es, "enum")
          case Some(Arr(vs)) => vs != [] && forall i :: 0 <= i < |vs| ==> LiteralType(vs[i]) == name
          case _ => false)
  }

  lemma AddedTypeIs(es: seq<Member>)
    requires !HasKey(es, "type") && HasKey(AddType(es), "type")
    ensures exists name :: Find(AddType(es), "type") == Some(Str(name)) && TypeAdded(es, name)
  {
    var r := AddType(es);
    assert |r| == |es| + 1 && r[|es|].key == "type";
    AppendedFind(es, r[|es|]);
    var name := r[|es|].value.s;
    assert TypeAdded(es, name);
  }

  predicate TypedAs(v: Json, name: string) {
    match v
    case Null => name == "null"
    case Bool(_) => name == "boolean"
    case Int(_) => name == "integer"
    case Float(_) => name == "number"
    case NonFinite => name == "number"
    case Str(_) => name == "string"
    case Arr(_) => name == "array"
    case Obj(_) => name == "object"
  }

  /** A constant implies its type, and so does an enumeration of values of one type. */
  predicate TypeImplied(es: seq<Member>, name: string) {
    match Find(es, "const")
    case Some(v) => TypedAs(v, name)
    case None =>
      match Find(es, "enum")
      case Some(Arr(vs)) => vs != [] && forall i :: 0 <= i < |vs| ==> TypedAs(vs[i], name)
      case _ => false
  }

  lemma TypedAsLiteral(v: Json, name: string)
    ensures TypedAs(v, name) <==> LiteralType(v) == name
  {
  }

  lemma ImpliedIsAdded(es: seq<Member>, name: string)
    requires !HasKey(es, "type")
    ensures TypeImplied(es, name) <==> TypeAdded(es, name)
  {
    hide TypedAs, LiteralType;
    forall v ensures TypedAs(v, name) <==> LiteralType(v) == name { TypedAsLiteral(v, name); }
  }

  lemma TypeIsAdded(es: seq<Member>, name: string)
    requires TypeAdded(es, name)
    ensures AddType(es) == es + [Member("type", Str(name))]
  {
    match Find(es, "enum") {
      case Some(Arr(vs)) =>
        if Find(es, "const").None? { assert LiteralType(vs[0]) == name; }
      case _ =>
    }
  }

  /** A node without a type gets the one that its constant or its uniform enumeration implies, and no
      other change; where neither implies one, and where there is a type, it stays as it is. */
  lemma TypeInferred(es: seq<Member>)
    ensures HasKey(es, "type") ==> AddType(es) == es
    ensures !HasKey(es, "type") ==>
      forall name :: TypeImplied(es, name) <==> AddType(es) == es + [Member("type", Str(name))]
    ensures !HasKey(es, "type") && (forall name :: !TypeImplied(es, name)) ==> AddType(es) == es
  {
    hide AddType, TypeImplied;
    if HasKey(es, "type") {
      TypeStays(es);
    } else {
      forall name ensures TypeImplied(es, name) <==> AddType(es) == es + [Member("type", Str(name))] {
        ImpliedIsAdded(es, name);
        if TypeAdded(es, name) {
          TypeIsAdded(es, name);
        } else if AddType(es) == es + [Member("type", Str(name))] {
          assert AddType(es)[|es|].key == "type";
          AddedTypeIs(es);
          AppendedFind(es, Member("type", Str(name)));
        }
      }
      if AddType(es) != es {
        TypeStays(es);
        AddedTypeIs(es);
        var name :| TypeAdded(es, name);
        ImpliedIsAdded(es, name);
      }
    }
  }

  lemma TypeStays(es: seq<Member>)
    ensures HasKey(es, "type") ==> AddType(es) == es
    ensures AddType(es) != es ==> HasKey(AddType(es), "type")
  {
    var r := AddType(es);
    if r != es { assert r[|es|].key == "type"; }
  }

  lemma LiteralHasType(v: Json, doc: Json)
    requires SameJson(v, doc)
    ensures HasType(doc, LiteralType(v))
  {
    if v.Int? && doc.Float? { WholeFloat(v.i, doc.f); }
  }

  /** A float of the same value as an integer has no fraction. */
  lemma WholeFloat(i: int, f: Decimal)
    requires NumberOf(Int(i)) == NumberOf(Float(f))
    ensures Canonical.Strip(f.digits, f.exp).1 >= 0
  {
    Canonical.StripKeepsValue(if i < 0 then -i else i, 0);
    assert Canonical.Strip(0, 0).1 == 0;
  }

  // ---- the induction --------------------------------------------------------------------------

  ghost predicate Covered(p: Place, schema: Json) {
    && (SentinelAt(p.path).None? || schema.Bool?)
    && Supported(p.env, p.host, p.root, schema, p.path, p.mode, p.depth)
    && p.Compiled(schema).Ok?
  }

  ghost predicate Asks(p: Place, schema: Json, doc: Json) {
    Demands(p.env, p.root, schema, doc, p.path, p.depth)
  }

  /** The compiled schema of every covered node accepts a document exactly when the authoritative
      node, read strictly, asks for it. */
  lemma {:induction false} CompiledExactly(p: Place, schema: Json, doc: Json)
    requires Covered(p, schema)
    ensures p.CompiledAccepts(p.Compiled(schema).value, doc) <==> Asks(p, schema, doc)
    decreases p.depth, schema, 5
  {
    hide Accepts, Expand, Supported, Demands, StrictMapAt, IsMapField, SentinelAt, PlaceholderAt;
    SamePlaceholder(p.path);
    SameMapField(p.path);
    if schema.Obj? {
      var ms := schema.members;
      if ReferenceOf(ms).Some? {
        ReferenceExactly(p, ms, doc);
      } else if IsMapField(p.path) {
        MapExactly(p, ms, doc);
      } else {
        NodeExactly(p, ms, doc);
      }
    } else {
      BoolExactly(p, schema, doc);
    }
  }

  lemma BoolExactly(p: Place, schema: Json, doc: Json)
    requires Covered(p, schema) && !schema.Obj?
    ensures p.CompiledAccepts(p.Compiled(schema).value, doc) <==> Asks(p, schema, doc)
  {
  }

  lemma MapExactly(p: Place, ms: seq<Member>, doc: Json)
    requires Covered(p, Obj(ms)) && ReferenceOf(ms).None? && IsMapField(p.path) && PlaceholderAt(p.path).None?
    ensures p.CompiledAccepts(p.Compiled(Obj(ms)).value, doc) <==> Asks(p, Obj(ms), doc)
  {
    hide Accepts, Expand, Supported, HasExactly, IsMapField, MapFields, Demanded;
    NarrowedMapAccepts(p.env, p.root, ms, p.path, p.depth, p.compiledRoot, doc, p.compiledDepth);
  }

  lemma CompiledAlong(p: Place, ms: seq<Member>)
    requires ReferenceOf(ms).Some? && SentinelAt(p.path).None?
    ensures p.Compiled(Obj(ms)) == ExpandReference(p.env.files, p.root, ms, p.path, p.depth)
  {
    hide ExpandReference, ExpandMembers, SentinelAt, StrictMapAt, Finish;
  }

  lemma SupportedAlong(p: Place, ms: seq<Member>)
    requires ReferenceOf(ms).Some? && Supported(p.env, p.host, p.root, Obj(ms), p.path, p.mode, p.depth)
    requires p.depth > 0 && Resolve(p.env.files, p.root, ReferenceOf(ms).value).Some?
    ensures var t := Resolve(p.env.files, p.root, ReferenceOf(ms).value).value;
      Supported(p.env, p.host, t.root, t.schema, p.path, p.mode, p.depth - 1)
  {
    hide KeywordSupported, OpenMap, Resolve, StrictMapAt;
  }

  lemma ReferenceCovered(p: Place, ms: seq<Member>)
    requires Covered(p, Obj(ms)) && ReferenceOf(ms).Some?
    ensures |ms| == 1 && p.depth > 0 && Resolve(p.env.files, p.root, ReferenceOf(ms).value).Some?
    ensures var t := Resolve(p.env.files, p.root, ReferenceOf(ms).value).value;
      var q := p.(root := t.root, depth := p.depth - 1);
      Covered(q, t.schema) && p.Compiled(Obj(ms)) == q.Compiled(t.schema)
  {
    hide Supported, Expand, Resolve, SentinelAt, ReferenceOf;
    CompiledAlong(p, ms);
    SupportedAlong(p, ms);
  }

  lemma {:induction false} ReferenceExactly(p: Place, ms: seq<Member>, doc: Json)
    requires Covered(p, Obj(ms)) && ReferenceOf(ms).Some? && PlaceholderAt(p.path).None?
    ensures p.CompiledAccepts(p.Compiled(Obj(ms)).value, doc) <==> Asks(p, Obj(ms), doc)
    decreases p.depth, ms, 4
  {
    hide Covered, Accepts, Resolve, Expand, IsMapField, Demanded;
    ReferenceCovered(p, ms);
    var t := Resolve(p.env.files, p.root, ReferenceOf(ms).value).value;
    CompiledExactly(p.(root := t.root, depth := p.depth - 1), t.schema, doc);
  }

  lemma CoveredNode(p: Place, ms: seq<Member>) returns (es: seq<Member>, w: seq<Member>)
    requires Covered(p, Obj(ms)) && ReferenceOf(ms).None? && StrictMapAt(p.path).None?
    ensures NodeShape(p, ms, es, w) && p.Compiled(Obj(ms)) == Ok(Obj(w))
  {
    hide KeywordSupported, ExpandMembers, AddType, HasUnsupported;
    es := ExpandMembers(p.env.files, p.root, ms, p.path, p.depth).value;
    CloseFind(AddType(es), "type");
    w := Finish(es).value.members;
  }

  /** Keyword `i` of a node, which survives in its result with its own expansion `e`. */
  ghost predicate Survives(p: Place, ms: seq<Member>, es: seq<Member>, w: seq<Member>, i: nat, e: Json) {
    && NodeShape(p, ms, es, w) && i < |ms| && !IsDropped(ms[i].key)
    && (IsObjectNode(ms) ==> ms[i].key != "additionalProperties" && ms[i].key != "required")
    && Find(w, ms[i].key) == Some(e) && p.Step(ms[i].key).Compiled(ms[i].value) == Ok(e)
  }

  lemma SurvivorOf(p: Place, ms: seq<Member>, es: seq<Member>, w: seq<Member>, i: nat) returns (e: Json)
    requires NodeShape(p, ms, es, w) && i < |ms| && !IsDropped(ms[i].key)
    requires IsObjectNode(ms) ==> ms[i].key != "additionalProperties" && ms[i].key != "required"
    ensures Survives(p, ms, es, w, i, e)
  {
    hide Expand, ExpandMembers, AddType, Finish, KeywordSupported;
    NodeClosed(p, ms, es, w);
    NodeFind(p.env.files, p.root, ms, p.path, p.depth, es, w, i);
    e := Find(w, ms[i].key).value;
  }

  ghost predicate SameDemand(p: Place, ms: seq<Member>, w: seq<Member>, i: nat, e: Json, doc: Json)
    requires i < |ms|
  {
    Holds(p.env, p.compiledRoot, w, ms[i].key, e, doc, p.compiledDepth)
    <==> Demanded(p.env, p.root, ms, ms[i].key, ms[i].value, doc, p.path, p.depth)
  }

  lemma {:induction false} KeywordExactly(p: Place, ms: seq<Member>, es: seq<Member>, w: seq<Member>, i: nat, e: Json,
                                          doc: Json)
    requires Survives(p, ms, es, w, i, e)
    ensures SameDemand(p, ms, w, i, e, doc)
    decreases p.depth, ms, 3
  {
    hide Expand, NodeExpanded, Resolve, Supported, PropertySupported, ToldApart;
    var key := ms[i].key;
    assert KeywordSupported(p.env, p.host, p.root, ms, key, ms[i].value, p.path, p.mode, p.depth);
    assert !IsUnsupported(key) by { SurvivorPlain(p, ms, es, w, i); }
    if key == "properties" {
      PropertiesExactly(p, ms, es, w, i, e, doc);
    } else if key == "items" {
      ItemsExactly(p, ms, es, w, i, e, doc);
    } else if key == "anyOf" || key == "oneOf" {
      ChoiceExactly(p, ms, es, w, i, e, doc);
    } else if key == "additionalProperties" {
      AdditionalExactly(p, ms, es, w, i, e, doc);
    } else if !IsAnnotation(key) {
      FlatUnchanged(p.env.files, p.root, ms[i].value, p.path + [key], p.depth);
    }
  }

  lemma SurvivorPlain(p: Place, ms: seq<Member>, es: seq<Member>, w: seq<Member>, i: nat)
    requires NodeShape(p, ms, es, w) && i < |ms|
    ensures !IsUnsupported(ms[i].key)
  {
    hide KeywordSupported, ExpandMembers, Finish;
  }

  lemma SubschemaCovered(p: Place, ms: seq<Member>, es: seq<Member>, w: seq<Member>, i: nat, e: Json)
    requires Survives(p, ms, es, w, i, e) && ms[i].key in {"items", "additionalProperties"}
    ensures i < |ms|
    ensures var q := p.Step(ms[i].key).(mode := Plain);
      Covered(q, ms[i].value) && q.Compiled(ms[i].value) == Ok(e)
  {
    hide NodeExpanded, Supported, PropertySupported, ToldApart, Find, Expand;
    assert KeywordSupported(p.env, p.host, p.root, ms, ms[i].key, ms[i].value, p.path, p.mode, p.depth);
    LastStep(p.path, ms[i].key);
  }

  lemma {:induction false} ItemsExactly(p: Place, ms: seq<Member>, es: seq<Member>, w: seq<Member>, i: nat,
                                        e: Json, doc: Json)
    requires Survives(p, ms, es, w, i, e) && ms[i].key == "items"
    ensures SameDemand(p, ms, w, i, e, doc)
    decreases p.depth, ms, 2
  {
    hide Accepts, Demands, Survives, Covered, Expand, Describes;
    SubschemaCovered(p, ms, es, w, i, e);
    var q := p.Step("items").(mode := Plain);
    if doc.Arr? {
      forall j | 0 <= j < |doc.items|
        ensures q.CompiledAccepts(e, doc.items[j]) <==> Asks(q, ms[i].value, doc.items[j])
      {
        CompiledExactly(q, ms[i].value, doc.items[j]);
      }
    }
  }

  lemma LastStep(path: seq<string>, key: string)
    requires key in {"items", "additionalProperties"}
    ensures SentinelAt(path + [key]).None?
  {
    assert (path + [key])[|path|] == key;
  }

  /** The branches of a choice, each with its own expansion. */
  lemma {:induction false} BranchExactly(p: Place, key: string, items: seq<Json>, es: seq<Json>, doc: Json, j: nat)
    requires key in {"anyOf", "oneOf"} && j < |items|
    requires ExpandItems(p.env.files, p.root, items, p.path + [key], p.depth) == Ok(es)
    requires Supported(p.env, p.host, p.root, items[j], Branch(p.path, key, j), p.mode, p.depth)
    ensures j < |es|
    ensures Accepts(p.env, p.compiledRoot, es[j], doc, p.compiledDepth)
            <==> Demands(p.env, p.root, items[j], doc, Branch(p.path, key, j), p.depth)
    decreases p.depth, items, 6
  {
    hide Expand, Accepts, Supported, Demands, JsonText.NatText;
    ItemExpanded(p.env.files, p.root, items, p.path + [key], p.depth, j);
    DigitStep(j, p.path + [key]);
    CompiledExactly(p.Step(key).Step(JsonText.NatText(j)), items[j], doc);
  }

  lemma BranchesCompiled(p: Place, ms: seq<Member>, es: seq<Member>, w: seq<Member>, i: nat, e: Json)
    requires Survives(p, ms, es, w, i, e) && ms[i].key in {"anyOf", "oneOf"}
    ensures i < |ms| && ms[i].value.Arr? && e.Arr? && |e.items| == |ms[i].value.items|
    ensures ExpandItems(p.env.files, p.root, ms[i].value.items, p.path + [ms[i].key], p.depth) == Ok(e.items)
    ensures forall j :: 0 <= j < |ms[i].value.items| ==>
      Supported(p.env, p.host, p.root, ms[i].value.items[j], Branch(p.path, ms[i].key, j), p.mode, p.depth)
  {
    hide NodeExpanded, Supported, PropertySupported, ToldApart, JsonText.NatText, Find;
    assert KeywordSupported(p.env, p.host, p.root, ms, ms[i].key, ms[i].value, p.path, p.mode, p.depth);
  }

  lemma {:induction false} BranchesExactly(p: Place, key: string, items: seq<Json>, es: seq<Json>, doc: Json)
    requires key in {"anyOf", "oneOf"}
    requires ExpandItems(p.env.files, p.root, items, p.path + [key], p.depth) == Ok(es)
    requires forall j :: 0 <= j < |items| ==>
      Supported(p.env, p.host, p.root, items[j], Branch(p.path, key, j), p.mode, p.depth)
    ensures |es| == |items|
    ensures forall j :: 0 <= j < |items| ==>
      (Accepts(p.env, p.compiledRoot, es[j], doc, p.compiledDepth)
       <==> Demands(p.env, p.root, items[j], doc, Branch(p.path, key, j), p.depth))
    decreases p.depth, items, 7
  {
    hide Accepts, Demands, Expand, Supported, JsonText.NatText;
    forall j | 0 <= j < |items|
      ensures Accepts(p.env, p.compiledRoot, es[j], doc, p.compiledDepth)
              <==> Demands(p.env, p.root, items[j], doc, Branch(p.path, key, j), p.depth)
    {
      BranchExactly(p, key, items, es, doc, j);
    }
  }

  lemma {:induction false} ChoiceExactly(p: Place, ms: seq<Member>, es: seq<Member>, w: seq<Member>, i: nat, e: Json,
                                         doc: Json)
    requires Survives(p, ms, es, w, i, e) && ms[i].key in {"anyOf", "oneOf"}
    ensures SameDemand(p, ms, w, i, e, doc)
    decreases p.depth, ms, 2
  {
    hide Accepts, Demands, Survives, Expand, Supported, JsonText.NatText, Branch;
    BranchesCompiled(p, ms, es, w, i, e);
    BranchesExactly(p, ms[i].key, ms[i].value.items, e.items, doc);
    if ms[i].key == "oneOf" {
      OneOfBoth(p, ms[i].value.items, e.items, doc);
    } else {
      AnyOfBoth(p, ms[i].value.items, e.items, doc);
    }
  }

  /** Some branch accepts where some branch asks. */
  lemma AnyOfBoth(p: Place, items: seq<Json>, es: seq<Json>, doc: Json)
    requires |es| == |items|
    requires forall j :: 0 <= j < |items| ==>
      (Accepts(p.env, p.compiledRoot, es[j], doc, p.compiledDepth)
       <==> Demands(p.env, p.root, items[j], doc, Branch(p.path, "anyOf", j), p.depth))
    ensures (exists j :: 0 <= j < |es| && Accepts(p.env, p.compiledRoot, es[j], doc, p.compiledDepth))
      <==> exists j :: 0 <= j < |items| && Demands(p.env, p.root, items[j], doc, Branch(p.path, "anyOf", j), p.depth)
  {
    hide Accepts, Demands, Branch;
    if j :| 0 <= j < |es| && Accepts(p.env, p.compiledRoot, es[j], doc, p.compiledDepth) {
      assert Demands(p.env, p.root, items[j], doc, Branch(p.path, "anyOf", j), p.depth);
    }
  }

  /** Exactly one branch accepts where exactly one is asked for. */
  lemma OneOfBoth(p: Place, items: seq<Json>, es: seq<Json>, doc: Json)
    requires |es| == |items|
    requires forall j :: 0 <= j < |items| ==>
      (Accepts(p.env, p.compiledRoot, es[j], doc, p.compiledDepth)
       <==> Demands(p.env, p.root, items[j], doc, Branch(p.path, "oneOf", j), p.depth))
    ensures ExactlyOne(p.env, p.compiledRoot, es, doc, p.compiledDepth)
      <==> ChoiceDemanded(p.env, p.root, items, doc, p.path, p.depth)
  {
    hide Accepts, Demands;
    if k :| 0 <= k < |es| && Sole(p.env, p.compiledRoot, es, k, doc, p.compiledDepth) {
      assert OneDemanded(p.env, p.root, items, k, doc, p.path, p.depth);
    }
    if k :| 0 <= k < |items| && OneDemanded(p.env, p.root, items, k, doc, p.path, p.depth) {
      forall j | 0 <= j < |es|
        ensures Accepts(p.env, p.compiledRoot, es[j], doc, p.compiledDepth) <==> j == k
      {
        assert Demands(p.env, p.root, items[j], doc, Branch(p.path, "oneOf", j), p.depth) <==> j == k;
      }
      assert Sole(p.env, p.compiledRoot, es, k, doc, p.compiledDepth);
    }
  }

  lemma {:induction false} PropertyExactly(p: Place, name: string, schema: Json, value: Json)
    requires PropertySupported(p.env, p.host, p.root, name, schema, p.path, p.mode, p.depth)
    requires p.Step("properties").Step(name).Compiled(schema).Ok?
    ensures var q := p.Step("properties").Step(name);
      p.CompiledAccepts(q.Compiled(schema).value, value) <==> Asks(q, schema, value)
    decreases p.depth, schema, 6
  {
    var q := p.Step("properties").Step(name).(mode := ChildMode(p.mode, name));
    SamePlaceholder(q.path);
    if schema.Obj? && SentinelAt(q.path).Some? {
      hide Accepts, Supported;
      SentinelExact(p.env, p.compiledRoot, SentinelAt(q.path).value, value, p.compiledDepth);
    } else {
      hide Accepts, Demands;
      CompiledExactly(q, schema, value);
    }
  }

  lemma PropertiesCompiled(p: Place, ms: seq<Member>, es: seq<Member>, w: seq<Member>, i: nat, e: Json)
    requires Survives(p, ms, es, w, i, e) && ms[i].key == "properties"
    ensures ms[i].value.Obj? && e.Obj? && |e.members| == |ms[i].value.members|
    ensures forall k :: 0 <= k < |e.members| ==> PropertyCompiled(p, ms[i].value.members[k], e.members[k])
  {
    hide NodeExpanded, Supported, ToldApart, Find;
    assert KeywordSupported(p.env, p.host, p.root, ms, "properties", ms[i].value, p.path, p.mode, p.depth);
    var ps := ms[i].value.members;
    SupportedMap(p, ms, i);
    SupportedExpansions(p, ms, i);
    PropertyMapExpanded(p.env.files, p.root, ps, p.path, p.depth);
    hide Expand, PropertySupported, PropertyMap;
  }

  /** A covered property and its expansion. */
  ghost predicate PropertyCompiled(p: Place, m: Member, e: Member) {
    && PropertySupported(p.env, p.host, p.root, m.key, m.value, p.path, p.mode, p.depth)
    && e.key == m.key && p.Step("properties").Step(m.key).Compiled(m.value) == Ok(e.value)
  }

  /** The properties of an object are accepted one by one where they are asked for one by one. */
  lemma PropertiesSame(p: Place, ms: seq<Member>, w: seq<Member>, i: nat, e: Json, doc: Json)
    requires i < |ms| && ms[i].key == "properties" && ms[i].value.Obj? && e.Obj?
    requires |e.members| == |ms[i].value.members|
    requires forall k :: 0 <= k < |e.members| ==> e.members[k].key == ms[i].value.members[k].key
    requires doc.Obj? ==> forall k, j :: 0 <= k < |e.members| && 0 <= j < |doc.members| ==>
      PropertyAgrees(p, ms[i].value.members[k], e.members[k], doc.members[j].value)
    ensures SameDemand(p, ms, w, i, e, doc)
  {
    hide Accepts, Demands;
    if doc.Obj? {
      forall k, j | 0 <= k < |e.members| && 0 <= j < |doc.members|
        ensures PropertyAgrees(p, ms[i].value.members[k], e.members[k], doc.members[j].value)
      {
      }
    }
  }

  ghost predicate PropertyAgrees(p: Place, m: Member, e: Member, value: Json) {
    Accepts(p.env, p.compiledRoot, e.value, value, p.compiledDepth)
    <==> Demands(p.env, p.root, m.value, value, p.path + ["properties"] + [m.key], p.depth)
  }

  lemma {:induction false} PropertiesExactly(p: Place, ms: seq<Member>, es: seq<Member>, w: seq<Member>, i: nat,
                                             e: Json, doc: Json)
    requires Survives(p, ms, es, w, i, e) && ms[i].key == "properties"
    ensures SameDemand(p, ms, w, i, e, doc)
    decreases p.depth, ms, 2
  {
    PropertiesCompiled(p, ms, es, w, i, e);
    hide Accepts, Demands, Expand, Survives, PropertySupported, SameDemand;
    var ps, qs := ms[i].value.members, e.members;
    if doc.Obj? {
      forall k, j | 0 <= k < |ps| && 0 <= j < |doc.members|
        ensures PropertyAgrees(p, ps[k], qs[k], doc.members[j].value)
      {
        assert PropertyCompiled(p, ps[k], qs[k]);
        PropertyOrder(ms, i, k);
        PropertyExactly(p, ps[k].key, ps[k].value, doc.members[j].value);
      }
    }
    PropertiesSame(p, ms, w, i, e, doc);
  }

  /** Undescribed members are accepted one by one where they are asked for one by one. */
  lemma AdditionalSame(p: Place, ms: seq<Member>, w: seq<Member>, i: nat, e: Json, doc: Json)
    requires i < |ms| && ms[i].key == "additionalProperties" && !IsObjectNode(ms)
    requires forall name :: Describes(w, name) <==> Describes(ms, name)
    requires doc.Obj? ==> forall j :: 0 <= j < |doc.members| ==>
      (Accepts(p.env, p.compiledRoot, e, doc.members[j].value, p.compiledDepth)
       <==> Demands(p.env, p.root, ms[i].value, doc.members[j].value, p.path + ["additionalProperties"], p.depth))
    ensures SameDemand(p, ms, w, i, e, doc)
  {
    hide Accepts, Demands, Describes, IsObjectNode, Branch;
  }

  lemma {:induction false} AdditionalExactly(p: Place, ms: seq<Member>, es: seq<Member>, w: seq<Member>, i: nat,
                                             e: Json, doc: Json)
    requires Survives(p, ms, es, w, i, e) && ms[i].key == "additionalProperties"
    ensures SameDemand(p, ms, w, i, e, doc)
    decreases p.depth, ms, 2
  {
    SubschemaCovered(p, ms, es, w, i, e);
    AdditionalDescribes(p, ms, es, w, i, e);
    OpenNode(p, ms, es, w, i, e);
    hide Accepts, Demands, Survives, Covered, Expand, Describes, IsObjectNode, SameDemand;
    var q := p.Step("additionalProperties").(mode := Plain);
    if doc.Obj? {
      forall j | 0 <= j < |doc.members|
        ensures q.CompiledAccepts(e, doc.members[j].value) <==> Asks(q, ms[i].value, doc.members[j].value)
      {
        CompiledExactly(q, ms[i].value, doc.members[j].value);
      }
    }
    AdditionalSame(p, ms, w, i, e, doc);
  }

  lemma AdditionalDescribes(p: Place, ms: seq<Member>, es: seq<Member>, w: seq<Member>, i: nat, e: Json)
    requires Survives(p, ms, es, w, i, e)
    ensures forall name :: Describes(w, name) <==> Describes(ms, name)
  {
    hide NodeShape;
    DescribesKept(p, ms, es, w);
  }

  lemma OpenNode(p: Place, ms: seq<Member>, es: seq<Member>, w: seq<Member>, i: nat, e: Json)
    requires Survives(p, ms, es, w, i, e) && ms[i].key == "additionalProperties"
    ensures !IsObjectNode(ms)
  {
    hide NodeShape;
  }

  // ---- all keywords of a node -----------------------------------------------------------------

  /** A closed node accepts only documents with the described names. */
  lemma ClosedForward(p: Place, ms: seq<Member>, es: seq<Member>, w: seq<Member>, doc: Json)
    requires NodeShape(p, ms, es, w) && IsObjectNode(ms) && doc.Obj? && p.CompiledAccepts(Obj(w), doc)
    ensures SameNames(ms, doc.members)
  {
    NodeClosed(p, ms, es, w);
    CloseFind(AddType(es), "properties");
    AcceptsKeyword(p.env, p.compiledRoot, w, "additionalProperties", doc, p.compiledDepth);
    AcceptsKeyword(p.env, p.compiledRoot, w, "required", doc, p.compiledDepth);
    DescribesKept(p, ms, es, w);
    hide Expand, ExpandMembers, Find, KeywordSupported, Names, NodeExpanded;
    forall name ensures HasKey(doc.members, name) <==> Describes(ms, name) {
      if HasKey(doc.members, name) {
        var j :| 0 <= j < |doc.members| && doc.members[j].key == name;
        assert !Accepts(p.env, p.compiledRoot, Bool(false), doc.members[j].value, p.compiledDepth);
      }
      if Describes(w, name) { RequiredOne(p, w, Find(w, "properties").value.members, doc, name); }
    }
  }

  lemma {:induction false} NodeForward(p: Place, ms: seq<Member>, es: seq<Member>, w: seq<Member>, doc: Json)
    requires NodeShape(p, ms, es, w) && p.CompiledAccepts(Obj(w), doc)
    ensures forall i :: 0 <= i < |ms| ==>
      Demanded(p.env, p.root, ms, ms[i].key, ms[i].value, doc, p.path, p.depth)
    decreases p.depth, ms, 4
  {
    hide NodeShape, Accepts, Expand;
    forall i | 0 <= i < |ms| ensures Demanded(p.env, p.root, ms, ms[i].key, ms[i].value, doc, p.path, p.depth) {
      if !IsDropped(ms[i].key) && !(IsObjectNode(ms) && ms[i].key in {"additionalProperties", "required"}) {
        var e := SurvivorOf(p, ms, es, w, i);
        AcceptsKeyword(p.env, p.compiledRoot, w, ms[i].key, doc, p.compiledDepth);
        KeywordExactly(p, ms, es, w, i, e, doc);
      }
    }
  }

  /** What the members of the result are: an expansion, an added type, or one of the two keywords
      that close an object. */
  lemma ResultMember(p: Place, ms: seq<Member>, es: seq<Member>, w: seq<Member>, k: nat) returns (i: nat)
    requires NodeShape(p, ms, es, w) && k < |w|
    ensures IsObjectNode(ms) && w[k].key == "additionalProperties" ==> w[k].value == Bool(false)
    ensures IsObjectNode(ms) && w[k].key == "required" ==>
      Find(w, "properties").Some? && Find(w, "properties").value.Obj?
      && w[k].value == Arr(Names(Find(w, "properties").value.members))
    ensures !(IsObjectNode(ms) && w[k].key in {"additionalProperties", "required"}) && i < |ms| ==>
      Survives(p, ms, es, w, i, w[k].value) && w[k].key == ms[i].key
    ensures !(IsObjectNode(ms) && w[k].key in {"additionalProperties", "required"}) && i >= |ms| ==>
      w[k].key == "type" && !HasKey(ms, "type") && exists name :: w[k].value == Str(name) && TypeAdded(es, name)
  {
    var key := w[k].key;
    MembersExpanded(p.env.files, p.root, ms, p.path, p.depth);
    FinishUnique(es);
    NodeClosed(p, ms, es, w);
    FindAt(w, k);
    CloseFind(AddType(es), key);
    CloseFind(AddType(es), "properties");
    i := IndexOf(ms, key);
    hide ExpandMembers, Expand, KeywordSupported;
    if !(IsObjectNode(ms) && key in {"additionalProperties", "required"}) {
      if HasKey(es, key) || key != "type" {
        AddTypeFind(es, key);
        var j := IndexOf(es, key);
        assert HasKey(ms, es[j].key) && !IsDropped(es[j].key);
        var e := SurvivorOf(p, ms, es, w, i);
      } else {
        AddedTypeIs(es);
        if i < |ms| { TypeKept(p, ms, es, w, i); }
      }
    }
  }

  lemma TypeKept(p: Place, ms: seq<Member>, es: seq<Member>, w: seq<Member>, i: nat)
    requires NodeShape(p, ms, es, w) && i < |ms| && ms[i].key == "type"
    ensures HasKey(es, "type")
  {
    hide KeywordSupported;
    MemberExpanded(p.env.files, p.root, ms, p.path, p.depth, i);
  }

  lemma DemandedFlat(p: Place, ms: seq<Member>, key: string, doc: Json)
    requires key in {"const", "enum"} && Find(ms, key).Some?
    requires forall i :: 0 <= i < |ms| ==>
      Demanded(p.env, p.root, ms, ms[i].key, ms[i].value, doc, p.path, p.depth)
    ensures FlatHolds(p.env, key, Find(ms, key).value, doc)
  {
    hide Demands, FlatHolds, Branch;
    var i := IndexOf(ms, key);
    assert Demanded(p.env, p.root, ms, ms[i].key, ms[i].value, doc, p.path, p.depth);
  }

  /** A type that was added says no more than the constant or the enumeration beside it. */
  lemma AddedTypeHolds(p: Place, ms: seq<Member>, es: seq<Member>, w: seq<Member>, name: string, doc: Json)
    requires NodeShape(p, ms, es, w) && TypeAdded(es, name)
    requires forall i :: 0 <= i < |ms| ==>
      Demanded(p.env, p.root, ms, ms[i].key, ms[i].value, doc, p.path, p.depth)
    ensures HasType(doc, name)
  {
    hide NodeShape, Demanded, SameJson, HasType, LiteralType, Find;
    FlatKeyword(p, ms, es, w, "const");
    FlatKeyword(p, ms, es, w, "enum");
    if Find(es, "const").Some? {
      DemandedFlat(p, ms, "const", doc);
      LiteralHasType(Find(ms, "const").value, doc);
    } else {
      DemandedFlat(p, ms, "enum", doc);
      var vs := Find(ms, "enum").value.items;
      var j :| 0 <= j < |vs| && SameJson(vs[j], doc);
      LiteralHasType(vs[j], doc);
    }
  }

  lemma FlatKeyword(p: Place, ms: seq<Member>, es: seq<Member>, w: seq<Member>, key: string)
    requires NodeShape(p, ms, es, w) && key in {"const", "enum"}
    ensures Find(es, key) == Find(ms, key)
  {
    hide ExpandMembers, Finish;
    if Find(ms, key).Some? {
      var i := IndexOf(ms, key);
      assert KeywordSupported(p.env, p.host, p.root, ms, ms[i].key, ms[i].value, p.path, p.mode, p.depth);
    }
    FlatFind(p.env.files, p.root, ms, p.path, p.depth, es, key);
  }

  lemma OnlyDescribed(p: Place, w: seq<Member>, doc: Json)
    requires doc.Obj? ==> forall name :: HasKey(doc.members, name) ==> Describes(w, name)
    ensures Holds(p.env, p.compiledRoot, w, "additionalProperties", Bool(false), doc, p.compiledDepth)
  {
    hide Describes;
    if doc.Obj? {
      forall j | 0 <= j < |doc.members| ensures Describes(w, doc.members[j].key) {
        assert HasKey(doc.members, doc.members[j].key);
      }
    }
  }

  lemma AllDescribed(p: Place, w: seq<Member>, qs: seq<Member>, doc: Json)
    requires Find(w, "properties") == Some(Obj(qs))
    requires doc.Obj? ==> forall name :: Describes(w, name) ==> HasKey(doc.members, name)
    ensures Holds(p.env, p.compiledRoot, w, "required", Arr(Names(qs)), doc, p.compiledDepth)
  {
    hide Find;
    if doc.Obj? {
      forall j | 0 <= j < |qs| ensures HasKey(doc.members, qs[j].key) { assert Describes(w, qs[j].key); }
    }
  }

  /** A document with the described names passes the two keywords that close an object. */
  lemma ClosedBackward(p: Place, ms: seq<Member>, es: seq<Member>, w: seq<Member>, doc: Json)
    requires NodeShape(p, ms, es, w) && (doc.Obj? ==> SameNames(ms, doc.members))
    ensures Holds(p.env, p.compiledRoot, w, "additionalProperties", Bool(false), doc, p.compiledDepth)
    ensures Find(w, "properties").Some? && Find(w, "properties").value.Obj? ==>
      Holds(p.env, p.compiledRoot, w, "required", Arr(Names(Find(w, "properties").value.members)), doc, p.compiledDepth)
  {
    hide NodeShape, Find, Describes, Holds, Accepts;
    DescribesKept(p, ms, es, w);
    OnlyDescribed(p, w, doc);
    if Find(w, "properties").Some? && Find(w, "properties").value.Obj? {
      AllDescribed(p, w, Find(w, "properties").value.members, doc);
    }
  }

  lemma {:induction false} NodeBackward(p: Place, ms: seq<Member>, es: seq<Member>, w: seq<Member>, doc: Json)
    requires NodeShape(p, ms, es, w) && (IsObjectNode(ms) && doc.Obj? ==> SameNames(ms, doc.members))
    requires forall i :: 0 <= i < |ms| ==>
      Demanded(p.env, p.root, ms, ms[i].key, ms[i].value, doc, p.path, p.depth)
    ensures p.CompiledAccepts(Obj(w), doc)
    decreases p.depth, ms, 4
  {
    hide NodeShape, Demanded, SameNames, TypeAdded, HasType, Survives, IsObjectNode, FlatHolds;
    forall k | 0 <= k < |w| ensures Holds(p.env, p.compiledRoot, w, w[k].key, w[k].value, doc, p.compiledDepth) {
      var i := ResultMember(p, ms, es, w, k);
      if IsObjectNode(ms) && w[k].key in {"additionalProperties", "required"} {
        ClosedBackward(p, ms, es, w, doc);
      } else if i < |ms| {
        KeywordExactly(p, ms, es, w, i, w[k].value, doc);
      } else {
        var name :| w[k].value == Str(name) && TypeAdded(es, name);
        AddedTypeHolds(p, ms, es, w, name, doc);
        TypeHolds(p, w, name, doc);
      }
    }
  }

  lemma TypeHolds(p: Place, w: seq<Member>, name: string, doc: Json)
    requires HasType(doc, name)
    ensures Holds(p.env, p.compiledRoot, w, "type", Str(name), doc, p.compiledDepth)
  {
  }

  lemma {:induction false} NodeExactly(p: Place, ms: seq<Member>, doc: Json)
    requires Covered(p, Obj(ms)) && ReferenceOf(ms).None? && !IsMapField(p.path) && PlaceholderAt(p.path).None?
    ensures p.CompiledAccepts(p.Compiled(Obj(ms)).value, doc) <==> Asks(p, Obj(ms), doc)
    decreases p.depth, ms, 5
  {
    SameMapField(p.path);
    hide Covered, NodeShape, Accepts, Expand, Demanded, SameNames, IsMapField;
    var es, w := CoveredNode(p, ms);
    if p.CompiledAccepts(Obj(w), doc) {
      NodeForward(p, ms, es, w, doc);
      if IsObjectNode(ms) && doc.Obj? { ClosedForward(p, ms, es, w, doc); }
    }
    if Asks(p, Obj(ms), doc) { NodeBackward(p, ms, es, w, doc); }
  }
}
