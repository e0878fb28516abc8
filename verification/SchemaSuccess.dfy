/** When the walk ends with a schema, and what the schema handed to the model then accepts. */
module SchemaSuccess {
  import opened Text
  import opened Json
  import opened SchemaMeaning
  import opened SchemaCompiler
  import opened SchemaRefinement
  import opened SchemaSoundness
  import opened SchemaDemands
  import opened SchemaExact
  import JsonText

  // ---- when there is a compiled schema -----------------------------------------------------------

  /** The walk ends with a schema: references stand alone, resolve and do not run out, no keyword is
      unsupported, and every object describes its properties. */
  ghost predicate Compiles(files: map<string, seq<Member>>, root: seq<Member>, schema: Json, path: seq<string>,
                           depth: nat)
    decreases depth, schema, 1
  {
    match schema
    case Bool(_) => true
    case Obj(ms) =>
      if PlaceholderAt(path).Some? then true
      else if ReferenceOf(ms).Some? then
        |ms| == 1 && depth > 0
        && (match Resolve(files, root, ReferenceOf(ms).value)
            case Some(t) => Compiles(files, t.root, t.schema, path, depth - 1)
            case None => false)
      else if IsMapField(path) then true
      else
        && (IsObjectNode(ms) ==> HasKey(ms, "properties"))
        && forall i :: 0 <= i < |ms| ==>
             && ms[i].key !in {"allOf", "not", "dependentRequired", "dependentSchemas", "if", "then", "else"}
             && KeywordCompiles(files, root, ms, ms[i].key, ms[i].value, path, depth)
    case _ => false
  }

  ghost predicate KeywordCompiles(files: map<string, seq<Member>>, root: seq<Member>, node: seq<Member>, key: string,
                                  arg: Json, path: seq<string>, depth: nat)
    decreases depth, arg, 2
  {
    if key in {"$schema", "$id", "$defs", "uniqueItems"} then true
    else if key == "anyOf" || key == "oneOf" then
      arg.Arr? ==> forall i :: 0 <= i < |arg.items| ==> Compiles(files, root, arg.items[i], Branch(path, key, i), depth)
    else if key == "items" || (key == "additionalProperties" && !IsObjectNode(node)) then
      Compiles(files, root, arg, path + [key], depth)
    else if key == "properties" then
      arg.Obj? ==> forall i :: 0 <= i < |arg.members| ==>
        Compiles(files, root, arg.members[i].value, path + ["properties"] + [arg.members[i].key], depth)
    else Flat(arg) || Expand(files, root, arg, path + [key], depth).Ok?
  }

  lemma {:induction false} ItemsOk(files: map<string, seq<Member>>, root: seq<Member>, items: seq<Json>,
                                   path: seq<string>, depth: nat)
    ensures ExpandItems(files, root, items, path, depth).Ok?
      <==> forall i :: 0 <= i < |items| ==> Expand(files, root, items[i], path + [JsonText.NatText(i)], depth).Ok?
  {
    hide Expand, JsonText.NatText;
    if items != [] {
      var n := |items| - 1;
      ItemsOk(files, root, items[..n], path, depth);
      assert forall i :: 0 <= i < n ==> items[..n][i] == items[i];
    }
  }

  lemma {:induction false} MembersOk(files: map<string, seq<Member>>, root: seq<Member>, ms: seq<Member>,
                                     path: seq<string>, depth: nat)
    ensures ExpandMembers(files, root, ms, path, depth).Ok?
      <==> forall i :: 0 <= i < |ms| && !IsDropped(ms[i].key) ==>
             Expand(files, root, ms[i].value, path + [ms[i].key], depth).Ok?
  {
    hide Expand;
    if ms != [] {
      var n := |ms| - 1;
      MembersOk(files, root, ms[..n], path, depth);
      assert forall i :: 0 <= i < n ==> ms[..n][i] == ms[i];
    }
  }

  ghost predicate Coverable(p: Place, schema: Json) {
    (SentinelAt(p.path).None? || schema.Bool?) && Supported(p.env, p.host, p.root, schema, p.path, p.mode, p.depth)
  }

  ghost predicate WillCompile(p: Place, schema: Json) { Compiles(p.env.files, p.root, schema, p.path, p.depth) }

  /** A covered node is compiled exactly under these conditions. */
  lemma {:induction false} CompilesExactly(p: Place, schema: Json)
    requires Coverable(p, schema)
    ensures p.Compiled(schema).Ok? <==> WillCompile(p, schema)
    decreases p.depth, schema, 5
  {
    hide Coverable, WillCompile, Expand, IsMapField;
    if !schema.Obj? {
      BoolCompiles(p, schema);
    } else if ReferenceOf(schema.members).Some? {
      ReferenceCompiles(p, schema.members);
    } else if IsMapField(p.path) {
      MapCompiles(p, schema.members);
    } else {
      NodeWillCompile(p, schema.members);
    }
  }

  lemma BoolCompiles(p: Place, schema: Json)
    requires Coverable(p, schema) && !schema.Obj?
    ensures p.Compiled(schema).Ok? && WillCompile(p, schema)
  {
  }

  lemma MapCompiles(p: Place, ms: seq<Member>)
    requires Coverable(p, Obj(ms)) && ReferenceOf(ms).None? && IsMapField(p.path)
    ensures p.Compiled(Obj(ms)).Ok? && WillCompile(p, Obj(ms))
  {
    SamePlaceholder(p.path);
    SameMapField(p.path);
    hide Supported, IsMapField, PlaceholderAt, ExpandMembers;
  }

  lemma {:induction false} ReferenceCompiles(p: Place, ms: seq<Member>)
    requires Coverable(p, Obj(ms)) && ReferenceOf(ms).Some?
    ensures p.Compiled(Obj(ms)).Ok? <==> WillCompile(p, Obj(ms))
    decreases p.depth, ms, 6
  {
    SamePlaceholder(p.path);
    ReferenceOk(p, ms);
    hide Resolve, Expand, Supported, PlaceholderAt, IsMapField, KeywordCompiles;
    if |ms| == 1 && p.depth > 0 && Resolve(p.env.files, p.root, ReferenceOf(ms).value).Some? {
      var t := Resolve(p.env.files, p.root, ReferenceOf(ms).value).value;
      CompilesExactly(p.(root := t.root, depth := p.depth - 1), t.schema);
    }
  }

  lemma {:induction false} NodeWillCompile(p: Place, ms: seq<Member>)
    requires Coverable(p, Obj(ms)) && ReferenceOf(ms).None? && !IsMapField(p.path)
    ensures p.Compiled(Obj(ms)).Ok? <==> WillCompile(p, Obj(ms))
    decreases p.depth, ms, 6
  {
    SamePlaceholder(p.path);
    SameMapField(p.path);
    assert NodeCovered(p, ms) by { hide KeywordSupported, StrictMapAt, PlaceholderAt; }
    hide Supported, Expand, PlaceholderAt, IsMapField, KeywordCompiles, NodeCovered, Coverable;
    NodeCompiles(p, ms);
  }

  lemma ReferenceOk(p: Place, ms: seq<Member>)
    requires Coverable(p, Obj(ms)) && ReferenceOf(ms).Some?
    ensures p.Compiled(Obj(ms)).Ok? ==>
      |ms| == 1 && p.depth > 0 && Resolve(p.env.files, p.root, ReferenceOf(ms).value).Some?
    ensures |ms| == 1 && p.depth > 0 && Resolve(p.env.files, p.root, ReferenceOf(ms).value).Some? ==>
      var t := Resolve(p.env.files, p.root, ReferenceOf(ms).value).value;
      var q := p.(root := t.root, depth := p.depth - 1);
      Coverable(q, t.schema) && p.Compiled(Obj(ms)) == q.Compiled(t.schema)
  {
    hide KeywordSupported, OpenMap, ExpandMembers, Resolve, SentinelAt, StrictMapAt, PropertySupported;
    assert p.Compiled(Obj(ms)) == ExpandReference(p.env.files, p.root, ms, p.path, p.depth);
  }

  ghost predicate NodeCovered(p: Place, ms: seq<Member>) {
    && UniqueKeys(ms) && ReferenceOf(ms).None? && StrictMapAt(p.path).None? && SentinelAt(p.path).None?
    && forall i :: 0 <= i < |ms| ==>
         KeywordSupported(p.env, p.host, p.root, ms, ms[i].key, ms[i].value, p.path, p.mode, p.depth)
  }

  ghost predicate MemberCompiles(p: Place, ms: seq<Member>, i: nat)
    requires i < |ms|
  {
    KeywordCompiles(p.env.files, p.root, ms, ms[i].key, ms[i].value, p.path, p.depth)
  }

  lemma {:induction false} NodeCompiles(p: Place, ms: seq<Member>)
    requires NodeCovered(p, ms)
    ensures p.Compiled(Obj(ms)).Ok? <==>
      && (IsObjectNode(ms) ==> HasKey(ms, "properties"))
      && forall i :: 0 <= i < |ms| ==> !IsUnsupported(ms[i].key) && MemberCompiles(p, ms, i)
    decreases p.depth, ms, 5
  {
    hide NodeCovered, Expand, MemberCompiles;
    NodeOk(p, ms);
    MembersOk(p.env.files, p.root, ms, p.path, p.depth);
    forall i | 0 <= i < |ms| && !IsUnsupported(ms[i].key)
      ensures MemberCompiles(p, ms, i) <==> IsDropped(ms[i].key) || p.Step(ms[i].key).Compiled(ms[i].value).Ok?
    {
      MemberOk(p, ms, i);
    }
  }

  /** A node without unsupported keywords whose members expand fails only as an object without
      properties. */
  lemma NodeOk(p: Place, ms: seq<Member>)
    requires NodeCovered(p, ms)
    ensures p.Compiled(Obj(ms)).Ok? <==>
      && !HasUnsupported(ms) && ExpandMembers(p.env.files, p.root, ms, p.path, p.depth).Ok?
      && (IsObjectNode(ms) ==> HasKey(ms, "properties"))
  {
    hide KeywordSupported, ExpandMembers, SentinelAt, StrictMapAt;
    if !HasUnsupported(ms) && ExpandMembers(p.env.files, p.root, ms, p.path, p.depth).Ok? {
      var es := ExpandMembers(p.env.files, p.root, ms, p.path, p.depth).value;
      ObjectKept(p, ms, es);
      PropertiesKept(p, ms, es);
      AddTypeFind(es, "properties");
    }
  }

  lemma ObjectKept(p: Place, ms: seq<Member>, es: seq<Member>)
    requires NodeCovered(p, ms) && ExpandMembers(p.env.files, p.root, ms, p.path, p.depth) == Ok(es)
    ensures IsObjectNode(AddType(es)) <==> IsObjectNode(ms)
  {
    hide ExpandMembers, AddType, SentinelAt, StrictMapAt, Supported, PropertySupported, ToldApart;
    forall key | key in {"type", "const", "enum"} && Find(ms, key).Some? ensures Flat(Find(ms, key).value) {
      var i := IndexOf(ms, key);
      assert KeywordSupported(p.env, p.host, p.root, ms, ms[i].key, ms[i].value, p.path, p.mode, p.depth);
    }
    ObjectNodeKept(p.env.files, p.root, ms, p.path, p.depth, es);
  }

  /** The expansion of a property map, where there is one, is an object. */
  lemma PropertiesKept(p: Place, ms: seq<Member>, es: seq<Member>)
    requires NodeCovered(p, ms) && ExpandMembers(p.env.files, p.root, ms, p.path, p.depth) == Ok(es)
    ensures HasKey(ms, "properties") <==> Find(es, "properties").Some?
    ensures Find(es, "properties").Some? ==> Find(es, "properties").value.Obj?
  {
    MembersExpanded(p.env.files, p.root, ms, p.path, p.depth);
    hide ExpandMembers, SentinelAt, StrictMapAt, Supported, PropertySupported, ToldApart;
    if HasKey(ms, "properties") {
      var i := IndexOf(ms, "properties");
      assert KeywordSupported(p.env, p.host, p.root, ms, ms[i].key, ms[i].value, p.path, p.mode, p.depth);
      MemberExpanded(p.env.files, p.root, ms, p.path, p.depth, i);
      SupportedMap(p, ms, i);
      SupportedExpansions(p, ms, i);
      hide Expand;
      PropertyMapExpanded(p.env.files, p.root, ms[i].value.members, p.path, p.depth);
    }
  }

  lemma {:induction false} MemberOk(p: Place, ms: seq<Member>, i: nat)
    requires NodeCovered(p, ms) && i < |ms| && !IsUnsupported(ms[i].key)
    ensures MemberCompiles(p, ms, i) <==> IsDropped(ms[i].key) || p.Step(ms[i].key).Compiled(ms[i].value).Ok?
    decreases p.depth, ms, 4
  {
    var key, arg := ms[i].key, ms[i].value;
    assert KeywordSupported(p.env, p.host, p.root, ms, key, arg, p.path, p.mode, p.depth);
    hide NodeCovered, Expand, ExpandMembers, Supported, PropertySupported, ToldApart, Compiles;
    if IsDropped(key) {
    } else if key == "anyOf" || key == "oneOf" {
      BranchesCompile(p, key, arg.items);
    } else if key == "items" || (key == "additionalProperties" && !IsObjectNode(ms)) {
      LastStep(p.path, key);
      CompilesExactly(p.Step(key).(mode := Plain), arg);
    } else if key == "properties" {
      SupportedMap(p, ms, i);
      PropertiesCompile(p, arg.members);
    } else if Flat(arg) {
      FlatUnchanged(p.env.files, p.root, arg, p.path + [key], p.depth);
    }
  }

  lemma {:induction false} BranchesCompile(p: Place, key: string, items: seq<Json>)
    requires key in {"anyOf", "oneOf"}
    requires forall j :: 0 <= j < |items| ==>
      Supported(p.env, p.host, p.root, items[j], Branch(p.path, key, j), p.mode, p.depth)
    ensures p.Step(key).Compiled(Arr(items)).Ok?
      <==> forall j :: 0 <= j < |items| ==> Compiles(p.env.files, p.root, items[j], Branch(p.path, key, j), p.depth)
    decreases p.depth, items, 6
  {
    ArrayOk(p.env.files, p.root, items, p.path + [key], p.depth);
    hide Expand, Supported, Compiles, JsonText.NatText;
    forall j | 0 <= j < |items|
      ensures Expand(p.env.files, p.root, items[j], p.path + [key] + [JsonText.NatText(j)], p.depth).Ok?
        <==> Compiles(p.env.files, p.root, items[j], Branch(p.path, key, j), p.depth)
    {
      DigitStep(j, p.path + [key]);
      CompilesExactly(p.Step(key).Step(JsonText.NatText(j)), items[j]);
    }
  }

  lemma ArrayOk(files: map<string, seq<Member>>, root: seq<Member>, items: seq<Json>, path: seq<string>, depth: nat)
    ensures Expand(files, root, Arr(items), path, depth).Ok?
      <==> forall i :: 0 <= i < |items| ==> Expand(files, root, items[i], path + [JsonText.NatText(i)], depth).Ok?
  {
    ItemsOk(files, root, items, path, depth);
    assert Expand(files, root, Arr(items), path, depth).Ok? <==> ExpandItems(files, root, items, path, depth).Ok?;
  }

  lemma {:induction false} PropertiesCompile(p: Place, ps: seq<Member>)
    requires PropertyMap(ps)
    requires forall k :: 0 <= k < |ps| ==>
      PropertySupported(p.env, p.host, p.root, ps[k].key, ps[k].value, p.path, p.mode, p.depth)
    ensures p.Step("properties").Compiled(Obj(ps)).Ok?
      <==> forall k :: 0 <= k < |ps| ==>
             Compiles(p.env.files, p.root, ps[k].value, p.path + ["properties"] + [ps[k].key], p.depth)
    decreases p.depth, ps, 6
  {
    MapOk(p, ps);
    hide Expand, Compiles, PropertySupported;
    forall k | 0 <= k < |ps|
      ensures p.Step("properties").Step(ps[k].key).Compiled(ps[k].value).Ok?
        <==> Compiles(p.env.files, p.root, ps[k].value, p.path + ["properties"] + [ps[k].key], p.depth)
    {
      PropertyCompiles(p, ps[k].key, ps[k].value);
    }
  }

  lemma {:induction false} PropertyCompiles(p: Place, name: string, schema: Json)
    requires PropertySupported(p.env, p.host, p.root, name, schema, p.path, p.mode, p.depth)
    ensures var q := p.Step("properties").Step(name);
      q.Compiled(schema).Ok? <==> WillCompile(q, schema)
    decreases p.depth, schema, 6
  {
    var q := p.Step("properties").Step(name).(mode := ChildMode(p.mode, name));
    SamePlaceholder(q.path);
    if schema.Bool? || SentinelAt(q.path).None? { CompilesExactly(q, schema); }
  }

  /** A property map is walked into an object where its schemas are walked into schemas. */
  lemma MapOk(p: Place, ps: seq<Member>)
    requires PropertyMap(ps)
    requires forall k :: 0 <= k < |ps| ==>
      PropertySupported(p.env, p.host, p.root, ps[k].key, ps[k].value, p.path, p.mode, p.depth)
    ensures p.Step("properties").Compiled(Obj(ps)).Ok?
      <==> forall k :: 0 <= k < |ps| ==> p.Step("properties").Step(ps[k].key).Compiled(ps[k].value).Ok?
  {
    var at := p.path + ["properties"];
    assert at[|at| - 1] == "properties";
    assert !HasUnsupported(ps) && ReferenceOf(ps) == None;
    MembersOk(p.env.files, p.root, ps, at, p.depth);
    assert forall k :: 0 <= k < |ps| ==> !IsDropped(ps[k].key);
    MapWalked(p.env.files, p.root, ps, at, p.depth);
    if ExpandMembers(p.env.files, p.root, ps, at, p.depth).Ok? {
      var es := ExpandMembers(p.env.files, p.root, ps, at, p.depth).value;
      hide Expand, ExpandMembers, PropertySupported, SentinelAt, StrictMapAt;
      MapSchemas(p, ps, es);
      SchemaMapFinish(es);
    }
  }

  lemma MapWalked(files: map<string, seq<Member>>, root: seq<Member>, ps: seq<Member>, at: seq<string>, depth: nat)
    requires SentinelAt(at).None? && StrictMapAt(at).None? && !HasUnsupported(ps) && ReferenceOf(ps).None?
    ensures var es := ExpandMembers(files, root, ps, at, depth);
      Expand(files, root, Obj(ps), at, depth) == if es.Err? then Err(es.error) else Finish(es.value)
  {
  }

  lemma MapSchemas(p: Place, ps: seq<Member>, es: seq<Member>)
    requires PropertyMap(ps) && ExpandMembers(p.env.files, p.root, ps, p.path + ["properties"], p.depth) == Ok(es)
    requires forall k :: 0 <= k < |ps| ==>
      PropertySupported(p.env, p.host, p.root, ps[k].key, ps[k].value, p.path, p.mode, p.depth)
    ensures ConstTyped(es) && forall k :: 0 <= k < |es| ==> IsSchema(es[k].value)
  {
    hide Expand, ExpandMembers, PropertySupported;
    UndroppedExpanded(p.env.files, p.root, ps, p.path + ["properties"], p.depth);
    UndroppedAll(ps);
    forall k | 0 <= k < |es| ensures IsSchema(es[k].value) {
      PropertyToSchema(p.env, p.host, p.root, ps[k].key, ps[k].value, p.path, p.mode, p.depth);
    }
    KeptKey(ps, es, "const");
    KeptKey(ps, es, "type");
  }

  // ---- references ----------------------------------------------------------------------------------

  /** A local reference is replaced by what the definitions of its own file say under that name, read
      in that file; it is refused where they say nothing. */
  lemma LocalInlined(files: map<string, seq<Member>>, root: seq<Member>, name: string, path: seq<string>, depth: nat)
    requires PlaceholderAt(path).None?
    ensures var r := Expand(files, root, Obj([Member("$ref", Str("#/$defs/" + name))]), path, depth);
      match Find(root, "$defs")
      case Some(Obj(defs)) =>
        (match Find(defs, name)
         case Some(schema) =>
           r == if depth == 0 then Err(RecursionLimit) else Expand(files, root, schema, path, depth - 1)
         case None => r == Err(UnknownReference))
      case _ => r == Err(UnknownReference)
  {
    var reference := "#/$defs/" + name;
    assert reference[|DEFS_PREFIX|..] == name && reference[..|DEFS_PREFIX|] == DEFS_PREFIX;
    SamePlaceholder(path);
  }

  /** Any other reference is replaced by the whole schema file of that name, read in itself. */
  lemma FileInlined(files: map<string, seq<Member>>, root: seq<Member>, file: string, path: seq<string>, depth: nat)
    requires PlaceholderAt(path).None? && !StartsWith(file, "#/$defs/")
    ensures Expand(files, root, Obj([Member("$ref", Str(file))]), path, depth)
      == if file !in files then Err(UnknownReference)
         else if depth == 0 then Err(RecursionLimit)
         else Expand(files, files[file], Obj(files[file]), path, depth - 1)
  {
    SamePlaceholder(path);
  }

  // ---- the schema handed to the model -------------------------------------------------------------

  /** The root, references followed, is a typed object without `anyOf`. */
  ghost predicate RootFits(files: map<string, seq<Member>>, root: seq<Member>, ms: seq<Member>, depth: nat)
    decreases depth
  {
    if ReferenceOf(ms).Some? then
      match Resolve(files, root, ReferenceOf(ms).value)
      case Some(Target(r, Obj(ts))) => depth > 0 && RootFits(files, r, ts, depth - 1)
      case _ => false
    else IsObjectNode(ms) && !HasKey(ms, "anyOf")
  }

  lemma RootNode(p: Place, ms: seq<Member>)
    requires Coverable(p, Obj(ms)) && ReferenceOf(ms).None? && p.path == [] && p.Compiled(Obj(ms)).Ok?
    ensures var w := p.Compiled(Obj(ms)).value;
      w.Obj? && (IsObjectNode(w.members) <==> IsObjectNode(ms)) && (HasKey(w.members, "anyOf") <==> HasKey(ms, "anyOf"))
  {
    assert NodeCovered(p, ms);
    NodeOk(p, ms);
    var es := ExpandMembers(p.env.files, p.root, ms, p.path, p.depth).value;
    ObjectKept(p, ms, es);
    MembersExpanded(p.env.files, p.root, ms, p.path, p.depth);
    CloseFind(AddType(es), "type");
    CloseFind(AddType(es), "anyOf");
    AddTypeFind(es, "anyOf");
    if HasKey(ms, "anyOf") { MemberExpanded(p.env.files, p.root, ms, p.path, p.depth, IndexOf(ms, "anyOf")); }
    hide Expand, ExpandMembers, NodeCovered, KeywordSupported;
    assert p.Compiled(Obj(ms)) == Finish(es) by { RootFinished(p, ms); }
  }

  lemma RootFinished(p: Place, ms: seq<Member>)
    requires NodeCovered(p, ms) && p.Compiled(Obj(ms)).Ok?
    ensures ExpandMembers(p.env.files, p.root, ms, p.path, p.depth).Ok?
    ensures p.Compiled(Obj(ms)) == Finish(ExpandMembers(p.env.files, p.root, ms, p.path, p.depth).value)
  {
    hide KeywordSupported, ExpandMembers;
  }

  lemma {:induction false} RootExactly(p: Place, ms: seq<Member>)
    requires Coverable(p, Obj(ms)) && p.path == [] && p.Compiled(Obj(ms)).Ok?
    ensures var w := p.Compiled(Obj(ms)).value;
      (w.Obj? && IsObjectNode(w.members) && !HasKey(w.members, "anyOf"))
      <==> RootFits(p.env.files, p.root, ms, p.depth)
    decreases p.depth
  {
    if ReferenceOf(ms).Some? {
      ReferenceOk(p, ms);
      var t := Resolve(p.env.files, p.root, ReferenceOf(ms).value).value;
      hide Resolve, Expand, Supported;
      if t.schema.Obj? {
        RootExactly(p.(root := t.root, depth := p.depth - 1), t.schema.members);
      } else {
        NotObject(p.(root := t.root, depth := p.depth - 1), t.schema);
      }
    } else {
      RootNode(p, ms);
    }
  }

  lemma NotObject(p: Place, schema: Json)
    requires Coverable(p, schema) && !schema.Obj?
    ensures p.Compiled(schema) == Ok(schema) && schema.Bool?
  {
  }

  /** A schema is handed to the model exactly for an approved name, where the walk ends with a
      schema and the root is a typed object without `anyOf`; it then accepts exactly the documents
      the authoritative schema, read strictly, asks for. */
  lemma StructuredOutputExactly(env: Env, host: HostValues, approved: set<string>, name: string, mode: Mode, depth: nat,
                                doc: Json, scope: seq<Member>, d: nat)
    requires name in env.files ==> Supported(env, host, env.files[name], Obj(env.files[name]), [], mode, depth)
    ensures var r := StructuredOutputSchema(env.files, approved, name, depth);
      && (r.Ok? <==>
            && name in approved && name in env.files
            && Compiles(env.files, env.files[name], Obj(env.files[name]), [], depth)
            && RootFits(env.files, env.files[name], env.files[name], depth))
      && (r.Ok? ==>
            (Accepts(env, scope, r.value, doc, d)
             <==> Demands(env, env.files[name], Obj(env.files[name]), doc, [], depth)))
  {
    hide Expand, Supported, Accepts, Demands, Compiles, RootFits;
    if name in approved && name in env.files {
      var root := env.files[name];
      var p := Place(env, host, root, [], mode, depth, scope, d);
      CompilesExactly(p, Obj(root));
      if p.Compiled(Obj(root)).Ok? {
        RootExactly(p, root);
        CompiledExactly(p, Obj(root), doc);
      }
    }
  }
}
