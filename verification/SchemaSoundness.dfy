/** Main result on the schema compiler: compilation only narrows. */
module SchemaSoundness {
  import opened Text
  import opened Json
  import opened SchemaMeaning
  import opened SchemaCompiler
  import opened SchemaRefinement
  import JsonText

  // ---- reading acceptance keyword by keyword --------------------------

  lemma AcceptsKeyword(env: Env, root: seq<Member>, node: seq<Member>, key: string, doc: Json, depth: nat)
    requires Accepts(env, root, Obj(node), doc, depth) && Find(node, key).Some?
    ensures Holds(env, root, node, key, Find(node, key).value, doc, depth)
  {
    var i := IndexOf(node, key);
    assert Holds(env, root, node, node[i].key, node[i].value, doc, depth);
  }

  lemma SentinelForces(env: Env, root: seq<Member>, sentinel: string, doc: Json, depth: nat)
    requires Accepts(env, root, SentinelSchema(sentinel), doc, depth)
    ensures doc == Str(sentinel)
  {
    var node := SentinelSchema(sentinel).members;
    assert node[1] == Member("const", Str(sentinel));
    FindAt(node, 1);
    AcceptsKeyword(env, root, node, "const", doc, depth);
  }

  /** What a lone reference accepts is what its target accepts. */
  lemma ReferenceAccepts(env: Env, root: seq<Member>, ms: seq<Member>, t: Target, doc: Json, depth: nat)
    requires ReferenceOf(ms).Some? && |ms| == 1 && Resolve(env.files, root, ReferenceOf(ms).value) == Some(t)
    requires depth > 0 && Accepts(env, t.root, t.schema, doc, depth - 1)
    ensures Accepts(env, root, Obj(ms), doc, depth)
  {
    hide Resolve, FlatHolds;
    assert ms[0].key == "$ref" && ms[0].value == Str(ReferenceOf(ms).value);
    assert RefHolds(env, root, ms[0].value, doc, depth);
  }

  lemma AnnotationsAccept(env: Env, root: seq<Member>, ms: seq<Member>, doc: Json, depth: nat)
    requires forall i :: 0 <= i < |ms| ==> IsAnnotation(ms[i].key)
    ensures Accepts(env, root, Obj(ms), doc, depth)
  {
    forall i | 0 <= i < |ms| ensures Holds(env, root, ms, ms[i].key, ms[i].value, doc, depth) {
      assert IsAnnotation(ms[i].key);
    }
  }

  lemma {:induction false} OpensAccepts(env: Env, root: seq<Member>, schema: Json, doc: Json, depth: nat)
    requires Opens(env, root, schema, depth)
    ensures Accepts(env, root, schema, doc, depth)
    decreases depth
  {
    if schema.Obj? {
      hide Accepts, Resolve;
      var ms := schema.members;
      if ReferenceOf(ms).Some? && |ms| == 1 {
        var t := Resolve(env.files, root, ReferenceOf(ms).value).value;
        OpensAccepts(env, t.root, t.schema, doc, depth - 1);
        ReferenceAccepts(env, root, ms, t, doc, depth);
      } else {
        AnnotationsAccept(env, root, ms, doc, depth);
      }
    }
  }

  lemma FlatNotObject(v: Json, doc: Json)
    requires Flat(v) && doc.Obj?
    ensures !SameJson(v, doc)
  {
  }

  /** Filling in the host's fields changes no keyword without a subschema. */
  lemma FlatStable(env: Env, host: HostValues, mode: Mode, key: string, arg: Json, doc: Json)
    requires Flat(arg) && key != "uniqueItems" && FlatHolds(env, key, arg, doc)
    ensures FlatHolds(env, key, arg, Fill(host, mode, doc))
  {
    FillShape(host, mode, doc);
    if doc.Obj? {
      if key == "const" {
        FlatNotObject(arg, doc);
      } else if key == "enum" && arg.Arr? {
        forall i | 0 <= i < |arg.items| ensures !SameJson(arg.items[i], doc) { FlatNotObject(arg.items[i], doc); }
      } else if key == "required" && arg.Arr? {
        SameKeys(doc.members, Fill(host, mode, doc).members);
      }
    }
  }

  lemma SameKeys(ms: seq<Member>, ns: seq<Member>)
    requires Keys(ms) == Keys(ns)
    ensures |ms| == |ns| && forall i :: 0 <= i < |ms| ==> ms[i].key == ns[i].key
    ensures forall k :: HasKey(ms, k) <==> HasKey(ns, k)
  {
    assert |Keys(ms)| == |ms| && |Keys(ns)| == |ns|;
    forall i | 0 <= i < |ms| ensures ms[i].key == ns[i].key {
      assert Keys(ms)[i] == Keys(ns)[i];
    }
    forall k ensures HasKey(ms, k) <==> HasKey(ns, k) {
      if HasKey(ms, k) { var i :| 0 <= i < |ms| && ms[i].key == k; assert ns[i].key == k; }
      if HasKey(ns, k) { var i :| 0 <= i < |ns| && ns[i].key == k; assert ms[i].key == k; }
    }
  }

  // ---- the narrowed maps ------------------------------------------------

  lemma StrictMapIsObject(env: Env, root: seq<Member>, field: string, doc: Json, depth: nat)
    requires StrictMap(field).Some? && Accepts(env, root, StrictMap(field).value, doc, depth)
    ensures doc.Obj?
  {
    var node := StrictMap(field).value.members;
    assert node[0] == Member("type", Str("object"));
    assert Holds(env, root, node, node[0].key, node[0].value, doc, depth);
  }

  lemma OpenMapAccepts(env: Env, root: seq<Member>, ms: seq<Member>, doc: Json, depth: nat)
    requires OpenMap(env, root, ms, depth) && doc.Obj?
    ensures Accepts(env, root, Obj(ms), doc, depth)
  {
    forall i | 0 <= i < |ms| ensures Holds(env, root, ms, ms[i].key, ms[i].value, doc, depth) {
      OpenMapMember(env, root, ms, i, doc, depth);
    }
  }

  lemma OpenMapMember(env: Env, root: seq<Member>, ms: seq<Member>, i: nat, doc: Json, depth: nat)
    requires OpenMap(env, root, ms, depth) && doc.Obj? && i < |ms|
    ensures Holds(env, root, ms, ms[i].key, ms[i].value, doc, depth)
  {
    if IsAnnotation(ms[i].key) {
      assert FlatHolds(env, ms[i].key, ms[i].value, doc);
    } else if ms[i].key == "additionalProperties" {
      forall j | 0 <= j < |doc.members| ensures Accepts(env, root, ms[i].value, doc.members[j].value, depth) {
        OpensAccepts(env, root, ms[i].value, doc.members[j].value, depth);
      }
    }
  }

  // ---- the induction ------------------------------------------------------

  /** Where in the authoritative schema the walk stands, and the scope in which
      the compiled schema, which has no references left, is read. */
  datatype Place = Place(env: Env, host: HostValues, root: seq<Member>, path: seq<string>, mode: Mode, depth: nat,
                         compiledRoot: seq<Member>, compiledDepth: nat) {

    function Compiled(schema: Json): Result<Json> { Expand(env.files, root, schema, path, depth) }

    function Step(key: string): Place { this.(path := path + [key]) }

    predicate Authoritative(schema: Json, doc: Json) { Accepts(env, root, schema, doc, depth) }

    predicate CompiledAccepts(schema: Json, doc: Json) { Accepts(env, compiledRoot, schema, doc, compiledDepth) }

    function Filled(doc: Json): Json { Fill(host, mode, doc) }

    predicate ArraysOk(doc: Json) { env.unique ==> ArraysDistinct(Filled(doc)) }
  }

  ghost predicate Premise(p: Place, schema: Json, doc: Json) {
    && (SentinelAt(p.path).None? || schema.Bool?)
    && Supported(p.env, p.host, p.root, schema, p.path, p.mode, p.depth)
    && p.ArraysOk(doc)
    && p.Compiled(schema).Ok?
    && p.CompiledAccepts(p.Compiled(schema).value, doc)
  }

  /** Whatever the compiled schema accepts, the authoritative schema accepts once filled in. */
  lemma {:induction false} CompilationNarrows(p: Place, schema: Json, doc: Json)
    requires Premise(p, schema, doc)
    ensures p.Authoritative(schema, p.Filled(doc))
    decreases p.depth, schema, 5
  {
    if schema.Obj? {
      var ms := schema.members;
      if ReferenceOf(ms).Some? {
        ReferenceNarrows(p, ms, doc);
      } else if StrictMapAt(p.path).Some? {
        StrictMapIsObject(p.env, p.compiledRoot, p.path[|p.path| - 1], doc, p.compiledDepth);
        OpenMapAccepts(p.env, p.root, ms, doc, p.depth);
      } else {
        NodeNarrows(p, ms, doc);
      }
    }
  }

  /** A followed reference hands the premise on to its target. */
  lemma ReferencePremise(p: Place, ms: seq<Member>, doc: Json)
    requires Premise(p, Obj(ms), doc) && ReferenceOf(ms).Some?
    ensures |ms| == 1 && p.depth > 0 && Resolve(p.env.files, p.root, ReferenceOf(ms).value).Some?
    ensures var t := Resolve(p.env.files, p.root, ReferenceOf(ms).value).value;
      Premise(p.(root := t.root, depth := p.depth - 1), t.schema, doc)
  {
    hide Accepts, KeywordSupported, OpenMap, Fill, ArraysDistinct, ExpandMembers;
    assert p.Compiled(Obj(ms)) == ExpandReference(p.env.files, p.root, ms, p.path, p.depth);
  }

  lemma {:induction false} ReferenceNarrows(p: Place, ms: seq<Member>, doc: Json)
    requires Premise(p, Obj(ms), doc) && ReferenceOf(ms).Some?
    ensures p.Authoritative(Obj(ms), p.Filled(doc))
    decreases p.depth, ms, 4
  {
    hide Premise, Accepts, Resolve, Fill;
    ReferencePremise(p, ms, doc);
    var t := Resolve(p.env.files, p.root, ReferenceOf(ms).value).value;
    CompilationNarrows(p.(root := t.root, depth := p.depth - 1), t.schema, doc);
    ReferenceAccepts(p.env, p.root, ms, t, p.Filled(doc), p.depth);
  }

  /** A covered generic node with expanded members `es` and result `w`. */
  ghost predicate NodeShape(p: Place, ms: seq<Member>, es: seq<Member>, w: seq<Member>) {
    && NodeExpanded(p.env.files, p.root, ms, p.path, p.depth, es, w)
    && forall i :: 0 <= i < |ms| ==>
         KeywordSupported(p.env, p.host, p.root, ms, ms[i].key, ms[i].value, p.path, p.mode, p.depth)
  }

  /** Such a node whose result accepts `doc`. */
  ghost predicate NodePremise(p: Place, ms: seq<Member>, doc: Json, es: seq<Member>, w: seq<Member>) {
    NodeShape(p, ms, es, w) && p.ArraysOk(doc) && p.CompiledAccepts(Obj(w), doc)
  }

  predicate KeywordHolds(p: Place, ms: seq<Member>, i: nat, doc: Json)
    requires i < |ms|
  {
    Holds(p.env, p.root, ms, ms[i].key, ms[i].value, doc, p.depth)
  }

  lemma {:induction false} NodeNarrows(p: Place, ms: seq<Member>, doc: Json)
    requires Premise(p, Obj(ms), doc) && ReferenceOf(ms).None? && StrictMapAt(p.path).None?
    ensures p.Authoritative(Obj(ms), p.Filled(doc))
    decreases p.depth, ms, 5
  {
    var es := ExpandMembers(p.env.files, p.root, ms, p.path, p.depth).value;
    CloseFind(AddType(es), "type");
    var w := Finish(es).value.members;
    forall i | 0 <= i < |ms| ensures Holds(p.env, p.root, ms, ms[i].key, ms[i].value, p.Filled(doc), p.depth) {
      KeywordNarrows(p, ms, doc, es, w, i);
    }
  }

  lemma NodeClosed(p: Place, ms: seq<Member>, es: seq<Member>, w: seq<Member>)
    requires NodeShape(p, ms, es, w)
    ensures IsObjectNode(AddType(es)) <==> IsObjectNode(ms)
  {
    hide Expand, ExpandMembers, AddType, Finish, Resolve, Fill, Supported, Accepts;
    forall key | key in {"type", "const", "enum"} && Find(ms, key).Some? ensures Flat(Find(ms, key).value) {
      var i := IndexOf(ms, key);
      assert KeywordSupported(p.env, p.host, p.root, ms, ms[i].key, ms[i].value, p.path, p.mode, p.depth);
    }
    ObjectNodeKept(p.env.files, p.root, ms, p.path, p.depth, es);
  }

  /** The keywords that hold a subschema, or whose meaning compilation changes. */
  predicate IsStructural(key: string) {
    key in {"$ref", "anyOf", "allOf", "oneOf", "not", "items", "properties", "additionalProperties", "uniqueItems"}
  }

  lemma FlatNarrows(p: Place, ms: seq<Member>, doc: Json, w: seq<Member>, i: nat)
    requires i < |ms| && !IsStructural(ms[i].key) && Flat(ms[i].value)
    requires Holds(p.env, p.compiledRoot, w, ms[i].key, ms[i].value, doc, p.compiledDepth)
    ensures KeywordHolds(p, ms, i, p.Filled(doc))
  {
    hide Accepts, FlatHolds, Fill, Flat;
    FlatStable(p.env, p.host, p.mode, ms[i].key, ms[i].value, doc);
  }

  lemma {:induction false} KeywordNarrows(p: Place, ms: seq<Member>, doc: Json, es: seq<Member>, w: seq<Member>, i: nat)
    requires NodePremise(p, ms, doc, es, w) && i < |ms|
    ensures KeywordHolds(p, ms, i, p.Filled(doc))
    decreases p.depth, ms, 4
  {
    hide Expand, ExpandMembers, AddType, Finish, Resolve, Fill, Supported, ToldApart, PropertySupported;
    var key, arg := ms[i].key, ms[i].value;
    assert KeywordSupported(p.env, p.host, p.root, ms, key, arg, p.path, p.mode, p.depth);
    NodeClosed(p, ms, es, w);
    if key == "uniqueItems" {
      FillShape(p.host, p.mode, doc);
    } else if IsAnnotation(key) {
      assert FlatHolds(p.env, key, arg, p.Filled(doc));
    } else if IsObjectNode(ms) && key == "additionalProperties" {
      ClosedNarrows(p, ms, doc, es, w, i);
    } else if IsObjectNode(ms) && key == "required" {
      RequiredNarrows(p, ms, doc, es, w, i);
    } else {
      NodeFind(p.env.files, p.root, ms, p.path, p.depth, es, w, i);
      AcceptsKeyword(p.env, p.compiledRoot, w, key, doc, p.compiledDepth);
      SurvivorNarrows(p, ms, doc, es, w, i);
    }
  }

  /** A keyword that survives with its own expansion. */
  lemma {:induction false} SurvivorNarrows(p: Place, ms: seq<Member>, doc: Json, es: seq<Member>, w: seq<Member>,
                                           i: nat)
    requires NodePremise(p, ms, doc, es, w) && KeywordPremise(p, ms, doc, w, i)
    requires ms[i].key != "uniqueItems" && !IsAnnotation(ms[i].key)
    requires IsObjectNode(ms) ==> ms[i].key != "additionalProperties" && ms[i].key != "required"
    ensures KeywordHolds(p, ms, i, p.Filled(doc))
    decreases p.depth, ms, 3
  {
    hide Expand, ExpandMembers, AddType, Finish, Resolve, Fill, Supported, ToldApart, PropertySupported, FlatHolds;
    var key := ms[i].key;
    if key == "properties" {
      PropertiesNarrow(p, ms, doc, w, i);
    } else if key == "items" {
      ItemsNarrow(p, ms, doc, w, i);
    } else if key == "anyOf" {
      AnyOfNarrows(p, ms, doc, w, i);
    } else if key == "oneOf" {
      OneOfNarrows(p, ms, doc, w, i);
    } else if key == "additionalProperties" {
      AdditionalNarrows(p, ms, doc, es, w, i);
    } else {
      FlatUnchanged(p.env.files, p.root, ms[i].value, p.path + [key], p.depth);
      FlatNarrows(p, ms, doc, w, i);
    }
  }

  /** Keyword `i` of the node survives with its own expansion, and holds of `doc`. */
  ghost predicate KeywordPremise(p: Place, ms: seq<Member>, doc: Json, w: seq<Member>, i: nat) {
    && i < |ms|
    && KeywordSupported(p.env, p.host, p.root, ms, ms[i].key, ms[i].value, p.path, p.mode, p.depth)
    && p.ArraysOk(doc)
    && (var e := Find(w, ms[i].key);
        && e.Some? && p.Step(ms[i].key).Compiled(ms[i].value) == Ok(e.value)
        && Holds(p.env, p.compiledRoot, w, ms[i].key, e.value, doc, p.compiledDepth))
  }

  lemma ItemsArrays(p: Place, doc: Json, i: nat)
    requires p.ArraysOk(doc) && doc.Arr? && i < |doc.items|
    ensures p.env.unique ==> ArraysDistinct(doc.items[i])
  {
  }

  lemma {:induction false} ItemsNarrow(p: Place, ms: seq<Member>, doc: Json, w: seq<Member>, i: nat)
    requires KeywordPremise(p, ms, doc, w, i) && ms[i].key == "items"
    ensures KeywordHolds(p, ms, i, p.Filled(doc))
    decreases p.depth, ms, 2
  {
    var e := Find(w, "items").value;
    FillShape(p.host, p.mode, doc);
    if doc.Arr? {
      forall j | 0 <= j < |doc.items| ensures p.Authoritative(ms[i].value, doc.items[j]) {
        ItemsArrays(p, doc, j);
        assert Accepts(p.env, p.compiledRoot, e, doc.items[j], p.compiledDepth);
        CompilationNarrows(p.Step("items").(mode := Plain), ms[i].value, doc.items[j]);
      }
    }
  }

  lemma DigitStep(n: nat, path: seq<string>)
    ensures SentinelAt(path + [JsonText.NatText(n)]) == None
  {
    var t := JsonText.NatText(n);
    assert JsonText.IsDigit(t[0]);
    assert (path + [t])[|path|] == t;
  }

  lemma {:induction false} AnyOfNarrows(p: Place, ms: seq<Member>, doc: Json, w: seq<Member>, i: nat)
    requires KeywordPremise(p, ms, doc, w, i) && ms[i].key == "anyOf"
    ensures KeywordHolds(p, ms, i, p.Filled(doc))
    decreases p.depth, ms, 2
  {
    var items := ms[i].value.items;
    var es := Find(w, "anyOf").value.items;
    assert exists j :: 0 <= j < |es| && Accepts(p.env, p.compiledRoot, es[j], doc, p.compiledDepth);
    hide Accepts, Expand, Fill;
    var j :| 0 <= j < |es| && Accepts(p.env, p.compiledRoot, es[j], doc, p.compiledDepth);
    ItemExpanded(p.env.files, p.root, items, p.path + ["anyOf"], p.depth, j);
    DigitStep(j, p.path + ["anyOf"]);
    assert Supported(p.env, p.host, p.root, items[j], p.path + ["anyOf"] + [JsonText.NatText(j)], p.mode, p.depth);
    CompilationNarrows(p.Step("anyOf").Step(JsonText.NatText(j)), items[j], doc);
  }

  /** Branch `j` of a compiled `oneOf` accepts `doc`, and no other branch does. */
  ghost predicate OneOfPremise(p: Place, items: seq<Json>, es: seq<Json>, doc: Json, j: nat) {
    && p.ArraysOk(doc) && j < |items|
    && ExpandItems(p.env.files, p.root, items, p.path + ["oneOf"], p.depth) == Ok(es)
    && Supported(p.env, p.host, p.root, items[j], p.path + ["oneOf"] + [JsonText.NatText(j)], p.mode, p.depth)
    && Sole(p.env, p.compiledRoot, es, j, doc, p.compiledDepth)
  }

  lemma {:induction false} OneOfAccepted(p: Place, items: seq<Json>, es: seq<Json>, doc: Json, j: nat)
    requires OneOfPremise(p, items, es, doc, j)
    ensures p.Authoritative(items[j], p.Filled(doc))
    decreases p.depth, items, 6
  {
    hide Expand, Accepts, Supported, Fill;
    ItemExpanded(p.env.files, p.root, items, p.path + ["oneOf"], p.depth, j);
    DigitStep(j, p.path + ["oneOf"]);
    CompilationNarrows(p.Step("oneOf").Step(JsonText.NatText(j)), items[j], doc);
  }

  /** Where the compiled `oneOf` accepts by branch `j`, the authoritative one does exactly when
      no other authoritative branch accepts the filled document. */
  lemma {:induction false} OneOfExactly(p: Place, items: seq<Json>, es: seq<Json>, doc: Json, j: nat)
    requires OneOfPremise(p, items, es, doc, j)
    ensures ExactlyOne(p.env, p.root, items, p.Filled(doc), p.depth)
            <==> forall k :: 0 <= k < |items| && k != j ==> !p.Authoritative(items[k], p.Filled(doc))
    decreases p.depth, items, 7
  {
    hide Expand, Accepts, Supported, Fill;
    OneOfAccepted(p, items, es, doc, j);
    if forall k :: 0 <= k < |items| && k != j ==> !p.Authoritative(items[k], p.Filled(doc)) {
      assert Sole(p.env, p.root, items, j, p.Filled(doc), p.depth);
    }
  }

  lemma TagPresent(env: Env, root: seq<Member>, ms: seq<Member>, tag: string, names: seq<Json>, doc: Json, depth: nat)
    requires Accepts(env, root, Obj(ms), doc, depth) && IsObjectNode(ms)
    requires Find(ms, "required") == Some(Arr(names)) && Str(tag) in names
    ensures doc.Obj? && HasKey(doc.members, tag)
  {
    AcceptsKeyword(env, root, ms, "type", doc, depth);
    AcceptsKeyword(env, root, ms, "required", doc, depth);
    hide Accepts;
    var n :| 0 <= n < |names| && names[n] == Str(tag);
  }

  lemma TagValue(env: Env, root: seq<Member>, ms: seq<Member>, ps: seq<Member>, node: seq<Member>, tag: string,
                 value: string, doc: Json, depth: nat, j: nat)
    requires Accepts(env, root, Obj(ms), doc, depth) && doc.Obj? && j < |doc.members| && doc.members[j].key == tag
    requires Find(ms, "properties") == Some(Obj(ps)) && Find(ps, tag) == Some(Obj(node))
    requires Find(node, "const") == Some(Str(value))
    ensures doc.members[j].value == Str(value)
  {
    AcceptsKeyword(env, root, ms, "properties", doc, depth);
    var k := IndexOf(ps, tag);
    assert Accepts(env, root, ps[k].value, doc.members[j].value, depth);
    hide Accepts;
    AcceptsKeyword(env, root, node, "const", doc.members[j].value, depth);
  }

  lemma TagHeld(env: Env, root: seq<Member>, branch: Json, tag: string, value: string, doc: Json, depth: nat)
    requires Tagged(branch, tag, value) && Accepts(env, root, branch, doc, depth)
    ensures doc.Obj? && HasKey(doc.members, tag)
    ensures forall j :: 0 <= j < |doc.members| && doc.members[j].key == tag ==> doc.members[j].value == Str(value)
  {
    hide Accepts, Find;
    var ms := branch.members;
    var ps := Find(ms, "properties").value.members;
    TagPresent(env, root, ms, tag, Find(ms, "required").value.items, doc, depth);
    forall j | 0 <= j < |doc.members| && doc.members[j].key == tag ensures doc.members[j].value == Str(value) {
      TagValue(env, root, ms, ps, Find(ps, tag).value.members, tag, value, doc, depth, j);
    }
  }

  /** No document is of two branches that are told apart by a property. */
  lemma ToldApartOnce(env: Env, root: seq<Member>, branches: seq<Json>, doc: Json, depth: nat, i: nat, j: nat)
    requires ToldApart(branches) && i < |branches| && j < |branches|
    requires Accepts(env, root, branches[i], doc, depth) && Accepts(env, root, branches[j], doc, depth)
    ensures i == j
  {
    hide Accepts, Tagged;
    var tag, values :| TaggedBy(branches, tag, values);
    TagHeld(env, root, branches[i], tag, values[i], doc, depth);
    TagHeld(env, root, branches[j], tag, values[j], doc, depth);
    var k :| 0 <= k < |doc.members| && doc.members[k].key == tag;
    assert Str(values[i]) == doc.members[k].value == Str(values[j]);
  }

  lemma {:induction false} OneOfNarrows(p: Place, ms: seq<Member>, doc: Json, w: seq<Member>, i: nat)
    requires KeywordPremise(p, ms, doc, w, i) && ms[i].key == "oneOf"
    ensures KeywordHolds(p, ms, i, p.Filled(doc))
    decreases p.depth, ms, 2
  {
    var items := ms[i].value.items;
    var es := Find(w, "oneOf").value.items;
    assert ExactlyOne(p.env, p.compiledRoot, es, doc, p.compiledDepth);
    hide Accepts, Supported, Fill, ToldApart;
    var j :| 0 <= j < |es| && Sole(p.env, p.compiledRoot, es, j, doc, p.compiledDepth);
    OneOfExactly(p, items, es, doc, j);
    forall k | 0 <= k < |items| && k != j ensures !p.Authoritative(items[k], p.Filled(doc)) {
      if p.Authoritative(items[k], p.Filled(doc)) {
        OneOfAccepted(p, items, es, doc, j);
        ToldApartOnce(p.env, p.root, items, p.Filled(doc), p.depth, j, k);
      }
    }
  }

  // ---- properties ----------------------------------------------------------

  /** A placeholder the compiled schema insists on ends accepted exactly when its final value is:
      the host's, or itself where the host fills in nothing. */
  lemma PlaceholderExactly(p: Place, name: string, schema: Json, value: Json)
    requires schema.Obj? && SentinelAt(p.path + ["properties"] + [name]).Some?
    requires var q := p.Step("properties").Step(name);
      p.CompiledAccepts(q.Compiled(schema).value, value)
    ensures var sentinel := SentinelAt(p.path + ["properties"] + [name]).value;
      p.Authoritative(schema, FillField(p.host, p.mode, name, value))
      <==> p.Authoritative(schema, Str(Planted(p.host, p.mode, name, sentinel)))
  {
    hide Accepts;
    var q := p.Step("properties").Step(name);
    assert q.path[|q.path| - 1] == name;
    SentinelForces(p.env, p.compiledRoot, SentinelAt(q.path).value, value, p.compiledDepth);
  }

  /** One property: a placeholder ends as its final value, another value is filled in below. */
  lemma {:induction false} PropertyNarrows(p: Place, name: string, schema: Json, value: Json)
    requires PropertySupported(p.env, p.host, p.root, name, schema, p.path, p.mode, p.depth)
    requires p.env.unique ==> ArraysDistinct(FillField(p.host, p.mode, name, value))
    requires var q := p.Step("properties").Step(name);
      q.Compiled(schema).Ok? && p.CompiledAccepts(q.Compiled(schema).value, value)
    ensures p.Authoritative(schema, FillField(p.host, p.mode, name, value))
    decreases p.depth, schema, 6
  {
    var q := p.Step("properties").Step(name).(mode := ChildMode(p.mode, name));
    assert q.path[|q.path| - 1] == name;
    if schema.Obj? && SentinelAt(q.path).Some? {
      PlaceholderExactly(p, name, schema, value);
    } else if schema.Obj? {
      CompilationNarrows(q, schema, value);
    }
  }

  lemma {:induction false} PropertiesNarrow(p: Place, ms: seq<Member>, doc: Json, w: seq<Member>, i: nat)
    requires KeywordPremise(p, ms, doc, w, i) && ms[i].key == "properties"
    ensures KeywordHolds(p, ms, i, p.Filled(doc))
    decreases p.depth, ms, 2
  {
    var ps := ms[i].value.members;
    SupportedMap(p, ms, i);
    assert p.Step("properties").Compiled(Obj(ps))
            == Expand(p.env.files, p.root, Obj(ps), p.path + ["properties"], p.depth);
    SupportedExpansions(p, ms, i);
    PropertyMapExpanded(p.env.files, p.root, ps, p.path, p.depth);
    var qs := Find(w, "properties").value.members;
    if doc.Obj? {
      FillShape(p.host, p.mode, doc);
      var filled := p.Filled(doc).members;
      SameKeys(doc.members, filled);
      forall k, j | 0 <= k < |ps| && 0 <= j < |filled| && ps[k].key == filled[j].key
        ensures p.Authoritative(ps[k].value, filled[j].value)
      {
        MemberArrays(p, doc, j);
        assert Accepts(p.env, p.compiledRoot, qs[k].value, doc.members[j].value, p.compiledDepth);
        PropertyOrder(ms, i, k);
        PropertyNarrows(p, ps[k].key, ps[k].value, doc.members[j].value);
      }
    } else {
      FillShape(p.host, p.mode, doc);
    }
  }

  lemma SupportedMap(p: Place, ms: seq<Member>, i: nat)
    requires i < |ms| && ms[i].key == "properties"
    requires KeywordSupported(p.env, p.host, p.root, ms, ms[i].key, ms[i].value, p.path, p.mode, p.depth)
    ensures ms[i].value.Obj? && PropertyMap(ms[i].value.members)
  {
    var ps := ms[i].value.members;
    forall k | 0 <= k < |ps| ensures !IsReserved(ps[k].key) && IsSchema(ps[k].value) {
      assert PropertySupported(p.env, p.host, p.root, ps[k].key, ps[k].value, p.path, p.mode, p.depth);
    }
  }

  lemma SupportedExpansions(p: Place, ms: seq<Member>, i: nat)
    requires i < |ms| && ms[i].key == "properties"
    requires KeywordSupported(p.env, p.host, p.root, ms, ms[i].key, ms[i].value, p.path, p.mode, p.depth)
    ensures forall k :: 0 <= k < |ms[i].value.members| ==>
      var m := ms[i].value.members[k];
      var e := Expand(p.env.files, p.root, m.value, p.path + ["properties"] + [m.key], p.depth);
      e.Ok? ==> IsSchema(e.value)
  {
    var ps := ms[i].value.members;
    forall k | 0 <= k < |ps|
      ensures var e := Expand(p.env.files, p.root, ps[k].value, p.path + ["properties"] + [ps[k].key], p.depth);
        e.Ok? ==> IsSchema(e.value)
    {
      PropertyToSchema(p.env, p.host, p.root, ps[k].key, ps[k].value, p.path, p.mode, p.depth);
    }
  }

  /** A property's schema lies strictly inside its node. */
  lemma PropertyOrder(ms: seq<Member>, i: nat, k: nat)
    requires i < |ms| && ms[i].value.Obj? && k < |ms[i].value.members|
    ensures ms decreases to ms[i].value.members[k].value
  {
  }

  lemma MemberArrays(p: Place, doc: Json, j: nat)
    requires p.ArraysOk(doc) && doc.Obj? && j < |doc.members| && |p.Filled(doc).members| == |doc.members|
    ensures p.Filled(doc).members[j].value == FillField(p.host, p.mode, doc.members[j].key, doc.members[j].value)
    ensures p.env.unique ==> ArraysDistinct(p.Filled(doc).members[j].value)
  {
    FillMember(p.host, p.mode, doc.members, j);
  }

  // ---- closed objects --------------------------------------------------------

  lemma NodeProperties(p: Place, ms: seq<Member>, es: seq<Member>, w: seq<Member>)
    requires NodeShape(p, ms, es, w) && HasKey(ms, "properties")
    ensures Find(ms, "properties").Some? && Find(ms, "properties").value.Obj?
    ensures Find(w, "properties").Some? && Find(w, "properties").value.Obj?
    ensures Keys(Find(w, "properties").value.members) == Keys(Find(ms, "properties").value.members)
  {
    var i := IndexOf(ms, "properties");
    assert KeywordSupported(p.env, p.host, p.root, ms, ms[i].key, ms[i].value, p.path, p.mode, p.depth);
    NodeFind(p.env.files, p.root, ms, p.path, p.depth, es, w, i);
    SupportedExpansions(p, ms, i);
    PropertyMapExpanded(p.env.files, p.root, ms[i].value.members, p.path, p.depth);
  }

  lemma DescribesKept(p: Place, ms: seq<Member>, es: seq<Member>, w: seq<Member>)
    requires NodeShape(p, ms, es, w)
    ensures forall name :: Describes(w, name) <==> Describes(ms, name)
  {
    if HasKey(ms, "properties") {
      NodeProperties(p, ms, es, w);
      SameKeys(Find(w, "properties").value.members, Find(ms, "properties").value.members);
    } else {
      MembersExpanded(p.env.files, p.root, ms, p.path, p.depth);
      assert !HasKey(es, "properties");
      AddTypeFind(es, "properties");
      CloseFind(AddType(es), "properties");
      assert Find(ms, "properties") == None && Find(w, "properties") == None;
    }
  }

  /** A closed compiled node leaves nothing to `additionalProperties`. */
  lemma ClosedNarrows(p: Place, ms: seq<Member>, doc: Json, es: seq<Member>, w: seq<Member>, i: nat)
    requires NodePremise(p, ms, doc, es, w) && i < |ms| && IsObjectNode(ms) && ms[i].key == "additionalProperties"
    ensures KeywordHolds(p, ms, i, p.Filled(doc))
  {
    NodeClosed(p, ms, es, w);
    CloseFind(AddType(es), "properties");
    AcceptsKeyword(p.env, p.compiledRoot, w, "additionalProperties", doc, p.compiledDepth);
    DescribesKept(p, ms, es, w);
    FillShape(p.host, p.mode, doc);
    if doc.Obj? {
      var filled := p.Filled(doc).members;
      SameKeys(doc.members, filled);
      forall j | 0 <= j < |filled| ensures Describes(ms, filled[j].key) {
        assert !Accepts(p.env, p.compiledRoot, Bool(false), doc.members[j].value, p.compiledDepth);
        assert Describes(w, doc.members[j].key);
      }
    }
  }

  lemma RequiredListed(p: Place, ms: seq<Member>, doc: Json, es: seq<Member>, w: seq<Member>, i: nat)
    requires NodePremise(p, ms, doc, es, w) && i < |ms| && IsObjectNode(ms) && ms[i].key == "required"
    ensures RequiredDescribed(ms, ms[i].value)
  {
    hide NodeExpanded, Supported, PropertySupported, ToldApart, RequiredDescribed, Accepts, Flat;
    assert KeywordSupported(p.env, p.host, p.root, ms, ms[i].key, ms[i].value, p.path, p.mode, p.depth);
  }

  lemma RequiredHeld(p: Place, ms: seq<Member>, doc: Json, i: nat)
    requires i < |ms| && ms[i].key == "required"
    requires ms[i].value.Arr? && doc.Obj? ==> forall k :: 0 <= k < |ms[i].value.items| && ms[i].value.items[k].Str? ==>
      HasKey(doc.members, ms[i].value.items[k].s)
    ensures KeywordHolds(p, ms, i, p.Filled(doc))
  {
    hide Fill;
    FillShape(p.host, p.mode, doc);
    if doc.Obj? { SameKeys(doc.members, p.Filled(doc).members); }
  }

  /** A closed compiled node requires every described property, so the listed ones too. */
  lemma RequiredNarrows(p: Place, ms: seq<Member>, doc: Json, es: seq<Member>, w: seq<Member>, i: nat)
    requires NodePremise(p, ms, doc, es, w) && i < |ms| && IsObjectNode(ms) && ms[i].key == "required"
    ensures KeywordHolds(p, ms, i, p.Filled(doc))
  {
    var arg := ms[i].value;
    NodeClosed(p, ms, es, w);
    CloseFind(AddType(es), "properties");
    AcceptsKeyword(p.env, p.compiledRoot, w, "required", doc, p.compiledDepth);
    DescribesKept(p, ms, es, w);
    RequiredListed(p, ms, doc, es, w, i);
    hide Expand, ExpandMembers, Fill, Resolve, ArraysDistinct, Supported, KeywordSupported, Accepts, Holds;
    if doc.Obj? && arg.Arr? {
      var qs := Find(w, "properties").value.members;
      forall k | 0 <= k < |arg.items| && arg.items[k].Str? ensures HasKey(doc.members, arg.items[k].s) {
        RequiredOne(p, w, qs, doc, arg.items[k].s);
      }
    }
    RequiredHeld(p, ms, doc, i);
  }

  lemma RequiredOne(p: Place, w: seq<Member>, qs: seq<Member>, doc: Json, name: string)
    requires Find(w, "properties") == Some(Obj(qs)) && Describes(w, name) && doc.Obj?
    requires Holds(p.env, p.compiledRoot, w, "required", Arr(Names(qs)), doc, p.compiledDepth)
    ensures HasKey(doc.members, name)
  {
    var n := IndexOf(qs, name);
    assert Names(qs)[n] == Str(name);
  }

  lemma {:induction false} AdditionalNarrows(p: Place, ms: seq<Member>, doc: Json, es: seq<Member>, w: seq<Member>,
                                             i: nat)
    requires NodePremise(p, ms, doc, es, w) && KeywordPremise(p, ms, doc, w, i)
    requires !IsObjectNode(ms) && ms[i].key == "additionalProperties"
    ensures KeywordHolds(p, ms, i, p.Filled(doc))
    decreases p.depth, ms, 2
  {
    hide Expand, ExpandMembers, AddType, Finish, Resolve;
    var e := Find(w, "additionalProperties").value;
    DescribesKept(p, ms, es, w);
    if doc.Obj? {
      forall j | 0 <= j < |doc.members| && !Describes(ms, doc.members[j].key)
        ensures p.Authoritative(ms[i].value, doc.members[j].value)
      {
        assert Accepts(p.env, p.compiledRoot, e, doc.members[j].value, p.compiledDepth);
        CompilationNarrows(p.Step("additionalProperties"), ms[i].value, doc.members[j].value);
      }
    }
  }
}
