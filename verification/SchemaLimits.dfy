/** Where compilation does not narrow, and why each condition of the main result is needed. */
module SchemaLimits {
  import opened Text
  import opened Json
  import opened SchemaMeaning
  import opened SchemaCompiler
  import opened SchemaRefinement
  import opened SchemaSoundness
  import JsonText

  /** A closed compiled node accepts only documents with exactly the described keys. */
  lemma ClosedKeys(p: Place, ms: seq<Member>, doc: Json, es: seq<Member>, w: seq<Member>, name: string)
    requires NodeExpanded(p.env.files, p.root, ms, p.path, p.depth, es, w) && p.CompiledAccepts(Obj(w), doc) && doc.Obj?
    requires IsObjectNode(AddType(es))
    ensures HasKey(doc.members, name) <==> Describes(w, name)
  {
    CloseFind(AddType(es), "properties");
    AcceptsKeyword(p.env, p.compiledRoot, w, "required", doc, p.compiledDepth);
    AcceptsKeyword(p.env, p.compiledRoot, w, "additionalProperties", doc, p.compiledDepth);
    var qs := Find(w, "properties").value.members;
    if Describes(w, name) { RequiredOne(p, w, qs, doc, name); }
    if HasKey(doc.members, name) {
      var j := IndexOf(doc.members, name);
      assert !Accepts(p.env, p.compiledRoot, Bool(false), doc.members[j].value, p.compiledDepth);
    }
  }

  /** On a closed node the authoritative `required` survives compilation exactly when every
      listed name is described; with one undescribed name, no document the compiled node
      accepts is ever accepted. */
  lemma RequiredExactly(p: Place, ms: seq<Member>, doc: Json, es: seq<Member>, w: seq<Member>, arg: Json)
    requires NodeExpanded(p.env.files, p.root, ms, p.path, p.depth, es, w) && p.CompiledAccepts(Obj(w), doc) && doc.Obj?
    requires IsObjectNode(AddType(es)) && (forall name :: Describes(w, name) <==> Describes(ms, name))
    requires arg.Arr?
    ensures Holds(p.env, p.root, ms, "required", arg, doc, p.depth) <==> RequiredDescribed(ms, arg)
  {
    hide NodeExpanded, Accepts, Holds, RequiredDescribed;
    forall name ensures HasKey(doc.members, name) <==> Describes(ms, name) {
      ClosedKeys(p, ms, doc, es, w, name);
    }
    RequiredMeans(p.env, p.root, ms, arg, doc, p.depth);
  }

  lemma RequiredMeans(env: Env, root: seq<Member>, node: seq<Member>, arg: Json, doc: Json, depth: nat)
    requires arg.Arr? && doc.Obj? && forall name :: HasKey(doc.members, name) <==> Describes(node, name)
    ensures Holds(env, root, node, "required", arg, doc, depth) <==> RequiredDescribed(node, arg)
  {
    hide Accepts, Describes;
  }

  // ---- concrete failures ---------------------------------------------------

  function Anything(): Env { Env(map[], (key, arg, shape) => true, true) }

  function ObjectNode(properties: seq<Member>): seq<Member> {
    [Member("type", Str("object")), Member("properties", Obj(properties))]
  }

  function ClosedNode(properties: seq<Member>): seq<Member> {
    ObjectNode(properties) + [Member("additionalProperties", Bool(false)), Member("required", Arr(Names(properties)))]
  }

  lemma PlainNode(root: seq<Member>, ms: seq<Member>, path: seq<string>, es: seq<Member>)
    requires SentinelAt(path).None? && StrictMapAt(path).None?
    requires forall i :: 0 <= i < |ms| ==> ms[i].key in {"type", "properties", "required", "oneOf", "uniqueItems"}
    requires ExpandMembers(map[], root, ms, path, 0) == Ok(es)
    ensures Expand(map[], root, Obj(ms), path, 0) == Finish(es)
  {
    assert !HasKey(ms, "$ref") && Find(ms, "$ref") == None;
    assert !HasUnsupported(ms);
  }

  /** One more member, walked or dropped. */
  lemma ExpandMore(root: seq<Member>, init: seq<Member>, m: Member, path: seq<string>, es: seq<Member>, e: Json)
    requires ExpandMembers(map[], root, init, path, 0) == Ok(es)
    requires IsDropped(m.key) || Expand(map[], root, m.value, path + [m.key], 0) == Ok(e)
    ensures ExpandMembers(map[], root, init + [m], path, 0)
            == Ok(if IsDropped(m.key) then es else es + [Member(m.key, e)])
  {
    hide Expand, IsDropped;
    assert (init + [m])[..|init|] == init;
  }

  lemma ExpandPair(root: seq<Member>, a: Member, b: Member, path: seq<string>, ea: Json, eb: Json)
    requires !IsDropped(a.key) && !IsDropped(b.key)
    requires Expand(map[], root, a.value, path + [a.key], 0) == Ok(ea)
    requires Expand(map[], root, b.value, path + [b.key], 0) == Ok(eb)
    ensures ExpandMembers(map[], root, [a, b], path, 0) == Ok([Member(a.key, ea), Member(b.key, eb)])
  {
    hide Expand, IsDropped;
    ExpandMore(root, [], a, path, [], ea);
    assert [] + [a] == [a] && [] + [Member(a.key, ea)] == [Member(a.key, ea)];
    ExpandMore(root, [a], b, path, [Member(a.key, ea)], eb);
    assert [a] + [b] == [a, b];
    assert [Member(a.key, ea)] + [Member(b.key, eb)] == [Member(a.key, ea), Member(b.key, eb)];
  }

  /** An object node closes around its expanded properties. */
  lemma ObjectNodeCloses(root: seq<Member>, properties: seq<Member>, expanded: seq<Member>, path: seq<string>)
    requires SentinelAt(path).None? && StrictMapAt(path).None?
    requires Expand(map[], root, Obj(properties), path + ["properties"], 0) == Ok(Obj(expanded))
    ensures Expand(map[], root, Obj(ObjectNode(properties)), path, 0) == Ok(Obj(ClosedNode(expanded)))
  {
    var ms := ObjectNode(properties);
    FlatUnchanged(map[], root, Str("object"), path + ["type"], 0);
    hide Expand, ExpandMembers, Finish, ClosedNode, SentinelAt, StrictMapAt;
    ExpandPair(root, ms[0], ms[1], path, Str("object"), Obj(expanded));
    assert ms == [ms[0], ms[1]];
    PlainNode(root, ms, path, ObjectNode(expanded));
    ObjectNodeFinish(expanded);
  }

  lemma ObjectNodeFinish(expanded: seq<Member>)
    ensures Finish(ObjectNode(expanded)) == Ok(Obj(ClosedNode(expanded)))
  {
    var es := ObjectNode(expanded);
    FindAt(es, 0);
    FindAt(es, 1);
    var mid := Assign(es, "additionalProperties", Bool(false));
    assert mid == es + [Member("additionalProperties", Bool(false))];
    assert Assign(mid, "required", Arr(Names(expanded))) == ClosedNode(expanded);
  }

  lemma SingletonMap(root: seq<Member>, m: Member, path: seq<string>, e: Json)
    requires !IsReserved(m.key) && m.key !in {"type", "const", "enum", "$ref"}
    requires Expand(map[], root, m.value, path + ["properties"] + [m.key], 0) == Ok(e)
    ensures Expand(map[], root, Obj([m]), path + ["properties"], 0) == Ok(Obj([Member(m.key, e)]))
  {
    hide Expand, ExpandMembers, Finish, SentinelAt, StrictMapAt, HasUnsupported, ReferenceOf;
    var at := path + ["properties"];
    ExpandMore(root, [], m, at, [], e) by { NothingExpanded(root, at); }
    assert [] + [m] == [m] && [] + [Member(m.key, e)] == [Member(m.key, e)];
    MapPath(path);
    OneMember(m, e);
    MapNode(map[], root, [m], at, 0);
  }

  lemma NothingExpanded(root: seq<Member>, path: seq<string>)
    ensures ExpandMembers(map[], root, [], path, 0) == Ok([])
  {
  }

  lemma MapPath(path: seq<string>)
    ensures SentinelAt(path + ["properties"]).None? && StrictMapAt(path + ["properties"]).None?
  {
    var at := path + ["properties"];
    assert at[|at| - 1] == "properties";
  }

  lemma OneMember(m: Member, e: Json)
    requires !IsReserved(m.key) && m.key !in {"type", "const", "enum", "$ref"}
    ensures !HasUnsupported([m]) && ReferenceOf([m]).None? && Finish([Member(m.key, e)]) == Ok(Obj([Member(m.key, e)]))
  {
    var es := [Member(m.key, e)];
    assert !HasKey([m], "$ref") && !HasKey(es, "type") && !HasKey(es, "const") && !HasKey(es, "enum");
  }

  /** What a closed node says of a document. */
  lemma ClosedNodeAccepts(env: Env, properties: seq<Member>, doc: seq<Member>)
    requires forall i :: 0 <= i < |doc| ==> HasKey(properties, doc[i].key)
    requires forall i :: 0 <= i < |properties| ==> HasKey(doc, properties[i].key)
    requires forall i, j :: 0 <= i < |properties| && 0 <= j < |doc| && properties[i].key == doc[j].key
               ==> Accepts(env, [], properties[i].value, doc[j].value, 0)
    ensures Accepts(env, [], Obj(ClosedNode(properties)), Obj(doc), 0)
  {
    var node := ClosedNode(properties);
    FindAt(node, 1);
    assert FlatHolds(env, "type", Str("object"), Obj(doc));
    assert FlatHolds(env, "required", Arr(Names(properties)), Obj(doc));
    forall i | 0 <= i < |node| ensures Holds(env, [], node, node[i].key, node[i].value, Obj(doc), 0) {
    }
  }

  /** A property named like a dropped keyword disappears: the compiled schema accepts the empty
      object, the authoritative one requires the property. */
  lemma ReservedNameEscapes()
    ensures var s := ObjectNode([Member("uniqueItems", Bool(true))]) + [Member("required", Arr([Str("uniqueItems")]))];
      var r := Expand(map[], s, Obj(s), [], 0);
      && r.Ok? && Accepts(Anything(), [], r.value, Obj([]), 0)
      && !Accepts(Anything(), s, Obj(s), Obj([]), 0)
  {
    var ms := ObjectNode([Member("uniqueItems", Bool(true))]);
    var s := ms + [Member("required", Arr([Str("uniqueItems")]))];
    var es := ObjectNode([]) + [s[2]];
    EscapeExpands(s, ms, es);
    EscapeCloses(es);
    EmptyAccepted(Finish(es).value.members);
    EscapeRefused(s);
  }

  lemma EscapeExpands(s: seq<Member>, ms: seq<Member>, es: seq<Member>)
    requires ms == ObjectNode([Member("uniqueItems", Bool(true))])
    requires s == ms + [Member("required", Arr([Str("uniqueItems")]))] && es == ObjectNode([]) + [s[2]]
    ensures Expand(map[], s, Obj(s), [], 0) == Finish(es)
  {
    DroppedProperty(s);
    EscapeMembers(s, ms);
    PlainNode(s, s, [], es);
  }

  lemma DroppedProperty(s: seq<Member>)
    ensures Expand(map[], s, Obj([Member("uniqueItems", Bool(true))]), [] + ["properties"], 0) == Ok(Obj([]))
  {
    var at: seq<string> := [] + ["properties"];
    var dropped := Member("uniqueItems", Bool(true));
    ExpandMore(s, [], dropped, at, [], Null);
    assert [] + [dropped] == [dropped];
    PlainNode(s, [dropped], at, []);
    var none: seq<Member> := [];
    assert !HasKey(none, "type") && Find(none, "const") == None && Find(none, "enum") == None
            && Find(none, "type") == None;
  }

  lemma EscapeMembers(s: seq<Member>, ms: seq<Member>)
    requires ms == ObjectNode([Member("uniqueItems", Bool(true))]) && |s| == 3
    requires s == ms + [s[2]] && s[2] == Member("required", Arr([Str("uniqueItems")]))
    requires Expand(map[], s, ms[1].value, [] + ["properties"], 0) == Ok(Obj([]))
    ensures ExpandMembers(map[], s, s, [], 0) == Ok(ObjectNode([]) + [s[2]])
  {
    FlatUnchanged(map[], s, Str("object"), [] + ["type"], 0);
    FlatUnchanged(map[], s, s[2].value, [] + ["required"], 0);
    hide Expand, IsDropped;
    assert !IsDropped("type") && !IsDropped("properties") && !IsDropped("required") by { KeptKeys(); }
    ExpandPair(s, ms[0], ms[1], [], Str("object"), Obj([]));
    assert ms == [ms[0], ms[1]];
    ExpandMore(s, ms, s[2], [], ObjectNode([]), s[2].value);
  }

  lemma KeptKeys()
    ensures !IsDropped("type") && !IsDropped("properties") && !IsDropped("required") && !IsDropped("oneOf")
  {
  }

  lemma EscapeRefused(s: seq<Member>)
    requires s == ObjectNode([Member("uniqueItems", Bool(true))]) + [Member("required", Arr([Str("uniqueItems")]))]
    ensures !Accepts(Anything(), s, Obj(s), Obj([]), 0)
  {
    assert s[2].value.items[0] == Str("uniqueItems") && !HasKey([], "uniqueItems");
    assert !FlatHolds(Anything(), "required", s[2].value, Obj([]));
    assert !Holds(Anything(), s, s, s[2].key, s[2].value, Obj([]), 0);
  }

  lemma EscapeCloses(es: seq<Member>)
    requires es == ObjectNode([]) + [Member("required", Arr([Str("uniqueItems")]))]
    ensures Finish(es)
            == Ok(Obj(ObjectNode([]) + [Member("required", Arr([])), Member("additionalProperties", Bool(false))]))
  {
    FindAt(es, 0);
    FindAt(es, 1);
    var mid := Assign(es, "additionalProperties", Bool(false));
    assert mid == es + [Member("additionalProperties", Bool(false))];
    assert es[2].key == "required" && es[0].key == "type" && es[1].key == "properties";
    assert IndexOf(mid, "required") == 2 by { RequiredThird(mid); }
    assert Names([]) == [];
    var all := mid[2 := Member("required", Arr([]))];
    assert Assign(mid, "required", Arr(Names([]))) == all;
    assert all == ObjectNode([]) + [Member("required", Arr([])), Member("additionalProperties", Bool(false))];
  }

  lemma RequiredThird(ms: seq<Member>)
    requires |ms| == 4 && ms[0].key == "type" && ms[1].key == "properties" && ms[2].key == "required"
            && ms[3].key == "additionalProperties"
    ensures IndexOf(ms, "required") == 2
  {
    var i := IndexOf(ms, "required");
    assert ms[2].key == "required";
    assert !(2 < i);
  }

  lemma EmptyAccepted(w: seq<Member>)
    requires w == ObjectNode([]) + [Member("required", Arr([])), Member("additionalProperties", Bool(false))]
    ensures Accepts(Anything(), [], Obj(w), Obj([]), 0)
  {
    assert FlatHolds(Anything(), "type", Str("object"), Obj([]));
    forall i | 0 <= i < |w| ensures Holds(Anything(), [], w, w[i].key, w[i].value, Obj([]), 0) {
    }
  }

  /** A time field below the top level keeps its placeholder: the compiled schema insists on it,
      the host never replaces it, and the authoritative schema refuses it. */
  lemma NestedPlaceholderStays(host: HostValues)
    ensures var inner := ObjectNode([Member("created_at", Obj([Member("const", Str("x"))]))]);
      var s := ObjectNode([Member("inner", Obj(inner))]);
      var doc := Obj([Member("inner", Obj([Member("created_at", Str(TIME_SENTINEL))]))]);
      var r := Expand(map[], s, Obj(s), [], 0);
      && r.Ok? && Accepts(Anything(), [], r.value, doc, 0)
      && !Accepts(Anything(), s, Obj(s), Fill(host, Whole, doc), 0)
  {
    var field := Member("created_at", Obj([Member("const", Str("x"))]));
    var inner := ObjectNode([field]);
    var s := ObjectNode([Member("inner", Obj(inner))]);
    var docInner := [Member("created_at", Str(TIME_SENTINEL))];
    var doc := [Member("inner", Obj(docInner))];
    var planted := SentinelSchema(TIME_SENTINEL);
    var closed := Obj(ClosedNode([Member("created_at", planted)]));
    NestedExpands(s, field, inner, planted, closed);
    NestedAccepted(planted, closed, docInner);
    FillAt(host, Whole, doc, 0);
    assert FillMembers(host, Whole, doc) == doc;
    NestedRefused(s, inner, field, doc, docInner);
  }

  lemma NestedExpands(s: seq<Member>, field: Member, inner: seq<Member>, planted: Json, closed: Json)
    requires field == Member("created_at", Obj([Member("const", Str("x"))])) && planted == SentinelSchema(TIME_SENTINEL)
    requires inner == ObjectNode([field]) && s == ObjectNode([Member("inner", Obj(inner))])
    requires closed == Obj(ClosedNode([Member("created_at", planted)]))
    ensures Expand(map[], s, Obj(s), [], 0) == Ok(Obj(ClosedNode([Member("inner", closed)])))
  {
    hide ClosedNode, ObjectNode;
    var at := [] + ["properties"] + ["inner"];
    assert (at + ["properties"] + ["created_at"])[|at| + 1] == "created_at";
    SingletonMap(s, field, at, planted);
    assert at[|at| - 1] == "inner";
    ObjectNodeCloses(s, [field], [Member("created_at", planted)], at);
    SingletonMap(s, Member("inner", Obj(inner)), [], closed);
    ObjectNodeCloses(s, [Member("inner", Obj(inner))], [Member("inner", closed)], []);
  }

  lemma NestedAccepted(planted: Json, closed: Json, docInner: seq<Member>)
    requires planted == SentinelSchema(TIME_SENTINEL) && docInner == [Member("created_at", Str(TIME_SENTINEL))]
    requires closed == Obj(ClosedNode([Member("created_at", planted)]))
    ensures Accepts(Anything(), [], Obj(ClosedNode([Member("inner", closed)])),
              Obj([Member("inner", Obj(docInner))]), 0)
  {
    hide Accepts, ClosedNode;
    PlantedAccepts(planted);
    var ps := [Member("created_at", planted)];
    assert ps[0].key == docInner[0].key;
    ClosedNodeAccepts(Anything(), ps, docInner);
    var qs, doc := [Member("inner", closed)], [Member("inner", Obj(docInner))];
    assert qs[0].key == doc[0].key;
    ClosedNodeAccepts(Anything(), qs, doc);
  }

  lemma PlantedAccepts(planted: Json)
    requires planted == SentinelSchema(TIME_SENTINEL)
    ensures Accepts(Anything(), [], planted, Str(TIME_SENTINEL), 0)
  {
    var ms := planted.members;
    assert FlatHolds(Anything(), "type", Str("string"), Str(TIME_SENTINEL));
    assert FlatHolds(Anything(), "const", Str(TIME_SENTINEL), Str(TIME_SENTINEL));
    forall i | 0 <= i < |ms| ensures Holds(Anything(), [], ms, ms[i].key, ms[i].value, Str(TIME_SENTINEL), 0) {
    }
  }

  lemma NestedRefused(s: seq<Member>, inner: seq<Member>, field: Member, doc: seq<Member>, docInner: seq<Member>)
    requires field == Member("created_at", Obj([Member("const", Str("x"))]))
    requires inner == ObjectNode([field]) && s == ObjectNode([Member("inner", Obj(inner))])
    requires docInner == [Member("created_at", Str(TIME_SENTINEL))] && doc == [Member("inner", Obj(docInner))]
    ensures !Accepts(Anything(), s, Obj(s), Obj(doc), 0)
  {
    var ms := field.value.members;
    assert !Holds(Anything(), s, ms, ms[0].key, ms[0].value, docInner[0].value, 0);
    assert !Accepts(Anything(), s, field.value, docInner[0].value, 0);
    assert inner[1].value.members[0] == field;
    assert !Holds(Anything(), s, inner, inner[1].key, inner[1].value, Obj(docInner), 0);
    assert !Accepts(Anything(), s, Obj(inner), Obj(docInner), 0);
    assert s[1].value.members[0] == Member("inner", Obj(inner)) && doc[0].key == "inner";
    assert !Accepts(Anything(), s, s[1].value.members[0].value, doc[0].value, 0);
    assert !Holds(Anything(), s, s, s[1].key, s[1].value, Obj(doc), 0);
  }

  /** Narrowing a branch of `oneOf` can make exactly one of two overlapping branches match. */
  lemma OneOfWidens()
    ensures var branches := [Obj(ObjectNode([])), Obj(ObjectNode([Member("a", Bool(true))]))];
      var s := [Member("oneOf", Arr(branches))];
      var doc := Obj([Member("a", Null)]);
      var r := Expand(map[], s, Obj(s), [], 0);
      && r.Ok? && Accepts(Anything(), [], r.value, doc, 0)
      && !Accepts(Anything(), s, Obj(s), doc, 0)
  {
    var p0, p1: seq<Member> := [], [Member("a", Bool(true))];
    var branches := [Obj(ObjectNode(p0)), Obj(ObjectNode(p1))];
    var s := [Member("oneOf", Arr(branches))];
    var doc := [Member("a", Null)];
    OneOfExpands(s, p0, p1, branches);
    ClosedBranches(p0, p1, doc);
    OpenBranches(s, p0, p1, doc);
  }

  lemma ClosedBranches(p0: seq<Member>, p1: seq<Member>, doc: seq<Member>)
    requires p0 == [] && p1 == [Member("a", Bool(true))] && doc == [Member("a", Null)]
    ensures Accepts(Anything(), [], Obj([Member("oneOf", Arr([Obj(ClosedNode(p0)), Obj(ClosedNode(p1))]))]),
              Obj(doc), 0)
  {
    hide ClosedNode;
    assert p1[0].key == doc[0].key;
    ClosedNodeAccepts(Anything(), p1, doc);
    OneOfRefused(ClosedNode(p0), doc);
    OneOfSecond([], Obj(ClosedNode(p0)), Obj(ClosedNode(p1)), Obj(doc));
  }

  lemma OneOfSecond(root: seq<Member>, a: Json, b: Json, doc: Json)
    requires Accepts(Anything(), root, b, doc, 0)
    ensures Accepts(Anything(), root, Obj([Member("oneOf", Arr([a, b]))]), doc, 0)
            <==> !Accepts(Anything(), root, a, doc, 0)
  {
    var w := [Member("oneOf", Arr([a, b]))];
    OneOfHolds(Anything(), root, w, [a, b], doc);
    SoleKeyword(root, w[0], doc);
  }

  lemma SoleKeyword(root: seq<Member>, m: Member, doc: Json)
    ensures Accepts(Anything(), root, Obj([m]), doc, 0) <==> Holds(Anything(), root, [m], m.key, m.value, doc, 0)
  {
    hide Holds;
    assert [m][0] == m;
  }

  lemma OneOfHolds(env: Env, root: seq<Member>, node: seq<Member>, items: seq<Json>, doc: Json)
    requires |items| == 2 && Accepts(env, root, items[1], doc, 0)
    ensures Holds(env, root, node, "oneOf", Arr(items), doc, 0) <==> !Accepts(env, root, items[0], doc, 0)
  {
    hide Accepts, Holds, ExactlyOne;
    OneOfMeans(env, root, node, items, doc);
    ExactlyOneOfTwo(env, root, items, doc);
  }

  lemma OneOfMeans(env: Env, root: seq<Member>, node: seq<Member>, items: seq<Json>, doc: Json)
    ensures Holds(env, root, node, "oneOf", Arr(items), doc, 0) <==> ExactlyOne(env, root, items, doc, 0)
  {
    hide Accepts, ExactlyOne;
  }

  lemma ExactlyOneOfTwo(env: Env, root: seq<Member>, items: seq<Json>, doc: Json)
    requires |items| == 2 && Accepts(env, root, items[1], doc, 0)
    ensures ExactlyOne(env, root, items, doc, 0) <==> !Accepts(env, root, items[0], doc, 0)
  {
    hide Accepts;
    assert Sole(env, root, items, 1, doc, 0) <==> !Accepts(env, root, items[0], doc, 0);
    assert !Sole(env, root, items, 0, doc, 0);
  }

  lemma OpenBranches(s: seq<Member>, p0: seq<Member>, p1: seq<Member>, doc: seq<Member>)
    requires p0 == [] && p1 == [Member("a", Bool(true))]
    requires s == [Member("oneOf", Arr([Obj(ObjectNode(p0)), Obj(ObjectNode(p1))]))]
    ensures !Accepts(Anything(), s, Obj(s), Obj(doc), 0)
  {
    hide ObjectNode;
    OpenNodeAccepts(s, p0, doc);
    OpenNodeAccepts(s, p1, doc);
    OneOfSecond(s, Obj(ObjectNode(p0)), Obj(ObjectNode(p1)), Obj(doc));
  }

  lemma OneOfRefused(node: seq<Member>, doc: seq<Member>)
    requires node == ClosedNode([]) && doc == [Member("a", Null)]
    ensures !Accepts(Anything(), [], Obj(node), Obj(doc), 0)
  {
    FindAt(node, 1);
    assert !Describes(node, doc[0].key);
    assert !Holds(Anything(), [], node, node[2].key, node[2].value, Obj(doc), 0);
  }

  lemma OpenNodeAccepts(root: seq<Member>, properties: seq<Member>, doc: seq<Member>)
    requires forall i :: 0 <= i < |properties| ==> properties[i].value == Bool(true)
    ensures Accepts(Anything(), root, Obj(ObjectNode(properties)), Obj(doc), 0)
  {
    var node := ObjectNode(properties);
    assert FlatHolds(Anything(), "type", Str("object"), Obj(doc));
    forall i | 0 <= i < |node| ensures Holds(Anything(), root, node, node[i].key, node[i].value, Obj(doc), 0) {
    }
  }

  lemma OneOfExpands(s: seq<Member>, p0: seq<Member>, p1: seq<Member>, branches: seq<Json>)
    requires p0 == [] && p1 == [Member("a", Bool(true))]
    requires branches == [Obj(ObjectNode(p0)), Obj(ObjectNode(p1))] && s == [Member("oneOf", Arr(branches))]
    ensures Expand(map[], s, Obj(s), [], 0)
            == Ok(Obj([Member("oneOf", Arr([Obj(ClosedNode(p0)), Obj(ClosedNode(p1))]))]))
  {
    var at: seq<string> := [] + ["oneOf"];
    BranchesExpand(s, p0, p1, branches, at);
    var items := [Obj(ClosedNode(p0)), Obj(ClosedNode(p1))];
    OneOfNode(s, branches, items);
  }

  lemma OneOfNode(s: seq<Member>, branches: seq<Json>, items: seq<Json>)
    requires s == [Member("oneOf", Arr(branches))]
    requires ExpandItems(map[], s, branches, [] + ["oneOf"], 0) == Ok(items)
    ensures Expand(map[], s, Obj(s), [], 0) == Ok(Obj([Member("oneOf", Arr(items))]))
  {
    hide ExpandItems;
    var es := [Member("oneOf", Arr(items))];
    KeptKeys();
    ExpandMore(s, [], s[0], [], [], Arr(items));
    assert [] + [s[0]] == s && [] + [es[0]] == es;
    PlainNode(s, s, [], es);
    assert !HasKey(es, "type") && Find(es, "const") == None && Find(es, "enum") == None && Find(es, "type") == None;
  }

  lemma BranchesExpand(s: seq<Member>, p0: seq<Member>, p1: seq<Member>, branches: seq<Json>, at: seq<string>)
    requires p0 == [] && p1 == [Member("a", Bool(true))]
    requires branches == [Obj(ObjectNode(p0)), Obj(ObjectNode(p1))]
    ensures ExpandItems(map[], s, branches, at, 0) == Ok([Obj(ClosedNode(p0)), Obj(ClosedNode(p1))])
  {
    DigitStepPlain(0, at);
    DigitStepPlain(1, at);
    var a0, a1 := at + [JsonText.NatText(0)], at + [JsonText.NatText(1)];
    assert (a0 + ["properties"])[|a0|] == "properties";
    assert Expand(map[], s, Obj(p0), a0 + ["properties"], 0) == Ok(Obj([]));
    ObjectNodeCloses(s, p0, [], a0);
    SingletonMap(s, p1[0], a1, Bool(true));
    ObjectNodeCloses(s, p1, p1, a1);
    TwoItems(s, branches[0], branches[1], at, Obj(ClosedNode(p0)), Obj(ClosedNode(p1)));
    assert branches == [branches[0], branches[1]];
  }

  lemma TwoItems(root: seq<Member>, a: Json, b: Json, path: seq<string>, ea: Json, eb: Json)
    requires Expand(map[], root, a, path + [JsonText.NatText(0)], 0) == Ok(ea)
    requires Expand(map[], root, b, path + [JsonText.NatText(1)], 0) == Ok(eb)
    ensures ExpandItems(map[], root, [a, b], path, 0) == Ok([ea, eb])
  {
    hide Expand;
    assert [a][..0] == [];
    assert [] + [ea] == [ea] && [ea] + [eb] == [ea, eb];
    assert ExpandItems(map[], root, [a], path, 0) == Ok([ea]);
    assert [a, b][..1] == [a];
  }

  lemma DigitStepPlain(n: nat, path: seq<string>)
    ensures SentinelAt(path + [JsonText.NatText(n)]) == None && StrictMapAt(path + [JsonText.NatText(n)]) == None
  {
    var t := JsonText.NatText(n);
    assert JsonText.IsDigit(t[0]);
    assert (path + [t])[|path|] == t;
  }
}
