/** What the schema handed to the model asks for, read off the authoritative schema: the host's
    placeholders, exactly the described properties of every object, and four maps of fixed shape. */
module SchemaDemands {
  import opened Text
  import opened Json
  import opened SchemaMeaning
  import opened SchemaCompiler
  import opened SchemaRefinement
  import opened SchemaSoundness

  // ---- the narrowed maps ----------------------------------------------------------------

  /** The fields a narrowed map must have, and their types. */
  function MapFields(name: string): seq<(string, string)> {
    if name == "estimated_cost_sensitivity" then [("cost_1x", "number"), ("cost_2x", "number"), ("cost_3x", "number")]
    else if name == "minimum_economic_effect" then
      [("metric", "string"), ("threshold", "number"), ("comparison", "string")]
    else if name == "estimated_capacity" then [("usd", "number")]
    else if name == "estimated_turnover" then [("one_way_daily", "number")]
    else []
  }

  predicate IsMapField(path: seq<string>) { path != [] && MapFields(path[|path| - 1]) != [] }

  /** An object with these fields of these types, and no other. */
  predicate HasExactly(doc: Json, fields: seq<(string, string)>) {
    && doc.Obj?
    && (forall k :: 0 <= k < |fields| ==> HasKey(doc.members, fields[k].0))
    && (forall j :: 0 <= j < |doc.members| ==>
          exists k :: 0 <= k < |fields| && fields[k].0 == doc.members[j].key
                      && HasType(doc.members[j].value, fields[k].1))
  }

  function FieldSchemas(fields: seq<(string, string)>): (r: seq<Member>)
    ensures |r| == |fields|
    ensures forall k :: 0 <= k < |fields| ==> r[k] == Member(fields[k].0, Typed(fields[k].1))
  {
    seq(|fields|, k requires 0 <= k < |fields| => Member(fields[k].0, Typed(fields[k].1)))
  }

  /** Each member of a closed node of typed fields, in whatever order they stand. */
  predicate MapMember(m: Member, fields: seq<(string, string)>) {
    || m == Member("type", Str("object")) || m.key == "description"
    || m == Member("additionalProperties", Bool(false))
    || m == Member("required", Arr(Names(FieldSchemas(fields))))
    || m == Member("properties", Obj(FieldSchemas(fields)))
  }

  predicate MapNode(node: seq<Member>, fields: seq<(string, string)>) {
    && (forall i :: 0 <= i < |node| ==> MapMember(node[i], fields))
    && Find(node, "type") == Some(Str("object")) && Find(node, "additionalProperties") == Some(Bool(false))
    && Find(node, "required") == Some(Arr(Names(FieldSchemas(fields))))
    && Find(node, "properties") == Some(Obj(FieldSchemas(fields)))
  }

  lemma TypedAccepts(env: Env, root: seq<Member>, name: string, doc: Json, depth: nat)
    ensures Accepts(env, root, Typed(name), doc, depth) <==> HasType(doc, name)
  {
    var node := Typed(name).members;
    assert node == [Member("type", Str(name))];
    assert Holds(env, root, node, node[0].key, node[0].value, doc, depth) <==> HasType(doc, name);
  }

  lemma DescribesField(node: seq<Member>, fields: seq<(string, string)>, name: string)
    requires Find(node, "properties") == Some(Obj(FieldSchemas(fields)))
    ensures Describes(node, name) <==> exists k :: 0 <= k < |fields| && fields[k].0 == name
  {
    var ps := FieldSchemas(fields);
    hide FieldSchemas;
    if Describes(node, name) {
      var k :| 0 <= k < |ps| && ps[k].key == name;
      assert fields[k].0 == name;
    }
    if k :| 0 <= k < |fields| && fields[k].0 == name { assert ps[k].key == name; }
  }

  lemma RequiresFields(env: Env, fields: seq<(string, string)>, doc: Json)
    requires doc.Obj?
    ensures FlatHolds(env, "required", Arr(Names(FieldSchemas(fields))), doc)
            <==> forall k :: 0 <= k < |fields| ==> HasKey(doc.members, fields[k].0)
  {
    var names := Names(FieldSchemas(fields));
    assert forall k :: 0 <= k < |fields| ==> names[k] == Str(fields[k].0);
  }

  lemma MapAccepted(env: Env, root: seq<Member>, node: seq<Member>, fields: seq<(string, string)>, doc: Json,
                    depth: nat)
    requires MapNode(node, fields) && HasExactly(doc, fields)
    requires forall i, j :: 0 <= i < j < |fields| ==> fields[i].0 != fields[j].0
    ensures Accepts(env, root, Obj(node), doc, depth)
  {
    var ps := FieldSchemas(fields);
    hide Accepts, FlatHolds, Find, Names, FieldSchemas;
    RequiresFields(env, fields, doc);
    forall j | 0 <= j < |doc.members| ensures Describes(node, doc.members[j].key) {
      DescribesField(node, fields, doc.members[j].key);
    }
    forall i, j | 0 <= i < |ps| && 0 <= j < |doc.members| && ps[i].key == doc.members[j].key
      ensures Accepts(env, root, ps[i].value, doc.members[j].value, depth)
    {
      TypedAccepts(env, root, fields[i].1, doc.members[j].value, depth);
    }
    AllHold(env, root, node, fields, doc, depth);
  }

  lemma AllHold(env: Env, root: seq<Member>, node: seq<Member>, fields: seq<(string, string)>, doc: Json, depth: nat)
    requires doc.Obj? && forall i :: 0 <= i < |node| ==> MapMember(node[i], fields)
    requires FlatHolds(env, "required", Arr(Names(FieldSchemas(fields))), doc)
    requires forall j :: 0 <= j < |doc.members| ==> Describes(node, doc.members[j].key)
    requires var ps := FieldSchemas(fields);
      forall i, j :: 0 <= i < |ps| && 0 <= j < |doc.members| && ps[i].key == doc.members[j].key ==>
        Accepts(env, root, ps[i].value, doc.members[j].value, depth)
    ensures Accepts(env, root, Obj(node), doc, depth)
  {
    hide Names, FieldSchemas, Describes;
    forall i | 0 <= i < |node| ensures Holds(env, root, node, node[i].key, node[i].value, doc, depth) {
      MapMemberHolds(env, root, node, fields, doc, depth, i);
    }
  }

  lemma MapMemberHolds(env: Env, root: seq<Member>, node: seq<Member>, fields: seq<(string, string)>, doc: Json,
                       depth: nat, i: nat)
    requires doc.Obj? && i < |node| && MapMember(node[i], fields)
    requires FlatHolds(env, "required", Arr(Names(FieldSchemas(fields))), doc)
    requires forall j :: 0 <= j < |doc.members| ==> Describes(node, doc.members[j].key)
    requires var ps := FieldSchemas(fields);
      forall i, j :: 0 <= i < |ps| && 0 <= j < |doc.members| && ps[i].key == doc.members[j].key ==>
        Accepts(env, root, ps[i].value, doc.members[j].value, depth)
    ensures Holds(env, root, node, node[i].key, node[i].value, doc, depth)
  {
    hide Names, FieldSchemas, Describes, Accepts;
  }

  lemma MapOpening(env: Env, root: seq<Member>, node: seq<Member>, fields: seq<(string, string)>, doc: Json, depth: nat)
    requires MapNode(node, fields) && Accepts(env, root, Obj(node), doc, depth)
    ensures doc.Obj? && FlatHolds(env, "required", Arr(Names(FieldSchemas(fields))), doc)
  {
    hide Find, Names, FieldSchemas, MapMember;
    AcceptsKeyword(env, root, node, "type", doc, depth);
    AcceptsKeyword(env, root, node, "required", doc, depth);
    hide Accepts;
  }

  lemma MapMembers(env: Env, root: seq<Member>, node: seq<Member>, fields: seq<(string, string)>, doc: Json, depth: nat)
    requires MapNode(node, fields) && Accepts(env, root, Obj(node), doc, depth) && doc.Obj?
    ensures forall j :: 0 <= j < |doc.members| ==> Describes(node, doc.members[j].key)
    ensures var ps := FieldSchemas(fields);
      forall i, j :: 0 <= i < |ps| && 0 <= j < |doc.members| && ps[i].key == doc.members[j].key ==>
        Accepts(env, root, ps[i].value, doc.members[j].value, depth)
  {
    hide Find, Names, FieldSchemas, MapMember, Describes, FlatHolds;
    AcceptsKeyword(env, root, node, "additionalProperties", doc, depth);
    AcceptsKeyword(env, root, node, "properties", doc, depth);
    forall j | 0 <= j < |doc.members| ensures Describes(node, doc.members[j].key) {
      assert !Accepts(env, root, Bool(false), doc.members[j].value, depth);
    }
  }

  lemma MapRefused(env: Env, root: seq<Member>, node: seq<Member>, fields: seq<(string, string)>, doc: Json, depth: nat)
    requires MapNode(node, fields) && Accepts(env, root, Obj(node), doc, depth)
    ensures HasExactly(doc, fields)
  {
    hide Accepts, FlatHolds, Find, Names, FieldSchemas, Describes, HasType;
    MapOpening(env, root, node, fields, doc, depth);
    MapMembers(env, root, node, fields, doc, depth);
    RequiresFields(env, fields, doc);
    var ps := FieldSchemas(fields);
    forall j | 0 <= j < |doc.members|
      ensures exists k :: 0 <= k < |fields| && fields[k].0 == doc.members[j].key
                          && HasType(doc.members[j].value, fields[k].1)
    {
      DescribesField(node, fields, doc.members[j].key);
      var k :| 0 <= k < |fields| && fields[k].0 == doc.members[j].key;
      assert ps[k].key == doc.members[j].key;
      assert Accepts(env, root, ps[k].value, doc.members[j].value, depth);
      TypedAccepts(env, root, fields[k].1, doc.members[j].value, depth);
      assert HasType(doc.members[j].value, fields[k].1);
    }
    assert forall k :: 0 <= k < |fields| ==> HasKey(doc.members, fields[k].0);
    assert doc.Obj?;
  }

  lemma FieldsDistinct(name: string)
    ensures forall i, j :: 0 <= i < j < |MapFields(name)| ==> MapFields(name)[i].0 != MapFields(name)[j].0
  {
  }

  lemma ClosedIsMap(fields: seq<(string, string)>, names: seq<Json>, ps: seq<Member>)
    requires ps == FieldSchemas(fields) && names == Names(ps)
    ensures ClosedObject(names, ps).Obj? && MapNode(ClosedObject(names, ps).members, fields)
  {
    hide FieldSchemas, Names, Find;
    var node := ClosedObject(names, ps).members;
    forall i | 0 <= i < 4 ensures Find(node, node[i].key) == Some(node[i].value) { FindAt(node, i); }
    assert node[0].key == "type" && node[1].key == "additionalProperties";
    assert node[2].key == "required" && node[3].key == "properties";
  }

  lemma CostsAreMap(fields: seq<(string, string)>, names: seq<Json>, ps: seq<Member>)
    requires ps == FieldSchemas(fields) && names == Names(ps)
    requires names == [Str("cost_1x"), Str("cost_2x"), Str("cost_3x")]
    requires ps == [Member("cost_1x", Typed("number")), Member("cost_2x", Typed("number")),
                    Member("cost_3x", Typed("number"))]
    ensures StrictCosts().Obj? && MapNode(StrictCosts().members, fields)
  {
    hide FieldSchemas, Names, Find, Typed;
    var node := StrictCosts().members;
    forall i | 0 <= i < 5 ensures Find(node, node[i].key) == Some(node[i].value) { FindAt(node, i); }
    assert node[0].key == "type" && node[2].key == "additionalProperties";
    assert node[3].key == "required" && node[4].key == "properties";
  }

  lemma StrictMapNode(name: string)
    requires MapFields(name) != []
    ensures StrictMap(name).Some? && StrictMap(name).value.Obj?
    ensures MapNode(StrictMap(name).value.members, MapFields(name))
  {
    hide MapNode, StrictCosts, ClosedObject;
    var fields := MapFields(name);
    var ps := FieldSchemas(fields);
    if name == "estimated_cost_sensitivity" {
      var cs := [Member("cost_1x", Typed("number")), Member("cost_2x", Typed("number")),
                 Member("cost_3x", Typed("number"))];
      assert ps == cs;
      assert Names(ps) == [Str("cost_1x"), Str("cost_2x"), Str("cost_3x")];
      CostsAreMap(fields, Names(ps), ps);
    } else if name == "minimum_economic_effect" {
      var es := [Member("metric", Typed("string")), Member("threshold", Typed("number")),
                 Member("comparison", Typed("string"))];
      var names := [Str("metric"), Str("threshold"), Str("comparison")];
      assert ps == es && Names(ps) == names;
      ClosedIsMap(fields, names, es);
    } else if name == "estimated_capacity" {
      assert ps == [Member("usd", Typed("number"))] && Names(ps) == [Str("usd")];
      ClosedIsMap(fields, Names(ps), ps);
    } else {
      assert ps == [Member("one_way_daily", Typed("number"))] && Names(ps) == [Str("one_way_daily")];
      ClosedIsMap(fields, Names(ps), ps);
    }
  }

  lemma MapExpanded(files: map<string, seq<Member>>, root: seq<Member>, ms: seq<Member>, path: seq<string>, depth: nat)
    requires IsMapField(path) && ReferenceOf(ms).None?
    ensures var name := path[|path| - 1];
      StrictMap(name).Some? && Expand(files, root, Obj(ms), path, depth) == Ok(StrictMap(name).value)
  {
  }

  /** What the walk makes of the schema of a narrowed map accepts exactly the objects with its
      fields, whatever the authoritative schema says there. */
  lemma NarrowedMapAccepts(env: Env, root: seq<Member>, ms: seq<Member>, path: seq<string>, depth: nat,
                           scope: seq<Member>, doc: Json, d: nat)
    requires IsMapField(path) && ReferenceOf(ms).None?
    ensures var r := Expand(env.files, root, Obj(ms), path, depth);
      r.Ok? && (Accepts(env, scope, r.value, doc, d) <==> HasExactly(doc, MapFields(path[|path| - 1])))
  {
    hide Accepts, Expand, StrictMap, MapNode, HasExactly, MapFields;
    var name := path[|path| - 1];
    MapExpanded(env.files, root, ms, path, depth);
    StrictMapNode(name);
    FieldsDistinct(name);
    var node := StrictMap(name).value.members;
    if HasExactly(doc, MapFields(name)) { MapAccepted(env, scope, node, MapFields(name), doc, d); }
    if Accepts(env, scope, Obj(node), doc, d) { MapRefused(env, scope, node, MapFields(name), doc, d); }
  }

  /** The compiled schema of a proposal's capacity accepts one number named `usd`, and nothing else. */
  lemma CapacityAccepts(env: Env, root: seq<Member>, ms: seq<Member>, path: seq<string>, depth: nat,
                        scope: seq<Member>, doc: Json, d: nat)
    requires path != [] && path[|path| - 1] == "estimated_capacity" && ReferenceOf(ms).None?
    ensures var r := Expand(env.files, root, Obj(ms), path, depth);
      r.Ok? && (Accepts(env, scope, r.value, doc, d) <==>
        && doc.Obj? && HasKey(doc.members, "usd")
        && forall j :: 0 <= j < |doc.members| ==>
             doc.members[j].key == "usd" && HasType(doc.members[j].value, "number"))
  {
    hide Accepts, Expand, HasType;
    assert MapFields("estimated_capacity") == [("usd", "number")];
    NarrowedMapAccepts(env, root, ms, path, depth, scope, doc, d);
    OneField(doc, "usd", "number");
  }

  /** That of its turnover one number named `one_way_daily`. */
  lemma TurnoverAccepts(env: Env, root: seq<Member>, ms: seq<Member>, path: seq<string>, depth: nat,
                        scope: seq<Member>, doc: Json, d: nat)
    requires path != [] && path[|path| - 1] == "estimated_turnover" && ReferenceOf(ms).None?
    ensures var r := Expand(env.files, root, Obj(ms), path, depth);
      r.Ok? && (Accepts(env, scope, r.value, doc, d) <==>
        && doc.Obj? && HasKey(doc.members, "one_way_daily")
        && forall j :: 0 <= j < |doc.members| ==>
             doc.members[j].key == "one_way_daily" && HasType(doc.members[j].value, "number"))
  {
    hide Accepts, Expand, HasType;
    assert MapFields("estimated_turnover") == [("one_way_daily", "number")];
    NarrowedMapAccepts(env, root, ms, path, depth, scope, doc, d);
    OneField(doc, "one_way_daily", "number");
  }

  /** That of its minimum effect a metric and a comparison as text and a threshold as number. */
  lemma EffectAccepts(env: Env, root: seq<Member>, ms: seq<Member>, path: seq<string>, depth: nat,
                      scope: seq<Member>, doc: Json, d: nat)
    requires path != [] && path[|path| - 1] == "minimum_economic_effect" && ReferenceOf(ms).None?
    ensures var r := Expand(env.files, root, Obj(ms), path, depth);
      r.Ok? && (Accepts(env, scope, r.value, doc, d) <==>
        && doc.Obj? && HasKey(doc.members, "metric") && HasKey(doc.members, "threshold")
        && HasKey(doc.members, "comparison")
        && forall j :: 0 <= j < |doc.members| ==>
             || (doc.members[j].key == "threshold" && HasType(doc.members[j].value, "number"))
             || (doc.members[j].key in {"metric", "comparison"} && doc.members[j].value.Str?))
  {
    hide Accepts, Expand;
    var fields := [("metric", "string"), ("threshold", "number"), ("comparison", "string")];
    assert MapFields("minimum_economic_effect") == fields;
    NarrowedMapAccepts(env, root, ms, path, depth, scope, doc, d);
    ThreeFields(doc, fields);
  }

  /** That of its cost sensitivity a number for each of the three stresses. */
  lemma CostsAccept(env: Env, root: seq<Member>, ms: seq<Member>, path: seq<string>, depth: nat,
                    scope: seq<Member>, doc: Json, d: nat)
    requires path != [] && path[|path| - 1] == "estimated_cost_sensitivity" && ReferenceOf(ms).None?
    ensures var r := Expand(env.files, root, Obj(ms), path, depth);
      r.Ok? && (Accepts(env, scope, r.value, doc, d) <==>
        && doc.Obj? && HasKey(doc.members, "cost_1x") && HasKey(doc.members, "cost_2x")
        && HasKey(doc.members, "cost_3x")
        && forall j :: 0 <= j < |doc.members| ==>
             doc.members[j].key in {"cost_1x", "cost_2x", "cost_3x"} && HasType(doc.members[j].value, "number"))
  {
    hide Accepts, Expand;
    var fields := [("cost_1x", "number"), ("cost_2x", "number"), ("cost_3x", "number")];
    assert MapFields("estimated_cost_sensitivity") == fields;
    NarrowedMapAccepts(env, root, ms, path, depth, scope, doc, d);
    ThreeFields(doc, fields);
  }

  lemma OneField(doc: Json, name: string, kind: string)
    ensures HasExactly(doc, [(name, kind)]) <==>
      && doc.Obj? && HasKey(doc.members, name)
      && forall j :: 0 <= j < |doc.members| ==> doc.members[j].key == name && HasType(doc.members[j].value, kind)
  {
    hide HasKey, HasType;
    var fields := [(name, kind)];
    assert fields[0] == (name, kind);
    if doc.Obj? && HasExactly(doc, fields) { assert HasKey(doc.members, fields[0].0); }
  }

  lemma ThreeFields(doc: Json, fields: seq<(string, string)>)
    requires |fields| == 3
    ensures HasExactly(doc, fields) <==>
      && doc.Obj? && HasKey(doc.members, fields[0].0) && HasKey(doc.members, fields[1].0)
      && HasKey(doc.members, fields[2].0)
      && forall j :: 0 <= j < |doc.members| ==>
           || (doc.members[j].key == fields[0].0 && HasType(doc.members[j].value, fields[0].1))
           || (doc.members[j].key == fields[1].0 && HasType(doc.members[j].value, fields[1].1))
           || (doc.members[j].key == fields[2].0 && HasType(doc.members[j].value, fields[2].1))
  {
    hide HasKey, HasType;
    if doc.Obj? {
      forall j | 0 <= j < |doc.members|
        ensures (exists k :: 0 <= k < 3 && fields[k].0 == doc.members[j].key
                             && HasType(doc.members[j].value, fields[k].1))
          <==> (|| (doc.members[j].key == fields[0].0 && HasType(doc.members[j].value, fields[0].1))
                || (doc.members[j].key == fields[1].0 && HasType(doc.members[j].value, fields[1].1))
                || (doc.members[j].key == fields[2].0 && HasType(doc.members[j].value, fields[2].1)))
      {
      }
    }
  }
}
