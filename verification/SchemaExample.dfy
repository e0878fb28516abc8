/** A cut of the decision schema, small enough to read: the schemas the refinement covers do
    include its placeholders, its optional proposal and its open maps. */
module SchemaExample {
  import opened Text
  import opened Json
  import opened SchemaMeaning
  import opened SchemaCompiler
  import opened SchemaRefinement
  import JsonText

  const STRING := Typed("string")

  function Use(name: string): Json { Obj([Member("$ref", Str(DEFS_PREFIX + name))]) }

  function Record(properties: seq<Member>, required: seq<Json>): seq<Member> {
    [Member("additionalProperties", Bool(false)), Member("properties", Obj(properties)),
     Member("required", Arr(required)), Member("type", Str("object"))]
  }

  const CAPACITY := [Member("additionalProperties", Use("JsonValue")), Member("type", Str("object"))]

  const PROPOSAL_PROPERTIES :=
    [Member("estimated_capacity", Obj(CAPACITY)), Member("hypothesis", STRING), Member("proposal_hash", STRING)]

  const PROPOSAL := Record(PROPOSAL_PROPERTIES, [Str("hypothesis"), Str("estimated_capacity"), Str("proposal_hash")])

  const OPTIONS := [Use("AlgorithmProposalV2"), Typed("null")]

  const OPTIONAL_PROPOSAL := [Member("anyOf", Arr(OPTIONS)), Member("default", Null)]

  const VERSION := [Member("const", Str("research_decision_v2"))]

  const DECISION_PROPERTIES :=
    [Member("created_at", STRING), Member("output_hash", STRING), Member("proposal", Obj(OPTIONAL_PROPOSAL)),
     Member("schema_version", Obj(VERSION))]

  const DEFINITIONS := [Member("AlgorithmProposalV2", Obj(PROPOSAL)), Member("JsonValue", Obj([]))]

  const FRONT := [Member("$defs", Obj(DEFINITIONS))]

  const REQUIRED := [Str("created_at"), Str("output_hash")]

  const DECISION := FRONT + Record(DECISION_PROPERTIES, REQUIRED)

  lemma UsesResolve(files: map<string, seq<Member>>)
    ensures Resolve(files, DECISION, DEFS_PREFIX + "AlgorithmProposalV2") == Some(Target(DECISION, Obj(PROPOSAL)))
    ensures Resolve(files, DECISION, DEFS_PREFIX + "JsonValue") == Some(Target(DECISION, Obj([])))
  {
    assert forall name: string :: (DEFS_PREFIX + name)[|DEFS_PREFIX|..] == name;
    assert DECISION[0] == Member("$defs", Obj(DEFINITIONS));
    assert DEFINITIONS[1].key == "JsonValue";
  }

  lemma UseIsReference(name: string)
    ensures var ms := Use(name).members; |ms| == 1 && ReferenceOf(ms) == Some(DEFS_PREFIX + name)
  {
  }

  lemma NodeSupported(env: Env, host: HostValues, ms: seq<Member>, path: seq<string>, mode: Mode, depth: nat)
    requires UniqueKeys(ms) && !HasKey(ms, "$ref") && StrictMapAt(path).None?
    requires forall i :: 0 <= i < |ms| ==>
      KeywordSupported(env, host, DECISION, ms, ms[i].key, ms[i].value, path, mode, depth)
    ensures Supported(env, host, DECISION, Obj(ms), path, mode, depth)
  {
    hide KeywordSupported;
  }

  lemma TypedSupported(env: Env, host: HostValues, name: string, path: seq<string>, mode: Mode, depth: nat)
    requires StrictMapAt(path).None?
    ensures Supported(env, host, DECISION, Typed(name), path, mode, depth)
  {
    hide StrictMapAt;
    NodeSupported(env, host, Typed(name).members, path, mode, depth);
  }

  lemma StringAccepts(env: Env, text: string, depth: nat)
    ensures Accepts(env, DECISION, STRING, Str(text), depth)
  {
    hide DECISION;
  }

  /** An object with a list of properties, all supported, and required names among them. */
  lemma RecordSupported(env: Env, host: HostValues, front: seq<Member>, ps: seq<Member>, required: seq<Json>,
                        path: seq<string>, mode: Mode, depth: nat)
    requires front == [] || (|front| == 1 && front[0].key == "$defs")
    requires UniqueKeys(ps) && ConstTyped(ps) && StrictMapAt(path).None?
    requires forall i :: 0 <= i < |required| ==> required[i].Str? && HasKey(ps, required[i].s)
    requires forall i :: 0 <= i < |ps| ==>
      PropertySupported(env, host, DECISION, ps[i].key, ps[i].value, path, mode, depth)
    ensures Supported(env, host, DECISION, Obj(front + Record(ps, required)), path, mode, depth)
  {
    hide KeywordSupported, PropertySupported, StrictMapAt, DECISION;
    var ms := front + Record(ps, required);
    RecordFind(front, ps, required);
    RequiredSupported(env, host, ms, ps, required, path, mode, depth);
    PropertiesSupported(env, host, ms, ps, path, mode, depth);
    RestSupported(env, host, ms, front, path, mode, depth);
    forall i | 0 <= i < |ms|
      ensures KeywordSupported(env, host, DECISION, ms, ms[i].key, ms[i].value, path, mode, depth)
    {
      assert i < |front| || ms[i] == Record(ps, required)[i - |front|];
    }
    NodeSupported(env, host, ms, path, mode, depth);
  }

  lemma RequiredSupported(env: Env, host: HostValues, ms: seq<Member>, ps: seq<Member>, required: seq<Json>,
                          path: seq<string>, mode: Mode, depth: nat)
    requires Find(ms, "properties") == Some(Obj(ps))
    requires forall i :: 0 <= i < |required| ==> required[i].Str? && HasKey(ps, required[i].s)
    ensures KeywordSupported(env, host, DECISION, ms, "required", Arr(required), path, mode, depth)
  {
    hide DECISION, Find;
    assert Flat(Arr(required));
    assert RequiredDescribed(ms, Arr(required));
  }

  lemma PropertiesSupported(env: Env, host: HostValues, ms: seq<Member>, ps: seq<Member>, path: seq<string>,
                            mode: Mode, depth: nat)
    requires UniqueKeys(ps) && ConstTyped(ps)
    requires forall i :: 0 <= i < |ps| ==>
      PropertySupported(env, host, DECISION, ps[i].key, ps[i].value, path, mode, depth)
    ensures KeywordSupported(env, host, DECISION, ms, "properties", Obj(ps), path, mode, depth)
  {
    hide DECISION, PropertySupported;
  }

  lemma RestSupported(env: Env, host: HostValues, ms: seq<Member>, front: seq<Member>, path: seq<string>, mode: Mode,
                      depth: nat)
    requires IsObjectNode(ms) && (front == [] || (|front| == 1 && front[0].key == "$defs"))
    ensures forall i :: 0 <= i < |front| ==>
      KeywordSupported(env, host, DECISION, ms, front[i].key, front[i].value, path, mode, depth)
    ensures KeywordSupported(env, host, DECISION, ms, "additionalProperties", Bool(false), path, mode, depth)
    ensures KeywordSupported(env, host, DECISION, ms, "type", Str("object"), path, mode, depth)
  {
    hide DECISION;
  }

  lemma RecordFind(front: seq<Member>, ps: seq<Member>, required: seq<Json>)
    requires front == [] || (|front| == 1 && front[0].key == "$defs")
    ensures var ms := front + Record(ps, required);
      UniqueKeys(ms) && !HasKey(ms, "$ref") && IsObjectNode(ms) && Find(ms, "properties") == Some(Obj(ps))
  {
    var ms := front + Record(ps, required);
    FindAt(ms, |front| + 1);
    FindAt(ms, |front| + 3);
  }

  lemma CapacitySupported(env: Env, host: HostValues, path: seq<string>, depth: nat)
    requires depth >= 1
    ensures Supported(env, host, DECISION, Obj(CAPACITY), path + ["properties"] + ["estimated_capacity"], Plain, depth)
  {
    hide Resolve, DECISION;
    var at := path + ["properties"] + ["estimated_capacity"];
    assert at[|at| - 1] == "estimated_capacity";
    UsesResolve(env.files);
    UseIsReference("JsonValue");
    assert Opens(env, DECISION, Obj([]), depth - 1);
    assert Opens(env, DECISION, Use("JsonValue"), depth);
    assert !HasKey(CAPACITY, "$ref");
  }

  lemma ProposalSupported(env: Env, host: HostValues, path: seq<string>, depth: nat)
    requires depth >= 1 && StrictMapAt(path).None? && "proposal" in path
    ensures Supported(env, host, DECISION, Obj(PROPOSAL), path, Proposal, depth)
  {
    hide Supported, StrictMapAt, DECISION;
    var ps := PROPOSAL_PROPERTIES;
    CapacitySupported(env, host, path, depth);
    PlainProperty(env, host, "estimated_capacity", Obj(CAPACITY), path, Proposal, depth);
    var at := path + ["properties"] + ["hypothesis"];
    assert at[|at| - 1] == "hypothesis";
    NoStrictMap(at);
    TypedSupported(env, host, "string", at, Plain, depth);
    PlainProperty(env, host, "hypothesis", STRING, path, Proposal, depth);
    PlantedProperty(env, host, "proposal_hash", path, Proposal, depth);
    hide PropertySupported;
    assert ps[0].key == "estimated_capacity" && ps[1].key == "hypothesis" && ps[2].key == "proposal_hash";
    var required := [Str("hypothesis"), Str("estimated_capacity"), Str("proposal_hash")];
    RecordSupported(env, host, [], ps, required, path, Proposal, depth);
    assert [] + Record(ps, required) == PROPOSAL;
  }

  lemma NoStrictMap(at: seq<string>)
    requires at != [] && at[|at| - 1] in {"hypothesis", "0", "1", "proposal", "schema_version"}
    ensures StrictMapAt(at).None?
  {
  }

  /** A property that gets no placeholder. */
  lemma PlainProperty(env: Env, host: HostValues, name: string, schema: Json, path: seq<string>, mode: Mode, depth: nat)
    requires name in {"estimated_capacity", "hypothesis", "proposal", "schema_version"} && schema.Obj?
    requires Supported(env, host, DECISION, schema, path + ["properties"] + [name], ChildMode(mode, name), depth)
    ensures PropertySupported(env, host, DECISION, name, schema, path, mode, depth)
  {
    hide Supported, DECISION;
    var at := path + ["properties"] + [name];
    assert at[|at| - 1] == name;
  }

  /** A property that gets one. */
  lemma PlantedProperty(env: Env, host: HostValues, name: string, path: seq<string>, mode: Mode, depth: nat)
    requires name in {"created_at", "output_hash"} || (name == "proposal_hash" && "proposal" in path)
    ensures PropertySupported(env, host, DECISION, name, STRING, path, mode, depth)
  {
    hide Supported, Accepts, DECISION;
    var at := path + ["properties"] + [name];
    assert at[|at| - 1] == name;
    assert "proposal" in path ==> "proposal" in at;
    StringAccepts(env, Planted(host, mode, name, SentinelAt(at).value), depth);
  }

  lemma UseSupported(env: Env, host: HostValues, path: seq<string>, depth: nat)
    requires depth >= 2 && StrictMapAt(path).None? && "proposal" in path
    ensures Supported(env, host, DECISION, Use("AlgorithmProposalV2"), path, Proposal, depth)
  {
    hide Resolve, DECISION, StrictMapAt, PROPOSAL;
    UsesResolve(env.files);
    UseIsReference("AlgorithmProposalV2");
    ProposalSupported(env, host, path, depth - 1);
  }

  lemma OptionalProposal(env: Env, host: HostValues, depth: nat)
    requires depth >= 2
    ensures Supported(env, host, DECISION, Obj(OPTIONAL_PROPOSAL), ["properties", "proposal"], Proposal, depth)
  {
    hide DECISION, StrictMapAt, Supported, JsonText.NatText;
    var path := ["properties", "proposal"];
    var first, second := path + ["anyOf"] + [JsonText.NatText(0)], path + ["anyOf"] + [JsonText.NatText(1)];
    Digits();
    NoStrictMap(path);
    NoStrictMap(first);
    NoStrictMap(second);
    assert first[1] == "proposal";
    UseSupported(env, host, first, depth);
    TypedSupported(env, host, "null", second, Proposal, depth);
    OptionsSupported(env, host, path, depth);
    NodeSupported(env, host, OPTIONAL_PROPOSAL, path, Proposal, depth);
  }

  lemma Digits()
    ensures JsonText.NatText(0) == "0" && JsonText.NatText(1) == "1"
  {
  }

  lemma OptionsSupported(env: Env, host: HostValues, path: seq<string>, depth: nat)
    requires forall i :: 0 <= i < 2 ==>
      Supported(env, host, DECISION, OPTIONS[i], path + ["anyOf"] + [JsonText.NatText(i)], Proposal, depth)
    ensures KeywordSupported(env, host, DECISION, OPTIONAL_PROPOSAL, "anyOf", Arr(OPTIONS), path, Proposal, depth)
    ensures KeywordSupported(env, host, DECISION, OPTIONAL_PROPOSAL, "default", Null, path, Proposal, depth)
  {
    hide DECISION, Supported, JsonText.NatText;
  }

  lemma VersionSupported(env: Env, host: HostValues, depth: nat)
    ensures Supported(env, host, DECISION, Obj(VERSION), [] + ["properties"] + ["schema_version"], Plain, depth)
  {
    hide DECISION, StrictMapAt;
    var at := [] + ["properties"] + ["schema_version"];
    assert at[|at| - 1] == "schema_version";
    NoStrictMap(at);
    NodeSupported(env, host, VERSION, at, Plain, depth);
  }

  lemma NoStrictRoot()
    ensures StrictMapAt([]).None?
  {
  }

  lemma DecisionParts()
    ensures DECISION == FRONT + Record(DECISION_PROPERTIES, REQUIRED)
  {
  }

  /** The premise of the refinement holds of this schema, for all host values and every reading
      of the other keywords. */
  lemma DecisionSupported(env: Env, host: HostValues, depth: nat)
    requires depth >= 2
    ensures Supported(env, host, DECISION, Obj(DECISION), [], Whole, depth)
  {
    hide Supported, PropertySupported, DECISION, StrictMapAt, OPTIONAL_PROPOSAL;
    var ps := DECISION_PROPERTIES;
    PlantedProperty(env, host, "created_at", [], Whole, depth);
    PlantedProperty(env, host, "output_hash", [], Whole, depth);
    OptionalProposal(env, host, depth);
    assert [] + ["properties"] + ["proposal"] == ["properties", "proposal"];
    PlainProperty(env, host, "proposal", Obj(OPTIONAL_PROPOSAL), [], Whole, depth);
    VersionSupported(env, host, depth);
    PlainProperty(env, host, "schema_version", Obj(VERSION), [], Whole, depth);
    assert ps[0].key == "created_at" && ps[1].key == "output_hash";
    assert StrictMapAt([]).None? by { NoStrictRoot(); }
    RecordSupported(env, host, FRONT, ps, REQUIRED, [], Whole, depth);
    DecisionParts();
  }
}
