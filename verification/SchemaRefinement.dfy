/** The compiled schema is a refinement: whatever it accepts, the authoritative
    schema accepts once the host has filled in its own fields. */
module SchemaRefinement {
  import opened Text
  import opened Json
  import opened SchemaMeaning
  import opened SchemaCompiler
  import JsonText

  // ---- the fields the host fills in -----------------------------------

  /** Which part of a decision document a node describes. */
  datatype Mode = Whole | Proposal | Plain

  datatype HostValues = HostValues(stamp: string, outputHash: string, proposalHash: string)

  function ChildMode(mode: Mode, key: string): Mode {
    if mode.Whole? && key == "proposal" then Proposal else Plain
  }

  function HostField(host: HostValues, mode: Mode, key: string): Option<string> {
    if mode.Whole? && key == "created_at" then Some(host.stamp)
    else if mode.Whole? && key == "output_hash" then Some(host.outputHash)
    else if mode.Proposal? && key == "proposal_hash" then Some(host.proposalHash)
    else None
  }

  function Placeholder(key: string): string {
    if key == "created_at" then TIME_SENTINEL else HASH_SENTINEL
  }

  /** A decision with the host's time and hashes in place of the placeholders. */
  function Fill(host: HostValues, mode: Mode, doc: Json): Json
    decreases doc, 1
  {
    match doc
    case Obj(ms) => if mode.Plain? then doc else Obj(FillMembers(host, mode, ms))
    case _ => doc
  }

  function FillMembers(host: HostValues, mode: Mode, ms: seq<Member>): (r: seq<Member>)
    ensures |r| == |ms|
    decreases ms, 0
  {
    if ms == [] then []
    else [Member(ms[0].key, FillField(host, mode, ms[0].key, ms[0].value))] + FillMembers(host, mode, ms[1..])
  }

  function FillField(host: HostValues, mode: Mode, key: string, value: Json): Json
    decreases value, 2
  {
    match HostField(host, mode, key)
    case Some(final) => if value == Str(Placeholder(key)) then Str(final) else value
    case None => Fill(host, ChildMode(mode, key), value)
  }

  lemma {:induction false} FillAt(host: HostValues, mode: Mode, ms: seq<Member>, i: nat)
    requires i < |ms|
    ensures FillMembers(host, mode, ms)[i] == Member(ms[i].key, FillField(host, mode, ms[i].key, ms[i].value))
  {
    if i > 0 { FillAt(host, mode, ms[1..], i - 1); }
  }

  lemma FillShape(host: HostValues, mode: Mode, doc: Json)
    ensures ShapeOf(Fill(host, mode, doc)) == ShapeOf(doc)
    ensures !doc.Obj? ==> Fill(host, mode, doc) == doc
    ensures doc.Obj? ==> Fill(host, mode, doc).Obj? && Keys(Fill(host, mode, doc).members) == Keys(doc.members)
  {
    if doc.Obj? && !mode.Plain? {
      forall i | 0 <= i < |doc.members| ensures FillMembers(host, mode, doc.members)[i].key == doc.members[i].key {
        FillAt(host, mode, doc.members, i);
      }
    }
  }

  /** The member of a filled document, from the member of the document. */
  lemma FillMember(host: HostValues, mode: Mode, ms: seq<Member>, i: nat)
    requires i < |ms|
    ensures var filled := Fill(host, mode, Obj(ms)).members;
      |filled| == |ms| && filled[i] == Member(ms[i].key, FillField(host, mode, ms[i].key, ms[i].value))
  {
    FillAt(host, mode, ms, i);
  }

  // ---- the schemas the claim covers -----------------------------------

  /** Contains no object, so the walk leaves it alone. */
  predicate Flat(v: Json) {
    match v
    case Obj(_) => false
    case Arr(items) => forall i :: 0 <= i < |items| ==> Flat(items[i])
    case _ => true
  }

  /** Keywords whose meaning is not monotone, or that widen what `additionalProperties` skips. */
  predicate IsUncovered(key: string) {
    key in {"patternProperties", "prefixItems", "contains", "propertyNames",
            "unevaluatedProperties", "unevaluatedItems", "$ref", "$dynamicRef"}
  }

  /** Property names the walk would take for keywords of the property map itself. */
  predicate IsReserved(name: string) {
    IsDropped(name) || IsUnsupported(name)
  }

  /** A property named `const` needs one named `type` beside it, or the walk adds one. */
  predicate ConstTyped(ps: seq<Member>) {
    HasKey(ps, "const") ==> HasKey(ps, "type")
  }

  /** What can stand where a schema is expected. */
  predicate IsSchema(v: Json) { v.Bool? || v.Obj? }

  /** The value a placeholder at property `name` ends as. */
  function Planted(host: HostValues, mode: Mode, name: string, sentinel: string): string {
    match HostField(host, mode, name)
    case Some(final) => final
    case None => sentinel
  }

  /** Accepts every document. */
  predicate Opens(env: Env, root: seq<Member>, schema: Json, depth: nat)
    decreases depth
  {
    match schema
    case Bool(b) => b
    case Obj(ms) =>
      if ReferenceOf(ms).Some? && |ms| == 1 then
        match Resolve(env.files, root, ReferenceOf(ms).value)
        case Some(t) => depth > 0 && Opens(env, t.root, t.schema, depth - 1)
        case None => false
      else forall i :: 0 <= i < |ms| ==> IsAnnotation(ms[i].key)
    case _ => false
  }

  /** A map with arbitrary keys and values, as the narrowed fields are declared. */
  predicate OpenMap(env: Env, root: seq<Member>, ms: seq<Member>, depth: nat) {
    forall i :: 0 <= i < |ms| ==>
      || IsAnnotation(ms[i].key)
      || ms[i] == Member("type", Str("object"))
      || (ms[i].key == "additionalProperties" && Opens(env, root, ms[i].value, depth))
  }

  predicate RequiredDescribed(node: seq<Member>, arg: Json) {
    arg.Arr? ==> forall i :: 0 <= i < |arg.items| && arg.items[i].Str? ==> Describes(node, arg.items[i].s)
  }

  /** Accepts only objects that hold `tag` with the one value `value`. */
  predicate Tagged(branch: Json, tag: string, value: string) {
    && branch.Obj? && IsObjectNode(branch.members)
    && (match Find(branch.members, "required") case Some(Arr(names)) => Str(tag) in names case _ => false)
    && (match Find(branch.members, "properties")
        case Some(Obj(ps)) =>
          (match Find(ps, tag) case Some(Obj(node)) => Find(node, "const") == Some(Str(value)) case _ => false)
        case _ => false)
  }

  /** The branches are told apart by one property, which has another value in each. */
  predicate TaggedBy(branches: seq<Json>, tag: string, values: seq<string>) {
    && |values| == |branches|
    && (forall i :: 0 <= i < |branches| ==> Tagged(branches[i], tag, values[i]))
    && (forall i, j :: 0 <= i < j < |values| ==> values[i] != values[j])
  }

  ghost predicate ToldApart(branches: seq<Json>) {
    exists tag, values :: TaggedBy(branches, tag, values)
  }

  ghost predicate Supported(env: Env, host: HostValues, root: seq<Member>, schema: Json, path: seq<string>,
                            mode: Mode, depth: nat)
    decreases depth, schema, 1
  {
    match schema
    case Bool(_) => true
    case Obj(ms) =>
      && UniqueKeys(ms)
      && (if ReferenceOf(ms).Some? then
            match Resolve(env.files, root, ReferenceOf(ms).value)
            case Some(t) => depth > 0 ==> Supported(env, host, t.root, t.schema, path, mode, depth - 1)
            case None => true
          else if StrictMapAt(path).Some? then mode.Plain? && OpenMap(env, root, ms, depth)
          else forall i :: 0 <= i < |ms| ==>
                 KeywordSupported(env, host, root, ms, ms[i].key, ms[i].value, path, mode, depth))
    case _ => false
  }

  ghost predicate KeywordSupported(env: Env, host: HostValues, root: seq<Member>, node: seq<Member>, key: string,
                                   arg: Json, path: seq<string>, mode: Mode, depth: nat)
    decreases depth, arg, 2
  {
    if IsUncovered(key) then false
    else if key == "properties" then
      arg.Obj? && UniqueKeys(arg.members) && ConstTyped(arg.members)
      && forall i :: 0 <= i < |arg.members| ==>
           PropertySupported(env, host, root, arg.members[i].key, arg.members[i].value, path, mode, depth)
    else if key == "items" then Supported(env, host, root, arg, path + ["items"], Plain, depth)
    else if key == "anyOf" then
      arg.Arr? && forall i :: 0 <= i < |arg.items| ==>
        Supported(env, host, root, arg.items[i], path + ["anyOf"] + [JsonText.NatText(i)], mode, depth)
    else if key == "oneOf" then
      && arg.Arr? && ToldApart(arg.items)
      && forall i :: 0 <= i < |arg.items| ==>
           Supported(env, host, root, arg.items[i], path + ["oneOf"] + [JsonText.NatText(i)], mode, depth)
    else if key == "additionalProperties" then
      IsObjectNode(node)
          || (mode.Plain? && Supported(env, host, root, arg, path + ["additionalProperties"], Plain, depth))
    else if key == "required" then Flat(arg) && (IsObjectNode(node) ==> RequiredDescribed(node, arg))
    else IsAnnotation(key) || Flat(arg)
  }

  /** A property is a supported schema, or gets a placeholder whose final value is acceptable. */
  ghost predicate PropertySupported(env: Env, host: HostValues, root: seq<Member>, name: string, schema: Json,
                                    path: seq<string>, mode: Mode, depth: nat)
    decreases depth, schema, 2
  {
    && !IsReserved(name)
    && IsSchema(schema)
    && (schema.Obj? ==>
          match SentinelAt(path + ["properties"] + [name])
          case Some(sentinel) => Accepts(env, root, schema, Str(Planted(host, mode, name, sentinel)), depth)
          case None =>
            && HostField(host, mode, name) == None
            && Supported(env, host, root, schema, path + ["properties"] + [name], ChildMode(mode, name), depth))
  }

  // ---- what expansion leaves behind -----------------------------------

  lemma {:induction false} FlatUnchanged(files: map<string, seq<Member>>, root: seq<Member>, v: Json,
                                         path: seq<string>, depth: nat)
    requires Flat(v)
    ensures Expand(files, root, v, path, depth) == Ok(v)
    decreases v, 1
  {
    if v.Arr? { FlatItemsUnchanged(files, root, v.items, path, depth); }
  }

  lemma {:induction false} FlatItemsUnchanged(files: map<string, seq<Member>>, root: seq<Member>, items: seq<Json>,
                                              path: seq<string>, depth: nat)
    requires forall i :: 0 <= i < |items| ==> Flat(items[i])
    ensures ExpandItems(files, root, items, path, depth) == Ok(items)
    decreases items, 0
  {
    hide Expand, JsonText.NatText;
    if items != [] {
      var n := |items| - 1;
      FlatItemsUnchanged(files, root, items[..n], path, depth);
      FlatUnchanged(files, root, items[n], path + [JsonText.NatText(n)], depth);
      assert items == items[..n] + [items[n]];
    }
  }

  lemma {:induction false} ItemExpanded(files: map<string, seq<Member>>, root: seq<Member>, items: seq<Json>,
                                        path: seq<string>, depth: nat, i: nat)
    requires ExpandItems(files, root, items, path, depth).Ok? && i < |items|
    ensures Expand(files, root, items[i], path + [JsonText.NatText(i)], depth)
            == Ok(ExpandItems(files, root, items, path, depth).value[i])
  {
    hide Expand, JsonText.NatText;
    var n := |items| - 1;
    if i < n { ItemExpanded(files, root, items[..n], path, depth, i); }
  }

  /** Every kept member appears once in the result, with its own expansion. */
  lemma {:induction false} MembersExpanded(files: map<string, seq<Member>>, root: seq<Member>, ms: seq<Member>,
                                           path: seq<string>, depth: nat)
    requires UniqueKeys(ms) && ExpandMembers(files, root, ms, path, depth).Ok?
    ensures var es := ExpandMembers(files, root, ms, path, depth).value;
      && UniqueKeys(es)
      && (forall j :: 0 <= j < |es| ==> HasKey(ms, es[j].key) && !IsDropped(es[j].key))
  {
    if ms != [] {
      var n := |ms| - 1;
      MembersExpanded(files, root, ms[..n], path, depth);
      var init := ExpandMembers(files, root, ms[..n], path, depth).value;
      forall j | 0 <= j < |init| ensures HasKey(ms, init[j].key) && init[j].key != ms[n].key {
        var k :| 0 <= k < |ms[..n]| && ms[..n][k].key == init[j].key;
        assert ms[k].key == init[j].key;
      }
    }
  }

  lemma {:induction false} MemberExpanded(files: map<string, seq<Member>>, root: seq<Member>, ms: seq<Member>,
                                          path: seq<string>, depth: nat, i: nat)
    requires UniqueKeys(ms) && ExpandMembers(files, root, ms, path, depth).Ok? && i < |ms| && !IsDropped(ms[i].key)
    ensures var es := ExpandMembers(files, root, ms, path, depth).value; var e := Find(es, ms[i].key);
      e.Some? && Expand(files, root, ms[i].value, path + [ms[i].key], depth) == Ok(e.value)
  {
    var n := |ms| - 1;
    var es := ExpandMembers(files, root, ms, path, depth).value;
    MembersExpanded(files, root, ms, path, depth);
    if i < n {
      MemberExpanded(files, root, ms[..n], path, depth, i);
      var init := ExpandMembers(files, root, ms[..n], path, depth).value;
      var at := IndexOf(init, ms[i].key);
      assert es[at] == init[at];
      FindAt(es, at);
    } else {
      FindAt(es, |es| - 1);
    }
  }

  lemma AddTypeFind(ms: seq<Member>, key: string)
    requires HasKey(ms, key) || key != "type"
    ensures Find(AddType(ms), key) == Find(ms, key)
  {
    var r := AddType(ms);
    if r != ms {
      assert r[..|ms|] == ms;
      var i, j := IndexOf(ms, key), IndexOf(r, key);
      if i < |ms| { assert r[i].key == key; }
    }
  }

  /** Closing rewrites two keywords and keeps the others. */
  lemma CloseFind(ms: seq<Member>, key: string)
    requires Close(ms).Ok?
    ensures Close(ms).value.Obj?
    ensures !IsObjectNode(ms) || (key != "additionalProperties" && key != "required")
            ==> Find(Close(ms).value.members, key) == Find(ms, key)
    ensures IsObjectNode(ms) ==> Find(ms, "properties").Some? && Find(ms, "properties").value.Obj?
    ensures IsObjectNode(ms) ==> Find(Close(ms).value.members, "additionalProperties") == Some(Bool(false))
    ensures IsObjectNode(ms) ==>
              Find(Close(ms).value.members, "required") == Some(Arr(Names(Find(ms, "properties").value.members)))
  {
    if IsObjectNode(ms) {
      var ps := Find(ms, "properties").value.members;
      var mid := Assign(ms, "additionalProperties", Bool(false));
      FindAssign(ms, "additionalProperties", Bool(false), key);
      FindAssign(mid, "required", Arr(Names(ps)), key);
      FindAssign(mid, "required", Arr(Names(ps)), "required");
      FindAssign(ms, "additionalProperties", Bool(false), "additionalProperties");
      FindAssign(mid, "required", Arr(Names(ps)), "additionalProperties");
    }
  }

  /** The members the walk keeps, in order. */
  function Undropped(ms: seq<Member>): seq<Member> {
    if ms == [] then []
    else
      var n := |ms| - 1;
      Undropped(ms[..n]) + if IsDropped(ms[n].key) then [] else [ms[n]]
  }

  lemma {:induction false} UndroppedAll(ms: seq<Member>)
    requires forall i :: 0 <= i < |ms| ==> !IsDropped(ms[i].key)
    ensures Undropped(ms) == ms
  {
    if ms != [] { UndroppedAll(ms[..|ms| - 1]); }
  }

  lemma {:induction false} UndroppedExpanded(files: map<string, seq<Member>>, root: seq<Member>, ms: seq<Member>,
                                             path: seq<string>, depth: nat)
    requires ExpandMembers(files, root, ms, path, depth).Ok?
    ensures var es := ExpandMembers(files, root, ms, path, depth).value; var kept := Undropped(ms);
      |es| == |kept| && forall i :: 0 <= i < |kept| ==>
        es[i].key == kept[i].key && Expand(files, root, kept[i].value, path + [kept[i].key], depth) == Ok(es[i].value)
  {
    hide Expand;
    if ms != [] { UndroppedExpanded(files, root, ms[..|ms| - 1], path, depth); }
  }

  /** Walked as if it were a node, a map of schemas keeps exactly its undropped names, in order and
      each with its own expansion, unless a property named `const` has none named `type` beside it. */
  lemma WalkedMapKeeps(files: map<string, seq<Member>>, root: seq<Member>, ps: seq<Member>, path: seq<string>,
                       depth: nat)
    requires !HasUnsupported(ps) && ReferenceOf(ps).None?
    requires ExpandMembers(files, root, ps, path + ["properties"], depth).Ok?
    requires forall i :: 0 <= i < |ps| ==>
      var e := Expand(files, root, ps[i].value, path + ["properties"] + [ps[i].key], depth);
      e.Ok? ==> IsSchema(e.value)
    ensures var r := Expand(files, root, Obj(ps), path + ["properties"], depth);
      var kept := Undropped(ps);
      (r.Ok? && r.value.Obj? && |r.value.members| == |kept|
       && forall i :: 0 <= i < |kept| ==>
            r.value.members[i].key == kept[i].key
            && Expand(files, root, kept[i].value, path + ["properties"] + [kept[i].key], depth)
               == Ok(r.value.members[i].value))
      <==> ConstTyped(ps)
  {
    hide Expand;
    var at := path + ["properties"];
    assert at[|at| - 1] == "properties";
    var es := ExpandMembers(files, root, ps, at, depth).value;
    UndroppedExpanded(files, root, ps, at, depth);
    MapNode(files, root, ps, at, depth);
    forall i | 0 <= i < |es| ensures IsSchema(es[i].value) {
      UndroppedMember(ps, i);
    }
    UndroppedKey(ps, "const");
    UndroppedKey(ps, "type");
    KeptKey(Undropped(ps), es, "const");
    KeptKey(Undropped(ps), es, "type");
    SchemaMapFinish(es);
  }

  lemma MapNode(files: map<string, seq<Member>>, root: seq<Member>, ps: seq<Member>, at: seq<string>, depth: nat)
    requires SentinelAt(at).None? && StrictMapAt(at).None? && !HasUnsupported(ps) && ReferenceOf(ps).None?
    requires ExpandMembers(files, root, ps, at, depth).Ok?
    ensures Expand(files, root, Obj(ps), at, depth) == Finish(ExpandMembers(files, root, ps, at, depth).value)
  {
  }

  lemma {:induction false} UndroppedMember(ms: seq<Member>, i: nat)
    requires i < |Undropped(ms)|
    ensures exists k :: 0 <= k < |ms| && ms[k] == Undropped(ms)[i]
  {
    var n := |ms| - 1;
    if i < |Undropped(ms[..n])| {
      UndroppedMember(ms[..n], i);
      var k :| 0 <= k < n && ms[..n][k] == Undropped(ms)[i];
      assert ms[k] == Undropped(ms)[i];
    }
  }

  lemma {:induction false} UndroppedKey(ms: seq<Member>, key: string)
    requires !IsDropped(key)
    ensures HasKey(Undropped(ms), key) <==> HasKey(ms, key)
  {
    if ms != [] {
      var n := |ms| - 1;
      UndroppedKey(ms[..n], key);
      AppendedKey(ms[..n], ms[n], key);
      assert ms == ms[..n] + [ms[n]];
      if IsDropped(ms[n].key) {
        assert Undropped(ms) == Undropped(ms[..n]);
      } else {
        assert Undropped(ms) == Undropped(ms[..n]) + [ms[n]];
        AppendedKey(Undropped(ms[..n]), ms[n], key);
      }
    }
  }

  lemma AppendedKey(ms: seq<Member>, m: Member, key: string)
    ensures HasKey(ms + [m], key) <==> HasKey(ms, key) || m.key == key
  {
    var r := ms + [m];
    assert r[|ms|] == m && forall i :: 0 <= i < |ms| ==> r[i] == ms[i];
  }

  lemma KeptKey(ms: seq<Member>, es: seq<Member>, key: string)
    requires |ms| == |es| && forall i :: 0 <= i < |ms| ==> es[i].key == ms[i].key
    ensures HasKey(es, key) <==> HasKey(ms, key)
  {
  }

  /** Read as a node, a map of schemas is left alone exactly when it needs no type. */
  lemma SchemaMapFinish(es: seq<Member>)
    requires forall i :: 0 <= i < |es| ==> IsSchema(es[i].value)
    ensures ConstTyped(es) ==> Finish(es) == Ok(Obj(es))
    ensures !ConstTyped(es) && Finish(es).Ok? ==> Finish(es).value.Obj? && |Finish(es).value.members| > |es|
  {
    var ts := AddType(es);
    if Finish(es).Ok? && |ts| > |es| {
      assert Close(ts).Ok?;
      CloseGrows(ts);
    }
  }

  lemma CloseGrows(ts: seq<Member>)
    requires Close(ts).Ok?
    ensures Close(ts).value.Obj? && |Close(ts).value.members| >= |ts|
  {
  }

  predicate PropertyMap(ps: seq<Member>) {
    UniqueKeys(ps) && ConstTyped(ps) && forall i :: 0 <= i < |ps| ==> !IsReserved(ps[i].key) && IsSchema(ps[i].value)
  }

  /** A property map without reserved names keeps its names and expands each schema. */
  lemma PropertyMapExpanded(files: map<string, seq<Member>>, root: seq<Member>, ps: seq<Member>, path: seq<string>,
                            depth: nat)
    requires PropertyMap(ps)
    requires forall i :: 0 <= i < |ps| ==>
      var e := Expand(files, root, ps[i].value, path + ["properties"] + [ps[i].key], depth);
      e.Ok? ==> IsSchema(e.value)
    requires Expand(files, root, Obj(ps), path + ["properties"], depth).Ok?
    ensures var w := Expand(files, root, Obj(ps), path + ["properties"], depth).value;
      w.Obj? && |w.members| == |ps| && forall i :: 0 <= i < |ps| ==>
        w.members[i].key == ps[i].key
        && Expand(files, root, ps[i].value, path + ["properties"] + [ps[i].key], depth) == Ok(w.members[i].value)
  {
    var at := path + ["properties"];
    assert at[|at| - 1] == "properties";
    assert !HasUnsupported(ps);
    assert ReferenceOf(ps) == None;
    WalkedMapKeeps(files, root, ps, path, depth);
    UndroppedAll(ps);
  }

  /** A supported schema expands to a schema. */
  lemma {:induction false} ExpandsToSchema(env: Env, host: HostValues, root: seq<Member>, schema: Json,
                                           path: seq<string>, mode: Mode, depth: nat)
    requires Supported(env, host, root, schema, path, mode, depth) && Expand(env.files, root, schema, path, depth).Ok?
    ensures IsSchema(Expand(env.files, root, schema, path, depth).value)
    decreases depth
  {
    hide KeywordSupported, PropertySupported, OpenMap, ExpandMembers, AddType, Resolve, SentinelAt, HasUnsupported;
    if schema.Obj? && SentinelAt(path).None? {
      var ms := schema.members;
      if ReferenceOf(ms).Some? {
        var t := Resolve(env.files, root, ReferenceOf(ms).value).value;
        ExpandsToSchema(env, host, t.root, t.schema, path, mode, depth - 1);
      } else if StrictMapAt(path).None? {
        CloseGrows(AddType(ExpandMembers(env.files, root, ms, path, depth).value));
      }
    }
  }

  lemma PropertyToSchema(env: Env, host: HostValues, root: seq<Member>, name: string, schema: Json, path: seq<string>,
                         mode: Mode, depth: nat)
    requires PropertySupported(env, host, root, name, schema, path, mode, depth)
    ensures var e := Expand(env.files, root, schema, path + ["properties"] + [name], depth);
      e.Ok? ==> IsSchema(e.value)
  {
    var at := path + ["properties"] + [name];
    if schema.Obj? && SentinelAt(at).None? && Expand(env.files, root, schema, at, depth).Ok? {
      ExpandsToSchema(env, host, root, schema, at, ChildMode(mode, name), depth);
    }
  }

  /** An expanded generic node: its members `es`, its result `w`. */
  predicate NodeExpanded(files: map<string, seq<Member>>, root: seq<Member>, ms: seq<Member>, path: seq<string>,
                         depth: nat, es: seq<Member>, w: seq<Member>) {
    && UniqueKeys(ms) && !HasUnsupported(ms)
    && ExpandMembers(files, root, ms, path, depth) == Ok(es)
    && Finish(es) == Ok(Obj(w))
  }

  lemma NodeFind(files: map<string, seq<Member>>, root: seq<Member>, ms: seq<Member>, path: seq<string>, depth: nat,
                 es: seq<Member>, w: seq<Member>, i: nat)
    requires NodeExpanded(files, root, ms, path, depth, es, w) && i < |ms| && !IsDropped(ms[i].key)
    requires !IsObjectNode(AddType(es)) || (ms[i].key != "additionalProperties" && ms[i].key != "required")
    ensures var e := Find(w, ms[i].key);
      e.Some? && Expand(files, root, ms[i].value, path + [ms[i].key], depth) == Ok(e.value)
  {
    MemberExpanded(files, root, ms, path, depth, i);
    AddTypeFind(es, ms[i].key);
    CloseFind(AddType(es), ms[i].key);
  }

  lemma FlatFind(files: map<string, seq<Member>>, root: seq<Member>, ms: seq<Member>, path: seq<string>, depth: nat,
                 es: seq<Member>, key: string)
    requires UniqueKeys(ms) && ExpandMembers(files, root, ms, path, depth) == Ok(es) && !IsDropped(key)
    requires Find(ms, key).Some? ==> Flat(Find(ms, key).value)
    ensures Find(es, key) == Find(ms, key)
  {
    MembersExpanded(files, root, ms, path, depth);
    assert Find(es, key).Some? ==> HasKey(ms, es[IndexOf(es, key)].key);
    if Find(ms, key).Some? {
      var i := IndexOf(ms, key);
      MemberExpanded(files, root, ms, path, depth, i);
      FlatUnchanged(files, root, ms[i].value, path + [key], depth);
    }
  }

  lemma ObjectNodeKept(files: map<string, seq<Member>>, root: seq<Member>, ms: seq<Member>, path: seq<string>,
                       depth: nat, es: seq<Member>)
    requires UniqueKeys(ms) && ExpandMembers(files, root, ms, path, depth) == Ok(es)
    requires forall key :: key in {"type", "const", "enum"} && Find(ms, key).Some? ==> Flat(Find(ms, key).value)
    ensures IsObjectNode(AddType(es)) <==> IsObjectNode(ms)
  {
    FlatFind(files, root, ms, path, depth, es, "type");
    FlatFind(files, root, ms, path, depth, es, "const");
    FlatFind(files, root, ms, path, depth, es, "enum");
    if Find(ms, "type").Some? {
      AddTypeFind(es, "type");
    } else {
      AddedType(es);
    }
  }

  lemma AddedType(es: seq<Member>)
    requires !HasKey(es, "type")
    requires Find(es, "const").Some? ==> Flat(Find(es, "const").value)
    requires Find(es, "enum").Some? ==> Flat(Find(es, "enum").value)
    ensures !IsObjectNode(AddType(es))
  {
    var r := AddType(es);
    if |r| == |es| + 1 { AppendedFind(es, r[|es|]); }
  }

  lemma AppendedFind(es: seq<Member>, m: Member)
    requires !HasKey(es, m.key)
    ensures Find(es + [m], m.key) == Some(m.value)
  {
    var r := es + [m];
    var i := IndexOf(r, m.key);
    assert r[|es|].key == m.key;
    assert forall j :: 0 <= j < |es| ==> r[j] == es[j];
  }
}
