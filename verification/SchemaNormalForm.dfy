/** The shape of compiled schemas: strict everywhere and stable under a second
    compilation. */
module SchemaNormalForm {
  import opened Text
  import opened Json
  import opened SchemaMeaning
  import opened SchemaCompiler
  import opened SchemaRefinement
  import JsonText

  type Files = map<string, seq<Member>>

  // ---- well-formed references -----------------------------------------

  /** No object uses `$ref` for anything but a reference. */
  predicate RefStrings(v: Json) {
    match v
    case Arr(items) => forall i :: 0 <= i < |items| ==> RefStrings(items[i])
    case Obj(ms) =>
      && (HasKey(ms, "$ref") ==> ReferenceOf(ms).Some?)
      && forall i :: 0 <= i < |ms| ==> RefStrings(ms[i].value)
    case _ => true
  }

  predicate Sound(files: Files, root: seq<Member>) {
    RefStrings(Obj(root)) && forall name :: name in files ==> RefStrings(Obj(files[name]))
  }

  lemma FoundIn(ms: seq<Member>, key: string)
    requires RefStrings(Obj(ms)) && Find(ms, key).Some?
    ensures RefStrings(Find(ms, key).value)
  {
  }

  lemma ResolveSound(files: Files, root: seq<Member>, reference: string)
    requires Sound(files, root) && Resolve(files, root, reference).Some?
    ensures var t := Resolve(files, root, reference).value; Sound(files, t.root) && RefStrings(t.schema)
  {
    if StartsWith(reference, DEFS_PREFIX) {
      FoundIn(root, "$defs");
      FoundIn(Find(root, "$defs").value.members, reference[|DEFS_PREFIX|..]);
    }
  }

  // ---- strictness --------------------------------------------------------

  /** What a node of a compiled schema may look like; keys in general are unrestricted. */
  predicate StrictNode(ms: seq<Member>) {
    && (forall i :: 0 <= i < |ms| ==> !IsDropped(ms[i].key) && !IsUnsupported(ms[i].key) && ms[i].key != "$ref")
    && (HasKey(ms, "const") ==> HasKey(ms, "type"))
    && (IsObjectNode(ms) ==>
          match Find(ms, "properties")
          case Some(Obj(ps)) =>
            Find(ms, "additionalProperties") == Some(Bool(false)) && Find(ms, "required") == Some(Arr(Names(ps)))
          case _ => false)
  }

  predicate Strict(v: Json) {
    match v
    case Arr(items) => forall i :: 0 <= i < |items| ==> Strict(items[i])
    case Obj(ms) => StrictNode(ms) && forall i :: 0 <= i < |ms| ==> Strict(ms[i].value)
    case _ => true
  }

  lemma AssignMembers(ms: seq<Member>, key: string, value: Json)
    ensures var r := Assign(ms, key, value);
      forall i :: 0 <= i < |r| ==> r[i] == Member(key, value) || (i < |ms| && r[i] == ms[i])
  {
  }

  predicate WrittenByAdapter(m: Member) {
    || (m.key == "type" && m.value.Str?)
    || m == Member("additionalProperties", Bool(false))
    || (m.key == "required" && m.value.Arr? && forall k :: 0 <= k < |m.value.items| ==> m.value.items[k].Str?)
  }

  /** Every member of a finished node is an expanded member or one of the three the adapter writes. */
  lemma FinishMembers(es: seq<Member>)
    requires Finish(es).Ok?
    ensures Finish(es).value.Obj?
    ensures var w := Finish(es).value.members;
      forall i :: 0 <= i < |w| ==> w[i] in es || WrittenByAdapter(w[i])
  {
    hide Find, HasKey, Assign, LiteralType, Names;
    var ts := AddType(es);
    if IsObjectNode(ts) {
      var ps := Find(ts, "properties").value.members;
      AssignMembers(ts, "additionalProperties", Bool(false));
      AssignMembers(Assign(ts, "additionalProperties", Bool(false)), "required", Arr(Names(ps)));
    }
  }

  lemma FinishStrict(es: seq<Member>)
    requires Finish(es).Ok?
    requires forall i :: 0 <= i < |es| ==>
      !IsDropped(es[i].key) && !IsUnsupported(es[i].key) && es[i].key != "$ref" && Strict(es[i].value)
    ensures Strict(Finish(es).value)
  {
    FinishMembers(es);
    FinishNode(es);
    var w := Finish(es).value.members;
    hide Finish, WrittenByAdapter, IsDropped, IsUnsupported, Find, IsObjectNode;
    forall i | 0 <= i < |w|
      ensures !IsDropped(w[i].key) && !IsUnsupported(w[i].key) && w[i].key != "$ref" && Strict(w[i].value)
    {
      if w[i] in es {
        var k :| 0 <= k < |es| && es[k] == w[i];
      } else {
        WrittenStrict(w[i]);
      }
    }
    assert StrictNode(w);
  }

  lemma WrittenStrict(m: Member)
    requires WrittenByAdapter(m)
    ensures !IsDropped(m.key) && !IsUnsupported(m.key) && m.key != "$ref" && Strict(m.value)
  {
  }

  /** A finished node is typed where it is constant, and closed where it is an object. */
  lemma FinishNode(es: seq<Member>)
    requires Finish(es).Ok?
    ensures var w := Finish(es).value.members;
      && (HasKey(w, "const") ==> HasKey(w, "type"))
      && (IsObjectNode(w) ==>
            match Find(w, "properties")
            case Some(Obj(ps)) =>
              Find(w, "additionalProperties") == Some(Bool(false)) && Find(w, "required") == Some(Arr(Names(ps)))
            case _ => false)
  {
    var ts := AddType(es);
    var w := Finish(es).value.members;
    CloseFind(ts, "type");
    CloseFind(ts, "const");
    CloseFind(ts, "properties");
    AddTypeFind(es, "const");
    assert HasKey(w, "const") ==> Find(w, "const").Some?;
    assert HasKey(es, "const") ==> HasKey(ts, "type") by {
      if HasKey(es, "const") && !HasKey(es, "type") { assert ts[|es|].key == "type"; }
    }
    assert HasKey(ts, "type") ==> Find(w, "type").Some?;
  }

  lemma FixedSchemasStrict(path: seq<string>)
    ensures SentinelAt(path).Some? ==> Strict(SentinelSchema(SentinelAt(path).value))
    ensures StrictMapAt(path).Some? ==> Strict(StrictMapAt(path).value)
  {
    if SentinelAt(path).Some? {
      var ms := SentinelSchema(SentinelAt(path).value).members;
      assert ms[0].key == "type";
      FindAt(ms, 0);
    }
    if StrictMapAt(path).Some? { StrictMapStrict(path[|path| - 1]); }
  }

  lemma TypedStrict(name: string)
    requires name != "object"
    ensures Strict(Typed(name))
  {
    FindAt(Typed(name).members, 0);
  }

  lemma ClosedStrict(ms: seq<Member>, n: nat, properties: seq<Member>)
    requires UniqueKeys(ms) && |ms| >= 4 && n == |ms| - 3
    requires ms[n] == Member("additionalProperties", Bool(false))
    requires ms[n + 1] == Member("required", Arr(Names(properties)))
            && ms[n + 2] == Member("properties", Obj(properties))
    requires forall i :: 0 <= i < n ==> ms[i].value.Str? && ms[i].key in {"type", "description"}
    requires ms[0].key == "type"
    requires forall i :: 0 <= i < |properties| ==>
      Strict(properties[i].value)
      && properties[i].key in {"metric", "threshold", "comparison", "usd", "one_way_daily", "cost_1x", "cost_2x",
          "cost_3x"}
    ensures Strict(Obj(ms))
  {
    FindAt(ms, n);
    FindAt(ms, n + 1);
    FindAt(ms, n + 2);
    PlainPropertiesStrict(properties);
  }

  lemma PlainPropertiesStrict(properties: seq<Member>)
    requires forall i :: 0 <= i < |properties| ==>
      Strict(properties[i].value)
      && properties[i].key in {"metric", "threshold", "comparison", "usd", "one_way_daily", "cost_1x", "cost_2x",
          "cost_3x"}
    ensures Strict(Obj(properties))
  {
    assert !HasKey(properties, "type") && !HasKey(properties, "const");
  }

  lemma ClosedObjectStrict(names: seq<Json>, properties: seq<Member>)
    requires names == Names(properties)
    requires forall i :: 0 <= i < |properties| ==>
      Strict(properties[i].value)
      && properties[i].key in {"metric", "threshold", "comparison", "usd", "one_way_daily", "cost_1x", "cost_2x",
          "cost_3x"}
    ensures Strict(ClosedObject(names, properties))
  {
    ClosedStrict(ClosedObject(names, properties).members, 1, properties);
  }

  lemma StrictMapStrict(field: string)
    requires StrictMap(field).Some?
    ensures Strict(StrictMap(field).value)
  {
    hide Strict, Names;
    TypedStrict("number");
    TypedStrict("string");
    if field == "estimated_cost_sensitivity" {
      StrictCostsStrict();
    } else if field == "minimum_economic_effect" {
      EffectStrict();
    } else if field == "estimated_capacity" {
      ClosedObjectStrict([Str("usd")], [Member("usd", Typed("number"))]);
    } else {
      ClosedObjectStrict([Str("one_way_daily")], [Member("one_way_daily", Typed("number"))]);
    }
  }

  lemma EffectStrict()
    ensures Strict(StrictMap("minimum_economic_effect").value)
  {
    hide Strict;
    TypedStrict("number");
    TypedStrict("string");
    ClosedObjectStrict([Str("metric"), Str("threshold"), Str("comparison")],
                       [Member("metric", Typed("string")), Member("threshold", Typed("number")),
                        Member("comparison", Typed("string"))]);
  }

  lemma StrictCostsStrict()
    ensures Strict(StrictCosts())
  {
    hide Strict;
    TypedStrict("number");
    var ps := [Member("cost_1x", Typed("number")), Member("cost_2x", Typed("number")),
        Member("cost_3x", Typed("number"))];
    assert Names(ps) == [Str("cost_1x"), Str("cost_2x"), Str("cost_3x")];
    ClosedStrict(StrictCosts().members, 2, ps);
  }

  /** Every object of a compiled schema, wherever it stands, is strict. */
  lemma {:induction false} CompiledStrict(files: Files, root: seq<Member>, v: Json, path: seq<string>, depth: nat)
    requires Sound(files, root) && RefStrings(v) && Expand(files, root, v, path, depth).Ok?
    ensures Strict(Expand(files, root, v, path, depth).value)
    decreases depth, v, 2
  {
    hide Resolve, SentinelAt, StrictMapAt, HasUnsupported, Finish, ExpandMembers, ExpandItems, SentinelSchema;
    match v
    case Arr(items) => ItemsStrict(files, root, items, path, depth);
    case Obj(ms) =>
      if SentinelAt(path).Some? {
        FixedSchemasStrict(path);
      } else if ReferenceOf(ms).Some? {
        ResolveSound(files, root, ReferenceOf(ms).value);
        var t := Resolve(files, root, ReferenceOf(ms).value).value;
        CompiledStrict(files, t.root, t.schema, path, depth - 1);
      } else if StrictMapAt(path).Some? {
        FixedSchemasStrict(path);
      } else {
        MembersStrict(files, root, ms, path, depth);
        FinishStrict(ExpandMembers(files, root, ms, path, depth).value);
      }
    case _ =>
  }

  lemma {:induction false} ItemsStrict(files: Files, root: seq<Member>, items: seq<Json>, path: seq<string>, depth: nat)
    requires Sound(files, root) && (forall i :: 0 <= i < |items| ==> RefStrings(items[i]))
    requires ExpandItems(files, root, items, path, depth).Ok?
    ensures Strict(Arr(ExpandItems(files, root, items, path, depth).value))
    decreases depth, items, 1
  {
    if items != [] {
      var n := |items| - 1;
      ItemsStrict(files, root, items[..n], path, depth);
      CompiledStrict(files, root, items[n], path + [JsonText.NatText(n)], depth);
    }
  }

  lemma {:induction false} MembersStrict(files: Files, root: seq<Member>, ms: seq<Member>, path: seq<string>,
                                         depth: nat)
    requires Sound(files, root) && (forall i :: 0 <= i < |ms| ==> RefStrings(ms[i].value))
    requires !HasUnsupported(ms) && !HasKey(ms, "$ref")
    requires ExpandMembers(files, root, ms, path, depth).Ok?
    ensures forall i :: 0 <= i < |ExpandMembers(files, root, ms, path, depth).value| ==>
      var e := ExpandMembers(files, root, ms, path, depth).value[i];
      !IsDropped(e.key) && !IsUnsupported(e.key) && e.key != "$ref" && Strict(e.value)
    decreases depth, ms, 1
  {
    if ms != [] {
      var n := |ms| - 1;
      assert forall i :: 0 <= i < n ==> ms[..n][i] == ms[i];
      MembersStrict(files, root, ms[..n], path, depth);
      if !IsDropped(ms[n].key) {
        CompiledStrict(files, root, ms[n].value, path + [ms[n].key], depth);
      }
    }
  }

  // ---- compiling twice ---------------------------------------------------

  /** Compiling a compiled schema, under any files and limit, changes nothing. */
  lemma {:induction false} CompilingTwice(files: Files, root: seq<Member>, v: Json, path: seq<string>, depth: nat,
                         files2: Files, root2: seq<Member>, depth2: nat)
    requires Sound(files, root) && RefStrings(v) && Proper(v) && Proper(Obj(root))
            && (forall f :: f in files ==> Proper(Obj(files[f])))
    requires Expand(files, root, v, path, depth).Ok?
    ensures Expand(files2, root2, Expand(files, root, v, path, depth).value, path, depth2)
            == Expand(files, root, v, path, depth)
    decreases depth, v, 2
  {
    hide Resolve, StrictMapAt, SentinelAt, ReferenceOf, StrictMap, ExpandItems, ExpandMembers, Finish;
    match v
    case Arr(items) => ItemsTwice(files, root, items, path, depth, files2, root2, depth2);
    case Obj(ms) =>
      if SentinelAt(path).Some? {
      } else if ReferenceOf(ms).Some? {
        ResolveSound(files, root, ReferenceOf(ms).value);
        ResolveProper(files, root, ReferenceOf(ms).value);
        var t := Resolve(files, root, ReferenceOf(ms).value).value;
        CompilingTwice(files, t.root, t.schema, path, depth - 1, files2, root2, depth2);
      } else if StrictMapAt(path).Some? {
        StrictMapStable(files2, root2, path, depth2);
      } else {
        NodeTwice(files, root, ms, path, depth, files2, root2, depth2);
      }
    case _ =>
  }

  lemma ResolveProper(files: Files, root: seq<Member>, reference: string)
    requires Proper(Obj(root)) && (forall f :: f in files ==> Proper(Obj(files[f])))
    requires Resolve(files, root, reference).Some?
    ensures var t := Resolve(files, root, reference).value; Proper(Obj(t.root)) && Proper(t.schema)
  {
    if StartsWith(reference, DEFS_PREFIX) {
      var i := IndexOf(root, "$defs");
      assert Proper(root[i].value);
    }
  }

  lemma StrictMapStable(files: Files, root: seq<Member>, path: seq<string>, depth: nat)
    requires SentinelAt(path).None? && StrictMapAt(path).Some?
    ensures Expand(files, root, StrictMapAt(path).value, path, depth) == Ok(StrictMapAt(path).value)
  {
    var ms := StrictMapAt(path).value.members;
    assert forall i :: 0 <= i < |ms| ==> ms[i].key != "$ref";
  }

  lemma {:induction false} ItemsTwice(files: Files, root: seq<Member>, items: seq<Json>, path: seq<string>, depth: nat,
                     files2: Files, root2: seq<Member>, depth2: nat)
    requires Sound(files, root) && Proper(Obj(root)) && (forall f :: f in files ==> Proper(Obj(files[f])))
    requires forall i :: 0 <= i < |items| ==> RefStrings(items[i]) && Proper(items[i])
    requires ExpandItems(files, root, items, path, depth).Ok?
    ensures ExpandItems(files2, root2, ExpandItems(files, root, items, path, depth).value, path, depth2)
            == ExpandItems(files, root, items, path, depth)
    decreases depth, items, 1
  {
    if items != [] {
      var n := |items| - 1;
      ItemsTwice(files, root, items[..n], path, depth, files2, root2, depth2);
      CompilingTwice(files, root, items[n], path + [JsonText.NatText(n)], depth, files2, root2, depth2);
      var r := ExpandItems(files, root, items, path, depth).value;
      assert r[..n] == ExpandItems(files, root, items[..n], path, depth).value;
    }
  }

  /** Each expanded member, walked again under its own key, is unchanged. */
  lemma {:induction false} MembersTwice(files: Files, root: seq<Member>, ms: seq<Member>, path: seq<string>, depth: nat,
                       files2: Files, root2: seq<Member>, depth2: nat)
    requires Sound(files, root) && Proper(Obj(root)) && (forall f :: f in files ==> Proper(Obj(files[f])))
    requires forall i :: 0 <= i < |ms| ==> RefStrings(ms[i].value) && Proper(ms[i].value)
    requires ExpandMembers(files, root, ms, path, depth).Ok?
    ensures forall i :: 0 <= i < |ExpandMembers(files, root, ms, path, depth).value| ==>
      var e := ExpandMembers(files, root, ms, path, depth).value[i];
      Expand(files2, root2, e.value, path + [e.key], depth2) == Ok(e.value)
    decreases depth, ms, 1
  {
    if ms != [] {
      var n := |ms| - 1;
      assert forall i :: 0 <= i < n ==> ms[..n][i] == ms[i];
      MembersTwice(files, root, ms[..n], path, depth, files2, root2, depth2);
      if !IsDropped(ms[n].key) {
        CompilingTwice(files, root, ms[n].value, path + [ms[n].key], depth, files2, root2, depth2);
      }
    }
  }

  lemma {:induction false} MembersFixed(files: Files, root: seq<Member>, ms: seq<Member>, path: seq<string>, depth: nat)
    requires forall i :: 0 <= i < |ms| ==>
      !IsDropped(ms[i].key) && Expand(files, root, ms[i].value, path + [ms[i].key], depth) == Ok(ms[i].value)
    ensures ExpandMembers(files, root, ms, path, depth) == Ok(ms)
  {
    if ms != [] {
      var n := |ms| - 1;
      MembersFixed(files, root, ms[..n], path, depth);
      assert ms == ms[..n] + [ms[n]];
    }
  }

  lemma AssignSame(ms: seq<Member>, key: string, value: Json)
    requires Find(ms, key) == Some(value)
    ensures Assign(ms, key, value) == ms
  {
  }

  lemma FinishTwice(es: seq<Member>)
    requires Finish(es).Ok? && Finish(es).value.Obj?
    ensures Finish(Finish(es).value.members) == Finish(es)
  {
    var ts := AddType(es);
    var w := Finish(es).value.members;
    CloseFind(ts, "type");
    CloseFind(ts, "const");
    CloseFind(ts, "enum");
    CloseFind(ts, "properties");
    if IsObjectNode(ts) {
      AssignSame(w, "additionalProperties", Bool(false));
      AssignSame(w, "required", Arr(Names(Find(ts, "properties").value.members)));
    } else {
      assert w == ts;
      if ts != es { assert ts[|es|].key == "type"; }
    }
  }

  lemma {:induction false} NodeTwice(files: Files, root: seq<Member>, ms: seq<Member>, path: seq<string>, depth: nat,
                    files2: Files, root2: seq<Member>, depth2: nat)
    requires Sound(files, root) && RefStrings(Obj(ms)) && Proper(Obj(ms)) && Proper(Obj(root))
    requires forall f :: f in files ==> Proper(Obj(files[f]))
    requires SentinelAt(path).None? && ReferenceOf(ms).None? && StrictMapAt(path).None?
    requires Expand(files, root, Obj(ms), path, depth).Ok?
    ensures Expand(files2, root2, Expand(files, root, Obj(ms), path, depth).value, path, depth2)
            == Expand(files, root, Obj(ms), path, depth)
    decreases depth, ms, 2
  {
    hide StrictMapAt, SentinelAt, AddType, Close;
    var es := ExpandMembers(files, root, ms, path, depth).value;
    MembersTwice(files, root, ms, path, depth, files2, root2, depth2);
    MembersStrict(files, root, ms, path, depth);
    FinishMembers(es);
    FinishStrict(es);
    var w := Finish(es).value.members;
    forall i | 0 <= i < |w|
      ensures !IsDropped(w[i].key) && Expand(files2, root2, w[i].value, path + [w[i].key], depth2) == Ok(w[i].value)
    {
      if w[i] in es {
        var k :| 0 <= k < |es| && es[k] == w[i];
      } else {
        FlatUnchanged(files2, root2, w[i].value, path + [w[i].key], depth2);
      }
    }
    MembersFixed(files2, root2, w, path, depth2);
    FinishTwice(es);
    assert StrictNode(w);
    assert ReferenceOf(w) == None;
  }
}
