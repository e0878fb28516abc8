/** The walk as the program performs it, step by step, and the schema supplied to a model. */
module SchemaWalk {
  import opened Json
  import opened SchemaMeaning
  import opened SchemaCompiler
  import opened SchemaRefinement
  import opened SchemaSoundness
  import opened SchemaNormalForm
  import JsonText

  lemma {:induction false} FirstItemError(files: Files, root: seq<Member>, items: seq<Json>, path: seq<string>,
                                          depth: nat, n: nat)
    requires n <= |items| && ExpandItems(files, root, items[..n], path, depth).Err?
    ensures ExpandItems(files, root, items, path, depth) == ExpandItems(files, root, items[..n], path, depth)
    decreases |items|
  {
    if n == |items| {
      assert items[..n] == items;
    } else {
      var init := items[..|items| - 1];
      assert init[..n] == items[..n];
      FirstItemError(files, root, init, path, depth, n);
    }
  }

  lemma {:induction false} FirstMemberError(files: Files, root: seq<Member>, ms: seq<Member>, path: seq<string>,
                                            depth: nat, n: nat)
    requires n <= |ms| && ExpandMembers(files, root, ms[..n], path, depth).Err?
    ensures ExpandMembers(files, root, ms, path, depth) == ExpandMembers(files, root, ms[..n], path, depth)
    decreases |ms|
  {
    if n == |ms| {
      assert ms[..n] == ms;
    } else {
      var init := ms[..|ms| - 1];
      assert init[..n] == ms[..n];
      FirstMemberError(files, root, init, path, depth, n);
    }
  }

  /** `_expand_structured_output_node`: fills a result node member by member, then edits it. */
  method ExpandNode(files: Files, root: seq<Member>, value: Json, path: seq<string>,
                    depth: nat) returns (r: Result<Json>)
    ensures r == Expand(files, root, value, path, depth)
    decreases depth, value, 2
  {
    hide JsonText.NatText, Resolve, StrictMapAt, SentinelAt, ReferenceOf, StrictMap, ExpandMembers, Finish;
    match value
    case Arr(items) =>
      var done: seq<Json> := [];
      for i := 0 to |items|
        invariant ExpandItems(files, root, items[..i], path, depth) == Ok(done)
      {
        var e := ExpandNode(files, root, items[i], path + [JsonText.NatText(i)], depth);
        assert items[..i + 1][..i] == items[..i];
        if e.Err? {
          FirstItemError(files, root, items, path, depth, i + 1);
          return e;
        }
        done := done + [e.value];
      }
      assert items[..|items|] == items;
      r := Ok(Arr(done));
    case Obj(ms) =>
      if SentinelAt(path).Some? {
        r := Ok(SentinelSchema(SentinelAt(path).value));
      } else if ReferenceOf(ms).Some? {
        if |ms| != 1 { return Err(RefSiblings); }
        var t := Resolve(files, root, ReferenceOf(ms).value);
        if t.None? { return Err(UnknownReference); }
        if depth == 0 { return Err(RecursionLimit); }
        r := ExpandNode(files, t.value.root, t.value.schema, path, depth - 1);
      } else if StrictMapAt(path).Some? {
        r := Ok(StrictMapAt(path).value);
      } else if HasUnsupported(ms) {
        r := Err(UnsupportedKeyword);
      } else {
        r := ExpandGeneric(files, root, ms, path, depth);
      }
    case _ => r := Ok(value);
  }

  method ExpandGeneric(files: Files, root: seq<Member>, ms: seq<Member>, path: seq<string>,
                       depth: nat) returns (r: Result<Json>)
    ensures var es := ExpandMembers(files, root, ms, path, depth);
      r == if es.Err? then Err(es.error) else Finish(es.value)
    decreases depth, ms, 1
  {
    var result: seq<Member> := [];
    for i := 0 to |ms|
      invariant ExpandMembers(files, root, ms[..i], path, depth) == Ok(result)
    {
      assert ms[..i + 1][..i] == ms[..i];
      if !IsDropped(ms[i].key) {
        var e := ExpandNode(files, root, ms[i].value, path + [ms[i].key], depth);
        if e.Err? {
          FirstMemberError(files, root, ms, path, depth, i + 1);
          return e;
        }
        result := result + [Member(ms[i].key, e.value)];
      }
    }
    assert ms[..|ms|] == ms;
    result := AddType(result);
    if IsObjectNode(result) {
      var properties := Find(result, "properties");
      if properties.None? || !properties.value.Obj? { return Err(NoFixedProperties); }
      result := Assign(result, "additionalProperties", Bool(false));
      result := Assign(result, "required", Arr(Names(properties.value.members)));
    }
    r := Ok(Obj(result));
  }

  /** The schema handed to the model accepts only documents that, with the host's own values
      filled in, the authoritative schema accepts; `unique` off leaves `uniqueItems` aside. */
  lemma StructuredOutputNarrows(env: Env, host: HostValues, approved: set<string>, name: string, mode: Mode, depth: nat,
                                doc: Json, root0: seq<Member>, depth0: nat)
    requires var r := StructuredOutputSchema(env.files, approved, name, depth);
      r.Ok? && Accepts(env, root0, r.value, doc, depth0)
    requires Supported(env, host, env.files[name], Obj(env.files[name]), [], mode, depth)
    requires env.unique ==> ArraysDistinct(Fill(host, mode, doc))
    ensures Accepts(env, env.files[name], Obj(env.files[name]), Fill(host, mode, doc), depth)
  {
    var p := Place(env, host, env.files[name], [], mode, depth, root0, depth0);
    CompilationNarrows(p, Obj(env.files[name]), doc);
  }

  /** The supplied schema is self-contained and strict, its root is a closed object without
      `anyOf`, and compiling it again changes nothing. */
  lemma StructuredOutputStrict(files: Files, approved: set<string>, name: string, depth: nat, files2: Files,
                               depth2: nat)
    requires forall f :: f in files ==> Proper(Obj(files[f])) && RefStrings(Obj(files[f]))
    requires StructuredOutputSchema(files, approved, name, depth).Ok?
    ensures var w := StructuredOutputSchema(files, approved, name, depth).value;
      && Strict(w) && w.Obj? && IsObjectNode(w.members) && !HasKey(w.members, "anyOf")
      && Expand(files2, w.members, w, [], depth2) == Ok(w)
  {
    CompiledStrict(files, files[name], Obj(files[name]), [], depth);
    var w := StructuredOutputSchema(files, approved, name, depth).value;
    CompilingTwice(files, files[name], Obj(files[name]), [], depth, files2, w.members, depth2);
  }
}
