/** When the walk runs out of stack: exactly when it can reach a cycle of
    references, and then however deep the stack is. */
module SchemaCycles {
  import opened Text
  import opened Json
  import opened SchemaMeaning
  import opened SchemaCompiler
  import JsonText

  type Files = map<string, seq<Member>>

  // ---- what the walk reaches -------------------------------------------------

  /** A reference being followed: the definition it names and the path it stands at. */
  datatype Step = Step(target: Target, path: seq<string>)

  ghost predicate ItemsPass(files: Files, root: seq<Member>, items: seq<Json>, path: seq<string>) {
    exists d: nat :: ExpandItems(files, root, items, path, d).Ok?
  }

  ghost predicate MembersPass(files: Files, root: seq<Member>, ms: seq<Member>, path: seq<string>) {
    exists d: nat :: ExpandMembers(files, root, ms, path, d).Ok?
  }

  /** The walk of `v` follows the reference of step `s`: everything before it expands. */
  ghost predicate Visits(files: Files, root: seq<Member>, v: Json, path: seq<string>, s: Step) {
    match v
    case Arr(items) =>
      exists k :: 0 <= k < |items| && ItemsPass(files, root, items[..k], path)
                  && Visits(files, root, items[k], path + [JsonText.NatText(k)], s)
    case Obj(ms) =>
      if SentinelAt(path).Some? then false
      else if ReferenceOf(ms).Some? then
        |ms| == 1 && Resolve(files, root, ReferenceOf(ms).value) == Some(s.target) && s.path == path
      else
        && StrictMapAt(path).None? && !HasUnsupported(ms)
        && exists k :: 0 <= k < |ms| && !IsDropped(ms[k].key) && MembersPass(files, root, ms[..k], path)
                       && Visits(files, root, ms[k].value, path + [ms[k].key], s)
    case _ => false
  }

  ghost predicate Linked(files: Files, a: Step, b: Step) {
    Visits(files, a.target.root, a.target.schema, a.path, b)
  }

  /** All that the walk reads of a path: the narrowed map it names, if any, and
      whether a proposal encloses it. */
  function Context(path: seq<string>): (string, bool) {
    (if StrictMapAt(path).Some? then path[|path| - 1] else "", "proposal" in path)
  }

  /** What makes two steps alike to the walk. */
  function Key(s: Step): (Target, (string, bool)) { (s.target, Context(s.path)) }

  ghost predicate Trail(files: Files, root: seq<Member>, v: Json, path: seq<string>, steps: seq<Step>) {
    && steps != [] && Visits(files, root, v, path, steps[0])
    && forall i :: 0 < i < |steps| ==> Linked(files, steps[i - 1], steps[i])
  }

  /** References followed from `v` come back to a definition in the same context. */
  ghost predicate Cyclic(files: Files, root: seq<Member>, v: Json, path: seq<string>) {
    exists steps: seq<Step>, m: nat ::
      && Trail(files, root, v, path, steps)
      && m < |steps| - 1 && Key(steps[m]) == Key(steps[|steps| - 1])
  }

  // ---- a deeper stack changes nothing but the limit ---------------------------

  lemma {:induction false} Deeper(files: Files, root: seq<Member>, v: Json, path: seq<string>, d: nat, e: nat)
    requires d <= e && Expand(files, root, v, path, d) != Err(RecursionLimit)
    ensures Expand(files, root, v, path, e) == Expand(files, root, v, path, d)
    decreases d, v, 2
  {
    hide SentinelAt, StrictMapAt, SentinelSchema, Resolve, ReferenceOf, HasUnsupported, Finish, ExpandItems,
        ExpandMembers;
    match v
    case Arr(items) => ItemsDeeper(files, root, items, path, d, e);
    case Obj(ms) =>
      if SentinelAt(path).None? {
        if ReferenceOf(ms).Some? {
          if |ms| == 1 && Resolve(files, root, ReferenceOf(ms).value).Some? && d > 0 {
            var t := Resolve(files, root, ReferenceOf(ms).value).value;
            Deeper(files, t.root, t.schema, path, d - 1, e - 1);
          }
        } else if StrictMapAt(path).None? && !HasUnsupported(ms) {
          MembersDeeper(files, root, ms, path, d, e);
        }
      }
    case _ =>
  }

  lemma {:induction false} ItemsDeeper(files: Files, root: seq<Member>, items: seq<Json>, path: seq<string>,
                                       d: nat, e: nat)
    requires d <= e && ExpandItems(files, root, items, path, d) != Err(RecursionLimit)
    ensures ExpandItems(files, root, items, path, e) == ExpandItems(files, root, items, path, d)
    decreases d, items, 1
  {
    if items != [] {
      var n := |items| - 1;
      ItemsDeeper(files, root, items[..n], path, d, e);
      if ExpandItems(files, root, items[..n], path, d).Ok? {
        Deeper(files, root, items[n], path + [JsonText.NatText(n)], d, e);
      }
    }
  }

  lemma {:induction false} MembersDeeper(files: Files, root: seq<Member>, ms: seq<Member>, path: seq<string>,
                                         d: nat, e: nat)
    requires d <= e && ExpandMembers(files, root, ms, path, d) != Err(RecursionLimit)
    ensures ExpandMembers(files, root, ms, path, e) == ExpandMembers(files, root, ms, path, d)
    decreases d, ms, 1
  {
    if ms != [] {
      var n := |ms| - 1;
      MembersDeeper(files, root, ms[..n], path, d, e);
      if ExpandMembers(files, root, ms[..n], path, d).Ok? && !IsDropped(ms[n].key) {
        Deeper(files, root, ms[n].value, path + [ms[n].key], d, e);
      }
    }
  }

  // ---- only the context of a path matters -----------------------------------

  ghost predicate Alike(p: seq<string>, q: seq<string>) {
    SentinelAt(p) == SentinelAt(q) && StrictMapAt(p) == StrictMapAt(q) && ("proposal" in p <==> "proposal" in q)
  }

  lemma AlikeBelow(p: seq<string>, q: seq<string>, name: string)
    requires Alike(p, q)
    ensures Alike(p + [name], q + [name])
  {
  }

  lemma KeyDecides(a: Step, b: Step)
    requires Key(a) == Key(b) && SentinelAt(a.path).None? && SentinelAt(b.path).None?
    ensures a.target == b.target && Alike(a.path, b.path)
  {
  }

  lemma {:induction false} PathMatters(files: Files, root: seq<Member>, v: Json, p: seq<string>, q: seq<string>, d: nat)
    requires Alike(p, q)
    ensures Expand(files, root, v, p, d) == Expand(files, root, v, q, d)
    decreases d, v, 2
  {
    hide SentinelAt, StrictMapAt, SentinelSchema, Resolve, ReferenceOf, HasUnsupported, Finish, ExpandItems,
        ExpandMembers;
    match v
    case Arr(items) => ItemsPathMatters(files, root, items, p, q, d);
    case Obj(ms) =>
      if SentinelAt(p).None? {
        if ReferenceOf(ms).Some? {
          if |ms| == 1 && Resolve(files, root, ReferenceOf(ms).value).Some? && d > 0 {
            var t := Resolve(files, root, ReferenceOf(ms).value).value;
            PathMatters(files, t.root, t.schema, p, q, d - 1);
          }
        } else {
          MembersPathMatters(files, root, ms, p, q, d);
        }
      }
    case _ =>
  }

  lemma {:induction false} ItemsPathMatters(files: Files, root: seq<Member>, items: seq<Json>,
                                            p: seq<string>, q: seq<string>, d: nat)
    requires Alike(p, q)
    ensures ExpandItems(files, root, items, p, d) == ExpandItems(files, root, items, q, d)
    decreases d, items, 1
  {
    if items != [] {
      var n := |items| - 1;
      ItemsPathMatters(files, root, items[..n], p, q, d);
      AlikeBelow(p, q, JsonText.NatText(n));
      PathMatters(files, root, items[n], p + [JsonText.NatText(n)], q + [JsonText.NatText(n)], d);
    }
  }

  lemma {:induction false} MembersPathMatters(files: Files, root: seq<Member>, ms: seq<Member>,
                                              p: seq<string>, q: seq<string>, d: nat)
    requires Alike(p, q)
    ensures ExpandMembers(files, root, ms, p, d) == ExpandMembers(files, root, ms, q, d)
    decreases d, ms, 1
  {
    if ms != [] {
      var n := |ms| - 1;
      MembersPathMatters(files, root, ms[..n], p, q, d);
      AlikeBelow(p, q, ms[n].key);
      PathMatters(files, root, ms[n].value, p + [ms[n].key], q + [ms[n].key], d);
    }
  }

  // ---- a cycle stops the walk at every depth ----------------------------------

  lemma {:induction false} VisitedPath(files: Files, root: seq<Member>, v: Json, path: seq<string>, s: Step)
    requires Visits(files, root, v, path, s)
    ensures SentinelAt(s.path).None?
    decreases v
  {
    hide Resolve, HasUnsupported, StrictMapAt, MembersPass, ItemsPass;
    match v
    case Arr(items) =>
      var k :| 0 <= k < |items| && Visits(files, root, items[k], path + [JsonText.NatText(k)], s);
      VisitedPath(files, root, items[k], path + [JsonText.NatText(k)], s);
    case Obj(ms) =>
      if ReferenceOf(ms).None? {
        var k :| 0 <= k < |ms| && Visits(files, root, ms[k].value, path + [ms[k].key], s);
        VisitedPath(files, root, ms[k].value, path + [ms[k].key], s);
      }
    case _ =>
  }

  /** A list that expands at some depth meets nothing but the limit at any other. */
  lemma ItemsAgree(files: Files, root: seq<Member>, items: seq<Json>, path: seq<string>, d: nat)
    requires ItemsPass(files, root, items, path)
    ensures ExpandItems(files, root, items, path, d).Ok?
            || ExpandItems(files, root, items, path, d) == Err(RecursionLimit)
  {
    hide ExpandItems;
    var e: nat :| ExpandItems(files, root, items, path, e).Ok?;
    if ExpandItems(files, root, items, path, d) != Err(RecursionLimit) {
      ItemsDeeper(files, root, items, path, d, d + e);
      ItemsDeeper(files, root, items, path, e, d + e);
    }
  }

  /** When an item meets the limit and those before it pass, the list meets it. */
  lemma {:induction false} ItemsStop(files: Files, root: seq<Member>, items: seq<Json>, path: seq<string>, k: nat,
                                     d: nat)
    requires k < |items| && ItemsPass(files, root, items[..k], path)
    requires Expand(files, root, items[k], path + [JsonText.NatText(k)], d) == Err(RecursionLimit)
    ensures ExpandItems(files, root, items, path, d) == Err(RecursionLimit)
    decreases |items|
  {
    hide Expand, ItemsPass;
    var n := |items| - 1;
    if k < n {
      assert items[..n][..k] == items[..k];
      ItemsStop(files, root, items[..n], path, k, d);
    } else {
      ItemsAgree(files, root, items[..k], path, d);
    }
  }

  lemma MembersAgree(files: Files, root: seq<Member>, ms: seq<Member>, path: seq<string>, d: nat)
    requires MembersPass(files, root, ms, path)
    ensures ExpandMembers(files, root, ms, path, d).Ok?
            || ExpandMembers(files, root, ms, path, d) == Err(RecursionLimit)
  {
    hide ExpandMembers;
    var e: nat :| ExpandMembers(files, root, ms, path, e).Ok?;
    if ExpandMembers(files, root, ms, path, d) != Err(RecursionLimit) {
      MembersDeeper(files, root, ms, path, d, d + e);
      MembersDeeper(files, root, ms, path, e, d + e);
    }
  }

  lemma {:induction false} MembersStop(files: Files, root: seq<Member>, ms: seq<Member>, path: seq<string>, k: nat,
                                       d: nat)
    requires k < |ms| && !IsDropped(ms[k].key) && MembersPass(files, root, ms[..k], path)
    requires Expand(files, root, ms[k].value, path + [ms[k].key], d) == Err(RecursionLimit)
    ensures ExpandMembers(files, root, ms, path, d) == Err(RecursionLimit)
    decreases |ms|
  {
    hide IsDropped, Expand, MembersPass;
    var n := |ms| - 1;
    if k < n {
      assert ms[..n][..k] == ms[..k];
      MembersStop(files, root, ms[..n], path, k, d);
    } else {
      MembersAgree(files, root, ms[..k], path, d);
    }
  }

  lemma {:induction false} VisitStops(files: Files, root: seq<Member>, v: Json, path: seq<string>, s: Step, d: nat)
    requires Visits(files, root, v, path, s)
    requires d > 0 ==> Expand(files, s.target.root, s.target.schema, s.path, d - 1) == Err(RecursionLimit)
    ensures Expand(files, root, v, path, d) == Err(RecursionLimit)
    decreases v
  {
    match v
    case Arr(items) =>
      var k :| 0 <= k < |items| && ItemsPass(files, root, items[..k], path)
               && Visits(files, root, items[k], path + [JsonText.NatText(k)], s);
      VisitStops(files, root, items[k], path + [JsonText.NatText(k)], s, d);
      ItemsStop(files, root, items, path, k, d);
    case Obj(ms) =>
      if ReferenceOf(ms).None? {
        var k :| 0 <= k < |ms| && !IsDropped(ms[k].key) && MembersPass(files, root, ms[..k], path)
                 && Visits(files, root, ms[k].value, path + [ms[k].key], s);
        VisitStops(files, root, ms[k].value, path + [ms[k].key], s, d);
        MembersStop(files, root, ms, path, k, d);
      }
    case _ =>
  }

  lemma {:induction false} LoopStops(files: Files, root: seq<Member>, v: Json, path: seq<string>, steps: seq<Step>,
                                     m: nat, i: nat, d: nat)
    requires Trail(files, root, v, path, steps) && m < |steps| - 1 && Key(steps[m]) == Key(steps[|steps| - 1])
    requires i < |steps| - 1
    ensures Expand(files, steps[i].target.root, steps[i].target.schema, steps[i].path, d) == Err(RecursionLimit)
    decreases d
  {
    hide Expand, Visits, Key;
    assert Linked(files, steps[i], steps[i + 1]);
    if d > 0 {
      if i + 1 < |steps| - 1 {
        LoopStops(files, root, v, path, steps, m, i + 1, d - 1);
      } else {
        LoopStops(files, root, v, path, steps, m, m, d - 1);
        StepPath(files, root, v, path, steps, m);
        StepPath(files, root, v, path, steps, i + 1);
        KeyDecides(steps[m], steps[i + 1]);
        PathMatters(files, steps[m].target.root, steps[m].target.schema, steps[m].path, steps[i + 1].path, d - 1);
      }
    }
    VisitStops(files, steps[i].target.root, steps[i].target.schema, steps[i].path, steps[i + 1], d);
  }

  lemma StepPath(files: Files, root: seq<Member>, v: Json, path: seq<string>, steps: seq<Step>, i: nat)
    requires Trail(files, root, v, path, steps) && i < |steps|
    ensures SentinelAt(steps[i].path).None?
  {
    if i == 0 {
      VisitedPath(files, root, v, path, steps[0]);
    } else {
      assert Linked(files, steps[i - 1], steps[i]);
      VisitedPath(files, steps[i - 1].target.root, steps[i - 1].target.schema, steps[i - 1].path, steps[i]);
    }
  }

  lemma {:induction false} CycleStops(files: Files, root: seq<Member>, v: Json, path: seq<string>, d: nat)
    requires Cyclic(files, root, v, path)
    ensures Expand(files, root, v, path, d) == Err(RecursionLimit)
  {
    hide Expand, Visits, Key;
    var steps: seq<Step>, m: nat :|
      Trail(files, root, v, path, steps) && m < |steps| - 1 && Key(steps[m]) == Key(steps[|steps| - 1]);
    if d > 0 { LoopStops(files, root, v, path, steps, m, 0, d - 1); }
    VisitStops(files, root, v, path, steps[0], d);
  }

  // ---- a stop at the bound shows a cycle ---------------------------------------

  lemma {:induction false} FirstStop(files: Files, root: seq<Member>, v: Json, path: seq<string>,
                                     d: nat) returns (s: Step)
    requires Expand(files, root, v, path, d) == Err(RecursionLimit)
    ensures Visits(files, root, v, path, s)
    ensures d > 0 ==> Expand(files, s.target.root, s.target.schema, s.path, d - 1) == Err(RecursionLimit)
    decreases v
  {
    match v
    case Arr(items) =>
      var k := FirstItem(files, root, items, path, d);
      s := FirstStop(files, root, items[k], path + [JsonText.NatText(k)], d);
    case Obj(ms) =>
      if ReferenceOf(ms).Some? {
        s := Step(Resolve(files, root, ReferenceOf(ms).value).value, path);
      } else {
        FinishNeverStops(files, root, ms, path, d);
        var k := FirstMember(files, root, ms, path, d);
        s := FirstStop(files, root, ms[k].value, path + [ms[k].key], d);
      }
  }

  lemma FinishNeverStops(files: Files, root: seq<Member>, ms: seq<Member>, path: seq<string>, d: nat)
    requires SentinelAt(path).None? && ReferenceOf(ms).None?
    requires Expand(files, root, Obj(ms), path, d) == Err(RecursionLimit)
    ensures StrictMapAt(path).None? && !HasUnsupported(ms)
    ensures ExpandMembers(files, root, ms, path, d) == Err(RecursionLimit)
  {
  }

  lemma {:induction false} FirstItem(files: Files, root: seq<Member>, items: seq<Json>, path: seq<string>, d: nat)
    returns (k: nat)
    requires ExpandItems(files, root, items, path, d) == Err(RecursionLimit)
    ensures k < |items| && ItemsPass(files, root, items[..k], path)
    ensures Expand(files, root, items[k], path + [JsonText.NatText(k)], d) == Err(RecursionLimit)
  {
    var n := |items| - 1;
    if ExpandItems(files, root, items[..n], path, d).Ok? {
      k := n;
    } else {
      k := FirstItem(files, root, items[..n], path, d);
      assert items[..n][..k] == items[..k];
    }
  }

  lemma {:induction false} FirstMember(files: Files, root: seq<Member>, ms: seq<Member>, path: seq<string>, d: nat)
    returns (k: nat)
    requires ExpandMembers(files, root, ms, path, d) == Err(RecursionLimit)
    ensures k < |ms| && !IsDropped(ms[k].key) && MembersPass(files, root, ms[..k], path)
    ensures Expand(files, root, ms[k].value, path + [ms[k].key], d) == Err(RecursionLimit)
  {
    var n := |ms| - 1;
    if ExpandMembers(files, root, ms[..n], path, d).Ok? {
      k := n;
    } else {
      k := FirstMember(files, root, ms[..n], path, d);
      assert ms[..n][..k] == ms[..k];
    }
  }

  /** The definitions a file holds. */
  function Definitions(root: seq<Member>): seq<Member> {
    match Find(root, "$defs")
    case Some(Obj(defs)) => defs
    case _ => []
  }

  /** Everything a reference met on the walk of `root` can name. */
  function Targets(files: Files, root: seq<Member>): set<Target> {
    (set i | 0 <= i < |Definitions(root)| :: Target(root, Definitions(root)[i].value))
    + (set f | f in files :: Target(files[f], Obj(files[f])))
    + (set f, i | f in files && 0 <= i < |Definitions(files[f])| :: Target(files[f], Definitions(files[f])[i].value))
  }

  lemma ResolvedTarget(files: Files, root: seq<Member>, reference: string)
    requires Resolve(files, root, reference).Some?
    ensures Resolve(files, root, reference).value in Targets(files, root)
  {
    if StartsWith(reference, DEFS_PREFIX) {
      var name := reference[|DEFS_PREFIX|..];
      var i := IndexOf(Definitions(root), name);
      assert Definitions(root)[i].value == Resolve(files, root, reference).value.schema;
    }
  }

  lemma TargetsShrink(files: Files, root: seq<Member>, t: Target)
    requires t in Targets(files, root)
    ensures Targets(files, t.root) <= Targets(files, root)
  {
  }

  lemma {:induction false} VisitedTarget(files: Files, root: seq<Member>, v: Json, path: seq<string>, s: Step)
    requires Visits(files, root, v, path, s)
    ensures s.target in Targets(files, root)
    decreases v
  {
    hide Resolve, HasUnsupported, StrictMapAt, MembersPass, ItemsPass, Targets;
    match v
    case Arr(items) =>
      var k :| 0 <= k < |items| && Visits(files, root, items[k], path + [JsonText.NatText(k)], s);
      VisitedTarget(files, root, items[k], path + [JsonText.NatText(k)], s);
    case Obj(ms) =>
      if ReferenceOf(ms).Some? {
        ResolvedTarget(files, root, ReferenceOf(ms).value);
      } else {
        var k :| 0 <= k < |ms| && Visits(files, root, ms[k].value, path + [ms[k].key], s);
        VisitedTarget(files, root, ms[k].value, path + [ms[k].key], s);
      }
  }

  const NARROWED := {"", "estimated_cost_sensitivity", "minimum_economic_effect", "estimated_capacity",
                     "estimated_turnover"}

  /** Every definition in every context. */
  function AllKeys(files: Files, root: seq<Member>): set<(Target, (string, bool))> {
    set t, name, b | t in Targets(files, root) && name in NARROWED && b in {false, true} :: (t, (name, b))
  }

  lemma KeyListed(files: Files, root: seq<Member>, s: Step)
    requires s.target in Targets(files, root)
    ensures Key(s) in AllKeys(files, root)
  {
    assert Context(s.path).0 in NARROWED;
  }

  /** A walk that stops at depth `d` follows `d + 1` references in a row. */
  lemma {:induction false} LongTrail(files: Files, root: seq<Member>, v: Json, path: seq<string>, d: nat)
    returns (steps: seq<Step>)
    requires Expand(files, root, v, path, d) == Err(RecursionLimit)
    ensures Trail(files, root, v, path, steps) && |steps| == d + 1
    ensures forall i :: 0 <= i < |steps| ==> steps[i].target in Targets(files, root)
    decreases d
  {
    hide Expand, Visits, Targets;
    var s := FirstStop(files, root, v, path, d);
    VisitedTarget(files, root, v, path, s);
    if d == 0 {
      steps := [s];
    } else {
      var rest := LongTrail(files, s.target.root, s.target.schema, s.path, d - 1);
      TargetsShrink(files, root, s.target);
      assert Linked(files, s, rest[0]);
      steps := [s] + rest;
    }
  }

  lemma {:induction false} Pigeonhole<T>(s: seq<T>, all: set<T>) returns (i: nat, j: nat)
    requires |s| > |all| && forall k :: 0 <= k < |s| ==> s[k] in all
    ensures i < j < |s| && s[i] == s[j]
    decreases |s|
  {
    var n := |s| - 1;
    if k :| 0 <= k < n && s[k] == s[n] {
      i, j := k, n;
    } else {
      i, j := Pigeonhole(s[..n], all - {s[n]});
    }
  }

  lemma {:induction false} StopShowsCycle(files: Files, root: seq<Member>, v: Json, path: seq<string>)
    requires Expand(files, root, v, path, |AllKeys(files, root)|) == Err(RecursionLimit)
    ensures Cyclic(files, root, v, path)
  {
    hide Expand, Visits, AllKeys, Targets, Key;
    var steps := LongTrail(files, root, v, path, |AllKeys(files, root)|);
    var keys := seq(|steps|, i requires 0 <= i < |steps| => Key(steps[i]));
    forall i | 0 <= i < |keys| ensures keys[i] in AllKeys(files, root) { KeyListed(files, root, steps[i]); }
    var i, j := Pigeonhole(keys, AllKeys(files, root));
    var loop := steps[..j + 1];
    assert Trail(files, root, v, path, loop) && i < |loop| - 1 && Key(loop[i]) == Key(loop[|loop| - 1]);
  }

  /** The walk runs out of stack at every depth exactly when it reaches a cycle of
      references, and one depth, the number of definitions times contexts, decides it. */
  lemma {:induction false} RecursionExactly(files: Files, root: seq<Member>, v: Json, path: seq<string>)
    ensures Cyclic(files, root, v, path) <==>
            forall d: nat :: Expand(files, root, v, path, d) == Err(RecursionLimit)
    ensures Cyclic(files, root, v, path) <==>
            Expand(files, root, v, path, |AllKeys(files, root)|) == Err(RecursionLimit)
  {
    hide Expand, AllKeys;
    if Cyclic(files, root, v, path) {
      forall d: nat ensures Expand(files, root, v, path, d) == Err(RecursionLimit) {
        CycleStops(files, root, v, path, d);
      }
    } else {
      var bound: nat := |AllKeys(files, root)|;
      if Expand(files, root, v, path, bound) == Err(RecursionLimit) { StopShowsCycle(files, root, v, path); }
      assert Expand(files, root, v, path, bound) != Err(RecursionLimit);
    }
  }

  /** A definition that is a reference to itself, met as the whole schema. */
  lemma SelfReference(path: seq<string>, d: nat)
    requires SentinelAt(path).None?
    ensures var reference := Obj([Member("$ref", Str("#/$defs/a"))]);
            var root := [Member("$defs", Obj([Member("a", reference)]))];
            Cyclic(map[], root, reference, path) && Expand(map[], root, reference, path, d) == Err(RecursionLimit)
  {
    var reference := Obj([Member("$ref", Str("#/$defs/a"))]);
    var root := [Member("$defs", Obj([Member("a", reference)]))];
    assert reference.members[0].key == "$ref";
    assert Resolve(map[], root, "#/$defs/a") == Some(Target(root, reference)) by {
      assert "#/$defs/a"[|DEFS_PREFIX|..] == "a";
    }
    var s := Step(Target(root, reference), path);
    assert Visits(map[], root, reference, path, s);
    assert Linked(map[], s, s);
    assert Trail(map[], root, reference, path, [s, s]) && Key([s, s][0]) == Key([s, s][1]);
    CycleStops(map[], root, reference, path, d);
  }

  // ---- a ranking rules cycles out ----------------------------------------------

  /** Every reference inside `v`, read in `root`, has rank below `r`. */
  ghost predicate RefsBelow(files: Files, root: seq<Member>, v: Json, rank: Target -> nat, r: nat) {
    match v
    case Arr(items) => forall i :: 0 <= i < |items| ==> RefsBelow(files, root, items[i], rank, r)
    case Obj(ms) =>
      && (ReferenceOf(ms).Some? && Resolve(files, root, ReferenceOf(ms).value).Some? ==>
            rank(Resolve(files, root, ReferenceOf(ms).value).value) < r)
      && forall i :: 0 <= i < |ms| ==> RefsBelow(files, root, ms[i].value, rank, r)
    case _ => true
  }

  /** What a definition of these files refers to ranks below it. */
  ghost predicate Ranked(files: Files, root: seq<Member>, rank: Target -> nat) {
    forall t :: t in Targets(files, root) ==> RefsBelow(files, t.root, t.schema, rank, rank(t))
  }

  lemma {:induction false} VisitedRank(files: Files, root: seq<Member>, v: Json, path: seq<string>, s: Step,
                                       rank: Target -> nat, r: nat)
    requires Visits(files, root, v, path, s) && RefsBelow(files, root, v, rank, r)
    ensures rank(s.target) < r
    decreases v
  {
    match v
    case Arr(items) =>
      var k :| 0 <= k < |items| && Visits(files, root, items[k], path + [JsonText.NatText(k)], s);
      VisitedRank(files, root, items[k], path + [JsonText.NatText(k)], s, rank, r);
    case Obj(ms) =>
      if ReferenceOf(ms).None? {
        var k :| 0 <= k < |ms| && Visits(files, root, ms[k].value, path + [ms[k].key], s);
        VisitedRank(files, root, ms[k].value, path + [ms[k].key], s, rank, r);
      }
  }

  /** With acyclic references the walk ends within the rank, never by running out of stack. */
  lemma {:induction false} ExpansionTerminates(files: Files, root: seq<Member>, v: Json, path: seq<string>,
                                               depth: nat, rank: Target -> nat)
    requires Ranked(files, root, rank) && RefsBelow(files, root, v, rank, depth)
    ensures Expand(files, root, v, path, depth) != Err(RecursionLimit)
  {
    if Expand(files, root, v, path, depth) == Err(RecursionLimit) {
      var steps := LongTrail(files, root, v, path, depth);
      VisitedRank(files, root, v, path, steps[0], rank, depth);
      RanksFall(files, root, v, path, steps, rank, depth);
    }
  }

  lemma {:induction false} RanksFall(files: Files, root: seq<Member>, v: Json, path: seq<string>, steps: seq<Step>,
                                     rank: Target -> nat, depth: nat)
    requires Ranked(files, root, rank) && Trail(files, root, v, path, steps) && rank(steps[0].target) < depth
    requires forall i :: 0 <= i < |steps| ==> steps[i].target in Targets(files, root)
    ensures |steps| <= depth
  {
    var i := 0;
    while i < |steps| - 1
      invariant 0 <= i < |steps| && rank(steps[i].target) + i < depth
    {
      assert Linked(files, steps[i], steps[i + 1]);
      var t := steps[i].target;
      VisitedRank(files, t.root, t.schema, steps[i].path, steps[i + 1], rank, rank(t));
      i := i + 1;
    }
  }

  // A list of named items: one definition uses another, and the file uses the first.

  const NAME := Obj([Member("type", Str("string"))])
  const NAME_USE := Obj([Member("$ref", Str("#/$defs/name"))])
  const LIST := Obj([Member("items", NAME_USE)])
  const LIST_USE := Obj([Member("$ref", Str("#/$defs/list"))])
  const LIST_DEFS := [Member("name", NAME), Member("list", LIST)]
  const LIST_FILE := [Member("$defs", Obj(LIST_DEFS)), Member("anyOf", Arr([LIST_USE]))]
  const LIST_FILES: Files := map["list.json" := LIST_FILE]

  function ListRank(t: Target): nat {
    if t.schema == NAME then 0 else if t.schema == LIST then 1 else 2
  }

  lemma ExampleUses()
    ensures Resolve(LIST_FILES, LIST_FILE, "#/$defs/name") == Some(Target(LIST_FILE, NAME))
    ensures Resolve(LIST_FILES, LIST_FILE, "#/$defs/list") == Some(Target(LIST_FILE, LIST))
  {
    assert "#/$defs/name"[|DEFS_PREFIX|..] == "name" && "#/$defs/list"[|DEFS_PREFIX|..] == "list";
    assert LIST_FILE[0].key == "$defs" && LIST_DEFS[0].key == "name" && LIST_DEFS[1].key == "list";
  }

  lemma ExampleRanks()
    ensures ListRank(Target(LIST_FILE, NAME)) == 0 && ListRank(Target(LIST_FILE, LIST)) == 1
  {
    assert NAME.members[0].key != LIST.members[0].key;
  }

  lemma NodeBelow(files: Files, root: seq<Member>, ms: seq<Member>, rank: Target -> nat, r: nat)
    requires forall i :: 0 <= i < |ms| ==> ms[i].key != "$ref" && RefsBelow(files, root, ms[i].value, rank, r)
    ensures RefsBelow(files, root, Obj(ms), rank, r)
  {
    assert !HasKey(ms, "$ref");
  }

  lemma TypedBelow(files: Files, root: seq<Member>, name: string, rank: Target -> nat, r: nat)
    ensures RefsBelow(files, root, Obj([Member("type", Str(name))]), rank, r)
  {
    NodeBelow(files, root, [Member("type", Str(name))], rank, r);
  }

  lemma ArrayBelow(files: Files, root: seq<Member>, item: Json, rank: Target -> nat, r: nat)
    requires RefsBelow(files, root, item, rank, r)
    ensures RefsBelow(files, root, Arr([item]), rank, r)
  {
  }

  lemma UseBelow(files: Files, root: seq<Member>, reference: string, t: Target, rank: Target -> nat, r: nat)
    requires Resolve(files, root, reference) == Some(t) && rank(t) < r
    ensures RefsBelow(files, root, Obj([Member("$ref", Str(reference))]), rank, r)
  {
    hide Resolve;
    assert [Member("$ref", Str(reference))][0].key == "$ref";
  }

  lemma ExampleReferences(r: nat)
    ensures RefsBelow(LIST_FILES, LIST_FILE, NAME, ListRank, r)
    ensures r > 0 ==> RefsBelow(LIST_FILES, LIST_FILE, LIST, ListRank, r)
    ensures r > 1 ==> RefsBelow(LIST_FILES, LIST_FILE, Obj(LIST_FILE), ListRank, r)
  {
    hide Resolve, LIST_FILES, ListRank, RefsBelow;
    ExampleUses();
    ExampleRanks();
    TypedBelow(LIST_FILES, LIST_FILE, "string", ListRank, r);
    if r > 0 {
      UseBelow(LIST_FILES, LIST_FILE, "#/$defs/name", Target(LIST_FILE, NAME), ListRank, r);
      NodeBelow(LIST_FILES, LIST_FILE, LIST.members, ListRank, r);
      if r > 1 {
        UseBelow(LIST_FILES, LIST_FILE, "#/$defs/list", Target(LIST_FILE, LIST), ListRank, r);
        ArrayBelow(LIST_FILES, LIST_FILE, LIST_USE, ListRank, r);
        NodeBelow(LIST_FILES, LIST_FILE, LIST_DEFS, ListRank, r);
        NodeBelow(LIST_FILES, LIST_FILE, LIST_FILE, ListRank, r);
      }
    }
  }

  lemma ExampleTargets(t: Target)
    requires t in Targets(LIST_FILES, LIST_FILE)
    ensures t.root == LIST_FILE && t.schema in {NAME, LIST, Obj(LIST_FILE)}
  {
    assert LIST_FILE[0].key == "$defs";
    assert Definitions(LIST_FILE) == LIST_DEFS;
  }

  /** The ranking of the example: its premises can be met. */
  lemma RankedExample()
    ensures Ranked(LIST_FILES, LIST_FILE, ListRank)
    ensures RefsBelow(LIST_FILES, LIST_FILE, Obj(LIST_FILE), ListRank, 2)
  {
    hide RefsBelow, Targets;
    forall t | t in Targets(LIST_FILES, LIST_FILE)
      ensures RefsBelow(LIST_FILES, t.root, t.schema, ListRank, ListRank(t))
    {
      ExampleTargets(t);
      ExampleReferences(ListRank(t));
    }
    ExampleReferences(2);
  }
}
