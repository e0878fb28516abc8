/** The arithmetic of a research action plan: ranking, funding and the submission budget. */
module ActionPlan {
  import opened Text

  /** One ranked action as it arrives; `None` stands for a missing or wrongly typed field. */
  datatype Item = Item(action: Option<string>, score: Option<real>, budget: Option<int>)

  datatype Limits = Limits(maximumActions: Option<int>, maximumSubmissions: Option<int>,
                           familyLimit: Option<int>, familyUsed: Option<int>)

  predicate WellFormed(item: Item) {
    && item.action.Some? && item.action.value != "UNKNOWN_LEGACY"
    && item.score.Some? && item.budget.Some? && item.budget.value >= 0
  }

  type RankKey = (real, string)

  function KeyOf(item: Item): RankKey
    requires WellFormed(item)
  {
    (-item.score.value, item.action.value)
  }

  // ---- ordering by key ------------------------------------------------------------------

  predicate KeyLess(a: RankKey, b: RankKey) { a.0 < b.0 || (a.0 == b.0 && Less(a.1, b.1)) }

  predicate KeyLeq(a: RankKey, b: RankKey) { a == b || KeyLess(a, b) }

  lemma KeyOrder(a: RankKey, b: RankKey, c: RankKey)
    ensures KeyLess(a, b) || a == b || KeyLess(b, a)
    ensures !(KeyLess(a, b) && KeyLess(b, a)) && !KeyLess(a, a)
    ensures KeyLess(a, b) && KeyLess(b, c) ==> KeyLess(a, c)
  {
    LessTrichotomy(a.1, b.1);
    LessIrreflexive(a.1);
    if Less(a.1, b.1) && Less(b.1, c.1) { LessTransitive(a.1, b.1, c.1); }
  }

  ghost predicate InOrder(keys: seq<RankKey>) {
    forall i, j :: 0 <= i < j < |keys| ==> KeyLeq(keys[i], keys[j])
  }

  function InsertKey(k: RankKey, keys: seq<RankKey>): (r: seq<RankKey>)
    ensures multiset(r) == multiset{k} + multiset(keys)
  {
    if keys == [] || KeyLeq(k, keys[0]) then [k] + keys
    else
      assert keys == [keys[0]] + keys[1..];
      [keys[0]] + InsertKey(k, keys[1..])
  }

  /** `sorted`. */
  function SortKeys(keys: seq<RankKey>): (r: seq<RankKey>)
    ensures multiset(r) == multiset(keys)
  {
    if keys == [] then []
    else
      assert keys == [keys[0]] + keys[1..];
      InsertKey(keys[0], SortKeys(keys[1..]))
  }

  lemma {:induction false} InsertInOrder(k: RankKey, keys: seq<RankKey>)
    requires InOrder(keys)
    ensures InOrder(InsertKey(k, keys))
  {
    if keys != [] {
      KeyOrder(k, keys[0], keys[0]);
      if KeyLeq(k, keys[0]) {
        forall i | 0 <= i < |keys| ensures KeyLeq(k, keys[i]) { KeyOrder(k, keys[0], keys[i]); }
      } else {
        InOrderTail(keys);
        InsertInOrder(k, keys[1..]);
        FirstStaysFirst(k, keys);
        hide KeyLeq;
      }
    }
  }

  lemma FirstStaysFirst(k: RankKey, keys: seq<RankKey>)
    requires InOrder(keys) && keys != [] && KeyLeq(keys[0], k)
    ensures forall i :: 0 <= i < |InsertKey(k, keys[1..])| ==> KeyLeq(keys[0], InsertKey(k, keys[1..])[i])
  {
    var r := InsertKey(k, keys[1..]);
    hide InsertKey, KeyLeq;
    forall i | 0 <= i < |r| ensures KeyLeq(keys[0], r[i]) {
      assert r[i] in multiset(r);
      if r[i] != k {
        assert r[i] in keys[1..];
        var j :| 0 <= j < |keys[1..]| && keys[1..][j] == r[i];
        assert keys[j + 1] == r[i];
      }
    }
  }

  lemma {:induction false} SortInOrder(keys: seq<RankKey>)
    ensures InOrder(SortKeys(keys))
    ensures InOrder(keys) ==> SortKeys(keys) == keys
  {
    hide KeyLeq;
    if keys != [] {
      SortInOrder(keys[1..]);
      InsertInOrder(keys[0], SortKeys(keys[1..]));
      if InOrder(keys) {
        InOrderTail(keys);
        assert keys == [keys[0]] + keys[1..];
      }
    }
  }

  lemma InOrderTail(keys: seq<RankKey>)
    requires InOrder(keys) && keys != []
    ensures InOrder(keys[1..]) && (|keys| > 1 ==> KeyLeq(keys[0], keys[1..][0]))
  {
  }

  // ---- the specification ----------------------------------------------------------------

  function Total(items: seq<Item>): int {
    if items == [] then 0
    else Total(items[..|items| - 1]) + (if items[|items| - 1].budget.Some? then items[|items| - 1].budget.value else 0)
  }

  function Funded(items: seq<Item>): nat {
    if items == [] then 0
    else Funded(items[..|items| - 1]) + if IsFunded(items[|items| - 1]) then 1 else 0
  }

  predicate IsFunded(item: Item) { item.budget.Some? && item.budget.value > 0 }

  predicate Ahead(a: Item, b: Item)
    requires WellFormed(a) && WellFormed(b)
  {
    && a.action != b.action
    && (a.score.value > b.score.value || (a.score.value == b.score.value && Less(a.action.value, b.action.value)))
  }

  /** Distinct actions by descending score, equal scores by name. */
  ghost predicate Ranked(items: seq<Item>) {
    && (forall i :: 0 <= i < |items| ==> WellFormed(items[i]))
    && (forall i, j :: 0 <= i < j < |items| ==> Ahead(items[i], items[j]))
  }

  ghost predicate WithinBudget(items: seq<Item>, limits: Limits) {
    && limits.maximumActions.Some? && limits.maximumSubmissions.Some?
    && limits.familyLimit.Some? && limits.familyUsed.Some?
    && limits.maximumActions.value > 0 && limits.maximumSubmissions.value > 0
    && Funded(items) <= limits.maximumActions.value
    && Total(items) == limits.maximumSubmissions.value <= limits.familyLimit.value - limits.familyUsed.value
  }

  function Keys(items: seq<Item>): (r: seq<RankKey>)
    requires forall i :: 0 <= i < |items| ==> WellFormed(items[i])
    ensures |r| == |items| && forall i :: 0 <= i < |items| ==> r[i] == KeyOf(items[i])
  {
    seq(|items|, i requires 0 <= i < |items| => KeyOf(items[i]))
  }

  lemma AheadByKey(a: Item, b: Item)
    requires WellFormed(a) && WellFormed(b)
    ensures Ahead(a, b) <==> a.action.value != b.action.value && KeyLeq(KeyOf(a), KeyOf(b))
  {
  }

  lemma RankedByKeys(items: seq<Item>, keys: seq<RankKey>, names: seq<string>)
    requires forall i :: 0 <= i < |items| ==> WellFormed(items[i])
    requires keys == Keys(items) && |names| == |items|
    requires forall i :: 0 <= i < |items| ==> names[i] == items[i].action.value
    ensures Ranked(items) <==> |Elements(names)| == |names| && SortKeys(keys) == keys
  {
    DistinctCount(names);
    SortInOrder(keys);
    hide SortKeys, Ahead, KeyLeq, KeyOf, WellFormed;
    forall i, j | 0 <= i < j < |items|
      ensures Ahead(items[i], items[j]) <==> names[i] != names[j] && KeyLeq(keys[i], keys[j])
    {
      AheadByKey(items[i], items[j]);
    }
  }

  lemma {:induction false} DistinctCount(names: seq<string>)
    ensures |Elements(names)| <= |names|
    ensures |Elements(names)| == |names| <==> forall i, j :: 0 <= i < j < |names| ==> names[i] != names[j]
  {
    if names != [] {
      var init, last := names[..|names| - 1], names[|names| - 1];
      DistinctCount(init);
      assert Elements(names) == Elements(init) + {last};
      assert forall i :: 0 <= i < |init| ==> init[i] == names[i];
      if last in init {
        assert Elements(names) == Elements(init);
        var k :| 0 <= k < |init| && init[k] == last;
        assert names[k] == names[|names| - 1];
      } else {
        assert last !in Elements(init);
        assert |Elements(init) + {last}| == |Elements(init)| + 1;
        assert forall i :: 0 <= i < |init| ==> names[i] in init;
      }
    }
  }

  // ---- the loop ---------------------------------------------------------------------------

  /** The checks as they run: one pass over the ranked actions, then the comparisons. */
  method CheckActionPlan(items: seq<Item>, limits: Limits) returns (ok: bool)
    ensures ok <==> items != [] && Ranked(items) && WithinBudget(items, limits)
  {
    hide Ranked, SortKeys;
    if items == [] { return false; }
    var names: seq<string>, keys: seq<RankKey> := [], [];
    var total, funded := 0, 0;
    for i := 0 to |items|
      invariant |names| == |keys| == i && funded == Funded(items[..i]) && total == Total(items[..i])
      invariant forall j :: 0 <= j < i ==>
        WellFormed(items[j]) && names[j] == items[j].action.value && keys[j] == KeyOf(items[j])
    {
      var item := items[i];
      if item.action == None || item.action.value == "UNKNOWN_LEGACY" || item.score == None || item.budget == None
        || item.budget.value < 0 {
        MalformedIsUnranked(items, i);
        return false;
      }
      assert items[..i + 1][..i] == items[..i];
      names, keys := names + [item.action.value], keys + [KeyOf(item)];
      total := total + item.budget.value;
      funded := funded + if item.budget.value > 0 then 1 else 0;
    }
    assert items[..|items|] == items;
    assert keys == Keys(items);
    RankedByKeys(items, keys, names);
    if |Elements(names)| != |names| { return false; }
    if keys != SortKeys(keys) { return false; }
    if limits.maximumActions == None || limits.maximumSubmissions == None { return false; }
    var actions, submissions := limits.maximumActions.value, limits.maximumSubmissions.value;
    if actions <= 0 || submissions <= 0 || funded > actions || total != submissions { return false; }
    if limits.familyLimit == None || limits.familyUsed == None { return false; }
    return submissions <= limits.familyLimit.value - limits.familyUsed.value;
  }

  lemma MalformedIsUnranked(items: seq<Item>, i: nat)
    requires i < |items| && !WellFormed(items[i])
    ensures !Ranked(items)
  {
  }

  // ---- what acceptance means ----------------------------------------------------------------

  /** A set of actions has only one accepted ranking. */
  lemma {:induction false} RankingUnique(a: seq<Item>, b: seq<Item>)
    requires Ranked(a) && Ranked(b) && multiset(a) == multiset(b)
    ensures a == b
  {
    hide Ranked;
    if a != [] {
      assert |multiset(a)| == |multiset(b)|;
      SameFirst(a, b);
      assert a == [a[0]] + a[1..] && b == [b[0]] + b[1..];
      assert multiset(a[1..]) == multiset(a) - multiset{a[0]} && multiset(b[1..]) == multiset(b) - multiset{b[0]};
      TailRanked(a);
      TailRanked(b);
      RankingUnique(a[1..], b[1..]);
    } else {
      assert |multiset(b)| == 0;
    }
  }

  lemma SameFirst(a: seq<Item>, b: seq<Item>)
    requires Ranked(a) && Ranked(b) && multiset(a) == multiset(b) && a != [] && b != []
    ensures a[0] == b[0]
  {
    assert WellFormed(a[0]) && WellFormed(b[0]);
    hide Ranked, KeyOf, KeyLess, WellFormed;
    assert a[0] in multiset(b) && b[0] in multiset(a);
    var i :| 0 <= i < |b| && b[i] == a[0];
    var j :| 0 <= j < |a| && a[j] == b[0];
    FirstKey(a, j);
    FirstKey(b, i);
    KeyOrder(KeyOf(a[0]), KeyOf(b[0]), KeyOf(a[0]));
  }

  lemma FirstKey(items: seq<Item>, i: nat)
    requires Ranked(items) && i < |items|
    ensures items[i] == items[0] || KeyLess(KeyOf(items[0]), KeyOf(items[i]))
  {
    if i > 0 { assert Ahead(items[0], items[i]); }
  }

  lemma TailRanked(a: seq<Item>)
    requires Ranked(a) && a != []
    ensures Ranked(a[1..])
  {
    assert forall i :: 0 <= i < |a[1..]| ==> a[1..][i] == a[i + 1];
  }

  lemma {:induction false} NothingFundedNothingSpent(items: seq<Item>)
    requires forall i :: 0 <= i < |items| ==> WellFormed(items[i]) && !IsFunded(items[i])
    ensures Total(items) == 0
  {
    if items != [] { NothingFundedNothingSpent(items[..|items| - 1]); }
  }

  function Permitted(items: seq<Item>): (r: set<string>)
    ensures forall x :: x in r <==> exists i :: 0 <= i < |items| && items[i].action == Some(x) && IsFunded(items[i])
  {
    set i | 0 <= i < |items| && items[i].action.Some? && IsFunded(items[i]) :: items[i].action.value
  }

  /** The loop that collects the actions a proposal may name. */
  method CollectPermitted(items: seq<Item>) returns (permitted: set<string>)
    ensures permitted == Permitted(items)
  {
    permitted := {};
    for i := 0 to |items|
      invariant permitted == Permitted(items[..i])
    {
      var item := items[i];
      assert items[..i + 1] == items[..i] + [item];
      if item.action.Some? && IsFunded(item) { permitted := permitted + {item.action.value}; }
    }
    assert items[..|items|] == items;
  }

  /** An accepted plan funds at least one action, so some action is always permitted, and never
      more of them than the plan allows. */
  lemma SomethingIsPermitted(items: seq<Item>, limits: Limits)
    requires Ranked(items) && WithinBudget(items, limits)
    ensures Permitted(items) != {} && |Permitted(items)| <= limits.maximumActions.value
  {
    if forall i :: 0 <= i < |items| ==> !IsFunded(items[i]) { NothingFundedNothingSpent(items); }
    var i :| 0 <= i < |items| && IsFunded(items[i]);
    assert items[i].action.value in Permitted(items);
    PermittedCount(items);
  }

  lemma {:induction false} PermittedCount(items: seq<Item>)
    ensures |Permitted(items)| <= Funded(items)
  {
    if items != [] {
      var init, last := items[..|items| - 1], items[|items| - 1];
      PermittedCount(init);
      assert items == init + [last];
      if IsFunded(last) && last.action.Some? {
        assert Permitted(items) == Permitted(init) + {last.action.value};
      } else {
        assert Permitted(items) == Permitted(init);
      }
    }
  }
}
