/** Reading access control lists from their SDDL text, and the test that decides whether a
    revocation may be recorded. */
module Sddl {
  import opened Text

  // ---- the text of an access control list -------------------------------------------

  predicate NoParen(s: string) { '(' !in s && ')' !in s }

  /** The longest prefix without parentheses, and the rest. */
  function Body(s: string): (r: (string, string))
    ensures s == r.0 + r.1 && NoParen(r.0)
    ensures r.1 != "" ==> r.1[0] == '(' || r.1[0] == ')'
  {
    if s == "" || s[0] == '(' || s[0] == ')' then ("", s)
    else var (b, rest) := Body(s[1..]); ([s[0]] + b, rest)
  }

  /** Every innermost parenthesised text, from left to right. */
  function Aces(sddl: string): seq<string>
    decreases |sddl|
  {
    if sddl == "" then []
    else if sddl[0] != '(' then Aces(sddl[1..])
    else
      var (body, rest) := Body(sddl[1..]);
      if rest != "" && rest[0] == ')' then [body] + Aces(rest[1..]) else Aces(sddl[1..])
  }

  /** Where the first parenthesis opens. */
  function FirstAce(sddl: string): (i: nat)
    ensures i <= |sddl|
  {
    if sddl == "" || sddl[0] == '(' then 0 else 1 + FirstAce(sddl[1..])
  }

  /** The control flags that count: protection, but not the two inheritance flags. */
  function Flags(control: string): seq<string> {
    if control == "" then []
    else if StartsWith(control, "AI") || StartsWith(control, "AR") then Flags(control[2..])
    else if control[0] == 'P' then ["P"] + Flags(control[1..])
    else Flags(control[1..])
  }

  function Control(sddl: string): string {
    if FirstAce(sddl) < 2 then "" else sddl[2..FirstAce(sddl)]
  }

  // ---- sorting with duplicates -----------------------------------------------------

  predicate Before(a: string, b: string) { a == b || Less(a, b) }

  ghost predicate InOrder(s: seq<string>) {
    forall i, j :: 0 <= i < j < |s| ==> Before(s[i], s[j])
  }

  function Insert(x: string, s: seq<string>): (r: seq<string>)
    ensures multiset(r) == multiset{x} + multiset(s)
  {
    if s == [] || Before(x, s[0]) then [x] + s
    else
      assert s == [s[0]] + s[1..];
      [s[0]] + Insert(x, s[1..])
  }

  /** `sorted`. */
  function Sort(s: seq<string>): (r: seq<string>)
    ensures multiset(r) == multiset(s)
  {
    if s == [] then []
    else
      assert s == [s[0]] + s[1..];
      Insert(s[0], Sort(s[1..]))
  }

  lemma {:induction false} InsertInOrder(x: string, s: seq<string>)
    requires InOrder(s)
    ensures InOrder(Insert(x, s))
  {
    if s == [] {
    } else if Before(x, s[0]) {
      forall y | y in s ensures Before(x, y) {
        var k :| 0 <= k < |s| && s[k] == y;
        if k > 0 && x != s[0] && s[0] != y { LessTransitive(x, s[0], y); }
      }
      assert forall k :: 0 <= k < |s| ==> s[k] in s;
    } else {
      LessTrichotomy(x, s[0]);
      assert s == [s[0]] + s[1..];
      InsertInOrder(x, s[1..]);
      var r := Insert(x, s[1..]);
      forall k | 0 <= k < |r| ensures Before(s[0], r[k]) {
        assert r[k] in multiset(r);
        if r[k] != x {
          var m :| 0 <= m < |s[1..]| && s[1..][m] == r[k];
          assert s[m + 1] == r[k];
        }
      }
    }
  }

  lemma {:induction false} SortInOrder(s: seq<string>)
    ensures InOrder(Sort(s))
  {
    if s != [] {
      SortInOrder(s[1..]);
      InsertInOrder(s[0], Sort(s[1..]));
    }
  }

  lemma {:induction false} InOrderUnique(a: seq<string>, b: seq<string>)
    requires InOrder(a) && InOrder(b) && multiset(a) == multiset(b)
    ensures a == b
  {
    if a == [] {
      assert |multiset(b)| == 0;
    } else {
      assert |multiset(a)| == |multiset(b)|;
      SameFirst(a, b);
      InOrderTail(a);
      InOrderTail(b);
      hide InOrder;
      assert a == [a[0]] + a[1..] && b == [b[0]] + b[1..];
      assert multiset(a[1..]) == multiset(a) - multiset{a[0]};
      assert multiset(b[1..]) == multiset(b) - multiset{b[0]};
      InOrderUnique(a[1..], b[1..]);
    }
  }

  lemma InOrderTail(s: seq<string>)
    requires InOrder(s) && s != []
    ensures InOrder(s[1..])
  {
  }

  lemma SameFirst(a: seq<string>, b: seq<string>)
    requires InOrder(a) && InOrder(b) && multiset(a) == multiset(b) && a != [] && b != []
    ensures a[0] == b[0]
  {
    hide Less;
    assert a[0] in multiset(b) && b[0] in multiset(a);
    var i :| 0 <= i < |b| && b[i] == a[0];
    var j :| 0 <= j < |a| && a[j] == b[0];
    LessTrichotomy(a[0], b[0]);
    assert Before(a[0], a[j]) && Before(b[0], b[i]);
  }

  /** The canonical form two lists are compared in. */
  function CanonicalDacl(sddl: string): (seq<string>, seq<string>) {
    (Sort(Flags(Control(sddl))), Sort(Aces(sddl)))
  }

  /** Two lists compare equal exactly when they hold the same entries, in whatever order, and
      the same protection, whatever their inheritance flags say. */
  lemma CanonicalDaclEqual(a: string, b: string)
    ensures CanonicalDacl(a) == CanonicalDacl(b)
       <==> && multiset(Aces(a)) == multiset(Aces(b))
            && multiset(Flags(Control(a))) == multiset(Flags(Control(b)))
  {
    hide Aces, Flags, Control, Sort;
    if multiset(Aces(a)) == multiset(Aces(b)) && multiset(Flags(Control(a))) == multiset(Flags(Control(b))) {
      SortInOrder(Aces(a));
      SortInOrder(Aces(b));
      SortInOrder(Flags(Control(a)));
      SortInOrder(Flags(Control(b)));
      InOrderUnique(Sort(Aces(a)), Sort(Aces(b)));
      InOrderUnique(Sort(Flags(Control(a))), Sort(Flags(Control(b))));
    }
  }

  // ---- the test -----------------------------------------------------------------------

  /** `split(";")`. */
  function Fields(ace: string): (r: seq<string>)
    ensures r != []
  {
    if ace == "" then [""]
    else
      var rest := Fields(ace[1..]);
      if ace[0] == ';' then [""] + rest else [[ace[0]] + rest[0]] + rest[1..]
  }

  function TrusteesOf(aces: seq<string>, fold: string -> string): (r: set<string>)
    ensures forall t :: t in r <==> exists k :: 0 <= k < |aces| && Names(aces[k], t, fold)
  {
    if aces == [] then {}
    else
      assert aces == [aces[0]] + aces[1..];
      assert forall k :: 0 <= k < |aces[1..]| ==> aces[1..][k] == aces[k + 1];
      (if |Fields(aces[0])| == 6 then {fold(Fields(aces[0])[5])} else {}) + TrusteesOf(aces[1..], fold)
  }

  predicate Names(ace: string, trustee: string, fold: string -> string) {
    |Fields(ace)| == 6 && fold(Fields(ace)[5]) == trustee
  }

  ghost predicate BaselineTrustee<K(!new)>(baseline: map<K, string>, trustee: string, fold: string -> string) {
    exists p :: p in baseline && trustee in TrusteesOf(Aces(baseline[p]), fold)
  }

  /** An entry a path created after the baseline may have. */
  ghost predicate InheritedFromBaseline<K(!new)>(baseline: map<K, string>, ace: string, fold: string -> string) {
    && |Fields(ace)| == 6 && Contains(Fields(ace)[1], "ID")
    && BaselineTrustee(baseline, fold(Fields(ace)[5]), fold)
  }

  ghost predicate PathClean<K(!new)>(baseline: map<K, string>, path: K, sddl: string, fold: string -> string) {
    if path in baseline then
      && multiset(Aces(sddl)) == multiset(Aces(baseline[path]))
      && multiset(Flags(Control(sddl))) == multiset(Flags(Control(baseline[path])))
    else forall k :: 0 <= k < |Aces(sddl)| ==> InheritedFromBaseline(baseline, Aces(sddl)[k], fold)
  }

  /** Surviving baseline paths have their baseline list, new paths only inherited entries of
      baseline trustees. */
  ghost predicate NoExplicitDelta<K(!new)>(baseline: map<K, string>, current: map<K, string>, fold: string -> string) {
    forall p :: p in current ==> PathClean(baseline, p, current[p], fold)
  }

  /** The test as it runs: collect the trustees of the baseline, then look at every path. */
  method NewAclEntriesAreInheritedOnly<K(==,!new)>(baseline: map<K, string>, current: map<K, string>,
                                                   fold: string -> string)
    returns (clean: bool)
    ensures clean <==> NoExplicitDelta(baseline, current, fold)
  {
    hide Aces, Fields, CanonicalDacl, Control, Flags, InheritedFromBaseline, BaselineTrustee;
    var trustees := CollectTrustees(baseline, fold);
    var rest := current.Keys;
    while rest != {}
      invariant rest <= current.Keys
      invariant forall p :: p in current && p !in rest ==> PathClean(baseline, p, current[p], fold)
      decreases |rest|
    {
      var path :| path in rest;
      rest := rest - {path};
      var sddl := current[path];
      if path in baseline {
        CanonicalDaclEqual(sddl, baseline[path]);
        if CanonicalDacl(sddl) != CanonicalDacl(baseline[path]) { return false; }
      } else {
        var inherited := NewPathIsInherited(baseline, trustees, Aces(sddl), fold);
        if !inherited { return false; }
      }
    }
    return true;
  }

  method NewPathIsInherited<K(!new)>(ghost baseline: map<K, string>, trustees: set<string>, aces: seq<string>,
                                     fold: string -> string)
    returns (clean: bool)
    requires forall t :: t in trustees <==> BaselineTrustee(baseline, t, fold)
    ensures clean <==> forall k :: 0 <= k < |aces| ==> InheritedFromBaseline(baseline, aces[k], fold)
  {
    hide Fields, BaselineTrustee;
    for k := 0 to |aces|
      invariant forall j :: 0 <= j < k ==> InheritedFromBaseline(baseline, aces[j], fold)
    {
      var fields := Fields(aces[k]);
      if |fields| != 6 || !Contains(fields[1], "ID") || fold(fields[5]) !in trustees {
        assert !InheritedFromBaseline(baseline, aces[k], fold);
        return false;
      }
    }
    return true;
  }

  method CollectTrustees<K(==,!new)>(baseline: map<K, string>, fold: string -> string) returns (trustees: set<string>)
    ensures forall t :: t in trustees <==> BaselineTrustee(baseline, t, fold)
  {
    hide Aces, Fields;
    trustees := {};
    var rest := baseline.Keys;
    while rest != {}
      invariant rest <= baseline.Keys
      invariant forall t :: t in trustees <==>
        exists p :: p in baseline && p !in rest && t in TrusteesOf(Aces(baseline[p]), fold)
      decreases |rest|
    {
      var path :| path in rest;
      ghost var before, left := trustees, rest;
      rest := rest - {path};
      trustees := trustees + TrusteesOf(Aces(baseline[path]), fold);
      forall t
        ensures t in trustees <==> exists p :: p in baseline && p !in rest && t in TrusteesOf(Aces(baseline[p]), fold)
      {
        if t in trustees {
          if t in before {
            var p :| p in baseline && p !in left && t in TrusteesOf(Aces(baseline[p]), fold);
            assert p !in rest;
          } else {
            assert path !in rest;
          }
        }
      }
    }
  }

  // ---- the saved snapshot -------------------------------------------------------------------

  function Backslashes(s: string): (r: string)
    ensures |r| == |s|
  {
    seq(|s|, i requires 0 <= i < |s| => if s[i] == '/' then '\\' else s[i])
  }

  /** The components of a path with backslashes. */
  function Components(s: string): (r: seq<string>)
    ensures r != []
  {
    if s == "" then [""]
    else
      var rest := Components(s[1..]);
      if s[0] == '\\' then [""] + rest else [[s[0]] + rest[0]] + rest[1..]
  }

  predicate SafeEntry(relative: string, sddl: string, absolute: string -> bool) {
    !absolute(relative) && ".." !in Components(relative) && ':' !in relative && StartsWith(sddl, "D:")
  }

  predicate Separator(c: char) { c == '/' || c == '\\' }

  /** Two dots alone between separators, or at an end of the path. */
  predicate DotsAt(s: string, k: nat) {
    && k + 2 <= |s| && s[k] == '.' && s[k + 1] == '.'
    && (k == 0 || Separator(s[k - 1])) && (k + 2 == |s| || Separator(s[k + 2]))
  }

  lemma {:induction false} FirstComponent(s: string, w: string)
    requires '\\' !in w
    ensures Components(s)[0] == w <==> StartsWith(s, w) && (|s| == |w| || s[|w|] == '\\')
  {
    if s != "" && w != "" && s[0] == w[0] {
      assert w[0] in w && forall c :: c in w[1..] ==> c in w;
      FirstComponent(s[1..], w[1..]);
      assert w == [w[0]] + w[1..];
      assert |w| <= |s| ==> s[..|w|] == [s[0]] + s[1..][..|w| - 1];
    }
  }

  lemma {:induction false} DotsExactly(s: string)
    requires '/' !in s
    ensures Components(s)[0] == ".." <==> DotsAt(s, 0)
    ensures ".." in Components(s)[1..] <==> exists k: nat :: 0 < k < |s| && DotsAt(s, k)
  {
    FirstComponent(s, "..");
    if s != "" {
      var rest := Components(s[1..]);
      assert s[0] in s && forall c :: c in s[1..] ==> c in s;
      DotsExactly(s[1..]);
      assert forall k: nat :: 0 < k < |s| && (k > 1 || Separator(s[0])) ==> (DotsAt(s, k) <==> DotsAt(s[1..], k - 1));
      if s[0] == '\\' {
        assert Components(s)[1..] == rest && rest == [rest[0]] + rest[1..];
        if ".." in rest[1..] { var k: nat :| 0 < k < |s[1..]| && DotsAt(s[1..], k); assert DotsAt(s, k + 1); }
        if rest[0] == ".." { assert DotsAt(s, 1); }
      } else {
        assert Components(s)[1..] == rest[1..];
        if ".." in rest[1..] { var k: nat :| 0 < k < |s[1..]| && DotsAt(s[1..], k); assert DotsAt(s, k + 1); }
      }
    }
  }

  /** An entry is safe exactly when its path is relative, names no drive, never climbs, whichever
      separators it is written with, and its list begins as a discretionary one. */
  lemma SafeEntryExactly(relative: string, sddl: string, absolute: string -> bool)
    ensures SafeEntry(Backslashes(relative), sddl, absolute)
       <==> && !absolute(Backslashes(relative)) && ':' !in relative
            && (forall k: nat :: k < |relative| ==> !DotsAt(relative, k))
            && |sddl| >= 2 && sddl[0] == 'D' && sddl[1] == ':'
  {
    var s := Backslashes(relative);
    assert forall k :: 0 <= k < |s| ==> (s[k] == ':' <==> relative[k] == ':');
    assert forall k: nat :: k < |s| ==> (DotsAt(s, k) <==> DotsAt(relative, k));
    DotsExactly(s);
    assert Components(s) == [Components(s)[0]] + Components(s)[1..];
    assert |sddl| >= 2 ==> sddl[..2] == [sddl[0], sddl[1]];
  }

  function EntryKey(lines: seq<string>, i: nat, fold: string -> string): string
    requires 2 * i < |lines|
  {
    fold(Backslashes(lines[2 * i]))
  }

  /** Pairs of a safe relative path and a list, no path twice. */
  ghost predicate SnapshotLines(lines: seq<string>, absolute: string -> bool, fold: string -> string) {
    && lines != [] && |lines| % 2 == 0
    && (forall i :: 0 <= i < |lines| / 2 ==> SafeEntry(Backslashes(lines[2 * i]), lines[2 * i + 1], absolute))
    && (forall i, j :: 0 <= i < j < |lines| / 2 ==> EntryKey(lines, i, fold) != EntryKey(lines, j, fold))
  }

  /** The list of every path of a snapshot. */
  ghost function SnapshotMap(lines: seq<string>, absolute: string -> bool, fold: string -> string): map<string, string>
    requires SnapshotLines(lines, absolute, fold)
  {
    map i | 0 <= i < |lines| / 2 :: EntryKey(lines, i, fold) := lines[2 * i + 1]
  }

  lemma MapOfLines(lines: seq<string>, entries: map<string, string>, absolute: string -> bool, fold: string -> string)
    requires SnapshotLines(lines, absolute, fold)
    requires forall i :: 0 <= i < |lines| / 2 ==>
      EntryKey(lines, i, fold) in entries && entries[EntryKey(lines, i, fold)] == lines[2 * i + 1]
    requires forall k :: k in entries ==> exists i :: 0 <= i < |lines| / 2 && EntryKey(lines, i, fold) == k
    ensures entries == SnapshotMap(lines, absolute, fold)
  {
    hide SafeEntry, Backslashes, EntryKey;
  }

  /** Reading the non-blank lines of a snapshot: accepted exactly when they are pairs of safe,
      distinct paths and lists, and then every path has its own list. */
  method ReadSnapshot(lines: seq<string>, absolute: string -> bool, fold: string -> string)
    returns (r: Option<map<string, string>>)
    ensures r.Some? <==> SnapshotLines(lines, absolute, fold)
    ensures r.Some? ==> forall i :: 0 <= i < |lines| / 2 ==>
      EntryKey(lines, i, fold) in r.value && r.value[EntryKey(lines, i, fold)] == lines[2 * i + 1]
    ensures r.Some? ==> forall k :: k in r.value ==> exists i :: 0 <= i < |lines| / 2 && EntryKey(lines, i, fold) == k
    ensures r.Some? ==> r.value == SnapshotMap(lines, absolute, fold)
  {
    hide SafeEntry, Backslashes, SnapshotMap;
    if lines == [] || |lines| % 2 != 0 { return None; }
    var entries: map<string, string> := map[];
    for i := 0 to |lines| / 2
      invariant forall j :: 0 <= j < i ==> SafeEntry(Backslashes(lines[2 * j]), lines[2 * j + 1], absolute)
      invariant forall j, k :: 0 <= j < k < i ==> EntryKey(lines, j, fold) != EntryKey(lines, k, fold)
      invariant forall j :: 0 <= j < i ==>
        EntryKey(lines, j, fold) in entries && entries[EntryKey(lines, j, fold)] == lines[2 * j + 1]
      invariant forall k :: k in entries ==> exists j :: 0 <= j < i && EntryKey(lines, j, fold) == k
    {
      if !SafeEntry(Backslashes(lines[2 * i]), lines[2 * i + 1], absolute) { return None; }
      var key := EntryKey(lines, i, fold);
      if key in entries { return None; }
      entries := entries[key := lines[2 * i + 1]];
    }
    MapOfLines(lines, entries, absolute, fold);
    return Some(entries);
  }
}
