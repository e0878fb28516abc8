/** The saved text of a revoked tree passes the test that lets the revocation be recorded. */
module AclCheck {
  import opened Text
  import opened Sddl
  import Tree = AclRevocation

  // ---- saving a list as text ------------------------------------------------------------

  function Codes(codes: seq<string>): string {
    if codes == [] then "" else codes[0] + Codes(codes[1..])
  }

  function AceText(ace: Tree.Ace): string {
    ace.kind + ";" + (Codes(ace.codes) + ";" + (ace.rights + ";" + (ace.target + ";" + (ace.heir + ";" + ace.trustee))))
  }

  function AcesText(aces: seq<Tree.Ace>): string {
    if aces == [] then "" else "(" + AceText(aces[0]) + ")" + AcesText(aces[1..])
  }

  /** `auto` stands for whatever inheritance flags the system reports. */
  function DaclText(dacl: Tree.Dacl, auto: string): string {
    "D:" + ((if dacl.guarded then "P" else "") + auto) + AcesText(dacl.aces)
  }

  predicate PlainField(s: string) { ';' !in s && NoParen(s) }

  predicate PlainAce(ace: Tree.Ace) {
    && PlainField(ace.kind) && PlainField(Codes(ace.codes)) && PlainField(ace.rights)
    && PlainField(ace.target) && PlainField(ace.heir) && PlainField(ace.trustee)
  }

  ghost predicate PlainAces(aces: seq<Tree.Ace>) {
    forall k :: 0 <= k < |aces| ==> PlainAce(aces[k])
  }

  ghost predicate PlainInheritance(inherit: Tree.Inheritance) {
    forall aces, path :: PlainAces(inherit(aces, path))
  }

  predicate AutoFlags(auto: string) { NoParen(auto) && 'P' !in auto }

  // ---- reading it back --------------------------------------------------------------------

  lemma {:induction false} FieldsFirst(x: string, rest: string)
    requires ';' !in x
    ensures Fields(x + ";" + rest) == [x] + Fields(rest)
  {
    var s := x + ";" + rest;
    if x == "" {
      assert s[1..] == rest;
    } else {
      assert x[0] in x && forall c :: c in x[1..] ==> c in x;
      FieldsFirst(x[1..], rest);
      assert s[1..] == x[1..] + ";" + rest;
      assert x == [x[0]] + x[1..];
    }
  }

  lemma {:induction false} FieldsLast(x: string)
    requires ';' !in x
    ensures Fields(x) == [x]
  {
    if x != "" {
      assert x[0] in x && forall c :: c in x[1..] ==> c in x;
      FieldsLast(x[1..]);
      assert x == [x[0]] + x[1..];
    }
  }

  lemma AceFields(ace: Tree.Ace)
    requires PlainAce(ace)
    ensures Fields(AceText(ace)) == [ace.kind, Codes(ace.codes), ace.rights, ace.target, ace.heir, ace.trustee]
  {
    hide Fields, Codes;
    FieldsLast(ace.trustee);
    FieldsFirst(ace.heir, ace.trustee);
    FieldsFirst(ace.target, ace.heir + ";" + ace.trustee);
    FieldsFirst(ace.rights, ace.target + ";" + (ace.heir + ";" + ace.trustee));
    FieldsFirst(Codes(ace.codes), ace.rights + ";" + (ace.target + ";" + (ace.heir + ";" + ace.trustee)));
    FieldsFirst(ace.kind,
                Codes(ace.codes) + ";" + (ace.rights + ";" + (ace.target + ";" + (ace.heir + ";" + ace.trustee))));
  }

  lemma AceTextNoParen(ace: Tree.Ace)
    requires PlainAce(ace)
    ensures NoParen(AceText(ace))
  {
  }

  lemma BodyChar(c: char, s: string)
    requires c != '(' && c != ')'
    ensures Body([c] + s).0 == [c] + Body(s).0 && Body([c] + s).1 == Body(s).1
  {
    assert ([c] + s)[1..] == s;
  }

  lemma {:induction false} BodyAll(b: string, rest: string)
    requires NoParen(b)
    ensures Body(b + (")" + rest)).0 == b && Body(b + (")" + rest)).1 == ")" + rest
  {
    if b == "" {
      assert b + (")" + rest) == ")" + rest;
    } else {
      hide Body;
      var c, t := b[0], b[1..];
      assert c in b && forall x :: x in t ==> x in b;
      BodyAll(t, rest);
      BodyChar(c, t + (")" + rest));
      assert b == [c] + t && b + (")" + rest) == [c] + (t + (")" + rest));
    }
  }

  lemma AcesSkipChar(c: char, s: string)
    requires c != '('
    ensures Aces([c] + s) == Aces(s) && FirstAce([c] + s) == 1 + FirstAce(s)
  {
    assert ([c] + s)[1..] == s;
  }

  lemma {:induction false} AcesSkip(s: string, rest: string)
    requires NoParen(s)
    ensures Aces(s + rest) == Aces(rest) && FirstAce(s + rest) == |s| + FirstAce(rest)
  {
    hide Aces, FirstAce;
    if s == "" {
      assert s + rest == rest;
    } else {
      var c, t := s[0], s[1..];
      assert c in s && forall x :: x in t ==> x in s;
      AcesSkip(t, rest);
      AcesSkipChar(c, t + rest);
      assert s + rest == [c] + (t + rest);
    }
  }

  function Texts(aces: seq<Tree.Ace>): (r: seq<string>)
    ensures |r| == |aces| && forall k :: 0 <= k < |aces| ==> r[k] == AceText(aces[k])
  {
    seq(|aces|, k requires 0 <= k < |aces| => AceText(aces[k]))
  }

  lemma {:induction false} AcesBack(aces: seq<Tree.Ace>)
    requires PlainAces(aces)
    ensures Aces(AcesText(aces)) == Texts(aces)
    ensures FirstAce(AcesText(aces)) == 0
  {
    if aces != [] {
      var body, rest := AceText(aces[0]), AcesText(aces[1..]);
      AcesBack(aces[1..]);
      AceTextNoParen(aces[0]);
      hide AceText, PlainAce, Aces;
      OneAce(body, rest);
      assert Texts(aces) == [body] + Texts(aces[1..]);
    }
  }

  lemma OneAce(body: string, rest: string)
    requires NoParen(body)
    ensures Aces("(" + body + ")" + rest) == [body] + Aces(rest) && FirstAce("(" + body + ")" + rest) == 0
  {
    hide Body, NoParen;
    var s := "(" + body + ")" + rest;
    BodyAll(body, rest);
    assert s[1..] == body + (")" + rest);
    OneAceStep(s, body, rest);
  }

  lemma OneAceStep(s: string, body: string, rest: string)
    requires s != "" && s[0] == '(' && Body(s[1..]).0 == body && Body(s[1..]).1 == ")" + rest
    ensures Aces(s) == [body] + Aces(rest)
  {
    hide Body;
    assert (")" + rest)[1..] == rest;
  }

  lemma {:induction false} NoFlag(control: string)
    requires 'P' !in control
    ensures Flags(control) == []
  {
    if control != "" {
      assert control[0] in control && forall c :: c in control[1..] ==> c in control;
      NoFlag(control[1..]);
      if StartsWith(control, "AI") || StartsWith(control, "AR") {
        assert forall c :: c in control[2..] ==> c in control;
        NoFlag(control[2..]);
      }
    }
  }

  lemma DaclBack(dacl: Tree.Dacl, auto: string)
    requires PlainAces(dacl.aces) && AutoFlags(auto)
    ensures var sddl := DaclText(dacl, auto);
      Aces(sddl) == Texts(dacl.aces) && Flags(Control(sddl)) == if dacl.guarded then ["P"] else []
  {
    var guard := if dacl.guarded then "P" else "";
    var sddl := DaclText(dacl, auto);
    AcesBack(dacl.aces);
    AcesSkip("D:" + (guard + auto), AcesText(dacl.aces));
    assert Control(sddl) == guard + auto;
    NoFlag(auto);
    assert dacl.guarded ==> (guard + auto)[1..] == auto && (guard + auto)[0] == 'P';
    assert dacl.guarded && auto != "" ==> (guard + auto)[..2][0] == 'P';
    assert !dacl.guarded ==> guard + auto == auto;
  }

  lemma {:induction false} CodeIsInText(codes: seq<string>)
    requires "ID" in codes
    ensures Contains(Codes(codes), "ID")
  {
    var s := Codes(codes);
    if codes[0] == "ID" {
      assert s[0..] == s && s[..2] == "ID";
      assert StartsWith(s[0..], "ID");
    } else {
      CodeIsInText(codes[1..]);
      var tail := Codes(codes[1..]);
      var i :| 0 <= i <= |tail| && StartsWith(tail[i..], "ID");
      assert s[|codes[0]| + i..] == tail[i..];
    }
  }

  // ---- the test on a revoked tree -------------------------------------------------------------

  type Autos = Tree.Path -> string

  ghost predicate AllAuto(auto: Autos) { forall p :: AutoFlags(auto(p)) }

  function BaselineText(entries: seq<(Tree.Path, Tree.Dacl)>, auto: Autos): map<Tree.Path, string> {
    if entries == [] then map[]
    else
      var (path, dacl) := entries[|entries| - 1];
      BaselineText(entries[..|entries| - 1], auto)[path := DaclText(dacl, auto(path))]
  }

  function StoreText(store: Tree.Store, auto: Autos): map<Tree.Path, string> {
    map p | p in store :: DaclText(store[p], auto(p))
  }

  lemma {:induction false} BaselineTextAt(entries: seq<(Tree.Path, Tree.Dacl)>, auto: Autos)
    requires forall i, j :: 0 <= i < j < |entries| ==> entries[i].0 != entries[j].0
    ensures forall p :: p in BaselineText(entries, auto) <==> Tree.Saved(entries, p)
    ensures forall i :: 0 <= i < |entries| ==>
      && entries[i].0 in BaselineText(entries, auto)
      && BaselineText(entries, auto)[entries[i].0] == DaclText(entries[i].1, auto(entries[i].0))
  {
    hide DaclText;
    if entries != [] {
      var n := |entries| - 1;
      var init := entries[..n];
      assert forall k :: 0 <= k < n ==> init[k] == entries[k];
      BaselineTextAt(init, auto);
      forall p ensures p in BaselineText(entries, auto) <==> Tree.Saved(entries, p) {
        if Tree.Saved(entries, p) {
          var i :| 0 <= i < |entries| && entries[i].0 == p;
          assert i < n ==> init[i].0 == p;
        }
      }
    }
  }

  lemma TrusteeInText(aces: seq<Tree.Ace>, dacl: Tree.Dacl, auto: string, trustee: string, fold: string -> string)
    requires dacl.aces == aces && PlainAces(aces) && AutoFlags(auto) && Tree.Names(aces, trustee)
    ensures fold(trustee) in TrusteesOf(Aces(DaclText(dacl, auto)), fold)
  {
    DaclBack(dacl, auto);
    var k :| 0 <= k < |aces| && aces[k].trustee == trustee;
    AceFields(aces[k]);
    assert Names(Texts(aces)[k], fold(trustee), fold);
  }

  /** What the saved baseline is known to be. */
  ghost predicate SavedText(entries: seq<(Tree.Path, Tree.Dacl)>, auto: Autos, baseline: map<Tree.Path, string>) {
    && AllAuto(auto)
    && (forall i :: 0 <= i < |entries| ==> PlainAces(entries[i].1.aces))
    && (forall i :: 0 <= i < |entries| ==>
          && entries[i].0 in baseline
          && baseline[entries[i].0] == DaclText(entries[i].1, auto(entries[i].0)))
  }

  lemma NewAcePasses(baseline: map<Tree.Path, string>, entries: seq<(Tree.Path, Tree.Dacl)>, ace: Tree.Ace,
                     auto: Autos, fold: string -> string)
    requires SavedText(entries, auto, baseline) && PlainAce(ace)
    requires Tree.Inherited(ace) && Tree.BaselineName(entries, ace.trustee)
    ensures InheritedFromBaseline(baseline, AceText(ace), fold)
  {
    hide DaclText, Aces, Fields, Codes, AceText, PlainAce, PlainAces, TrusteesOf, Tree.Names, AutoFlags;
    AceFields(ace);
    CodeIsInText(ace.codes);
    var i :| 0 <= i < |entries| && Tree.Names(entries[i].1.aces, ace.trustee);
    var path := entries[i].0;
    TrusteeInText(entries[i].1.aces, entries[i].1, auto(path), ace.trustee, fold);
    assert path in baseline && fold(ace.trustee) in TrusteesOf(Aces(baseline[path]), fold);
  }

  lemma NewPathPasses(baseline: map<Tree.Path, string>, entries: seq<(Tree.Path, Tree.Dacl)>, dacl: Tree.Dacl,
                      auto: Autos, now: string, fold: string -> string)
    requires SavedText(entries, auto, baseline) && AutoFlags(now) && PlainAces(dacl.aces)
    requires forall k :: 0 <= k < |dacl.aces| ==>
      Tree.Inherited(dacl.aces[k]) && Tree.BaselineName(entries, dacl.aces[k].trustee)
    ensures var aces := Aces(DaclText(dacl, now));
      forall k :: 0 <= k < |aces| ==> InheritedFromBaseline(baseline, aces[k], fold)
  {
    DaclBack(dacl, now);
    hide DaclText, Aces, SavedText, InheritedFromBaseline, AceText, Tree.BaselineName, Tree.Inherited, PlainAce;
    forall k | 0 <= k < |dacl.aces| ensures InheritedFromBaseline(baseline, Texts(dacl.aces)[k], fold) {
      NewAcePasses(baseline, entries, dacl.aces[k], auto, fold);
    }
  }

  /** A completed revocation passes its own test, so the event that closes the epoch is
      written, whatever the inheritance flags of the two snapshots say. */
  lemma RevokedTreePasses(inherit: Tree.Inheritance, outer: seq<Tree.Ace>, store: Tree.Store,
                          entries: seq<(Tree.Path, Tree.Dacl)>, before: Autos, after: Autos, fold: string -> string)
    requires Tree.PassesOn(inherit) && PlainInheritance(inherit)
    requires Tree.Tree(store) && Tree.Snapshot(entries) && AllAuto(before) && AllAuto(after)
    requires forall i :: 0 <= i < |entries| ==> PlainAces(entries[i].1.aces)
    ensures NoExplicitDelta(BaselineText(entries, before),
                            StoreText(Tree.Revoked(inherit, outer, store, entries), after), fold)
  {
    hide DaclText, Tree.Revoked, Tree.PassesOn, PathClean, PlainAces, PlainInheritance, Tree.Tree, BaselineText;
    var t := Tree.Revoked(inherit, outer, store, entries);
    var baseline := BaselineText(entries, before);
    BaselineTextAt(entries, before);
    assert SavedText(entries, before, baseline);
    hide Tree.Snapshot, AllAuto;
    forall p | p in t ensures PathClean(baseline, p, DaclText(t[p], after(p)), fold) {
      if Tree.Saved(entries, p) {
        SavedPathPasses(inherit, outer, store, entries, before, after, fold, baseline, p);
      } else {
        UnsavedPathPasses(inherit, outer, store, entries, before, after, fold, baseline, p);
      }
    }
  }

  lemma SavedPathPasses(inherit: Tree.Inheritance, outer: seq<Tree.Ace>, store: Tree.Store,
                        entries: seq<(Tree.Path, Tree.Dacl)>, before: Autos, after: Autos, fold: string -> string,
                        baseline: map<Tree.Path, string>, p: Tree.Path)
    requires Tree.PassesOn(inherit) && Tree.Tree(store) && Tree.Snapshot(entries) && AllAuto(after)
    requires SavedText(entries, before, baseline) && p in store && Tree.Saved(entries, p)
    ensures PathClean(baseline, p, DaclText(Tree.Revoked(inherit, outer, store, entries)[p], after(p)), fold)
  {
    hide DaclText, Tree.Revoked, Tree.PassesOn, Tree.Tree, Aces, Flags, Control, Tree.Snapshot;
    Tree.RevocationIsNetZero(inherit, outer, store, entries);
    var t := Tree.Revoked(inherit, outer, store, entries);
    var i :| 0 <= i < |entries| && entries[i].0 == p;
    assert t[p] == entries[i].1;
    DaclBack(t[p], before(p));
    DaclBack(t[p], after(p));
  }

  lemma UnsavedPathPasses(inherit: Tree.Inheritance, outer: seq<Tree.Ace>, store: Tree.Store,
                          entries: seq<(Tree.Path, Tree.Dacl)>, before: Autos, after: Autos, fold: string -> string,
                          baseline: map<Tree.Path, string>, p: Tree.Path)
    requires Tree.PassesOn(inherit) && PlainInheritance(inherit)
    requires Tree.Tree(store) && Tree.Snapshot(entries) && AllAuto(after)
    requires SavedText(entries, before, baseline) && p in store && !Tree.Saved(entries, p) && p !in baseline
    ensures PathClean(baseline, p, DaclText(Tree.Revoked(inherit, outer, store, entries)[p], after(p)), fold)
  {
    hide DaclText, Tree.Revoked, Tree.PassesOn, Tree.Tree, Flags, Control, SavedText, PlainAces, PlainInheritance,
      InheritedFromBaseline;
    Tree.RevocationIsNetZero(inherit, outer, store, entries);
    NewAcesPlain(inherit, outer, store, entries, p, Tree.Revoked(inherit, outer, store, entries));
    var sddl := DaclText(Tree.Revoked(inherit, outer, store, entries)[p], after(p));
    NewPathPasses(baseline, entries, Tree.Revoked(inherit, outer, store, entries)[p], before, after(p), fold);
    assert forall k :: 0 <= k < |Aces(sddl)| ==> InheritedFromBaseline(baseline, Aces(sddl)[k], fold);
    assert PathClean(baseline, p, sddl, fold);
  }

  lemma NewAcesPlain(inherit: Tree.Inheritance, outer: seq<Tree.Ace>, store: Tree.Store,
                     entries: seq<(Tree.Path, Tree.Dacl)>, p: Tree.Path, t: Tree.Store)
    requires Tree.PassesOn(inherit) && PlainInheritance(inherit)
    requires Tree.Tree(store) && p in store && !Tree.Saved(entries, p)
    requires t == Tree.Revoked(inherit, outer, store, entries)
    ensures PlainAces(t[p].aces)
  {
    Tree.ResetFollows(inherit, outer, store, p);
    Tree.RestoreFollows(inherit, outer, Tree.Reset(inherit, outer, store), entries, p);
    assert Tree.Follows(inherit, outer, t, p);
    assert PlainAces(inherit(if p == [] then outer else t[Tree.Parent(p)].aces, p));
  }

  // ---- what the test accepts -------------------------------------------------------------------

  ghost predicate FoldsTo(aces: seq<Tree.Ace>, folded: string, fold: string -> string) {
    exists k :: 0 <= k < |aces| && fold(aces[k].trustee) == folded
  }

  ghost predicate KnownTrustee(entries: seq<(Tree.Path, Tree.Dacl)>, trustee: string, fold: string -> string) {
    exists i :: 0 <= i < |entries| && FoldsTo(entries[i].1.aces, fold(trustee), fold)
  }

  /** The same protection and the same entries, in whatever order. */
  ghost predicate SameList(a: Tree.Dacl, b: Tree.Dacl) {
    a.guarded == b.guarded && multiset(Texts(a.aces)) == multiset(Texts(b.aces))
  }

  ghost predicate NothingNew(entries: seq<(Tree.Path, Tree.Dacl)>, aces: seq<Tree.Ace>, fold: string -> string) {
    forall k :: 0 <= k < |aces| ==>
      Contains(Codes(aces[k].codes), "ID") && KnownTrustee(entries, aces[k].trustee, fold)
  }

  lemma TrusteesBack(dacl: Tree.Dacl, auto: string, folded: string, fold: string -> string)
    requires PlainAces(dacl.aces) && AutoFlags(auto)
    ensures folded in TrusteesOf(Aces(DaclText(dacl, auto)), fold) <==> FoldsTo(dacl.aces, folded, fold)
  {
    DaclBack(dacl, auto);
    hide DaclText, Aces, Fields, AceText, Codes, PlainAce, AutoFlags;
    forall k | 0 <= k < |dacl.aces|
      ensures Names(Texts(dacl.aces)[k], folded, fold) <==> fold(dacl.aces[k].trustee) == folded
    {
      AceFields(dacl.aces[k]);
    }
    if FoldsTo(dacl.aces, folded, fold) {
      var k :| 0 <= k < |dacl.aces| && fold(dacl.aces[k].trustee) == folded;
      assert Names(Texts(dacl.aces)[k], folded, fold);
    }
  }

  lemma BaselineTrusteeExactly(entries: seq<(Tree.Path, Tree.Dacl)>, auto: Autos, baseline: map<Tree.Path, string>,
                               trustee: string, fold: string -> string)
    requires SavedText(entries, auto, baseline) && forall p :: p in baseline ==> Tree.Saved(entries, p)
    ensures BaselineTrustee(baseline, fold(trustee), fold) <==> KnownTrustee(entries, trustee, fold)
  {
    hide DaclText, Aces, TrusteesOf, FoldsTo, PlainAces, AutoFlags;
    var folded := fold(trustee);
    forall i | 0 <= i < |entries|
      ensures folded in TrusteesOf(Aces(baseline[entries[i].0]), fold) <==> FoldsTo(entries[i].1.aces, folded, fold)
    {
      TrusteesBack(entries[i].1, auto(entries[i].0), folded, fold);
    }
    if BaselineTrustee(baseline, folded, fold) {
      var p :| p in baseline && folded in TrusteesOf(Aces(baseline[p]), fold);
      var i :| 0 <= i < |entries| && entries[i].0 == p;
      assert FoldsTo(entries[i].1.aces, folded, fold);
    }
    if KnownTrustee(entries, trustee, fold) {
      var i :| 0 <= i < |entries| && FoldsTo(entries[i].1.aces, folded, fold);
      assert entries[i].0 in baseline && folded in TrusteesOf(Aces(baseline[entries[i].0]), fold);
    }
  }

  lemma AceExactly(entries: seq<(Tree.Path, Tree.Dacl)>, before: Autos, baseline: map<Tree.Path, string>,
                   ace: Tree.Ace, fold: string -> string)
    requires SavedText(entries, before, baseline) && forall q :: q in baseline ==> Tree.Saved(entries, q)
    requires PlainAce(ace)
    ensures InheritedFromBaseline(baseline, AceText(ace), fold)
            <==> Contains(Codes(ace.codes), "ID") && KnownTrustee(entries, ace.trustee, fold)
  {
    hide Fields, AceText, Codes, PlainAce, SavedText, BaselineTrustee, KnownTrustee, Contains;
    AceFields(ace);
    BaselineTrusteeExactly(entries, before, baseline, ace.trustee, fold);
  }

  lemma UnsavedPathExactly(entries: seq<(Tree.Path, Tree.Dacl)>, before: Autos, baseline: map<Tree.Path, string>,
                           p: Tree.Path, dacl: Tree.Dacl, now: string, fold: string -> string)
    requires SavedText(entries, before, baseline) && forall q :: q in baseline ==> Tree.Saved(entries, q)
    requires p !in baseline && PlainAces(dacl.aces) && AutoFlags(now)
    ensures PathClean(baseline, p, DaclText(dacl, now), fold) <==> NothingNew(entries, dacl.aces, fold)
  {
    DaclBack(dacl, now);
    hide DaclText, Aces, AceText, Codes, PlainAce, AutoFlags, SavedText, KnownTrustee, Flags, Control, Contains,
      InheritedFromBaseline;
    var texts := Texts(dacl.aces);
    forall k | 0 <= k < |texts|
      ensures InheritedFromBaseline(baseline, texts[k], fold)
              <==> Contains(Codes(dacl.aces[k].codes), "ID") && KnownTrustee(entries, dacl.aces[k].trustee, fold)
    {
      AceExactly(entries, before, baseline, dacl.aces[k], fold);
    }
  }

  lemma SavedPathExactly(entries: seq<(Tree.Path, Tree.Dacl)>, before: Autos, baseline: map<Tree.Path, string>,
                         i: nat, dacl: Tree.Dacl, now: string, fold: string -> string)
    requires SavedText(entries, before, baseline) && i < |entries| && PlainAces(dacl.aces) && AutoFlags(now)
    ensures PathClean(baseline, entries[i].0, DaclText(dacl, now), fold) <==> SameList(dacl, entries[i].1)
  {
    var (path, saved) := entries[i];
    assert entries[i].0 == path && entries[i].1 == saved;
    DaclBack(dacl, now);
    DaclBack(saved, before(path));
    hide DaclText, Aces, Texts, PlainAces, AutoFlags, Control;
    var flags, none := ["P"], Flags("");
    assert none == [] && multiset(flags)["P"] == 1 && "P" !in multiset(none);
  }

  /** On saved trees the test asks exactly for this: every baseline path that is still there has its
      baseline protection and entries, every other path only entries marked as inherited whose
      trustee, case aside, some baseline list names. */
  lemma TestExactly(entries: seq<(Tree.Path, Tree.Dacl)>, store: Tree.Store, before: Autos, after: Autos,
                    fold: string -> string)
    requires forall i, j :: 0 <= i < j < |entries| ==> entries[i].0 != entries[j].0
    requires AllAuto(before) && AllAuto(after)
    requires forall i :: 0 <= i < |entries| ==> PlainAces(entries[i].1.aces)
    requires forall p :: p in store ==> PlainAces(store[p].aces)
    ensures NoExplicitDelta(BaselineText(entries, before), StoreText(store, after), fold)
       <==> && (forall i :: 0 <= i < |entries| && entries[i].0 in store ==> SameList(store[entries[i].0], entries[i].1))
            && (forall p :: p in store && !Tree.Saved(entries, p) ==> NothingNew(entries, store[p].aces, fold))
  {
    hide DaclText, PathClean, SameList, NothingNew, BaselineText, PlainAces, AutoFlags;
    var baseline, current := BaselineText(entries, before), StoreText(store, after);
    BaselineTextAt(entries, before);
    assert SavedText(entries, before, baseline);
    forall i | 0 <= i < |entries| && entries[i].0 in store
      ensures PathClean(baseline, entries[i].0, current[entries[i].0], fold)
              <==> SameList(store[entries[i].0], entries[i].1)
    {
      SavedPathExactly(entries, before, baseline, i, store[entries[i].0], after(entries[i].0), fold);
    }
    forall p | p in store && !Tree.Saved(entries, p)
      ensures PathClean(baseline, p, current[p], fold) <==> NothingNew(entries, store[p].aces, fold)
    {
      UnsavedPathExactly(entries, before, baseline, p, store[p], after(p), fold);
    }
  }
}
