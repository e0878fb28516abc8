/** Revoking an ACL epoch: reset the work tree, restore the baseline lists path by path,
    remove the sandbox grant from the ancestors, and check the result. */
module AclRevocation {
  // ---- lists and trees ----------------------------------------------------------------

  datatype Ace = Ace(kind: string, codes: seq<string>, rights: string, target: string, heir: string, trustee: string)

  datatype Dacl = Dacl(guarded: bool, aces: seq<Ace>)

  /** A path below the work root; the root itself is the empty path. */
  type Path = seq<string>

  type Store = map<Path, Dacl>

  /** What a path receives from the list of its parent directory. */
  type Inheritance = (seq<Ace>, Path) -> seq<Ace>

  predicate Inherited(ace: Ace) { "ID" in ace.codes }

  ghost predicate Names(aces: seq<Ace>, trustee: string) {
    exists k :: 0 <= k < |aces| && aces[k].trustee == trustee
  }

  /** Inheriting marks every entry as inherited and invents no trustee. */
  ghost predicate PassesOn(inherit: Inheritance) {
    forall aces, path :: PassedOn(aces, inherit(aces, path))
  }

  ghost predicate PassedOn(from: seq<Ace>, to: seq<Ace>) {
    forall k :: 0 <= k < |to| ==> Inherited(to[k]) && Names(from, to[k].trustee)
  }

  function Parent(path: Path): Path
    requires path != []
  {
    path[..|path| - 1]
  }

  /** With every path its parent is there, down to the root. */
  ghost predicate Tree(store: Store) {
    [] in store && forall p :: p in store && p != [] ==> Parent(p) in store
  }

  predicate Below(root: Path, path: Path) { |root| < |path| && path[..|root|] == root }

  function Explicit(aces: seq<Ace>): (r: seq<Ace>)
    ensures (forall k :: 0 <= k < |aces| ==> Inherited(aces[k])) ==> r == []
  {
    if aces == [] then []
    else (if Inherited(aces[0]) then [] else [aces[0]]) + Explicit(aces[1..])
  }

  // ---- the commands ---------------------------------------------------------------------

  /** What a path holds after a reset: only what reaches it from above the work root. */
  function ResetAces(inherit: Inheritance, outer: seq<Ace>, path: Path): seq<Ace>
    decreases |path|
  {
    inherit(if path == [] then outer else ResetAces(inherit, outer, Parent(path)), path)
  }

  /** `icacls /reset /T` on the work root. */
  function Reset(inherit: Inheritance, outer: seq<Ace>, store: Store): (r: Store)
    ensures r.Keys == store.Keys
  {
    map p | p in store :: Dacl(false, ResetAces(inherit, outer, p))
  }

  /** The entries of a path at or below `root` once the list of `root` has reached it. */
  function Reached(inherit: Inheritance, store: Store, root: Path, path: Path): seq<Ace>
    requires root == path || Below(root, path)
    decreases |path|
  {
    if path !in store then []
    else if path == root || store[path].guarded then store[path].aces
    else Explicit(store[path].aces) + inherit(Reached(inherit, store, root, Parent(path)), path)
  }

  /** `Set-Acl` on one path: its list is replaced and reaches everything below. */
  function SetAcl(inherit: Inheritance, store: Store, path: Path, dacl: Dacl): (r: Store)
    ensures r.Keys == store.Keys
  {
    if path !in store then store
    else
      var set_ := store[path := dacl];
      map p | p in store :: if Below(path, p) then set_[p].(aces := Reached(inherit, set_, path, p)) else set_[p]
  }

  /** The restore script: every snapshot entry that still exists, in snapshot order. */
  function Restore(inherit: Inheritance, store: Store, entries: seq<(Path, Dacl)>): (r: Store)
    ensures r.Keys == store.Keys
  {
    if entries == [] then store
    else
      var before := Restore(inherit, store, entries[..|entries| - 1]);
      var (path, dacl) := entries[|entries| - 1];
      SetAcl(inherit, before, path, dacl)
  }

  function Revoked(inherit: Inheritance, outer: seq<Ace>, store: Store, entries: seq<(Path, Dacl)>): (r: Store)
    ensures r.Keys == store.Keys
  {
    Restore(inherit, Reset(inherit, outer, store), entries)
  }

  // ---- the snapshot -----------------------------------------------------------------------

  /** The saved tree, each directory before what it contains. */
  ghost predicate Snapshot(entries: seq<(Path, Dacl)>) {
    && (exists i :: 0 <= i < |entries| && entries[i].0 == [])
    && forall i, j :: 0 <= i < j < |entries| ==> entries[i].0 != entries[j].0 && !Below(entries[j].0, entries[i].0)
  }

  ghost predicate Saved(entries: seq<(Path, Dacl)>, path: Path) {
    exists i :: 0 <= i < |entries| && entries[i].0 == path
  }

  ghost predicate BaselineName(entries: seq<(Path, Dacl)>, trustee: string) {
    exists i :: 0 <= i < |entries| && Names(entries[i].1.aces, trustee)
  }

  // ---- restored paths ---------------------------------------------------------------------

  lemma {:induction false} RestoredExactly(inherit: Inheritance, store: Store, entries: seq<(Path, Dacl)>, i: nat)
    requires i < |entries| && entries[i].0 in store
    requires forall k :: i < k < |entries| ==> entries[k].0 != entries[i].0 && !Below(entries[k].0, entries[i].0)
    ensures Restore(inherit, store, entries)[entries[i].0] == entries[i].1
  {
    var last := |entries| - 1;
    if i < last {
      var init := entries[..last];
      assert init[i] == entries[i];
      assert forall k :: i < k < |init| ==> init[k] == entries[k];
      RestoredExactly(inherit, store, init, i);
      var (path, dacl) := entries[last];
      assert entries[last].0 == path;
    }
  }

  // ---- new paths --------------------------------------------------------------------------

  /** A path that was never set holds just what it inherits from its parent directory. */
  ghost predicate Follows(inherit: Inheritance, outer: seq<Ace>, store: Store, path: Path) {
    && path in store && !store[path].guarded
    && if path == [] then store[path].aces == inherit(outer, path)
       else Parent(path) in store && store[path].aces == inherit(store[Parent(path)].aces, path)
  }

  lemma InheritedIsNotExplicit(inherit: Inheritance, aces: seq<Ace>, path: Path)
    requires PassesOn(inherit)
    ensures Explicit(inherit(aces, path)) == []
  {
    assert PassedOn(aces, inherit(aces, path));
  }

  lemma SetAclFollows(inherit: Inheritance, outer: seq<Ace>, store: Store, path: Path, dacl: Dacl, p: Path)
    requires PassesOn(inherit) && Tree(store) && p in store && p != path && Follows(inherit, outer, store, p)
    ensures Follows(inherit, outer, SetAcl(inherit, store, path, dacl), p)
  {
    if path in store {
      var set_ := store[path := dacl];
      var t := SetAcl(inherit, store, path, dacl);
      if Below(path, p) {
        var above := Parent(p);
        InheritedIsNotExplicit(inherit, store[above].aces, p);
        assert [] + inherit(Reached(inherit, set_, path, above), p) == inherit(Reached(inherit, set_, path, above), p);
        if above != path {
          assert above[..|path|] == p[..|path|];
          assert Below(path, above);
        }
        assert t[above].aces == Reached(inherit, set_, path, above);
      } else if p != [] {
        var above := Parent(p);
        assert above != path by { assert above == p[..|p| - 1]; }
        assert |path| <= |above| ==> p[..|path|] == above[..|path|];
      }
    }
  }

  lemma {:induction false} RestoreFollows(inherit: Inheritance, outer: seq<Ace>, store: Store,
                                          entries: seq<(Path, Dacl)>, p: Path)
    requires PassesOn(inherit) && Tree(store) && p in store && !Saved(entries, p) && Follows(inherit, outer, store, p)
    ensures Follows(inherit, outer, Restore(inherit, store, entries), p)
  {
    if entries != [] {
      var init, last := entries[..|entries| - 1], entries[|entries| - 1];
      assert forall k :: 0 <= k < |init| ==> init[k] == entries[k];
      assert last.0 != p;
      RestoreFollows(inherit, outer, store, init, p);
      SetAclFollows(inherit, outer, Restore(inherit, store, init), last.0, last.1, p);
    }
  }

  lemma ResetFollows(inherit: Inheritance, outer: seq<Ace>, store: Store, p: Path)
    requires Tree(store) && p in store
    ensures Follows(inherit, outer, Reset(inherit, outer, store), p)
  {
  }

  ghost predicate FromBaseline(entries: seq<(Path, Dacl)>, aces: seq<Ace>) {
    forall k :: 0 <= k < |aces| ==> BaselineName(entries, aces[k].trustee)
  }

  lemma {:induction false} NewPathsFollowBaseline(inherit: Inheritance, outer: seq<Ace>, store: Store,
                                                  entries: seq<(Path, Dacl)>, p: Path)
    requires PassesOn(inherit) && Tree(store) && Snapshot(entries) && p in store
    ensures var t := Revoked(inherit, outer, store, entries);
      && FromBaseline(entries, t[p].aces)
      && (!Saved(entries, p) ==> !t[p].guarded && forall k :: 0 <= k < |t[p].aces| ==> Inherited(t[p].aces[k]))
    decreases |p|
  {
    var t := Revoked(inherit, outer, store, entries);
    if Saved(entries, p) {
      var i :| 0 <= i < |entries| && entries[i].0 == p;
      RestoredExactly(inherit, Reset(inherit, outer, store), entries, i);
      assert forall k :: 0 <= k < |t[p].aces| ==> Names(entries[i].1.aces, t[p].aces[k].trustee);
    } else {
      assert p != [];
      ResetFollows(inherit, outer, store, p);
      RestoreFollows(inherit, outer, Reset(inherit, outer, store), entries, p);
      NewPathsFollowBaseline(inherit, outer, store, entries, Parent(p));
      var above := t[Parent(p)].aces;
      assert PassedOn(above, t[p].aces);
      forall k | 0 <= k < |t[p].aces| ensures BaselineName(entries, t[p].aces[k].trustee) {
        var m :| 0 <= m < |above| && above[m].trustee == t[p].aces[k].trustee;
      }
    }
  }

  /** From whatever the staging commands and the child left in the tree, revoking gives every
      surviving baseline path its baseline list, and every other path only inherited entries of
      baseline trustees. */
  lemma RevocationIsNetZero(inherit: Inheritance, outer: seq<Ace>, store: Store, entries: seq<(Path, Dacl)>)
    requires PassesOn(inherit) && Tree(store) && Snapshot(entries)
    ensures var t := Revoked(inherit, outer, store, entries);
      && t.Keys == store.Keys
      && (forall i :: 0 <= i < |entries| && entries[i].0 in store ==> t[entries[i].0] == entries[i].1)
      && (forall p :: p in store && !Saved(entries, p) ==>
            !t[p].guarded && forall k :: 0 <= k < |t[p].aces| ==>
              Inherited(t[p].aces[k]) && BaselineName(entries, t[p].aces[k].trustee))
  {
    forall i | 0 <= i < |entries| && entries[i].0 in store
      ensures Revoked(inherit, outer, store, entries)[entries[i].0] == entries[i].1
    {
      RestoredExactly(inherit, Reset(inherit, outer, store), entries, i);
    }
    forall p | p in store && !Saved(entries, p)
      ensures var t := Revoked(inherit, outer, store, entries);
        !t[p].guarded && forall k :: 0 <= k < |t[p].aces| ==>
          Inherited(t[p].aces[k]) && BaselineName(entries, t[p].aces[k].trustee)
    {
      NewPathsFollowBaseline(inherit, outer, store, entries, p);
    }
  }

  /** A path that the baseline does not hold ends with exactly the list its parent directory passes
      on, after all lists above it were set. */
  lemma NewPathsInherit(inherit: Inheritance, outer: seq<Ace>, store: Store, entries: seq<(Path, Dacl)>, p: Path)
    requires PassesOn(inherit) && Tree(store) && Snapshot(entries) && p in store && !Saved(entries, p)
    ensures var t := Revoked(inherit, outer, store, entries);
      p != [] && Parent(p) in t && t[p] == Dacl(false, inherit(t[Parent(p)].aces, p))
  {
    assert p != [];
    ResetFollows(inherit, outer, store, p);
    RestoreFollows(inherit, outer, Reset(inherit, outer, store), entries, p);
    hide Reset, Restore, Snapshot;
  }

  // ---- interruption -------------------------------------------------------------------------

  /** A reset makes of two trees with the same paths the same tree, whatever their lists were. */
  lemma ResetForgets(inherit: Inheritance, outer: seq<Ace>, a: Store, b: Store)
    requires a.Keys == b.Keys
    ensures Reset(inherit, outer, a) == Reset(inherit, outer, b)
  {
    assert forall p :: p in a <==> p in b.Keys;
    assert Reset(inherit, outer, a).Keys == Reset(inherit, outer, b).Keys;
  }

  // ---- the ancestors --------------------------------------------------------------------------

  /** `icacls /grant` on an ancestor: one explicit entry more. */
  function Grant(dacl: Dacl, ace: Ace): Dacl { dacl.(aces := dacl.aces + [ace]) }

  predicate IsGrant(ace: Ace, principal: string) {
    ace.trustee == principal && !Inherited(ace) && ace.kind == "A"
  }

  /** `icacls /remove:g`: every explicit grant of the principal goes. */
  function RemoveGrants(aces: seq<Ace>, principal: string): (r: seq<Ace>)
    ensures forall k :: 0 <= k < |r| ==> !IsGrant(r[k], principal)
    ensures |r| <= |aces|
  {
    if aces == [] then []
    else
      var rest := RemoveGrants(aces[1..], principal);
      if IsGrant(aces[0], principal) then rest else [aces[0]] + rest
  }

  ghost predicate HoldsGrant(aces: seq<Ace>, principal: string) {
    exists k :: 0 <= k < |aces| && IsGrant(aces[k], principal)
  }

  lemma {:induction false} RemoveAppended(aces: seq<Ace>, ace: Ace, principal: string)
    ensures RemoveGrants(aces + [ace], principal)
         == RemoveGrants(aces, principal) + if IsGrant(ace, principal) then [] else [ace]
  {
    var all := aces + [ace];
    if aces == [] {
      assert all[1..] == [];
    } else {
      assert all[1..] == aces[1..] + [ace];
      RemoveAppended(aces[1..], ace, principal);
    }
  }

  lemma {:induction false} RemoveKeepsExactly(aces: seq<Ace>, principal: string)
    ensures RemoveGrants(aces, principal) == aces <==> !HoldsGrant(aces, principal)
    ensures HoldsGrant(aces, principal) ==> |RemoveGrants(aces, principal)| < |aces|
  {
    if aces != [] {
      RemoveKeepsExactly(aces[1..], principal);
      assert aces == [aces[0]] + aces[1..];
      assert forall k :: 0 <= k < |aces[1..]| ==> aces[1..][k] == aces[k + 1];
      if HoldsGrant(aces, principal) {
        var k :| 0 <= k < |aces| && IsGrant(aces[k], principal);
        assert k > 0 ==> aces[1..][k - 1] == aces[k];
      }
    }
  }

  /** What is removed is every explicit grant of the principal and nothing else: `kept` lists, in
      order, where the entries that stay stood. */
  lemma {:induction false} RemovesGrantsOnly(aces: seq<Ace>, principal: string) returns (kept: seq<nat>)
    ensures |kept| == |RemoveGrants(aces, principal)|
    ensures forall i, j :: 0 <= i < j < |kept| ==> kept[i] < kept[j]
    ensures forall i :: 0 <= i < |kept| ==> kept[i] < |aces| && RemoveGrants(aces, principal)[i] == aces[kept[i]]
    ensures forall k: nat :: k < |aces| ==>
      (k !in kept <==> aces[k].trustee == principal && "ID" !in aces[k].codes && aces[k].kind == "A")
  {
    kept := [];
    if aces != [] {
      var init, last := aces[..|aces| - 1], aces[|aces| - 1];
      kept := RemovesGrantsOnly(init, principal);
      RemoveAppended(init, last, principal);
      assert aces == init + [last];
      hide RemoveGrants;
      if !IsGrant(last, principal) { kept := kept + [|init|]; }
    }
  }

  /** An ancestor is as before after grant and removal exactly when it held no explicit grant of
      the sandbox before; in either case it holds none afterwards. */
  lemma AncestorRestoredExactly(dacl: Dacl, ace: Ace)
    requires !Inherited(ace) && ace.kind == "A"
    ensures var after := RemoveGrants(Grant(dacl, ace).aces, ace.trustee);
      (after == dacl.aces <==> !HoldsGrant(dacl.aces, ace.trustee)) && !HoldsGrant(after, ace.trustee)
  {
    RemoveAppended(dacl.aces, ace, ace.trustee);
    RemoveKeepsExactly(dacl.aces, ace.trustee);
  }
}
