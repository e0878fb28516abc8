/** Revoking an epoch over any number of interrupted attempts: the lists of the work tree, the
    grants on its ancestors, the verification snapshot kept beside the baseline, and the event
    that closes the epoch. */
module AclRerun {
  import opened Text
  import Sddl
  import Tree = AclRevocation
  import opened AclCheck

  /** What stands where the verification snapshot belongs; a file is its non-blank lines. */
  datatype VerifyFile = Absent | Unsafe | Undecodable | Lines(lines: seq<string>)

  /** The tree, the three directories above it, the verification file, and whether the epoch
      is recorded as revoked. */
  datatype World = World(store: Tree.Store, ancestors: seq<seq<Tree.Ace>>, verify: VerifyFile, closed: bool)

  /** What does not change between attempts: how lists are inherited, saved and read, the name of
      a path in a snapshot, the baseline and its sealed file, and the sandbox's principal. */
  datatype Setting = Setting(inherit: Tree.Inheritance, outer: seq<Tree.Ace>, entries: seq<(Tree.Path, Tree.Dacl)>,
                             baseline: seq<string>, principal: string, before: Autos, after: Autos,
                             name: Tree.Path -> string, save: Tree.Store -> seq<string>,
                             absolute: string -> bool, fold: string -> string) {

    /** The name under which the reader of a snapshot keeps a path. */
    function Key(path: Tree.Path): string { fold(Sddl.Backslashes(name(path))) }

    ghost predicate Apart(paths: set<Tree.Path>) {
      forall a, b :: a in paths && b in paths && Key(a) == Key(b) ==> a == b
    }

    ghost function Named(texts: map<Tree.Path, string>): map<string, string>
      requires Apart(texts.Keys)
    {
      map a | a in texts :: Key(a) := texts[a]
    }

    /** A save can be read exactly when no two paths have one name, and then gives each its list. */
    ghost predicate Saves(store: Tree.Store) {
      && (Sddl.SnapshotLines(save(store), absolute, fold) <==> Apart(store.Keys))
      && (Apart(store.Keys) ==> Sddl.SnapshotMap(save(store), absolute, fold) == Named(StoreText(store, after)))
    }

    ghost predicate SealedBaseline() {
      && Sddl.SnapshotLines(baseline, absolute, fold) && Apart(BaselineText(entries, before).Keys)
      && Sddl.SnapshotMap(baseline, absolute, fold) == Named(BaselineText(entries, before))
    }

    /** What the host takes for granted of the system's own commands and of the sealed baseline. */
    ghost predicate Sound() {
      && Tree.PassesOn(inherit) && PlainInheritance(inherit) && AllAuto(before) && AllAuto(after)
      && Tree.Snapshot(entries) && (forall i :: 0 <= i < |entries| ==> PlainAces(entries[i].1.aces))
      && SealedBaseline() && forall s: Tree.Store :: [] in s ==> Saves(s)
    }

    /** No path of the tree has the name of another path of the baseline. */
    ghost predicate NamesFit(store: Tree.Store) {
      forall a, b :: a in store && Tree.Saved(entries, b) && Key(a) == Key(b) ==> a == b
    }

    /** The attempt may replace what it finds: nothing, or a snapshot it can read. */
    ghost predicate Passable(verify: VerifyFile) {
      match verify
      case Absent => true
      case Lines(lines) => Sddl.SnapshotLines(lines, absolute, fold)
      case _ => false
    }

    /** The closing test, on the two snapshots as they are read. */
    ghost predicate Clean(lines: seq<string>) {
      && Sddl.SnapshotLines(baseline, absolute, fold) && Sddl.SnapshotLines(lines, absolute, fold)
      && Sddl.NoExplicitDelta(Sddl.SnapshotMap(baseline, absolute, fold), Sddl.SnapshotMap(lines, absolute, fold), fold)
    }
  }

  // ---- the assumptions can be met -----------------------------------------------------------

  function OneName(path: Tree.Path): string { "x" }

  function NoFlags(path: Tree.Path): string { "" }

  predicate NeverAbsolute(path: string) { false }

  function SameText(text: string): string { text }

  function SmallSave(store: Tree.Store): seq<string> {
    if store.Keys == {[]} then ["x", DaclText(store[[]], "")] else []
  }

  function SmallSetting(): Setting {
    Setting((aces, path) => [], [], [([], Tree.Dacl(false, []))], ["x", "D:"], "", NoFlags, NoFlags, OneName,
            SmallSave, NeverAbsolute, SameText)
  }

  lemma SmallSnapshot(text: string)
    requires StartsWith(text, "D:")
    ensures Sddl.SnapshotLines(["x", text], NeverAbsolute, SameText)
    ensures Sddl.SnapshotMap(["x", text], NeverAbsolute, SameText) == map["x" := text]
    ensures SmallSetting().Key([]) == "x"
  {
    var lines := ["x", text];
    assert Sddl.Backslashes("x") == "x" && "x"[1..] == "";
    assert Sddl.Components("") == [""] && Sddl.Components("x") == [['x'] + ""] + [];
    assert Sddl.SafeEntry(Sddl.Backslashes(lines[0]), lines[1], NeverAbsolute);
    assert |lines| / 2 == 1 && Sddl.EntryKey(lines, 0, SameText) == "x";
  }

  lemma SmallSaves(s: Tree.Store)
    requires [] in s
    ensures SmallSetting().Saves(s)
  {
    var p := SmallSetting();
    hide DaclText, Sddl.Backslashes;
    if s.Keys == {[]} {
      var text := DaclText(s[[]], "");
      assert StartsWith(text, "D:") by { DaclTextStarts(s[[]], ""); }
      SmallSnapshot(text);
      assert p.Named(StoreText(s, p.after)) == map["x" := text];
    } else {
      var q :| q in s && q != [];
      assert p.Key(q) == p.Key([]);
    }
  }

  lemma DaclTextStarts(dacl: Tree.Dacl, auto: string)
    ensures StartsWith(DaclText(dacl, auto), "D:")
  {
  }

  lemma SmallText()
    ensures BaselineText(SmallSetting().entries, SmallSetting().before) == map[[] := "D:"]
  {
    var entries := SmallSetting().entries;
    assert DaclText(Tree.Dacl(false, []), "") == "D:";
    assert entries[..0] == [];
  }

  lemma SmallBaseline()
    ensures SmallSetting().SealedBaseline()
    ensures SmallSetting().NamesFit(map[[] := Tree.Dacl(false, [])])
  {
    hide Sddl.SnapshotLines, Sddl.SnapshotMap, BaselineText, DaclText, Setting.Key, Sddl.Backslashes;
    var p := SmallSetting();
    SmallText();
    SmallSnapshot("D:");
    assert p.Named(map[[] := "D:"]) == map["x" := "D:"];
  }

  /** A work tree that inherits nothing, and one name for all paths: only a tree of one path can be
      saved, and is saved as one pair of lines. */
  lemma SoundSetting() returns (p: Setting)
    ensures p.Sound() && p.NamesFit(map[[] := Tree.Dacl(false, [])])
  {
    p := SmallSetting();
    assert p.entries[0].0 == [];
    SmallBaseline();
    forall s: Tree.Store | [] in s ensures p.Saves(s) { SmallSaves(s); }
    hide Setting.Saves, Setting.SealedBaseline, Setting.NamesFit;
  }

  // ---- the closing test on what is read -----------------------------------------------------

  lemma TrusteeNamed(p: Setting, texts: map<Tree.Path, string>, ace: string)
    requires p.Apart(texts.Keys) && Sddl.InheritedFromBaseline(texts, ace, p.fold)
    ensures Sddl.InheritedFromBaseline(p.Named(texts), ace, p.fold)
  {
    hide Sddl.TrusteesOf, Sddl.Aces, Sddl.Fields;
    var trustee := p.fold(Sddl.Fields(ace)[5]);
    var q :| q in texts && trustee in Sddl.TrusteesOf(Sddl.Aces(texts[q]), p.fold);
    assert p.Named(texts)[p.Key(q)] == texts[q];
  }

  lemma NamedPathPasses(p: Setting, a: map<Tree.Path, string>, q: Tree.Path, text: string)
    requires p.Apart(a.Keys + {q}) && p.Apart(a.Keys) && Sddl.PathClean(a, q, text, p.fold)
    ensures Sddl.PathClean(p.Named(a), p.Key(q), text, p.fold)
  {
    hide Sddl.InheritedFromBaseline, Sddl.Aces, Sddl.Flags, Sddl.Control, Setting.Key;
    if q !in a {
      assert p.Key(q) !in p.Named(a);
      forall k | 0 <= k < |Sddl.Aces(text)|
        ensures Sddl.InheritedFromBaseline(p.Named(a), Sddl.Aces(text)[k], p.fold)
      {
        TrusteeNamed(p, a, Sddl.Aces(text)[k]);
      }
    }
  }

  /** A test passed path by path is passed name by name, where no two paths have one name. */
  lemma NamedPasses(p: Setting, a: map<Tree.Path, string>, b: map<Tree.Path, string>)
    requires p.Apart(b.Keys + a.Keys) && p.Apart(a.Keys) && p.Apart(b.Keys) && Sddl.NoExplicitDelta(a, b, p.fold)
    ensures Sddl.NoExplicitDelta(p.Named(a), p.Named(b), p.fold)
  {
    hide Sddl.PathClean, Setting.Key;
    forall key | key in p.Named(b) ensures Sddl.PathClean(p.Named(a), key, p.Named(b)[key], p.fold) {
      var q :| q in b && p.Key(q) == key;
      NamedPathPasses(p, a, q, b[q]);
    }
  }

  /** Where an attempt ends: a tree command stopped halfway leaves any lists on the same paths,
      a save stopped halfway any file; otherwise it ends between two commands or completes. */
  datatype Stop = InTree(left: map<Tree.Path, Tree.Dacl>) | InAncestors(done: nat) | BeforeSave
                | InSave(written: VerifyFile) | BeforeClose | Completes

  /** The first `n` ancestors without the principal's explicit grants. */
  function Cleared(ancestors: seq<seq<Tree.Ace>>, n: nat, principal: string): (r: seq<seq<Tree.Ace>>)
    ensures |r| == |ancestors| && forall i :: n <= i < |ancestors| ==> r[i] == ancestors[i]
  {
    seq(|ancestors|, i requires 0 <= i < |ancestors| =>
      if i < n then Tree.RemoveGrants(ancestors[i], principal) else ancestors[i])
  }

  /** One attempt to revoke; a closed epoch is not attempted again. */
  ghost function Attempt(p: Setting, w: World, stop: Stop): World {
    if w.closed then w
    else if stop.InTree? then
      w.(store := map q | q in w.store :: if q in stop.left then stop.left[q] else w.store[q])
    else
      var store := Tree.Revoked(p.inherit, p.outer, w.store, p.entries);
      var n := if stop.InAncestors? then stop.done else |w.ancestors|;
      var u := World(store, Cleared(w.ancestors, n, p.principal), w.verify, false);
      if stop.InAncestors? || !p.Passable(w.verify) then u
      else
        match stop
        case BeforeSave => u.(verify := Absent)
        case InSave(written) => u.(verify := written)
        case _ =>
          var v := u.(verify := Lines(p.save(store)));
          v.(closed := stop.Completes? && p.Clean(p.save(store)))
  }

  ghost function Attempts(p: Setting, w: World, stops: seq<Stop>): World {
    if stops == [] then w else Attempt(p, Attempts(p, w, stops[..|stops| - 1]), stops[|stops| - 1])
  }

  // ---- what an attempt keeps --------------------------------------------------------------

  lemma ClearedTwice(ancestors: seq<seq<Tree.Ace>>, n: nat, principal: string)
    ensures Cleared(Cleared(ancestors, n, principal), |ancestors|, principal)
         == Cleared(ancestors, |ancestors|, principal)
  {
    hide Tree.RemoveGrants;
    forall i | 0 <= i < |ancestors|
      ensures Tree.RemoveGrants(Tree.RemoveGrants(ancestors[i], principal), principal)
           == Tree.RemoveGrants(ancestors[i], principal)
    {
      Tree.RemoveKeepsExactly(Tree.RemoveGrants(ancestors[i], principal), principal);
    }
  }

  /** Two worlds an attempt that completes cannot tell apart, but for the verification file. */
  ghost predicate Alike(p: Setting, a: World, b: World) {
    && a.store.Keys == b.store.Keys && |a.ancestors| == |b.ancestors|
    && Cleared(a.ancestors, |a.ancestors|, p.principal) == Cleared(b.ancestors, |b.ancestors|, p.principal)
  }

  lemma RevokedAlike(p: Setting, a: World, b: World)
    requires Alike(p, a, b)
    ensures Tree.Revoked(p.inherit, p.outer, a.store, p.entries) == Tree.Revoked(p.inherit, p.outer, b.store, p.entries)
  {
    Tree.ResetForgets(p.inherit, p.outer, a.store, b.store);
  }

  lemma AttemptAlike(p: Setting, w: World, stop: Stop)
    ensures Alike(p, Attempt(p, w, stop), w)
  {
    hide Tree.Revoked, Tree.RemoveGrants, Sddl.NoExplicitDelta;
    var n := if stop.InAncestors? then stop.done else |w.ancestors|;
    ClearedTwice(w.ancestors, n, p.principal);
  }

  /** What every attempt on a fresh epoch leaves: an open epoch, or the finished result. */
  ghost predicate Kept(p: Setting, start: World, w: World) {
    Alike(p, w, start) && (w.closed ==> w == Attempt(p, start, Completes))
  }

  lemma AttemptKeeps(p: Setting, start: World, w: World, stop: Stop)
    requires Kept(p, start, w) && !start.closed && start.verify.Absent?
    ensures Kept(p, start, Attempt(p, w, stop))
  {
    hide Tree.Revoked, Tree.RemoveGrants, Sddl.NoExplicitDelta, Sddl.SnapshotLines, Cleared;
    AttemptAlike(p, w, stop);
    RevokedAlike(p, w, start);
  }

  lemma AlikeItself(p: Setting, w: World)
    ensures Alike(p, w, w)
  {
  }

  lemma {:induction false} AttemptsKeep(p: Setting, start: World, stops: seq<Stop>)
    requires !start.closed && start.verify.Absent?
    ensures Kept(p, start, Attempts(p, start, stops))
  {
    hide Attempt, Alike;
    if stops == [] {
      AlikeItself(p, start);
    } else {
      var n := |stops| - 1;
      AttemptsKeep(p, start, stops[..n]);
      AttemptKeeps(p, start, Attempts(p, start, stops[..n]), stops[n]);
    }
  }

  // ---- closing --------------------------------------------------------------------------------

  lemma RevokedSaves(p: Setting, store: Tree.Store)
    requires p.Sound() && Tree.Tree(store)
    ensures p.Saves(Tree.Revoked(p.inherit, p.outer, store, p.entries))
  {
    hide Tree.Revoked, Tree.PassesOn, PlainInheritance, AllAuto, PlainAces, Tree.Snapshot, Setting.Saves,
      Setting.SealedBaseline;
  }

  lemma BaselineKeys(p: Setting, store: Tree.Store)
    requires p.Sound() && p.NamesFit(store) && p.Apart(store.Keys)
    ensures p.Apart(store.Keys + BaselineText(p.entries, p.before).Keys)
  {
    hide Tree.PassesOn, PlainInheritance, AllAuto, PlainAces, Setting.Saves, BaselineText, Setting.Key;
    BaselineTextAt(p.entries, p.before);
  }

  /** What a completed revocation saves passes the test exactly when it can be read. */
  lemma RevokedStore(p: Setting, store: Tree.Store)
    requires p.Sound() && Tree.Tree(store) && p.NamesFit(store)
    ensures p.Clean(p.save(Tree.Revoked(p.inherit, p.outer, store, p.entries))) <==> p.Apart(store.Keys)
  {
    hide Tree.Revoked, Sddl.NoExplicitDelta, Sddl.SnapshotLines, Sddl.SnapshotMap, BaselineText,
      Tree.PassesOn, PlainInheritance, AllAuto, PlainAces, Tree.Tree, Tree.Snapshot, Setting.Key, Setting.NamesFit;
    var t := Tree.Revoked(p.inherit, p.outer, store, p.entries);
    var baseline, current := BaselineText(p.entries, p.before), StoreText(t, p.after);
    RevokedSaves(p, store);
    assert current.Keys == store.Keys;
    if p.Apart(store.Keys) {
      BaselineKeys(p, store);
      RevokedTreePasses(p.inherit, p.outer, store, p.entries, p.before, p.after, p.fold);
      NamedPasses(p, baseline, current);
    }
  }

  lemma ClearedAll(ancestors: seq<seq<Tree.Ace>>, principal: string)
    ensures forall i :: 0 <= i < |ancestors| ==>
      Cleared(ancestors, |ancestors|, principal)[i] == Tree.RemoveGrants(ancestors[i], principal)
  {
    hide Tree.RemoveGrants;
  }

  lemma CompletesWith(p: Setting, w: World, store: Tree.Store)
    requires store == Tree.Revoked(p.inherit, p.outer, w.store, p.entries) && !w.closed
    ensures Attempt(p, w, Completes) ==
      World(store, Cleared(w.ancestors, |w.ancestors|, p.principal),
            if p.Passable(w.verify) then Lines(p.save(store)) else w.verify,
            p.Passable(w.verify) && p.Clean(p.save(store)))
  {
    hide Tree.Revoked, Cleared, Setting.Clean, Setting.Passable;
  }

  /** An attempt that is let run closes the epoch exactly when it may replace the verification
      file it finds and no two paths of the tree have one case-folded name; in either case the
      lists and the ancestors are restored. */
  lemma ClosesExactly(p: Setting, w: World)
    requires p.Sound() && Tree.Tree(w.store) && p.NamesFit(w.store) && !w.closed
    ensures var done := Attempt(p, w, Completes);
      && (done.closed <==> p.Passable(w.verify) && p.Apart(w.store.Keys))
      && done.store == Tree.Revoked(p.inherit, p.outer, w.store, p.entries)
      && |done.ancestors| == |w.ancestors|
      && (forall i :: 0 <= i < |w.ancestors| ==> done.ancestors[i] == Tree.RemoveGrants(w.ancestors[i], p.principal))
      && done.verify == (if p.Passable(w.verify) then Lines(p.save(done.store)) else w.verify)
  {
    hide *;
    var store := Tree.Revoked(p.inherit, p.outer, w.store, p.entries);
    RevokedStore(p, w.store);
    CompletesWith(p, w, store);
    ClearedAll(w.ancestors, p.principal);
  }

  /** After any interruptions, letting the revocation run gives the undisturbed result exactly
      when the verification file that was left is absent or readable as a snapshot. */
  lemma RerunExactly(p: Setting, start: World, stops: seq<Stop>)
    requires p.Sound() && Tree.Tree(start.store) && p.NamesFit(start.store) && p.Apart(start.store.Keys)
    requires !start.closed && start.verify.Absent?
    ensures var left := Attempts(p, start, stops);
      Attempt(p, left, Completes) == Attempt(p, start, Completes) <==> p.Passable(left.verify)
  {
    hide Tree.Revoked, Tree.RemoveGrants, Sddl.NoExplicitDelta, Sddl.SnapshotLines, Cleared, Tree.Tree;
    var left := Attempts(p, start, stops);
    AttemptsKeep(p, start, stops);
    RevokedAlike(p, left, start);
    RevokedStore(p, start.store);
  }

  /** The epoch is recorded as revoked only in a state where every surviving baseline path has its
      baseline list, every other path only inherited entries of baseline trustees, no ancestor an
      explicit grant of the sandbox, and the snapshot that was just saved passes the test. */
  lemma ClosedIsClean(p: Setting, start: World, stops: seq<Stop>)
    requires p.Sound() && Tree.Tree(start.store) && !start.closed && start.verify.Absent?
    requires Attempts(p, start, stops).closed
    ensures var w := Attempts(p, start, stops);
      && w.store.Keys == start.store.Keys
      && (forall i :: 0 <= i < |p.entries| && p.entries[i].0 in w.store ==> w.store[p.entries[i].0] == p.entries[i].1)
      && (forall q :: q in w.store && !Tree.Saved(p.entries, q) ==>
            !w.store[q].guarded && forall k :: 0 <= k < |w.store[q].aces| ==>
              Tree.Inherited(w.store[q].aces[k]) && Tree.BaselineName(p.entries, w.store[q].aces[k].trustee))
      && (forall i :: 0 <= i < |w.ancestors| ==> !Tree.HoldsGrant(w.ancestors[i], p.principal))
      && w.verify == Lines(p.save(w.store)) && p.Clean(p.save(w.store))
  {
    hide Tree.Revoked, Tree.RemoveGrants, Tree.Tree, Tree.Snapshot, Setting.Saves, Setting.SealedBaseline,
      Setting.Clean, Setting.Passable;
    AttemptsKeep(p, start, stops);
    Tree.RevocationIsNetZero(p.inherit, p.outer, start.store, p.entries);
  }

  // ---- blocked for good -------------------------------------------------------------------------

  /** A verification file that cannot be read blocks every later attempt, and nothing the
      attempts do removes it. */
  lemma {:induction false} BlockedForever(p: Setting, w: World, stops: seq<Stop>)
    requires !w.closed && !p.Passable(w.verify)
    ensures !Attempts(p, w, stops).closed && Attempts(p, w, stops).verify == w.verify
  {
    hide Tree.Revoked, Cleared, Sddl.NoExplicitDelta, Sddl.SnapshotLines;
    if stops != [] { BlockedForever(p, w, stops[..|stops| - 1]); }
  }

  lemma UnnamedStaysOpen(p: Setting, w: World, stop: Stop)
    requires p.Sound() && [] in w.store && !p.Apart(w.store.Keys) && !w.closed
    ensures var u := Attempt(p, w, stop); !u.closed && u.store.Keys == w.store.Keys
  {
    hide Tree.Revoked, Cleared, Sddl.NoExplicitDelta, Sddl.SnapshotLines, Sddl.SnapshotMap, Tree.PassesOn,
      PlainInheritance, AllAuto, Tree.Snapshot;
    var t := Tree.Revoked(p.inherit, p.outer, w.store, p.entries);
    assert p.Saves(t);
  }

  /** Two paths of the tree with one case-folded name leave an epoch that no attempt ever closes. */
  lemma {:induction false} FoldedNamesBlock(p: Setting, start: World, stops: seq<Stop>)
    requires p.Sound() && Tree.Tree(start.store) && !p.Apart(start.store.Keys) && !start.closed
    ensures var w := Attempts(p, start, stops); !w.closed && w.store.Keys == start.store.Keys
  {
    hide Attempt;
    if stops != [] {
      FoldedNamesBlock(p, start, stops[..|stops| - 1]);
      hide *;
      UnnamedStaysOpen(p, Attempts(p, start, stops[..|stops| - 1]), stops[|stops| - 1]);
    }
  }

  lemma {:induction false} AttemptsAfter(p: Setting, w: World, a: seq<Stop>, b: seq<Stop>)
    ensures Attempts(p, w, a + b) == Attempts(p, Attempts(p, w, a), b)
  {
    if b == [] {
      assert a + b == a;
    } else {
      assert (a + b)[..|a + b| - 1] == a + b[..|b| - 1];
      AttemptsAfter(p, w, a, b[..|b| - 1]);
    }
  }

  lemma OneAttempt(p: Setting, w: World, stop: Stop)
    ensures Attempts(p, w, [stop]) == Attempt(p, w, stop)
  {
    hide Attempt;
    assert [stop][..0] == [];
  }

  /** A save that is cut off before its first line, or between a path and its list, leaves an
      epoch that no later attempt ever closes. */
  lemma CutSaveBlocks(p: Setting, start: World, lines: seq<string>, stops: seq<Stop>)
    requires !start.closed && start.verify.Absent? && (lines == [] || |lines| % 2 == 1)
    ensures !Attempts(p, start, [InSave(Lines(lines))] + stops).closed
  {
    hide Tree.Revoked, Cleared, Sddl.NoExplicitDelta, Attempts;
    var cut := [InSave(Lines(lines))];
    AttemptsAfter(p, start, cut, stops);
    OneAttempt(p, start, cut[0]);
    BlockedForever(p, Attempt(p, start, cut[0]), stops);
  }
}
