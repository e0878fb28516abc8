/** When an epoch can still be staged: exactly the logs and live hosts from which some run stages
    one, while no revocation's write fails. */
module EpochStaging {
  import opened EpochLog

  // ---- what a host can still do ---------------------------------------------------------

  /** Between its directory and its staged event. */
  predicate Builder(pc: Pc) { pc.Reserved? || pc.Planning? || pc.Planned? }

  /** Can reach the directory behind epoch `n` once the last epoch is revoked. */
  predicate Stager(s: State, n: nat, pc: Pc) {
    match pc
    case ToStage => n <= LAST_NAME && s.plan <= s.staged
    case Listed(rest, last) => last == n && rest <= s.staged
    case Surveyed(last) => last == n
    case _ => false
  }

  /** Can revoke epoch `n`, which is active, once its staged event can be read. */
  predicate Revoker(s: State, n: nat, pc: Pc) {
    match pc
    case ToRevoke => n <= LAST_NAME && s.revoked <= s.staged
    case Scanning(rest, found) => found <= {n} && n in rest + found && rest <= s.plan && rest * s.revoked <= s.staged
    case Found(e) => e == n
    case Active(e) => e == n
    case _ => false
  }

  ghost predicate SomeBuilder(s: State) { exists i :: 0 <= i < |s.hosts| && Builder(s.hosts[i]) }

  ghost predicate SomeStager(s: State, n: nat) { exists i :: 0 <= i < |s.hosts| && Stager(s, n, s.hosts[i]) }

  ghost predicate SomeRevoker(s: State, n: nat) { exists i :: 0 <= i < |s.hosts| && Revoker(s, n, s.hosts[i]) }

  /** The staged event of epoch `n` can be read, or its writer is alive. */
  ghost predicate CanBeRead(s: State, n: nat) {
    n in s.whole || exists i :: 0 <= i < |s.hosts| && s.hosts[i] == Staging(n)
  }

  /** The last epoch is revoked, or active and a live host can revoke it. */
  ghost predicate CanBeRevoked(s: State, n: nat) {
    n == 0 || n in s.revoked || (n in s.staged && CanBeRead(s, n) && SomeRevoker(s, n))
  }

  /** A live host is building, or the directory behind the last epoch is free, a live host can
      reach it, and the last epoch is or can be revoked with its staged event in place. */
  ghost predicate CanStage(s: State, n: nat) {
    SomeBuilder(s) || (n + 1 !in s.dirs && SomeStager(s, n) && CanBeRevoked(s, n))
  }

  // ---- what cannot be staged stays so -----------------------------------------------------

  lemma StagerBefore(rules: Rules, s: State, a: Action, n: nat, i: nat)
    requires Orderly(s, n) && !SomeBuilder(s) && !rules.revokedMayFail && i < |s.hosts|
    requires Stager(Do(rules, s, a), n, Do(rules, s, a).hosts[i])
    ensures Stager(s, n, s.hosts[i])
  {
    StagedShrinks(rules, s, a, n);
    LargestIsLast(s, n);
    if a.host == i { OwnStagerBefore(rules, s, a, n); }
    hide Orderly, Largest, Events, Listable, Smallest;
  }

  lemma OwnStagerBefore(rules: Rules, s: State, a: Action, n: nat)
    requires a.host < |s.hosts| && !Builder(s.hosts[a.host])
    requires Events(s) == s.plan && Largest(Events(s)) == n && (n > 0 ==> n in s.plan)
    requires Do(rules, s, a).staged <= s.staged && Do(rules, s, a).plan == s.plan
    requires Stager(Do(rules, s, a), n, Do(rules, s, a).hosts[a.host])
    ensures Stager(s, n, s.hosts[a.host])
  {
    hide Largest, Smallest;
  }

  lemma RevokerBefore(rules: Rules, s: State, a: Action, n: nat, i: nat)
    requires Orderly(s, n) && !SomeBuilder(s) && !rules.revokedMayFail && i < |s.hosts| && n > 0
    requires Revoker(Do(rules, s, a), n, Do(rules, s, a).hosts[i])
    ensures Revoker(s, n, s.hosts[i])
  {
    StagedShrinks(rules, s, a, n);
    LargestIsLast(s, n);
    if a.host == i { OwnRevokerBefore(rules, s, a, n); }
    hide Orderly, Largest, Events, Listable, Smallest;
  }

  lemma OwnRevokerBefore(rules: Rules, s: State, a: Action, n: nat)
    requires a.host < |s.hosts| && !Builder(s.hosts[a.host]) && Events(s) == s.plan && n in s.plan
    requires Do(rules, s, a).staged <= s.staged && Do(rules, s, a).plan == s.plan
    requires s.revoked <= Do(rules, s, a).revoked && s.revoked <= s.plan
    requires Revoker(Do(rules, s, a), n, Do(rules, s, a).hosts[a.host])
    ensures Revoker(s, n, s.hosts[a.host])
  {
    var t := Do(rules, s, a);
    if a.move.Advance? {
      if s.hosts[a.host].Scanning? {
        ScanningBefore(s, a.host, n);
      } else {
        hide Largest, Smallest, AfterScan, IsActive, Complete;
      }
    } else {
      SamePlace(rules, s, a);
      hide Do;
      RevokerShrinks(s, t, n, s.hosts[a.host]);
    }
  }

  /** A move other than an advance keeps the place of a host that looks for an epoch, or ends it. */
  lemma SamePlace(rules: Rules, s: State, a: Action)
    requires a.host < |s.hosts| && !a.move.Advance?
    ensures var pc := Do(rules, s, a).hosts[a.host];
      pc == s.hosts[a.host] || pc.Dead? || pc.Done? || pc.Planned?
  {
    hide Advanced;
  }

  lemma RevokerShrinks(s: State, t: State, n: nat, pc: Pc)
    requires Revoker(t, n, pc) && t.staged <= s.staged && t.plan == s.plan && s.revoked <= t.revoked
    ensures Revoker(s, n, pc)
  {
  }

  lemma ScanningBefore(s: State, i: nat, n: nat)
    requires i < |s.hosts| && s.hosts[i].Scanning? && Revoker(Advanced(s, i), n, Advanced(s, i).hosts[i])
    ensures Revoker(s, n, s.hosts[i])
  {
    hide Largest, Events, Listable, Complete;
    var rest, found := s.hosts[i].rest, s.hosts[i].found;
    if rest == {} {
      if |found| == 1 { OnlyElement(found); }
    } else {
      assert rest == (rest - {Smallest(rest)}) + {Smallest(rest)};
    }
  }

  lemma OnlyElement(epochs: set<nat>)
    requires |epochs| == 1
    ensures epochs == {Smallest(epochs)}
  {
    assert |epochs - {Smallest(epochs)}| == 0;
  }

  /** Without a builder nothing new is planned or staged. */
  lemma StagedShrinks(rules: Rules, s: State, a: Action, n: nat)
    requires Orderly(s, n) && !SomeBuilder(s) && !rules.revokedMayFail
    ensures var t := Do(rules, s, a);
      && t.staged <= s.staged && t.plan == s.plan && s.revoked <= t.revoked && NextLast(rules, s, a, n) == n
      && (forall i :: 0 <= i < |s.hosts| && i != a.host ==> t.hosts[i] == s.hosts[i]) && |t.hosts| == |s.hosts|
  {
    hide Largest, Smallest, Listable, Events, AfterScan, IsActive, Complete;
    if a.host < |s.hosts| { assert !Builder(s.hosts[a.host]); }
  }

  lemma StepCannotStage(rules: Rules, s: State, a: Action, n: nat)
    requires Orderly(s, n) && !rules.revokedMayFail && !CanStage(s, n)
    ensures var t := Do(rules, s, a);
      !CanStage(t, NextLast(rules, s, a, n)) && t.staged <= s.staged
  {
    StagedShrinks(rules, s, a, n);
    var t := Do(rules, s, a);
    hide Do, Orderly, Stager, Revoker, CanBeRead;
    if SomeBuilder(t) {
      var i :| 0 <= i < |t.hosts| && Builder(t.hosts[i]);
      assert i == a.host;
      NewBuilder(rules, s, a, n);
    } else if CanStage(t, n) {
      var i :| 0 <= i < |t.hosts| && Stager(t, n, t.hosts[i]);
      StagerBefore(rules, s, a, n, i);
      FreeBefore(rules, s, a, n);
      StagerNeeds(s, n, i);
      RevokedBefore(rules, s, a, n);
    }
  }

  lemma FreeBefore(rules: Rules, s: State, a: Action, n: nat)
    requires Orderly(s, n) && !rules.revokedMayFail && n + 1 !in Do(rules, s, a).dirs
    ensures n + 1 !in s.dirs
  {
    if a.host < |s.hosts| { OwnStep(rules, s, a, n); }
    hide Orderly;
  }

  /** A host that begins to build stood before a free directory behind a revoked log. */
  lemma NewBuilder(rules: Rules, s: State, a: Action, n: nat)
    requires Orderly(s, n) && !rules.revokedMayFail && a.host < |s.hosts| && !Builder(s.hosts[a.host])
    requires Builder(Do(rules, s, a).hosts[a.host])
    ensures n + 1 !in s.dirs && Stager(s, n, s.hosts[a.host]) && CanBeRevoked(s, n)
  {
    assert HostFits(s, n, s.hosts[a.host]);
    hide Largest, Smallest, Listable, Events, Distinct;
    var pc := s.hosts[a.host];
    assert pc.Surveyed? && pc.last + 1 !in s.dirs;
    assert pc.last + 1 !in s.plan && n + 1 !in s.revoked;
  }

  /** A stager that has not seen the last epoch revoked needs it staged. */
  lemma StagerNeeds(s: State, n: nat, i: nat)
    requires Orderly(s, n) && i < |s.hosts| && Stager(s, n, s.hosts[i])
    ensures n == 0 || n in s.revoked || n in s.staged
  {
    assert HostFits(s, n, s.hosts[i]);
    hide Distinct;
  }

  lemma RevokedBefore(rules: Rules, s: State, a: Action, n: nat)
    requires Orderly(s, n) && !SomeBuilder(s) && !rules.revokedMayFail && CanBeRevoked(Do(rules, s, a), n)
    requires n == 0 || n in s.revoked || n in s.staged
    ensures CanBeRevoked(s, n)
  {
    var t := Do(rules, s, a);
    StagedShrinks(rules, s, a, n);
    hide Do, Orderly, Stager, Revoker;
    if n > 0 && n !in s.revoked {
      if n in t.revoked {
        JustRevoked(rules, s, a, n);
        assert Revoker(s, n, s.hosts[a.host]) by { ActiveRevokes(s, n); }
      } else {
        ReadBefore(rules, s, a, n);
        var i :| 0 <= i < |t.hosts| && Revoker(t, n, t.hosts[i]);
        RevokerBefore(rules, s, a, n, i);
      }
    }
  }

  lemma ActiveRevokes(s: State, n: nat)
    ensures Revoker(s, n, Active(n))
  {
  }

  lemma JustRevoked(rules: Rules, s: State, a: Action, n: nat)
    requires Orderly(s, n) && n !in s.revoked && n in Do(rules, s, a).revoked
    ensures a.host < |s.hosts| && s.hosts[a.host] == Active(n) && n in s.whole
  {
    assert HostFits(s, n, s.hosts[a.host]);
    hide Largest, Smallest, Listable, Events, Distinct;
  }

  lemma ReadBefore(rules: Rules, s: State, a: Action, n: nat)
    requires Orderly(s, n) && !SomeBuilder(s) && CanBeRead(Do(rules, s, a), n)
    ensures CanBeRead(s, n)
  {
    hide Largest, Smallest, Listable, Events, Distinct;
    var t := Do(rules, s, a);
    if a.host < |s.hosts| { assert !Builder(s.hosts[a.host]); }
    if n !in t.whole {
      var i :| 0 <= i < |t.hosts| && t.hosts[i] == Staging(n);
      assert s.hosts[i] == Staging(n);
    } else if n !in s.whole {
      assert s.hosts[a.host] == Staging(n);
    }
  }

  /** From a log in which no epoch can be staged none ever is, whatever the hosts do. */
  lemma {:induction false} NothingStaged(rules: Rules, s: State, n: nat, run: seq<Action>) returns (m: nat)
    requires Orderly(s, n) && !rules.revokedMayFail && !CanStage(s, n)
    ensures var t := After(rules, s, run);
      Orderly(t, m) && !CanStage(t, m) && t.staged <= s.staged
  {
    hide Orderly, CanStage, Do;
    if run == [] {
      m := n;
    } else {
      m := NothingStaged(rules, s, n, run[..|run| - 1]);
      var before, a := After(rules, s, run[..|run| - 1]), run[|run| - 1];
      StepOrderly(rules, before, a, m);
      StepCannotStage(rules, before, a, m);
      m := NextLast(rules, before, a, m);
    }
  }

  // ---- what can be staged is staged by some run ---------------------------------------------

  /** Some run stages an epoch that is not staged yet. */
  ghost predicate Stages(rules: Rules, s: State) {
    exists run :: !(After(rules, s, run).staged <= s.staged)
  }

  lemma {:induction false} AfterBoth(rules: Rules, s: State, a: seq<Action>, b: seq<Action>)
    ensures After(rules, s, a + b) == After(rules, After(rules, s, a), b)
  {
    hide Do;
    if b == [] {
      assert a + b == a;
    } else {
      assert (a + b)[..|a + b| - 1] == a + b[..|b| - 1];
      AfterBoth(rules, s, a, b[..|b| - 1]);
    }
  }

  lemma OneStep(rules: Rules, s: State, a: Action)
    ensures After(rules, s, [a]) == Do(rules, s, a)
  {
    hide Do;
    assert [a][..0] == [];
    assert After(rules, s, []) == s;
  }

  /** If the state after a step leads to a newly staged epoch, so does the state before. */
  lemma StepFirst(rules: Rules, s: State, a: Action)
    requires Do(rules, s, a).staged == s.staged && Stages(rules, Do(rules, s, a))
    ensures Stages(rules, s)
  {
    OneStep(rules, s, a);
    hide Do, After;
    var rest :| !(After(rules, Do(rules, s, a), rest).staged <= s.staged);
    AfterBoth(rules, s, [a], rest);
  }

  lemma StepStages(rules: Rules, s: State, a: Action)
    requires !(Do(rules, s, a).staged <= s.staged)
    ensures Stages(rules, s)
  {
    OneStep(rules, s, a);
    hide Do, After;
  }

  // A builder goes on by itself.

  function BuilderMove(pc: Pc): Move { if pc.Planning? then Finish else Advance }

  function BuilderLeft(pc: Pc): nat { if pc.Reserved? then 2 else if pc.Planning? then 1 else 0 }

  lemma BuilderMoves(rules: Rules, s: State, n: nat, i: nat)
    requires Orderly(s, n) && i < |s.hosts| && Builder(s.hosts[i])
    ensures var t := Do(rules, s, Action(i, BuilderMove(s.hosts[i])));
      if s.hosts[i].Planned? then !(t.staged <= s.staged)
      else t.staged == s.staged && Builder(t.hosts[i]) && BuilderLeft(t.hosts[i]) < BuilderLeft(s.hosts[i])
  {
    assert HostFits(s, n, s.hosts[i]);
    hide Largest, Smallest, Listable, Events, Distinct;
    if s.hosts[i].Planned? {
      var e := s.hosts[i].epoch;
      assert e in Do(rules, s, Action(i, Advance)).staged;
    }
  }

  lemma {:induction false} BuilderStages(rules: Rules, s: State, n: nat, i: nat)
    requires Orderly(s, n) && !rules.revokedMayFail && i < |s.hosts| && Builder(s.hosts[i])
    ensures Stages(rules, s)
    decreases BuilderLeft(s.hosts[i])
  {
    var a := Action(i, BuilderMove(s.hosts[i]));
    BuilderMoves(rules, s, n, i);
    StepOrderly(rules, s, a, n);
    OwnStep(rules, s, a, n);
    hide Do, Orderly, Stages, Numbered, HostFits, OwnOnly;
    if s.hosts[i].Planned? {
      StepStages(rules, s, a);
    } else {
      BuilderStages(rules, Do(rules, s, a), NextLast(rules, s, a, n), i);
      StepFirst(rules, s, a);
    }
  }

  // A stager goes on by itself once the last epoch is revoked.

  ghost function StagerLeft(s: State, pc: Pc): nat {
    match pc
    case ToStage => |s.plan| + 3
    case Listed(rest, _) => |rest| + 2
    case _ => 1
  }

  /** The log is all revoked, and the next directory is free. */
  ghost predicate Free(s: State, n: nat) { n + 1 !in s.dirs && (n == 0 || n in s.revoked) }

  lemma StagerMoves(rules: Rules, s: State, n: nat, i: nat)
    requires Orderly(s, n) && Free(s, n) && i < |s.hosts| && Stager(s, n, s.hosts[i])
    ensures var t := Do(rules, s, Action(i, Advance));
      && t.staged == s.staged
      && (if s.hosts[i].Surveyed? then Builder(t.hosts[i])
          else Free(t, n) && Stager(t, n, t.hosts[i]) && StagerLeft(t, t.hosts[i]) < StagerLeft(s, s.hosts[i]))
  {
    LargestIsLast(s, n);
    hide Distinct, Largest;
    match s.hosts[i] {
      case Listed(rest, last) =>
        if rest != {} {
          var e := Smallest(rest);
          assert rest == (rest - {e}) + {e};
          assert e in s.plan;
        }
      case _ =>
    }
  }

  lemma {:induction false} StagerStages(rules: Rules, s: State, n: nat, i: nat)
    requires Orderly(s, n) && !rules.revokedMayFail && Free(s, n) && i < |s.hosts| && Stager(s, n, s.hosts[i])
    ensures Stages(rules, s)
    decreases StagerLeft(s, s.hosts[i])
  {
    var a := Action(i, Advance);
    StagerMoves(rules, s, n, i);
    StepOrderly(rules, s, a, n);
    OwnStep(rules, s, a, n);
    assert NextLast(rules, s, a, n) == n;
    hide Do, Orderly, Stages, Numbered, HostFits, OwnOnly, Free, Stager, StagerLeft;
    var t := Do(rules, s, a);
    if s.hosts[i].Surveyed? { BuilderStages(rules, t, n, i); } else { StagerStages(rules, t, n, i); }
    StepFirst(rules, s, a);
  }

  // A revoker goes on by itself once the staged event can be read.

  ghost function RevokerLeft(s: State, pc: Pc): nat {
    match pc
    case ToRevoke => |s.plan| + 4
    case Scanning(rest, _) => |rest| + 3
    case Found(_) => 2
    case _ => 1
  }

  /** Epoch `n` is active and readable, and the next directory is free. */
  ghost predicate Ready(s: State, n: nat) {
    n > 0 && n in s.staged && n in s.whole && n !in s.revoked && n + 1 !in s.dirs
  }

  lemma RevokerMoves(rules: Rules, s: State, n: nat, i: nat)
    requires Orderly(s, n) && Ready(s, n) && i < |s.hosts| && Revoker(s, n, s.hosts[i])
    ensures var t := Do(rules, s, Action(i, Advance));
      && t.staged == s.staged && t.plan == s.plan && t.hosts == s.hosts[i := t.hosts[i]]
      && (if s.hosts[i].Active? then Free(t, n)
          else Ready(t, n) && Revoker(t, n, t.hosts[i]) && RevokerLeft(t, t.hosts[i]) < RevokerLeft(s, s.hosts[i]))
  {
    if s.hosts[i].Scanning? {
      LastIsActive(s, n);
      hide Orderly, Distinct, HostFits;
      ScanningMoves(s, n, i);
    } else {
      LargestIsLast(s, n);
      hide Distinct, HostFits, Largest, Smallest, AfterScan, IsActive, Complete;
    }
  }

  lemma ScanningMoves(s: State, n: nat, i: nat)
    requires Ready(s, n) && i < |s.hosts| && s.hosts[i].Scanning? && Revoker(s, n, s.hosts[i])
    requires forall e :: IsActive(s, e) ==> e == n
    ensures var t := Advanced(s, i);
      && t == s.(hosts := s.hosts[i := t.hosts[i]])
      && Revoker(t, n, t.hosts[i]) && RevokerLeft(t, t.hosts[i]) < RevokerLeft(s, s.hosts[i])
  {
    hide Largest, Events, Listable, Complete;
    var rest, found := s.hosts[i].rest, s.hosts[i].found;
    if rest == {} {
      assert found == {n};
    } else {
      var e := Smallest(rest);
      assert rest == (rest - {e}) + {e};
      assert IsActive(s, n);
    }
  }

  lemma {:induction false} RevokerStages(rules: Rules, s: State, n: nat, i: nat, j: nat)
    requires Orderly(s, n) && !rules.revokedMayFail && Ready(s, n)
    requires i < |s.hosts| && Revoker(s, n, s.hosts[i]) && j < |s.hosts| && Stager(s, n, s.hosts[j])
    ensures Stages(rules, s)
    decreases RevokerLeft(s, s.hosts[i])
  {
    var a := Action(i, Advance);
    assert i != j;
    RevokerMoves(rules, s, n, i);
    StepOrderly(rules, s, a, n);
    assert NextLast(rules, s, a, n) == n;
    hide Do, Orderly, Stages, Free, Ready, Revoker, RevokerLeft;
    var t := Do(rules, s, a);
    assert Stager(t, n, t.hosts[j]);
    if s.hosts[i].Active? { StagerStages(rules, t, n, j); } else { RevokerStages(rules, t, n, i, j); }
    StepFirst(rules, s, a);
  }

  /** The writer of the staged event makes it readable. */
  lemma ReadableStages(rules: Rules, s: State, n: nat, k: nat, i: nat, j: nat)
    requires Orderly(s, n) && !rules.revokedMayFail && n > 0 && n in s.staged && n !in s.revoked && n + 1 !in s.dirs
    requires n in s.whole || (k < |s.hosts| && s.hosts[k] == Staging(n))
    requires i < |s.hosts| && Revoker(s, n, s.hosts[i]) && j < |s.hosts| && Stager(s, n, s.hosts[j])
    ensures Stages(rules, s)
  {
    if n in s.whole {
      RevokerStages(rules, s, n, i, j);
    } else {
      var a := Action(k, WriteAll);
      StepOrderly(rules, s, a, n);
      hide Orderly, Stages;
      var t := Do(rules, s, a);
      assert Ready(t, n) && Revoker(t, n, t.hosts[i]) && Stager(t, n, t.hosts[j]);
      RevokerStages(rules, t, n, i, j);
      StepFirst(rules, s, a);
    }
  }

  lemma CanStages(rules: Rules, s: State, n: nat)
    requires Orderly(s, n) && !rules.revokedMayFail && CanStage(s, n)
    ensures Stages(rules, s)
  {
    hide Orderly, Stages, Stager, Revoker, Builder;
    if SomeBuilder(s) {
      var i :| 0 <= i < |s.hosts| && Builder(s.hosts[i]);
      BuilderStages(rules, s, n, i);
    } else {
      var j :| 0 <= j < |s.hosts| && Stager(s, n, s.hosts[j]);
      if n == 0 || n in s.revoked {
        StagerStages(rules, s, n, j);
      } else {
        var i :| 0 <= i < |s.hosts| && Revoker(s, n, s.hosts[i]);
        var k: nat := 0;
        if n !in s.whole { k :| 0 <= k < |s.hosts| && s.hosts[k] == Staging(n); }
        ReadableStages(rules, s, n, k, i, j);
      }
    }
  }

  /** From a reachable log some run stages a further epoch exactly when a live host is building, or
      the directory behind the last epoch is free, a live stager can reach it, and the last epoch
      is revoked or can be. */
  lemma StageableExactly(rules: Rules, s: State, n: nat)
    requires Orderly(s, n) && !rules.revokedMayFail
    ensures Stages(rules, s) <==> CanStage(s, n)
  {
    hide Orderly, CanStage, After;
    if CanStage(s, n) {
      CanStages(rules, s, n);
    } else if Stages(rules, s) {
      var run :| !(After(rules, s, run).staged <= s.staged);
      var m := NothingStaged(rules, s, n, run);
    }
  }
}
