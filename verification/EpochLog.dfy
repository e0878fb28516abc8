/** The numbered log of ACL epochs: event files created exclusively by any number of staging
    and revoking hosts, a directory per epoch that arbitrates between stagers, and crashes. */
module EpochLog {

  datatype Pc =
    | ToStage | Listed(rest: set<nat>, last: nat) | Surveyed(last: nat) | Reserved(epoch: nat)
    | Planning(epoch: nat) | Planned(epoch: nat) | Staging(epoch: nat)
    | ToRevoke | Scanning(rest: set<nat>, found: set<nat>) | Found(epoch: nat) | Active(epoch: nat)
    | Revoking(epoch: nat)
    | Done | Dead

  /** The epoch directories, the event files that exist, and the epochs whose staged event has
      had all its bytes written: such an event can be read as long as its file exists. */
  datatype State = State(dirs: set<nat>, plan: set<nat>, staged: set<nat>, revoked: set<nat>, whole: set<nat>,
                         hosts: seq<Pc>)

  /** Which event files may fail to be written after they were created: a plan or a revocation, a
      staged event before its bytes can be read, or after. */
  datatype Rules = Rules(planMayFail: bool, stagedEarly: bool, stagedLate: bool, revokedMayFail: bool)

  datatype Move = Advance | WriteAll | Finish | WriteFails | Crash

  datatype Action = Action(host: nat, move: Move)

  const LAST_NAME: nat := 9999

  /** The epochs that have an event file. */
  function Events(s: State): set<nat> { s.plan + s.staged + s.revoked }

  /** An event name of more than four digits makes the listing fail. */
  predicate Listable(s: State) {
    forall e :: e in Events(s) ==> e <= LAST_NAME
  }

  function Largest(epochs: set<nat>): (m: nat)
    ensures forall e :: e in epochs ==> e <= m
    ensures m != 0 ==> m in epochs
  {
    if epochs == {} then 0
    else
      LargestUnique(epochs);
      var e :| e in epochs && forall x :: x in epochs ==> x <= e;
      e
  }

  lemma LargestUnique(epochs: set<nat>)
    requires epochs != {}
    ensures exists e :: e in epochs && forall x :: x in epochs ==> x <= e
    decreases |epochs|
  {
    var e :| e in epochs;
    var rest := epochs - {e};
    if rest != {} {
      LargestUnique(rest);
      var m :| m in rest && forall x :: x in rest ==> x <= m;
      var top := if m < e then e else m;
      assert forall x :: x in epochs ==> x == e || x in rest;
      assert top in epochs && forall x :: x in epochs ==> x <= top;
    } else {
      assert epochs == {e};
    }
  }

  function Smallest(epochs: set<nat>): (m: nat)
    requires epochs != {}
    ensures m in epochs && forall e :: e in epochs ==> m <= e
  {
    var some :| some in epochs;
    SmallestFrom(epochs, some);
    var e :| e in epochs && forall x :: x in epochs ==> e <= x;
    e
  }

  lemma {:induction false} SmallestFrom(epochs: set<nat>, e: nat)
    requires e in epochs
    ensures exists m :: m in epochs && forall x :: x in epochs ==> m <= x
    decreases e
  {
    if x :| x in epochs && x < e {
      SmallestFrom(epochs, x);
    } else {
      assert forall x :: x in epochs ==> e <= x;
    }
  }

  predicate Complete(s: State, e: nat) { e in s.plan && e in s.staged && e in s.revoked }

  predicate IsActive(s: State, e: nat) { e in s.staged && e !in s.revoked }

  /** A listing reads the names once; the listed epochs are then examined one by one, in order. */
  function Advanced(s: State, i: nat): State
    requires i < |s.hosts|
  {
    var refused := s.(hosts := s.hosts[i := Dead]);
    match s.hosts[i]
    case ToStage =>
      if Listable(s) then s.(hosts := s.hosts[i := Listed(Events(s), Largest(Events(s)))]) else refused
    case Listed(rest, last) =>
      if rest == {} then s.(hosts := s.hosts[i := Surveyed(last)])
      else if Complete(s, Smallest(rest)) then s.(hosts := s.hosts[i := Listed(rest - {Smallest(rest)}, last)])
      else refused
    case Surveyed(last) =>
      if last + 1 in s.dirs then refused
      else s.(dirs := s.dirs + {last + 1}, hosts := s.hosts[i := Reserved(last + 1)])
    case Reserved(e) =>
      if e in s.plan then refused else s.(plan := s.plan + {e}, hosts := s.hosts[i := Planning(e)])
    case Planned(e) =>
      if e in s.staged then refused else s.(staged := s.staged + {e}, hosts := s.hosts[i := Staging(e)])
    case ToRevoke =>
      if Listable(s) then s.(hosts := s.hosts[i := Scanning(Events(s), {})]) else refused
    case Scanning(rest, found) =>
      if rest == {} then s.(hosts := s.hosts[i := AfterScan(found)])
      else
        var e := Smallest(rest);
        if e !in s.plan || (e in s.revoked && e !in s.staged) then refused
        else s.(hosts := s.hosts[i := Scanning(rest - {e}, if IsActive(s, e) then found + {e} else found)])
    case Found(e) =>
      if e in s.plan && e in s.staged && e in s.whole then s.(hosts := s.hosts[i := Active(e)]) else refused
    case Active(e) =>
      if e in s.revoked then refused else s.(revoked := s.revoked + {e}, hosts := s.hosts[i := Revoking(e)])
    case _ => s
  }

  /** None active: nothing to do; several: refused. */
  function AfterScan(found: set<nat>): Pc {
    if found == {} then Done else if |found| == 1 then Found(Smallest(found)) else Dead
  }

  /** All bytes of a staged event are written, but not yet synced. */
  function AllWritten(s: State, i: nat): State
    requires i < |s.hosts|
  {
    match s.hosts[i]
    case Staging(e) => s.(whole := s.whole + {e})
    case _ => s
  }

  function Finished(s: State, i: nat): State
    requires i < |s.hosts|
  {
    match s.hosts[i]
    case Planning(e) => s.(hosts := s.hosts[i := Planned(e)])
    case Staging(e) => if e in s.whole then s.(hosts := s.hosts[i := Done]) else s
    case Revoking(_) => s.(hosts := s.hosts[i := Done])
    case _ => s
  }

  /** A failed write unlinks the event file it created. */
  function Failed(rules: Rules, s: State, i: nat): State
    requires i < |s.hosts|
  {
    match s.hosts[i]
    case Planning(e) => if rules.planMayFail then s.(plan := s.plan - {e}, hosts := s.hosts[i := Dead]) else s
    case Staging(e) =>
      if (if e in s.whole then rules.stagedLate else rules.stagedEarly)
      then s.(staged := s.staged - {e}, hosts := s.hosts[i := Dead]) else s
    case Revoking(e) => if rules.revokedMayFail then s.(revoked := s.revoked - {e}, hosts := s.hosts[i := Dead]) else s
    case _ => s
  }

  function Do(rules: Rules, s: State, a: Action): (t: State)
  {
    if a.host >= |s.hosts| then s
    else
      match a.move
      case Advance => Advanced(s, a.host)
      case WriteAll => AllWritten(s, a.host)
      case Finish => Finished(s, a.host)
      case WriteFails => Failed(rules, s, a.host)
      case Crash => s.(hosts := s.hosts[a.host := Dead])
  }

  function After(rules: Rules, s: State, run: seq<Action>): State {
    if run == [] then s else Do(rules, After(rules, s, run[..|run| - 1]), run[|run| - 1])
  }

  predicate Initial(s: State) {
    && s.dirs == {} && s.plan == {} && s.staged == {} && s.revoked == {} && s.whole == {}
    && forall i :: 0 <= i < |s.hosts| ==> s.hosts[i].ToStage? || s.hosts[i].ToRevoke?
  }

  // ---- the shape of the log -------------------------------------------------------

  /** Epochs are 1 to n; all before n are revoked; what is revoked was readable, and what is staged
      or readable planned; at most one further epoch has a directory, and only behind a log that
      is all revoked. */
  ghost predicate Numbered(s: State, n: nat) {
    && (forall e :: e in s.plan <==> 1 <= e <= n)
    && (forall e :: 1 <= e < n ==> e in s.revoked)
    && s.staged <= s.plan && s.revoked <= s.whole && s.whole <= s.plan
    && s.plan <= s.dirs && (forall e :: e in s.dirs ==> 1 <= e <= n + 1)
    && (n + 1 in s.dirs ==> forall e :: 1 <= e <= n ==> e in s.revoked)
  }

  /** Has made the directory of an epoch and not finished its staged event. */
  predicate Holding(pc: Pc) { pc.Reserved? || pc.Planning? || pc.Planned? || pc.Staging? }

  ghost predicate HostFits(s: State, n: nat, pc: Pc) {
    match pc
    case Listed(rest, last) => forall e :: 1 <= e <= last && e !in rest ==> e in s.revoked
    case Surveyed(last) => forall e :: 1 <= e <= last ==> e in s.revoked
    case Reserved(e) => e == n + 1 && e in s.dirs
    case Planning(e) => e == n >= 1 && e !in s.staged && e !in s.whole
    case Planned(e) => e == n >= 1 && e !in s.staged && e !in s.whole
    case Staging(e) => e in s.plan && e in s.staged && (e !in s.whole ==> e == n)
    case Active(e) => e in s.whole
    case Revoking(e) => e in s.revoked
    case _ => true
  }

  /** No two hosts hold one epoch. */
  ghost predicate Distinct(s: State) {
    forall i, j :: 0 <= i < j < |s.hosts| && Holding(s.hosts[i]) && Holding(s.hosts[j]) ==>
      s.hosts[i].epoch != s.hosts[j].epoch
  }

  ghost predicate Orderly(s: State, n: nat) {
    && Numbered(s, n) && Distinct(s)
    && forall i :: 0 <= i < |s.hosts| ==> HostFits(s, n, s.hosts[i])
  }

  lemma LargestIsLast(s: State, n: nat)
    requires Numbered(s, n)
    ensures Events(s) == s.plan && Largest(Events(s)) == n
  {
    assert n > 0 ==> n in Events(s);
  }

  /** The number of planned epochs grows with a new plan and shrinks when its write fails. */
  function NextLast(rules: Rules, s: State, a: Action, n: nat): nat {
    if a.host >= |s.hosts| then n
    else if a.move.Advance? && s.hosts[a.host].Reserved? then n + 1
    else if a.move.WriteFails? && s.hosts[a.host].Planning? && rules.planMayFail && n > 0 then n - 1
    else n
  }

  /** A step changes the files of no epoch but the one its host holds, and takes nothing from
      those that were readable or revoked. */
  ghost predicate OwnOnly(s: State, t: State, pc: Pc) {
    && s.revoked <= t.revoked && s.whole <= t.whole && s.dirs <= t.dirs
    && (forall e :: !(Holding(pc) && e == pc.epoch) ==>
          (e in s.plan <==> e in t.plan) && (e in s.staged <==> e in t.staged) && (e in t.whole ==> e in s.whole))
  }

  /** The step of one host: what it makes of the log, and of its own place in it. */
  lemma OwnStep(rules: Rules, s: State, a: Action, n: nat)
    requires Orderly(s, n) && a.host < |s.hosts| && !rules.revokedMayFail
    ensures var t, m := Do(rules, s, a), NextLast(rules, s, a, n);
      var pc, next := s.hosts[a.host], t.hosts[a.host];
      && t.hosts == s.hosts[a.host := next]
      && Numbered(t, m) && HostFits(t, m, next) && OwnOnly(s, t, pc)
      && (Holding(next) ==> if Holding(pc) then next.epoch == pc.epoch else next.Reserved? && n + 1 !in s.dirs)
      && (m != n ==> pc.Reserved? || pc.Planning?)
  {
    hide Advanced, AllWritten, Finished, Failed, Distinct, Listable, Largest, Events, HostFits, Numbered, Holding,
      OwnOnly;
    LargestIsLast(s, n);
    assert HostFits(s, n, s.hosts[a.host]);
    if a.move.Advance? {
      AdvanceFits(s, a.host, n);
    } else {
      OtherMoveFits(rules, s, a, n);
    }
  }

  lemma OtherMoveFits(rules: Rules, s: State, a: Action, n: nat)
    requires a.host < |s.hosts| && Numbered(s, n) && HostFits(s, n, s.hosts[a.host])
    requires !rules.revokedMayFail && !a.move.Advance?
    ensures var t, m := Do(rules, s, a), NextLast(rules, s, a, n);
      var pc, next := s.hosts[a.host], t.hosts[a.host];
      && t.hosts == s.hosts[a.host := next]
      && Numbered(t, m) && HostFits(t, m, next) && OwnOnly(s, t, pc)
      && (Holding(next) ==> Holding(pc) && next.epoch == pc.epoch)
      && (m != n ==> pc.Planning?)
  {
    hide Advanced;
  }

  lemma AdvanceFits(s: State, i: nat, n: nat)
    requires i < |s.hosts| && Numbered(s, n) && HostFits(s, n, s.hosts[i])
    requires Events(s) == s.plan && Largest(Events(s)) == n
    ensures var t, m := Advanced(s, i), if s.hosts[i].Reserved? then n + 1 else n;
      var pc, next := s.hosts[i], t.hosts[i];
      && t.hosts == s.hosts[i := next]
      && Numbered(t, m) && HostFits(t, m, next) && OwnOnly(s, t, pc)
      && (Holding(next) ==> if Holding(pc) then next.epoch == pc.epoch else next.Reserved? && n + 1 !in s.dirs)
  {
    hide Listable, Largest, Smallest, Events, IsActive;
    match s.hosts[i] {
      case Surveyed(last) =>
        assert last > n ==> n + 1 in s.revoked;
        assert last < n ==> last + 1 in s.plan;
      case _ =>
    }
  }

  /** What the step of one host leaves to the others. */
  lemma OtherFits(rules: Rules, s: State, a: Action, n: nat, j: nat)
    requires Orderly(s, n) && a.host < |s.hosts| && j < |s.hosts| && j != a.host && !rules.revokedMayFail
    ensures HostFits(Do(rules, s, a), NextLast(rules, s, a, n), s.hosts[j])
    ensures var next := Do(rules, s, a).hosts[a.host];
      Holding(s.hosts[j]) && Holding(next) ==> s.hosts[j].epoch != next.epoch
  {
    hide Do;
    OwnStep(rules, s, a, n);
    assert HostFits(s, n, s.hosts[j]) && HostFits(s, n, s.hosts[a.host]);
    OthersApart(s, n, a.host, j);
    hide Distinct;
  }

  /** Two hosts that build at the end of the log are one host. */
  lemma OthersApart(s: State, n: nat, i: nat, j: nat)
    requires Orderly(s, n) && i < |s.hosts| && j < |s.hosts| && i != j
    ensures Holding(s.hosts[i]) && Holding(s.hosts[j]) ==> s.hosts[i].epoch != s.hosts[j].epoch
    ensures s.hosts[i].Reserved? || s.hosts[i].Planning? ==>
      && !s.hosts[j].Reserved? && !s.hosts[j].Planning? && !s.hosts[j].Planned?
      && (s.hosts[j].Staging? ==> s.hosts[j].epoch in s.whole)
  {
    assert HostFits(s, n, s.hosts[i]) && HostFits(s, n, s.hosts[j]);
  }

  lemma StepOrderly(rules: Rules, s: State, a: Action, n: nat)
    requires Orderly(s, n) && !rules.revokedMayFail
    ensures Orderly(Do(rules, s, a), NextLast(rules, s, a, n))
  {
    if a.host < |s.hosts| {
      var t, m := Do(rules, s, a), NextLast(rules, s, a, n);
      OwnStep(rules, s, a, n);
      hide Do, Numbered, HostFits, Holding;
      forall j | 0 <= j < |t.hosts| ensures HostFits(t, m, t.hosts[j]) {
        if j != a.host { OtherFits(rules, s, a, n, j); }
      }
      forall j | 0 <= j < |t.hosts| && j != a.host
        ensures Holding(t.hosts[j]) && Holding(t.hosts[a.host]) ==> t.hosts[j].epoch != t.hosts[a.host].epoch
      {
        OtherFits(rules, s, a, n, j);
      }
    }
  }

  lemma {:induction false} RunOrderly(rules: Rules, s: State, run: seq<Action>) returns (n: nat)
    requires Initial(s) && !rules.revokedMayFail
    ensures Orderly(After(rules, s, run), n)
  {
    if run == [] {
      n := 0;
    } else {
      var before := RunOrderly(rules, s, run[..|run| - 1]);
      hide Orderly, Do;
      StepOrderly(rules, After(rules, s, run[..|run| - 1]), run[|run| - 1], before);
      n := NextLast(rules, After(rules, s, run[..|run| - 1]), run[|run| - 1], before);
    }
  }

  // ---- staged events stay once they were read ------------------------------------------

  lemma StepStaged(rules: Rules, s: State, a: Action, n: nat)
    requires Orderly(s, n) && s.whole <= s.staged && !rules.stagedLate
    ensures Do(rules, s, a).whole <= Do(rules, s, a).staged
  {
    if a.host < |s.hosts| { assert HostFits(s, n, s.hosts[a.host]); }
    hide Smallest, Listable, AfterScan, Distinct;
  }

  lemma {:induction false} RunStaged(rules: Rules, s: State, run: seq<Action>)
    requires Initial(s) && !rules.stagedLate && !rules.revokedMayFail
    ensures After(rules, s, run).whole <= After(rules, s, run).staged
  {
    if run != [] {
      var n := RunOrderly(rules, s, run[..|run| - 1]);
      RunStaged(rules, s, run[..|run| - 1]);
      hide Orderly, Do;
      StepStaged(rules, After(rules, s, run[..|run| - 1]), run[|run| - 1], n);
    }
  }

  // ---- what that means --------------------------------------------------------------

  ghost predicate AtMostOneActive(s: State) {
    forall e, x :: IsActive(s, e) && IsActive(s, x) ==> e == x
  }

  /** Epochs 1 to n, every one before n planned, staged and revoked; what is revoked is staged. */
  ghost predicate ChainOf(s: State, n: nat) {
    && (forall e :: e in s.plan <==> 1 <= e <= n)
    && (forall e :: 1 <= e < n ==> Complete(s, e))
    && s.revoked <= s.staged <= s.plan
  }

  ghost predicate IsChain(s: State) { exists n: nat :: ChainOf(s, n) }

  /** While no staged event fails once it can be read, and no revocation fails, every reachable log
      is a chain: epochs 1 to n, every one before n planned, staged and revoked; so the last epoch
      is the only one that can be active. */
  lemma LogIsChain(rules: Rules, s: State, run: seq<Action>) returns (n: nat)
    requires Initial(s) && !rules.stagedLate && !rules.revokedMayFail
    ensures var t := After(rules, s, run);
      && (forall e :: e in t.plan <==> 1 <= e <= n)
      && (forall e :: 1 <= e < n ==> Complete(t, e))
      && (n in t.revoked ==> n in t.staged) && (n in t.staged ==> n in t.plan)
      && (forall e :: IsActive(t, e) ==> e == n)
      && AtMostOneActive(t) && IsChain(t)
  {
    n := RunOrderly(rules, s, run);
    RunStaged(rules, s, run);
    assert ChainOf(After(rules, s, run), n);
  }

  ghost predicate AlwaysChain(rules: Rules) {
    forall s, run :: Initial(s) ==> IsChain(After(rules, s, run))
  }

  ghost predicate NeverTwoActive(rules: Rules) {
    forall s, run :: Initial(s) ==> AtMostOneActive(After(rules, s, run))
  }

  lemma Then(rules: Rules, start: State, run: seq<Action>, s: State, host: nat, move: Move, t: State)
    returns (longer: seq<Action>)
    requires After(rules, start, run) == s && host < |s.hosts| && Same(Do(rules, s, Action(host, move)), t)
    ensures After(rules, start, longer) == t
  {
    longer := run + [Action(host, move)];
    assert longer[..|longer| - 1] == run;
  }

  predicate Same(s: State, t: State) {
    && s.dirs == t.dirs && s.plan == t.plan && s.staged == t.staged && s.revoked == t.revoked && s.whole == t.whole
    && s.hosts == t.hosts
  }

  lemma Single(e: nat)
    ensures Smallest({e}) == e && Largest({e}) == e && {e} - {e} == {} && {} + {e} == {e} && |{e}| == 1
  {
    assert e in {e};
  }

  lemma FailedRevocation1(rules: Rules, start: State, before: seq<Action>) returns (run: seq<Action>)
    requires rules.revokedMayFail
    requires After(rules, start, before) == State({}, {}, {}, {}, {}, [ToStage, ToRevoke, ToStage])
    ensures After(rules, start, run) == State({1}, {1}, {}, {}, {}, [Planning(1), ToRevoke, ToStage])
  {
    hide After;
    run := before;
    var s0 := State({}, {}, {}, {}, {}, [ToStage, ToRevoke, ToStage]);
    var s1 := State({}, {}, {}, {}, {}, [Listed({}, 0), ToRevoke, ToStage]);
    var s2 := State({}, {}, {}, {}, {}, [Surveyed(0), ToRevoke, ToStage]);
    var s3 := State({1}, {}, {}, {}, {}, [Reserved(1), ToRevoke, ToStage]);
    var s4 := State({1}, {1}, {}, {}, {}, [Planning(1), ToRevoke, ToStage]);
    Single(1);
    run := Then(rules, start, run, s0, 0, Advance, s1);
    run := Then(rules, start, run, s1, 0, Advance, s2);
    run := Then(rules, start, run, s2, 0, Advance, s3);
    run := Then(rules, start, run, s3, 0, Advance, s4);
  }

  lemma FailedRevocation2(rules: Rules, start: State, before: seq<Action>) returns (run: seq<Action>)
    requires rules.revokedMayFail
    requires After(rules, start, before) == State({1}, {1}, {}, {}, {}, [Planning(1), ToRevoke, ToStage])
    ensures After(rules, start, run) == State({1}, {1}, {1}, {}, {1}, [Done, ToRevoke, ToStage])
  {
    hide After;
    run := before;
    var s0 := State({1}, {1}, {}, {}, {}, [Planning(1), ToRevoke, ToStage]);
    var s1 := State({1}, {1}, {}, {}, {}, [Planned(1), ToRevoke, ToStage]);
    var s2 := State({1}, {1}, {1}, {}, {}, [Staging(1), ToRevoke, ToStage]);
    var s3 := State({1}, {1}, {1}, {}, {1}, [Staging(1), ToRevoke, ToStage]);
    var s4 := State({1}, {1}, {1}, {}, {1}, [Done, ToRevoke, ToStage]);
    Single(1);
    run := Then(rules, start, run, s0, 0, Finish, s1);
    run := Then(rules, start, run, s1, 0, Advance, s2);
    run := Then(rules, start, run, s2, 0, WriteAll, s3);
    run := Then(rules, start, run, s3, 0, Finish, s4);
  }

  lemma FailedRevocation3(rules: Rules, start: State, before: seq<Action>) returns (run: seq<Action>)
    requires rules.revokedMayFail
    requires After(rules, start, before) == State({1}, {1}, {1}, {}, {1}, [Done, ToRevoke, ToStage])
    ensures After(rules, start, run) == State({1}, {1}, {1}, {}, {1}, [Done, Active(1), ToStage])
  {
    hide After;
    run := before;
    var s0 := State({1}, {1}, {1}, {}, {1}, [Done, ToRevoke, ToStage]);
    var s1 := State({1}, {1}, {1}, {}, {1}, [Done, Scanning({1}, {}), ToStage]);
    var s2 := State({1}, {1}, {1}, {}, {1}, [Done, Scanning({}, {1}), ToStage]);
    var s3 := State({1}, {1}, {1}, {}, {1}, [Done, Found(1), ToStage]);
    var s4 := State({1}, {1}, {1}, {}, {1}, [Done, Active(1), ToStage]);
    Single(1);
    assert Events(s0) == {1};
    run := Then(rules, start, run, s0, 1, Advance, s1);
    run := Then(rules, start, run, s1, 1, Advance, s2);
    run := Then(rules, start, run, s2, 1, Advance, s3);
    run := Then(rules, start, run, s3, 1, Advance, s4);
  }

  lemma FailedRevocation4(rules: Rules, start: State, before: seq<Action>) returns (run: seq<Action>)
    requires rules.revokedMayFail
    requires After(rules, start, before) == State({1}, {1}, {1}, {}, {1}, [Done, Active(1), ToStage])
    ensures After(rules, start, run) == State({1}, {1}, {1}, {1}, {1}, [Done, Revoking(1), Surveyed(1)])
  {
    hide After;
    run := before;
    var s0 := State({1}, {1}, {1}, {}, {1}, [Done, Active(1), ToStage]);
    var s1 := State({1}, {1}, {1}, {1}, {1}, [Done, Revoking(1), ToStage]);
    var s2 := State({1}, {1}, {1}, {1}, {1}, [Done, Revoking(1), Listed({1}, 1)]);
    var s3 := State({1}, {1}, {1}, {1}, {1}, [Done, Revoking(1), Listed({}, 1)]);
    var s4 := State({1}, {1}, {1}, {1}, {1}, [Done, Revoking(1), Surveyed(1)]);
    Single(1);
    assert Events(s1) == {1};
    run := Then(rules, start, run, s0, 1, Advance, s1);
    run := Then(rules, start, run, s1, 2, Advance, s2);
    run := Then(rules, start, run, s2, 2, Advance, s3);
    run := Then(rules, start, run, s3, 2, Advance, s4);
  }

  lemma FailedRevocation5(rules: Rules, start: State, before: seq<Action>) returns (run: seq<Action>)
    requires rules.revokedMayFail
    requires After(rules, start, before) == State({1}, {1}, {1}, {1}, {1}, [Done, Revoking(1), Surveyed(1)])
    ensures After(rules, start, run) == State({1, 2}, {1, 2}, {1}, {}, {1}, [Done, Dead, Planned(2)])
  {
    hide After;
    run := before;
    var s0 := State({1}, {1}, {1}, {1}, {1}, [Done, Revoking(1), Surveyed(1)]);
    var s1 := State({1}, {1}, {1}, {}, {1}, [Done, Dead, Surveyed(1)]);
    var s2 := State({1, 2}, {1}, {1}, {}, {1}, [Done, Dead, Reserved(2)]);
    var s3 := State({1, 2}, {1, 2}, {1}, {}, {1}, [Done, Dead, Planning(2)]);
    var s4 := State({1, 2}, {1, 2}, {1}, {}, {1}, [Done, Dead, Planned(2)]);
    Single(1);
    run := Then(rules, start, run, s0, 1, WriteFails, s1);
    run := Then(rules, start, run, s1, 2, Advance, s2);
    run := Then(rules, start, run, s2, 2, Advance, s3);
    run := Then(rules, start, run, s3, 2, Finish, s4);
  }

  lemma FailedRevocation6(rules: Rules, start: State, before: seq<Action>) returns (run: seq<Action>)
    requires rules.revokedMayFail
    requires After(rules, start, before) == State({1, 2}, {1, 2}, {1}, {}, {1}, [Done, Dead, Planned(2)])
    ensures After(rules, start, run) == State({1, 2}, {1, 2}, {1, 2}, {}, {1}, [Done, Dead, Staging(2)])
  {
    hide After;
    run := before;
    var s0 := State({1, 2}, {1, 2}, {1}, {}, {1}, [Done, Dead, Planned(2)]);
    var s1 := State({1, 2}, {1, 2}, {1, 2}, {}, {1}, [Done, Dead, Staging(2)]);
    Single(1);
    run := Then(rules, start, run, s0, 2, Advance, s1);
  }

  /** A stager surveys the log while a revocation is being written; that write then fails. */
  lemma FailedRevocationRun(rules: Rules) returns (start: State, run: seq<Action>)
    requires rules.revokedMayFail
    ensures var t := After(rules, start, run); Initial(start) && !AtMostOneActive(t) && !IsChain(t)
  {
    start := State({}, {}, {}, {}, {}, [ToStage, ToRevoke, ToStage]);
    run := [];
    assert After(rules, start, run) == start;
    hide After;
    run := FailedRevocation1(rules, start, run);
    run := FailedRevocation2(rules, start, run);
    run := FailedRevocation3(rules, start, run);
    run := FailedRevocation4(rules, start, run);
    run := FailedRevocation5(rules, start, run);
    run := FailedRevocation6(rules, start, run);
    var t := After(rules, start, run);
    assert IsActive(t, 1) && IsActive(t, 2);
    assert 2 in t.plan && !Complete(t, 1);
  }

  lemma LateStaged1(rules: Rules, start: State, before: seq<Action>) returns (run: seq<Action>)
    requires rules.stagedLate
    requires After(rules, start, before) == State({}, {}, {}, {}, {}, [ToStage, ToRevoke, ToStage, ToRevoke])
    ensures After(rules, start, run) == State({1}, {1}, {}, {}, {}, [Planning(1), ToRevoke, ToStage, ToRevoke])
  {
    hide After;
    run := before;
    var s0 := State({}, {}, {}, {}, {}, [ToStage, ToRevoke, ToStage, ToRevoke]);
    var s1 := State({}, {}, {}, {}, {}, [Listed({}, 0), ToRevoke, ToStage, ToRevoke]);
    var s2 := State({}, {}, {}, {}, {}, [Surveyed(0), ToRevoke, ToStage, ToRevoke]);
    var s3 := State({1}, {}, {}, {}, {}, [Reserved(1), ToRevoke, ToStage, ToRevoke]);
    var s4 := State({1}, {1}, {}, {}, {}, [Planning(1), ToRevoke, ToStage, ToRevoke]);
    Single(1);
    run := Then(rules, start, run, s0, 0, Advance, s1);
    run := Then(rules, start, run, s1, 0, Advance, s2);
    run := Then(rules, start, run, s2, 0, Advance, s3);
    run := Then(rules, start, run, s3, 0, Advance, s4);
  }

  lemma LateStaged2(rules: Rules, start: State, before: seq<Action>) returns (run: seq<Action>)
    requires rules.stagedLate
    requires After(rules, start, before) == State({1}, {1}, {}, {}, {}, [Planning(1), ToRevoke, ToStage, ToRevoke])
    ensures After(rules, start, run)
      == State({1}, {1}, {1}, {}, {1}, [Staging(1), Scanning({1}, {}), ToStage, ToRevoke])
  {
    hide After;
    run := before;
    var s0 := State({1}, {1}, {}, {}, {}, [Planning(1), ToRevoke, ToStage, ToRevoke]);
    var s1 := State({1}, {1}, {}, {}, {}, [Planned(1), ToRevoke, ToStage, ToRevoke]);
    var s2 := State({1}, {1}, {1}, {}, {}, [Staging(1), ToRevoke, ToStage, ToRevoke]);
    var s3 := State({1}, {1}, {1}, {}, {1}, [Staging(1), ToRevoke, ToStage, ToRevoke]);
    var s4 := State({1}, {1}, {1}, {}, {1}, [Staging(1), Scanning({1}, {}), ToStage, ToRevoke]);
    Single(1);
    assert Events(s3) == {1};
    run := Then(rules, start, run, s0, 0, Finish, s1);
    run := Then(rules, start, run, s1, 0, Advance, s2);
    run := Then(rules, start, run, s2, 0, WriteAll, s3);
    run := Then(rules, start, run, s3, 1, Advance, s4);
  }

  lemma LateStaged3(rules: Rules, start: State, before: seq<Action>) returns (run: seq<Action>)
    requires rules.stagedLate
    requires After(rules, start, before)
      == State({1}, {1}, {1}, {}, {1}, [Staging(1), Scanning({1}, {}), ToStage, ToRevoke])
    ensures After(rules, start, run) == State({1}, {1}, {1}, {1}, {1}, [Staging(1), Revoking(1), ToStage, ToRevoke])
  {
    hide After;
    run := before;
    var s0 := State({1}, {1}, {1}, {}, {1}, [Staging(1), Scanning({1}, {}), ToStage, ToRevoke]);
    var s1 := State({1}, {1}, {1}, {}, {1}, [Staging(1), Scanning({}, {1}), ToStage, ToRevoke]);
    var s2 := State({1}, {1}, {1}, {}, {1}, [Staging(1), Found(1), ToStage, ToRevoke]);
    var s3 := State({1}, {1}, {1}, {}, {1}, [Staging(1), Active(1), ToStage, ToRevoke]);
    var s4 := State({1}, {1}, {1}, {1}, {1}, [Staging(1), Revoking(1), ToStage, ToRevoke]);
    Single(1);
    run := Then(rules, start, run, s0, 1, Advance, s1);
    run := Then(rules, start, run, s1, 1, Advance, s2);
    run := Then(rules, start, run, s2, 1, Advance, s3);
    run := Then(rules, start, run, s3, 1, Advance, s4);
  }

  lemma LateStaged4(rules: Rules, start: State, before: seq<Action>) returns (run: seq<Action>)
    requires rules.stagedLate
    requires After(rules, start, before)
      == State({1}, {1}, {1}, {1}, {1}, [Staging(1), Revoking(1), ToStage, ToRevoke])
    ensures After(rules, start, run) == State({1}, {1}, {1}, {1}, {1}, [Staging(1), Done, Surveyed(1), ToRevoke])
  {
    hide After;
    run := before;
    var s0 := State({1}, {1}, {1}, {1}, {1}, [Staging(1), Revoking(1), ToStage, ToRevoke]);
    var s1 := State({1}, {1}, {1}, {1}, {1}, [Staging(1), Done, ToStage, ToRevoke]);
    var s2 := State({1}, {1}, {1}, {1}, {1}, [Staging(1), Done, Listed({1}, 1), ToRevoke]);
    var s3 := State({1}, {1}, {1}, {1}, {1}, [Staging(1), Done, Listed({}, 1), ToRevoke]);
    var s4 := State({1}, {1}, {1}, {1}, {1}, [Staging(1), Done, Surveyed(1), ToRevoke]);
    Single(1);
    assert Events(s1) == {1};
    run := Then(rules, start, run, s0, 1, Finish, s1);
    run := Then(rules, start, run, s1, 2, Advance, s2);
    run := Then(rules, start, run, s2, 2, Advance, s3);
    run := Then(rules, start, run, s3, 2, Advance, s4);
  }

  lemma LateStaged5(rules: Rules, start: State, before: seq<Action>) returns (run: seq<Action>)
    requires rules.stagedLate
    requires After(rules, start, before) == State({1}, {1}, {1}, {1}, {1}, [Staging(1), Done, Surveyed(1), ToRevoke])
    ensures After(rules, start, run) == State({1, 2}, {1, 2}, {}, {1}, {1}, [Dead, Done, Planned(2), ToRevoke])
  {
    hide After;
    run := before;
    var s0 := State({1}, {1}, {1}, {1}, {1}, [Staging(1), Done, Surveyed(1), ToRevoke]);
    var s1 := State({1}, {1}, {}, {1}, {1}, [Dead, Done, Surveyed(1), ToRevoke]);
    var s2 := State({1, 2}, {1}, {}, {1}, {1}, [Dead, Done, Reserved(2), ToRevoke]);
    var s3 := State({1, 2}, {1, 2}, {}, {1}, {1}, [Dead, Done, Planning(2), ToRevoke]);
    var s4 := State({1, 2}, {1, 2}, {}, {1}, {1}, [Dead, Done, Planned(2), ToRevoke]);
    Single(1);
    run := Then(rules, start, run, s0, 0, WriteFails, s1);
    run := Then(rules, start, run, s1, 2, Advance, s2);
    run := Then(rules, start, run, s2, 2, Advance, s3);
    run := Then(rules, start, run, s3, 2, Finish, s4);
  }

  lemma LateStaged6(rules: Rules, start: State, before: seq<Action>) returns (run: seq<Action>)
    requires rules.stagedLate
    requires After(rules, start, before) == State({1, 2}, {1, 2}, {}, {1}, {1}, [Dead, Done, Planned(2), ToRevoke])
    ensures After(rules, start, run) == State({1, 2}, {1, 2}, {2}, {1}, {1, 2}, [Dead, Done, Done, ToRevoke])
  {
    hide After;
    run := before;
    var s0 := State({1, 2}, {1, 2}, {}, {1}, {1}, [Dead, Done, Planned(2), ToRevoke]);
    var s1 := State({1, 2}, {1, 2}, {2}, {1}, {1}, [Dead, Done, Staging(2), ToRevoke]);
    var s2 := State({1, 2}, {1, 2}, {2}, {1}, {1, 2}, [Dead, Done, Staging(2), ToRevoke]);
    var s3 := State({1, 2}, {1, 2}, {2}, {1}, {1, 2}, [Dead, Done, Done, ToRevoke]);
    Single(1);
    run := Then(rules, start, run, s0, 2, Advance, s1);
    run := Then(rules, start, run, s1, 2, WriteAll, s2);
    run := Then(rules, start, run, s2, 2, Finish, s3);
  }

  lemma LateStagedEnd(s: State)
    requires s == State({1, 2}, {1, 2}, {2}, {1}, {1, 2}, [Dead, Done, Done, ToRevoke])
    ensures !IsChain(s) && Malformed(s, 1) && IsActive(s, 2)
  {
    assert 1 in s.revoked && 1 !in s.staged;
  }

  /** A staged event is read, revoked and surveyed before its sync; the sync then fails and the event
      is unlinked, while the next epoch is staged behind it. */
  lemma LateStagedRun(rules: Rules) returns (start: State, run: seq<Action>)
    requires rules.stagedLate
    ensures Initial(start)
    ensures var t := After(rules, start, run);
      !IsChain(t) && Malformed(t, 1) && IsActive(t, 2) && t.hosts == [Dead, Done, Done, ToRevoke]
  {
    start := State({}, {}, {}, {}, {}, [ToStage, ToRevoke, ToStage, ToRevoke]);
    run := [];
    assert After(rules, start, run) == start;
    hide After, IsChain, Malformed, IsActive, Do;
    run := LateStaged1(rules, start, run);
    run := LateStaged2(rules, start, run);
    run := LateStaged3(rules, start, run);
    run := LateStaged4(rules, start, run);
    run := LateStaged5(rules, start, run);
    run := LateStaged6(rules, start, run);
    LateStagedEnd(After(rules, start, run));
  }

  /** Two epochs are never active at once exactly when no write of a revocation can fail after its
      file was created, whatever else may fail. */
  lemma OneActiveExactly(rules: Rules)
    ensures NeverTwoActive(rules) <==> !rules.revokedMayFail
  {
    hide Initial, After;
    if rules.revokedMayFail {
      var s, run := FailedRevocationRun(rules);
    } else {
      forall s, run | Initial(s) ensures AtMostOneActive(After(rules, s, run)) {
        var n := RunOrderly(rules, s, run);
        LastIsActive(After(rules, s, run), n);
      }
    }
  }

  lemma LastIsActive(s: State, n: nat)
    requires Numbered(s, n)
    ensures forall e :: IsActive(s, e) ==> e == n
  {
  }

  /** The log is a chain in every run exactly when no staged event can fail once it can be read
      and no revocation can fail; plans, and staged events nobody could read, may. */
  lemma ChainExactly(rules: Rules)
    ensures AlwaysChain(rules) <==> !rules.stagedLate && !rules.revokedMayFail
  {
    hide Initial, IsChain, After;
    if rules.revokedMayFail {
      var s, run := FailedRevocationRun(rules);
    } else if rules.stagedLate {
      var s, run := LateStagedRun(rules);
    } else {
      forall s, run | Initial(s) ensures IsChain(After(rules, s, run)) {
        var n := LogIsChain(rules, s, run);
      }
    }
  }

  // ---- logs that are stuck -----------------------------------------------------------

  /** The host that reserved the next epoch is gone before its plan stands, or the one that planned
      the last epoch before its staged event can be read. */
  ghost predicate Abandoned(s: State, n: nat) {
    && Orderly(s, n) && (n + 1 in s.dirs || (n >= 1 && n !in s.whole))
    && forall i :: 0 <= i < |s.hosts| ==> !Holding(s.hosts[i])
  }

  lemma StepAbandoned(rules: Rules, s: State, a: Action, n: nat)
    requires Abandoned(s, n) && !rules.revokedMayFail
    ensures Abandoned(Do(rules, s, a), n)
    ensures Do(rules, s, a).plan == s.plan && Do(rules, s, a).staged == s.staged
  {
    StepOrderly(rules, s, a, n);
    if a.host < |s.hosts| {
      OwnStep(rules, s, a, n);
      assert !Holding(s.hosts[a.host]) && HostFits(s, n, s.hosts[a.host]);
      PlanUnchanged(rules, s, a);
      if a.move.Advance? { NothingReserved(s, a, n); }
    }
    hide Do, Orderly;
  }

  /** A surveyed stager finds the next directory taken, or has seen the last epoch revoked. */
  lemma NothingReserved(s: State, a: Action, n: nat)
    requires Abandoned(s, n) && a.host < |s.hosts| && a.move.Advance?
    ensures !Holding(Advanced(s, a.host).hosts[a.host])
  {
    var pc := s.hosts[a.host];
    assert HostFits(s, n, pc) && !Holding(pc);
    hide Smallest, Largest, Listable, Events, Distinct;
    if pc.Surveyed? {
      assert pc.last < n ==> pc.last + 1 in s.plan;
      assert pc.last > n ==> n + 1 in s.revoked;
    }
  }

  lemma PlanUnchanged(rules: Rules, s: State, a: Action)
    requires a.host < |s.hosts| && !Holding(s.hosts[a.host])
    ensures Do(rules, s, a).plan == s.plan && Do(rules, s, a).staged == s.staged
  {
  }

  /** A reservation or a plan that was left behind blocks staging for good. */
  lemma {:induction false} AbandonedPlanBlocks(rules: Rules, s: State, n: nat, run: seq<Action>)
    requires Abandoned(s, n) && !rules.revokedMayFail
    ensures var t := After(rules, s, run); Abandoned(t, n) && t.plan == s.plan && t.staged == s.staged
  {
    hide Abandoned, Do;
    if run != [] {
      AbandonedPlanBlocks(rules, s, n, run[..|run| - 1]);
      StepAbandoned(rules, After(rules, s, run[..|run| - 1]), run[|run| - 1], n);
    }
  }

  /** Two stagers, the first of which is cut off. */
  const STAGERS := State({}, {}, {}, {}, {}, [ToStage, ToStage])

  lemma ReserveRun(rules: Rules) returns (run: seq<Action>)
    ensures After(rules, STAGERS, run) == State({1}, {}, {}, {}, {}, [Reserved(1), ToStage])
  {
    var s1 := State({}, {}, {}, {}, {}, [Listed({}, 0), ToStage]);
    var s2 := State({}, {}, {}, {}, {}, [Surveyed(0), ToStage]);
    var s3 := State({1}, {}, {}, {}, {}, [Reserved(1), ToStage]);
    run := [];
    assert After(rules, STAGERS, run) == STAGERS && Events(STAGERS) == {};
    hide After;
    run := Then(rules, STAGERS, run, STAGERS, 0, Advance, s1);
    run := Then(rules, STAGERS, run, s1, 0, Advance, s2);
    run := Then(rules, STAGERS, run, s2, 0, Advance, s3);
  }

  lemma CutRun(rules: Rules, run: seq<Action>, s: State, i: nat) returns (longer: seq<Action>)
    requires After(rules, STAGERS, run) == s && i < |s.hosts|
    ensures After(rules, STAGERS, longer) == s.(hosts := s.hosts[i := Dead])
  {
    hide After;
    longer := Then(rules, STAGERS, run, s, i, Crash, s.(hosts := s.hosts[i := Dead]));
  }

  lemma PlanRun(rules: Rules) returns (run: seq<Action>)
    ensures After(rules, STAGERS, run) == State({1}, {1}, {}, {}, {}, [Planning(1), ToStage])
  {
    hide After;
    var s3 := State({1}, {}, {}, {}, {}, [Reserved(1), ToStage]);
    run := ReserveRun(rules);
    run := Then(rules, STAGERS, run, s3, 0, Advance, State({1}, {1}, {}, {}, {}, [Planning(1), ToStage]));
  }

  /** A crash after the directory is made, and a crash after the plan is, leave such logs. */
  lemma AbandonedRuns(rules: Rules)
    ensures Initial(STAGERS)
    ensures exists run :: Abandoned(After(rules, STAGERS, run), 0) && After(rules, STAGERS, run).dirs == {1}
    ensures exists run :: Abandoned(After(rules, STAGERS, run), 1) && After(rules, STAGERS, run).plan == {1}
  {
    hide After;
    var a := ReserveRun(rules);
    a := CutRun(rules, a, State({1}, {}, {}, {}, {}, [Reserved(1), ToStage]), 0);
    var b := PlanRun(rules);
    b := CutRun(rules, b, State({1}, {1}, {}, {}, {}, [Planning(1), ToStage]), 0);
    assert Abandoned(After(rules, STAGERS, a), 0);
    assert Abandoned(After(rules, STAGERS, b), 1);
  }

  /** Not yet past the examination of epoch `e`. */
  predicate Before(pc: Pc, e: nat) {
    match pc
    case ToStage => true
    case Listed(rest, _) => e in rest
    case ToRevoke => true
    case Scanning(rest, _) => e in rest
    case Done => true
    case Dead => true
    case _ => false
  }

  /** Epoch `e` is revoked but not staged, and no host is past its examination. */
  ghost predicate Malformed(s: State, e: nat) {
    && e in s.revoked && e !in s.staged
    && forall i :: 0 <= i < |s.hosts| ==> Before(s.hosts[i], e)
  }

  lemma StepMalformed(rules: Rules, s: State, a: Action, e: nat)
    requires Malformed(s, e)
    ensures var t := Do(rules, s, a);
      Malformed(t, e) && t.plan == s.plan && t.staged == s.staged && t.revoked == s.revoked
  {
    assert a.host < |s.hosts| ==> Before(s.hosts[a.host], e);
    assert e in Events(s);
  }

  /** A revoked epoch whose staged event is gone makes every listing fail for good: nothing is
      planned, staged or revoked any more, and an epoch left active stays active. */
  lemma {:induction false} MalformedFreezesLog(rules: Rules, s: State, e: nat, run: seq<Action>)
    requires Malformed(s, e)
    ensures var t := After(rules, s, run);
      Malformed(t, e) && t.plan == s.plan && t.staged == s.staged && t.revoked == s.revoked
  {
    if run != [] {
      MalformedFreezesLog(rules, s, e, run[..|run| - 1]);
      hide Malformed, Do;
      StepMalformed(rules, After(rules, s, run[..|run| - 1]), run[|run| - 1], e);
    }
  }

  /** With a revoker still to come, an epoch that a late failing staged event left active is never
      revoked. */
  lemma ActiveForGood(rules: Rules) returns (start: State, run: seq<Action>)
    requires rules.stagedLate
    ensures Initial(start)
    ensures var t := After(rules, start, run);
      t.hosts == [Dead, Done, Done, ToRevoke] && forall later :: IsActive(After(rules, t, later), 2)
  {
    start, run := LateStagedRun(rules);
    var t := After(rules, start, run);
    forall later ensures IsActive(After(rules, t, later), 2) { MalformedFreezesLog(rules, t, 1, later); }
  }

  /** Once an epoch has five digits no listing succeeds, and hosts that have not listed yet can
      neither stage nor revoke anything more. */
  predicate PastListing(pc: Pc) {
    pc.Listed? || pc.Surveyed? || pc.Scanning? || pc.Found? || pc.Active? || pc.Revoking? || Holding(pc)
  }

  ghost predicate Overflowed(s: State) {
    && (exists e :: e in s.plan && e > LAST_NAME)
    && forall i :: 0 <= i < |s.hosts| ==> !PastListing(s.hosts[i])
  }

  lemma StepOverflowed(rules: Rules, s: State, a: Action)
    requires Overflowed(s)
    ensures var t := Do(rules, s, a);
      Overflowed(t) && t.plan == s.plan && t.staged == s.staged && t.revoked == s.revoked
  {
    var e :| e in s.plan && e > LAST_NAME;
    assert e in Events(s);
    assert !Listable(s);
  }

  /** From the ten-thousandth plan on, once the hosts of earlier listings are gone, the log is
      frozen: an epoch left active then stays active. */
  lemma {:induction false} OverflowFreezesLog(rules: Rules, s: State, run: seq<Action>)
    requires Overflowed(s)
    ensures var t := After(rules, s, run);
      Overflowed(t) && t.plan == s.plan && t.staged == s.staged && t.revoked == s.revoked
  {
    if run != [] {
      OverflowFreezesLog(rules, s, run[..|run| - 1]);
      hide Overflowed, Do;
      StepOverflowed(rules, After(rules, s, run[..|run| - 1]), run[|run| - 1]);
    }
  }
}
