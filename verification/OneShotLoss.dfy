/** Which one-shot invocations can still be published: exactly when, and the runs that lose one. */
module OneShotLoss {
  import opened OneShot

  // ---- what a host can still do ---------------------------------------------------------

  /** Carries an output past the completion marker, or writes the marker itself. */
  predicate Finisher(pc: Pc) { pc.Marking? || pc.Marked? || pc.Vetted? }

  /** The completion marker is absent, or its live writer may still fail. */
  predicate Clearable(rules: Rules, s: State) {
    match s.completed
    case Absent => true
    case Open(w, _, whole) =>
      w < |s.hosts| && (s.hosts[w].Marking? || s.hosts[w].Sealing?) && (whole ==> rules.completedLate)
    case Closed(_, _) => false
  }

  /** Host `j` can reach the creation of the published file once the completion marker is absent. */
  predicate Starter(rules: Rules, s: State, j: nat)
    requires j < |s.hosts|
  {
    match s.hosts[j]
    case ToExecute => s.started.Absent?
    case Unmarked => s.started.Absent?
    case Starting => true
    case Started => true
    case Running => true
    case Holding(_) => true
    case Checked => true
    case ToAdopt => Readable(s.started) && (rules.patient ==> s.started.owner < |s.hosts| && s.started.owner != j)
    case _ => false
  }

  predicate Able(rules: Rules, s: State, j: nat)
    requires j < |s.hosts|
  {
    Finisher(s.hosts[j]) || (Clearable(rules, s) && Starter(rules, s, j))
  }

  /** The published file is readable, or being written by a live host, or absent and a host can
      still reach it. */
  predicate CanPublish(rules: Rules, s: State) {
    match s.published
    case Closed(_, _) => true
    case Open(w, _, whole) => whole || (w < |s.hosts| && (s.hosts[w].Issuing? || s.hosts[w].Publishing?))
    case Absent => exists j :: 0 <= j < |s.hosts| && Able(rules, s, j)
  }

  // ---- what is lost stays lost ------------------------------------------------------------

  lemma ClearableBefore(rules: Rules, s: State, i: nat, move: Move)
    requires i < |s.hosts| && Once(s) && Step(rules, s, i, move).Some?
    requires Clearable(rules, Step(rules, s, i, move).value)
    ensures Clearable(rules, s)
  {
    assert HostOnce(s, i);
    StepTouches(rules, s, i, move);
  }

  /** What another host could do after a step, it or the stepping host could do before. */
  lemma OtherAbleBefore(rules: Rules, s: State, i: nat, move: Move, j: nat)
    requires i < |s.hosts| && j < |s.hosts| && i != j && Once(s) && Step(rules, s, i, move).Some?
    requires Able(rules, Step(rules, s, i, move).value, j)
    ensures Able(rules, s, j) || Able(rules, s, i)
  {
    hide Advanced;
    var t := Step(rules, s, i, move).value;
    StepTouches(rules, s, i, move);
    if !Finisher(s.hosts[j]) {
      ClearableBefore(rules, s, i, move);
      StartedBefore(rules, s, i, move);
      hide Step, Once, Clearable;
    }
  }

  /** Only a host that is starting makes the start marker absent or readable. */
  lemma StartedBefore(rules: Rules, s: State, i: nat, move: Move)
    requires i < |s.hosts| && HostOnce(s, i) && Step(rules, s, i, move).Some?
    ensures var t := Step(rules, s, i, move).value;
      && (t.started.Absent? && !s.started.Absent? ==> s.hosts[i].Starting?)
      && (Readable(t.started) && !Readable(s.started) ==> s.hosts[i].Starting?)
      && (Readable(t.started) && Readable(s.started) ==> t.started.owner == s.started.owner)
  {
  }

  lemma OwnAbleBefore(rules: Rules, s: State, i: nat, move: Move)
    requires i < |s.hosts| && Once(s) && Step(rules, s, i, move).Some?
    requires s.published.Absent? && Able(rules, Step(rules, s, i, move).value, i)
    ensures Able(rules, s, i)
  {
    assert HostOnce(s, i);
  }

  /** A step that creates, completes or removes the published file was open to a live host. */
  lemma PublishedBefore(rules: Rules, s: State, i: nat, move: Move)
    requires i < |s.hosts| && Once(s) && Step(rules, s, i, move).Some?
    ensures var t := Step(rules, s, i, move).value;
      && (s.published.Absent? && !t.published.Absent? ==> Able(rules, s, i))
      && (!s.published.Absent? && CanPublish(rules, t) ==> CanPublish(rules, s))
  {
    assert HostOnce(s, i);
    StepTouches(rules, s, i, move);
  }

  lemma StepCannot(rules: Rules, s: State, i: nat, move: Move)
    requires i < |s.hosts| && Once(s) && Step(rules, s, i, move).Some?
    requires CanPublish(rules, Step(rules, s, i, move).value)
    ensures CanPublish(rules, s)
  {
    var t := Step(rules, s, i, move).value;
    PublishedBefore(rules, s, i, move);
    StepTouches(rules, s, i, move);
    hide Step, Once, Able;
    if s.published.Absent? && t.published.Absent? {
      var j :| 0 <= j < |t.hosts| && Able(rules, t, j);
      if j == i { OwnAbleBefore(rules, s, i, move); } else { OtherAbleBefore(rules, s, i, move, j); }
    }
  }

  /** An invocation that cannot be published is never published, whatever the hosts do. */
  lemma {:induction false} StrandedForever(rules: Rules, s: State, run: seq<Action>)
    requires Once(s) && !CanPublish(rules, s)
    ensures Once(After(rules, s, run)) && !CanPublish(rules, After(rules, s, run))
    ensures !Readable(After(rules, s, run).published)
  {
    if run != [] {
      var before, a := After(rules, s, run[..|run| - 1]), run[|run| - 1];
      StrandedForever(rules, s, run[..|run| - 1]);
      if a.host < |before.hosts| && Step(rules, before, a.host, a.move).Some? {
        StepOnce(rules, before, a.host, a.move);
        if CanPublish(rules, Step(rules, before, a.host, a.move).value) { StepCannot(rules, before, a.host, a.move); }
      }
    }
    hide Step, Once;
  }

  // ---- what can be published is published by some run ---------------------------------------

  lemma {:induction false} AfterBoth(rules: Rules, s: State, a: seq<Action>, b: seq<Action>)
    ensures After(rules, s, a + b) == After(rules, After(rules, s, a), b)
  {
    hide Do;
    if b == [] {
      assert a + b == a;
    } else {
      assert (a + b)[..|a + b| - 1] == a + b[..|b| - 1];
      AfterBoth(rules, s, a, b[..|b| - 1]);
    }
  }

  ghost predicate Publishable(rules: Rules, s: State) {
    exists run :: Readable(After(rules, s, run).published)
  }

  lemma OneStep(rules: Rules, s: State, i: nat, move: Move)
    requires i < |s.hosts| && Step(rules, s, i, move).Some?
    ensures After(rules, s, [Action(i, move)]) == Step(rules, s, i, move).value
  {
    hide Step;
    assert [Action(i, move)][..0] == [];
    assert After(rules, s, []) == s;
  }

  /** If the state after a step can be published, so can the state before. */
  lemma StepFirst(rules: Rules, s: State, i: nat, move: Move)
    requires i < |s.hosts| && Step(rules, s, i, move).Some? && Publishable(rules, Step(rules, s, i, move).value)
    ensures Publishable(rules, s)
  {
    hide Step, After;
    OneStep(rules, s, i, move);
    var rest :| Readable(After(rules, Step(rules, s, i, move).value, rest).published);
    AfterBoth(rules, s, [Action(i, move)], rest);
  }

  lemma NothingLeft(rules: Rules, s: State)
    requires Readable(s.published)
    ensures Publishable(rules, s)
  {
    assert After(rules, s, []) == s;
  }

  /** The next step of a host that goes on undisturbed. */
  function Next(rules: Rules, s: State, j: nat): Move
    requires j < |s.hosts|
  {
    var pc := s.hosts[j];
    if pc.Starting? then (if s.started.Open? && s.started.whole then Sync else WriteAll)
    else if pc.Marking? then (if s.completed.Open? && s.completed.whole then Sync else WriteAll)
    else if pc.Issuing? || pc.Publishing? then WriteAll
    else Advance(if rules.fixed.Some? then rules.fixed.value else 0)
  }

  /** How many steps the host is from a readable published file. */
  function Left(s: State, j: nat): nat
    requires j < |s.hosts|
  {
    match s.hosts[j]
    case ToExecute => 12
    case Unmarked => 11
    case Starting => if s.started.Open? && s.started.whole then 9 else 10
    case Started => 8
    case Running => 7
    case Holding(_) => 6
    case Marking(_) => if s.completed.Open? && s.completed.whole then 4 else 5
    case ToAdopt => 4
    case Checked => 3
    case Marked(_) => 2
    case Vetted(_) => 2
    case _ => 1
  }

  /** Host `j` needs nobody else to publish. */
  predicate OnWay(rules: Rules, s: State, j: nat)
    requires j < |s.hosts|
  {
    var pc := s.hosts[j];
    || ((pc.Issuing? || pc.Publishing?) && s.published.Open? && !s.published.whole)
    || (s.published.Absent?
        && (Finisher(pc)
            || (s.completed.Absent? && Starter(rules, s, j) && (pc.ToAdopt? ==> MayAdopt(rules, s)))))
  }

  lemma WayAdvances(rules: Rules, s: State, j: nat)
    requires j < |s.hosts| && Once(s) && OnWay(rules, s, j)
    ensures var t := Step(rules, s, j, Next(rules, s, j));
      t.Some? && (Readable(t.value.published) || (OnWay(rules, t.value, j) && Left(t.value, j) < Left(s, j)))
  {
    assert HostOnce(s, j);
  }

  lemma {:induction false} WayPublishes(rules: Rules, s: State, j: nat)
    requires j < |s.hosts| && Once(s) && OnWay(rules, s, j)
    ensures Publishable(rules, s)
    decreases Left(s, j)
  {
    WayAdvances(rules, s, j);
    StepOnce(rules, s, j, Next(rules, s, j));
    hide Step, Once, OnWay, Left, Next, Publishable;
    var t := Step(rules, s, j, Next(rules, s, j)).value;
    if Readable(t.published) { NothingLeft(rules, t); } else { WayPublishes(rules, t, j); }
    StepFirst(rules, s, j, Next(rules, s, j));
  }

  /** With the completion marker absent: an adopter may first have to see the executor gone. */
  lemma StarterPublishes(rules: Rules, s: State, j: nat)
    requires j < |s.hosts| && Once(s) && s.published.Absent? && s.completed.Absent? && Starter(rules, s, j)
    ensures Publishable(rules, s)
  {
    if s.hosts[j].ToAdopt? && !MayAdopt(rules, s) {
      var w := s.started.owner;
      StepOnce(rules, s, w, Crash);
      WayPublishes(rules, Step(rules, s, w, Crash).value, j);
      StepFirst(rules, s, w, Crash);
    } else {
      WayPublishes(rules, s, j);
    }
  }

  lemma AblePublishes(rules: Rules, s: State, j: nat)
    requires j < |s.hosts| && Once(s) && s.published.Absent? && Able(rules, s, j)
    ensures Publishable(rules, s)
  {
    if Finisher(s.hosts[j]) {
      WayPublishes(rules, s, j);
    } else if s.completed.Absent? {
      StarterPublishes(rules, s, j);
    } else {
      var w := s.completed.owner;
      StepOnce(rules, s, w, WriteFails);
      StarterPublishes(rules, Step(rules, s, w, WriteFails).value, j);
      StepFirst(rules, s, w, WriteFails);
    }
  }

  /** An invocation can still be published, by some continuation, exactly when its files and its
      live hosts say so. */
  lemma PublishableExactly(rules: Rules, s: State)
    requires Once(s)
    ensures Publishable(rules, s) <==> CanPublish(rules, s)
  {
    if CanPublish(rules, s) {
      if Readable(s.published) {
        NothingLeft(rules, s);
      } else if s.published.Open? {
        WayPublishes(rules, s, s.published.owner);
      } else {
        var j :| 0 <= j < |s.hosts| && Able(rules, s, j);
        AblePublishes(rules, s, j);
      }
    } else if Publishable(rules, s) {
      var run :| Readable(After(rules, s, run).published);
      StrandedForever(rules, s, run);
    }
    hide Once, Able;
  }

  // ---- the runs that lose an invocation -------------------------------------------------------

  /** An executor and an adopter, and the output both would validate. */
  const PAIR := State(Absent, Absent, Absent, [ToExecute, ToAdopt], 0, 0)

  lemma StartRun(rules: Rules) returns (run: seq<Action>)
    ensures After(rules, PAIR, run) == State(Open(0, 0, false), Absent, Absent, [Starting, ToAdopt], 0, 0)
  {
    var s1 := State(Absent, Absent, Absent, [Unmarked, ToAdopt], 0, 0);
    var s2 := State(Open(0, 0, false), Absent, Absent, [Starting, ToAdopt], 0, 0);
    run := [];
    assert After(rules, PAIR, run) == PAIR;
    hide After;
    run := Then(rules, PAIR, run, PAIR, 0, Advance(0), s1);
    run := Then(rules, PAIR, run, s1, 0, Advance(0), s2);
  }

  lemma LaunchRun(rules: Rules) returns (run: seq<Action>)
    ensures After(rules, PAIR, run) == State(Closed(0, 0), Absent, Absent, [Running, ToAdopt], 1, 0)
  {
    hide After;
    var s2 := State(Open(0, 0, false), Absent, Absent, [Starting, ToAdopt], 0, 0);
    var s3 := State(Open(0, 0, true), Absent, Absent, [Starting, ToAdopt], 0, 0);
    var s4 := State(Closed(0, 0), Absent, Absent, [Started, ToAdopt], 0, 0);
    var s5 := State(Closed(0, 0), Absent, Absent, [Running, ToAdopt], 1, 0);
    run := StartRun(rules);
    run := Then(rules, PAIR, run, s2, 0, WriteAll, s3);
    run := Then(rules, PAIR, run, s3, 0, Sync, s4);
    run := Then(rules, PAIR, run, s4, 0, Advance(0), s5);
  }

  lemma MarkRun(rules: Rules, out: int) returns (run: seq<Action>)
    requires OutputAllowed(rules, out)
    ensures After(rules, PAIR, run) == State(Closed(0, 0), Open(0, out, false), Absent, [Marking(out), ToAdopt], 1, 0)
  {
    hide After;
    var s5 := State(Closed(0, 0), Absent, Absent, [Running, ToAdopt], 1, 0);
    var s6 := State(Closed(0, 0), Absent, Absent, [Holding(out), ToAdopt], 1, 0);
    var s7 := State(Closed(0, 0), Open(0, out, false), Absent, [Marking(out), ToAdopt], 1, 0);
    run := LaunchRun(rules);
    run := Then(rules, PAIR, run, s5, 0, Advance(out), s6);
    run := Then(rules, PAIR, run, s6, 0, Advance(0), s7);
  }

  lemma MarkedRun(rules: Rules, out: int) returns (run: seq<Action>)
    requires OutputAllowed(rules, out)
    ensures After(rules, PAIR, run) == State(Closed(0, 0), Closed(0, out), Absent, [Marked(out), ToAdopt], 1, 1)
  {
    hide After;
    var s7 := State(Closed(0, 0), Open(0, out, false), Absent, [Marking(out), ToAdopt], 1, 0);
    var s8 := State(Closed(0, 0), Open(0, out, true), Absent, [Marking(out), ToAdopt], 1, 0);
    var s9 := State(Closed(0, 0), Closed(0, out), Absent, [Marked(out), ToAdopt], 1, 1);
    run := MarkRun(rules, out);
    run := Then(rules, PAIR, run, s7, 0, WriteAll, s8);
    run := Then(rules, PAIR, run, s8, 0, Sync, s9);
  }

  lemma IssueRun(rules: Rules, out: int) returns (run: seq<Action>)
    requires OutputAllowed(rules, out)
    ensures After(rules, PAIR, run)
         == State(Closed(0, 0), Closed(0, out), Open(0, out, false), [Issuing(out), ToAdopt], 1, 1)
  {
    hide After;
    var s9 := State(Closed(0, 0), Closed(0, out), Absent, [Marked(out), ToAdopt], 1, 1);
    var s10 := State(Closed(0, 0), Closed(0, out), Open(0, out, false), [Issuing(out), ToAdopt], 1, 1);
    run := MarkedRun(rules, out);
    run := Then(rules, PAIR, run, s9, 0, Advance(0), s10);
  }

  lemma TornStart(rules: Rules) returns (run: seq<Action>)
    ensures !CanPublish(rules, After(rules, PAIR, run)) && After(rules, PAIR, run).started == Open(0, 0, false)
  {
    hide After;
    var s2 := State(Open(0, 0, false), Absent, Absent, [Starting, ToAdopt], 0, 0);
    run := StartRun(rules);
    run := Then(rules, PAIR, run, s2, 0, Crash, s2.(hosts := [Dead, ToAdopt]));
  }

  lemma TornMarker(rules: Rules, out: int) returns (run: seq<Action>)
    requires OutputAllowed(rules, out)
    ensures !CanPublish(rules, After(rules, PAIR, run)) && After(rules, PAIR, run).completed == Open(0, out, false)
  {
    hide After;
    var s7 := State(Closed(0, 0), Open(0, out, false), Absent, [Marking(out), ToAdopt], 1, 0);
    run := MarkRun(rules, out);
    run := Then(rules, PAIR, run, s7, 0, Crash, s7.(hosts := [Dead, ToAdopt]));
  }

  lemma LostAfterMarker(rules: Rules, out: int) returns (run: seq<Action>)
    requires OutputAllowed(rules, out)
    ensures !CanPublish(rules, After(rules, PAIR, run))
    ensures After(rules, PAIR, run).completed == Closed(0, out) && After(rules, PAIR, run).published.Absent?
  {
    hide After;
    var s9 := State(Closed(0, 0), Closed(0, out), Absent, [Marked(out), ToAdopt], 1, 1);
    run := MarkedRun(rules, out);
    run := Then(rules, PAIR, run, s9, 0, Crash, s9.(hosts := [Dead, ToAdopt]));
  }

  lemma TornPublication(rules: Rules, out: int) returns (run: seq<Action>)
    requires OutputAllowed(rules, out)
    ensures !CanPublish(rules, After(rules, PAIR, run)) && After(rules, PAIR, run).published == Open(0, out, false)
  {
    hide After;
    var s10 := State(Closed(0, 0), Closed(0, out), Open(0, out, false), [Issuing(out), ToAdopt], 1, 1);
    run := IssueRun(rules, out);
    run := Then(rules, PAIR, run, s10, 0, Crash, s10.(hosts := [Dead, ToAdopt]));
  }

  /** Under any rules one crash loses an invocation that could be published: while the start
      marker is being written, while the completion marker is, between that marker and the
      publication, or while the output is being published. */
  lemma LosingRuns(rules: Rules, out: int)
    requires OutputAllowed(rules, out)
    ensures Initial(PAIR) && Publishable(rules, PAIR)
    ensures exists run :: var s := After(rules, PAIR, run); s.started == Open(0, 0, false) && !Publishable(rules, s)
    ensures exists run :: var s := After(rules, PAIR, run); s.completed == Open(0, out, false) && !Publishable(rules, s)
    ensures exists run :: var s := After(rules, PAIR, run);
      s.completed == Closed(0, out) && s.published.Absent? && !Publishable(rules, s)
    ensures exists run :: var s := After(rules, PAIR, run); s.published == Open(0, out, false) && !Publishable(rules, s)
  {
    hide After, Publishable, CanPublish;
    var a := TornStart(rules);
    var b := TornMarker(rules, out);
    var c := LostAfterMarker(rules, out);
    var d := TornPublication(rules, out);
    RunOnce(rules, PAIR, a);
    RunOnce(rules, PAIR, b);
    RunOnce(rules, PAIR, c);
    RunOnce(rules, PAIR, d);
    PublishableExactly(rules, After(rules, PAIR, a));
    PublishableExactly(rules, After(rules, PAIR, b));
    PublishableExactly(rules, After(rules, PAIR, c));
    PublishableExactly(rules, After(rules, PAIR, d));
    PairCan(rules);
  }

  lemma PairCan(rules: Rules)
    ensures Publishable(rules, PAIR)
  {
    var run: seq<Action> := [];
    assert After(rules, PAIR, run) == PAIR;
    RunOnce(rules, PAIR, run);
    assert Starter(rules, PAIR, 0);
    AblePublishes(rules, PAIR, 0);
  }
}
