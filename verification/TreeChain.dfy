/** The candidate tree hash along the chain from recovery over testing and finalisation to a
    decision, while the tree may be altered by others. */
module TreeChain {
  import opened Text

  /** A host call with the trees it meets, in the order it meets them: `seen` by the marker
      check, `before` and `loaded` by the call's own hash, `copied` by the copy of the sources
      that is executed, `after` by the last hash. */
  datatype Call =
    | Recover(seen: int)
    | Test(seen: int, before: int, copied: int, after: int, passes: bool)
    | Finalize(seen: int, loaded: int)
    | Decide(before: int, copied: int, after: int)

  /** A test manifest: the tree hashed after the run, the tree the tests ran, and the verdict. */
  datatype Manifest = Manifest(after: int, ran: int, passed: bool)

  /** A returned decision: the tree it is attributed to and the tree that produced it. */
  datatype Decision = Decision(tree: int, ran: int)

  /** What the host has persisted: the recovery marker, one test manifest per tree hash, the
      bundle, and the decisions returned. */
  datatype State = State(marker: Option<int>, manifests: map<int, Manifest>, bundle: Option<int>,
                         decisions: seq<Decision>)

  const START := State(None, map[], None, [])

  /** The marker is written at the first recovery and must match at every later one. */
  function Recovered(s: State, seen: int): Option<State> {
    match s.marker
    case None => Some(s.(marker := Some(seen)))
    case Some(m) => if m == seen then Some(s) else None
  }

  /** The tree hashes with a passing manifest. */
  function Passing(s: State): set<int> {
    set h | h in s.manifests && s.manifests[h].passed
  }

  function Step(s: State, c: Call): State {
    match c
    case Recover(seen) => (match Recovered(s, seen) case None => s case Some(r) => r)
    case Test(seen, before, copied, after, passes) =>
      (match Recovered(s, seen)
       case None => s
       case Some(r) =>
         if before in r.manifests then r
         else r.(manifests := r.manifests[before := Manifest(after, copied, passes && before == after)]))
    case Finalize(seen, loaded) =>
      (match Recovered(s, seen)
       case None => s
       case Some(r) =>
         if Passing(r) == {loaded} && r.manifests[loaded].after == loaded
            && (r.bundle == None || r.bundle == Some(loaded))
         then r.(bundle := Some(loaded)) else r)
    case Decide(before, copied, after) =>
      if s.bundle == Some(before) && after == before then s.(decisions := s.decisions + [Decision(before, copied)])
      else s
  }

  function After(calls: seq<Call>): State {
    if calls == [] then START else Step(After(calls[..|calls| - 1]), calls[|calls| - 1])
  }

  /** Nobody alters the tree while a call checks and loads it. */
  predicate Quiet(c: Call) {
    match c
    case Test(seen, before, _, _, _) => seen == before
    case Finalize(seen, loaded) => seen == loaded
    case _ => true
  }

  /** Everything persisted is about the tree of the recovery marker. */
  ghost predicate Chained(s: State) {
    && (forall h :: h in s.manifests ==> s.marker == Some(h))
    && (forall h :: h in s.manifests && s.manifests[h].passed ==> s.manifests[h].after == h)
    && (s.bundle.Some? ==> s.marker == s.bundle && s.bundle.value in Passing(s))
    && (forall i :: 0 <= i < |s.decisions| ==> s.bundle == Some(s.decisions[i].tree))
  }

  lemma StepChained(s: State, c: Call)
    requires Chained(s) && Quiet(c)
    ensures Chained(Step(s, c))
  {
    if c.Finalize? && Recovered(s, c.seen).Some? {
      assert Passing(Recovered(s, c.seen).value) == {c.loaded} ==> c.loaded in Passing(Recovered(s, c.seen).value);
    }
  }

  lemma {:induction false} RunChained(calls: seq<Call>)
    requires forall i :: 0 <= i < |calls| ==> Quiet(calls[i])
    ensures Chained(After(calls))
  {
    if calls != [] {
      var init := calls[..|calls| - 1];
      assert forall i :: 0 <= i < |init| ==> init[i] == calls[i];
      RunChained(init);
      StepChained(After(init), calls[|calls| - 1]);
    }
  }

  // ---- which alterations break the binding -----------------------------------------------------

  /** The decision is attributed to the tree of the marker, of a passing test manifest and of the
      bundle. */
  ghost predicate Bound(s: State, d: Decision) {
    && s.marker == Some(d.tree) && s.bundle == Some(d.tree)
    && d.tree in s.manifests && s.manifests[d.tree].after == d.tree && s.manifests[d.tree].passed
  }

  /** Moreover the tests and the decision itself ran that tree. */
  ghost predicate RanBound(s: State, d: Decision) {
    Bound(s, d) && d.ran == d.tree && s.manifests[d.tree].ran == d.tree
  }

  /** The call that wrote the bundle. */
  function Creator(calls: seq<Call>): Option<Call> {
    if calls == [] then None
    else
      var init := calls[..|calls| - 1];
      if Creator(init).Some? then Creator(init)
      else if After(calls).bundle.Some? then Some(calls[|calls| - 1]) else None
  }

  /** What holds in every run, however the tree is altered. */
  ghost predicate Attributed(s: State, creator: Option<Call>) {
    && (s.bundle.Some? <==> creator.Some?)
    && (creator.Some? ==>
          var c := creator.value;
          && c.Finalize? && s.marker == Some(c.seen) && s.bundle == Some(c.loaded) && c.loaded in s.manifests
          && s.manifests[c.loaded].after == c.loaded && s.manifests[c.loaded].passed)
    && (forall i :: 0 <= i < |s.decisions| ==> s.bundle == Some(s.decisions[i].tree))
  }

  lemma {:induction false} RunAttributed(calls: seq<Call>)
    ensures Attributed(After(calls), Creator(calls))
  {
    if calls != [] {
      var init, c := calls[..|calls| - 1], calls[|calls| - 1];
      RunAttributed(init);
      var s := After(init);
      if c.Finalize? && Recovered(s, c.seen).Some? {
        assert Passing(Recovered(s, c.seen).value) == {c.loaded} ==> c.loaded in Passing(Recovered(s, c.seen).value);
      }
    }
  }

  /** The call that recorded the test manifest of tree hash `h`. */
  function Recorder(calls: seq<Call>, h: int): Option<Call> {
    if calls == [] then None
    else
      var init := calls[..|calls| - 1];
      if Recorder(init, h).Some? then Recorder(init, h)
      else if h in After(calls).manifests then Some(calls[|calls| - 1]) else None
  }

  /** The call that returned decision `i`. */
  function Decider(calls: seq<Call>, i: nat): Option<Call> {
    if calls == [] then None
    else
      var init := calls[..|calls| - 1];
      if Decider(init, i).Some? then Decider(init, i)
      else if i < |After(calls).decisions| then Some(calls[|calls| - 1]) else None
  }

  /** The manifest of `h` is what its recorder met, and never changes after. */
  ghost predicate Recorded(s: State, h: int, recorder: Option<Call>) {
    if h !in s.manifests then recorder == None
    else
      && recorder.Some? && recorder.value.Test? && recorder.value.before == h
      && s.manifests[h].ran == recorder.value.copied && s.manifests[h].after == recorder.value.after
  }

  ghost predicate Decided(s: State, i: nat, decider: Option<Call>) {
    if i >= |s.decisions| then decider == None
    else
      && decider.Some? && decider.value.Decide?
      && s.decisions[i] == Decision(decider.value.before, decider.value.copied)
  }

  lemma {:induction false} RunRecorded(calls: seq<Call>, h: int)
    ensures Recorded(After(calls), h, Recorder(calls, h))
  {
    if calls != [] {
      RunRecorded(calls[..|calls| - 1], h);
      hide Passing;
    }
  }

  lemma {:induction false} RunDecided(calls: seq<Call>, i: nat)
    ensures Decided(After(calls), i, Decider(calls, i))
  {
    if calls != [] {
      RunDecided(calls[..|calls| - 1], i);
      hide Passing, Recovered;
    }
  }

  /** The sources a call executes are those it hashed before. */
  predicate CopiesWhatItHashed(c: Call) {
    match c
    case Test(_, before, copied, _, _) => copied == before
    case Decide(before, copied, _) => copied == before
    case _ => true
  }

  /** In every run a decision is bound to the marker's tree exactly when nobody altered the tree
      between the marker check and the load of the one call that wrote the bundle; and that tree
      is the one that ran exactly when, besides, nobody altered it between the first hash and the
      copy of two further calls: the one that recorded its test manifest and the one that
      returned the decision. */
  lemma DecisionsBoundExactly(calls: seq<Call>, i: nat)
    requires i < |After(calls).decisions|
    ensures var s := After(calls); var d := s.decisions[i];
      var creator, recorder, decider := Creator(calls), Recorder(calls, d.tree), Decider(calls, i);
      && creator.Some? && creator.value.Finalize?
      && recorder.Some? && recorder.value.Test?
      && decider.Some? && decider.value.Decide?
      && (Bound(s, d) <==> Quiet(creator.value))
      && (RanBound(s, d) <==>
            Quiet(creator.value) && CopiesWhatItHashed(recorder.value) && CopiesWhatItHashed(decider.value))
  {
    RunAttributed(calls);
    RunRecorded(calls, After(calls).decisions[i].tree);
    RunDecided(calls, i);
    hide After, Creator, Recorder, Decider;
  }

  // ---- runs that nobody disturbs ----------------------------------------------------------------

  /** The call meets tree `h` wherever it looks. */
  predicate Steady(c: Call, h: int) {
    match c
    case Recover(seen) => seen == h
    case Test(seen, before, copied, after, _) => seen == h && before == h && copied == h && after == h
    case Finalize(seen, loaded) => seen == h && loaded == h
    case Decide(before, copied, after) => before == h && copied == h && after == h
  }

  /** Call `i` is the first test of the run. */
  ghost predicate FirstTest(calls: seq<Call>, i: nat) {
    i < |calls| && calls[i].Test? && forall j :: 0 <= j < i ==> !calls[j].Test?
  }

  ghost predicate SomeTest(calls: seq<Call>) { exists i: nat :: FirstTest(calls, i) }

  /** The first test of the run passes. */
  ghost predicate Tested(calls: seq<Call>) { exists i: nat :: FirstTest(calls, i) && calls[i].passes }

  /** It passes, and somewhere behind it the candidate is finalised. */
  ghost predicate Finalised(calls: seq<Call>) {
    exists i: nat, k: nat :: FirstTest(calls, i) && calls[i].passes && i < k < |calls| && calls[k].Finalize?
  }

  /** What such a run has persisted. */
  ghost predicate Settled(calls: seq<Call>, h: int) {
    var s := After(calls);
    && (s.marker == None || s.marker == Some(h))
    && s.manifests == (if SomeTest(calls) then map[h := Manifest(h, h, Tested(calls))] else map[])
    && s.bundle == if Finalised(calls) then Some(h) else None
  }

  lemma FirstTestGrows(init: seq<Call>, c: Call, i: nat)
    ensures FirstTest(init + [c], i)
       <==> FirstTest(init, i) || (i == |init| && c.Test? && !SomeTest(init))
  {
    var calls := init + [c];
    assert forall j :: 0 <= j < |init| ==> calls[j] == init[j];
    if FirstTest(calls, i) && i == |init| {
      assert forall j: nat :: j < |init| ==> !init[j].Test?;
    }
    if i == |init| && c.Test? && !SomeTest(init) {
      forall j | 0 <= j < i ensures !calls[j].Test? { NoTest(init, j); }
    }
  }

  lemma {:induction false} NoTest(calls: seq<Call>, j: nat)
    requires j < |calls| && !SomeTest(calls)
    ensures !calls[j].Test?
  {
    if calls[j].Test? {
      forall k | 0 <= k < j ensures !calls[k].Test? { NoTest(calls, k); }
      assert FirstTest(calls, j);
    }
  }

  lemma TestedGrows(init: seq<Call>, c: Call)
    ensures Tested(init + [c]) <==> Tested(init) || (c.Test? && c.passes && !SomeTest(init))
    ensures SomeTest(init + [c]) <==> SomeTest(init) || c.Test?
    ensures Finalised(init + [c]) <==> Finalised(init) || (Tested(init) && c.Finalize?)
  {
    var calls := init + [c];
    forall i: nat
      ensures FirstTest(calls, i)
         <==> FirstTest(init, i) || (i == |init| && c.Test? && !SomeTest(init))
    {
      FirstTestGrows(init, c, i);
    }
    assert forall i: nat :: FirstTest(init, i) ==> i < |init| && calls[i] == init[i];
    assert calls[|init|] == c;
    if Tested(init) {
      var i: nat :| FirstTest(init, i) && init[i].passes;
      assert FirstTest(calls, i) && calls[i].passes;
    }
    if Finalised(init) {
      var i: nat, k: nat :| FirstTest(init, i) && init[i].passes && i < k < |init| && init[k].Finalize?;
      assert FirstTest(calls, i) && calls[i].passes && calls[k].Finalize?;
    }
    if Finalised(calls) {
      var i: nat, k: nat :| FirstTest(calls, i) && calls[i].passes && i < k < |calls| && calls[k].Finalize?;
      assert FirstTest(init, i);
      assert k < |init| ==> init[k].Finalize?;
    }
    if SomeTest(init) {
      var i: nat :| FirstTest(init, i);
      assert FirstTest(calls, i);
    } else if c.Test? {
      assert FirstTest(calls, |init|);
    }
  }

  /** Where nobody alters the tree, the first test decides: the bundle stands once the candidate is
      finalised behind a first test that passed, and not otherwise. */
  lemma {:induction false} SteadyRun(calls: seq<Call>, h: int)
    requires forall i :: 0 <= i < |calls| ==> Steady(calls[i], h)
    ensures Settled(calls, h)
  {
    if calls != [] {
      var init, c := calls[..|calls| - 1], calls[|calls| - 1];
      assert forall i :: 0 <= i < |init| ==> init[i] == calls[i];
      SteadyRun(init, h);
      SettledStep(init, c, h);
      assert calls == init + [c];
    }
  }

  lemma OnePassing(s: State, h: int, ran: int)
    requires s.manifests == map[h := Manifest(h, ran, true)]
    ensures Passing(s) == {h}
  {
  }

  lemma NonePassing(s: State, h: int)
    requires s.manifests == map[] || s.manifests == map[h := Manifest(h, h, false)]
    ensures Passing(s) == {}
  {
  }

  lemma SettledStep(init: seq<Call>, c: Call, h: int)
    requires Settled(init, h) && Steady(c, h)
    ensures Settled(init + [c], h)
  {
    var s, calls := After(init), init + [c];
    assert calls[..|calls| - 1] == init;
    TestedGrows(init, c);
    hide SomeTest, Tested, Finalised, After;
    if c.Finalize? {
      var r := Recovered(s, h).value;
      if Tested(init) { OnePassing(r, h, h); } else { NonePassing(r, h); }
    }
  }

  /** And from then on every request is answered by that tree, before it none is. */
  lemma SteadyDecides(calls: seq<Call>, h: int)
    requires forall i :: 0 <= i < |calls| ==> Steady(calls[i], h)
    ensures After(calls + [Decide(h, h, h)]).decisions
         == After(calls).decisions + if Finalised(calls) then [Decision(h, h)] else []
  {
    SteadyRun(calls, h);
    var more := calls + [Decide(h, h, h)];
    assert more[..|more| - 1] == calls;
    hide Finalised;
  }

  // ---- concrete runs ----------------------------------------------------------------------------

  lemma Then(calls: seq<Call>, s: State, c: Call, t: State)
    requires After(calls) == s && Step(s, c) == t
    ensures After(calls + [c]) == t
  {
    assert (calls + [c])[..|calls|] == calls;
  }

  /** Two alterations, each between the marker check and the load of one call: the decision is on
      a tree the marker never saw. */
  lemma SwappedTree() returns (calls: seq<Call>)
    ensures After(calls).decisions == [Decision(2, 2)] && !Bound(After(calls), After(calls).decisions[0])
  {
    var tested := State(Some(1), map[2 := Manifest(2, 2, true)], None, []);
    Then([], START, Recover(1), State(Some(1), map[], None, []));
    Then([] + [Recover(1)], State(Some(1), map[], None, []), Test(1, 2, 2, 2, true), tested);
    OnePassing(tested, 2, 2);
    calls := [] + [Recover(1)] + [Test(1, 2, 2, 2, true)];
    Then(calls, tested, Finalize(1, 2), tested.(bundle := Some(2)));
    calls := calls + [Finalize(1, 2)];
    Then(calls, tested.(bundle := Some(2)), Decide(2, 2, 2),
         tested.(bundle := Some(2), decisions := [Decision(2, 2)]));
    calls := calls + [Decide(2, 2, 2)];
  }

  /** An alteration around the copy that is undone before the last hash: every hash agrees, and
      another tree ran. */
  lemma UndoneSwap() returns (calls: seq<Call>)
    ensures (forall i :: 0 <= i < |calls| ==> Quiet(calls[i])) && After(calls).decisions == [Decision(1, 2)]
    ensures Bound(After(calls), After(calls).decisions[0]) && !RanBound(After(calls), After(calls).decisions[0])
  {
    var tested := State(Some(1), map[1 := Manifest(1, 1, true)], None, []);
    Then([], START, Test(1, 1, 1, 1, true), tested);
    OnePassing(tested, 1, 1);
    calls := [] + [Test(1, 1, 1, 1, true)];
    Then(calls, tested, Finalize(1, 1), tested.(bundle := Some(1)));
    calls := calls + [Finalize(1, 1)];
    Then(calls, tested.(bundle := Some(1)), Decide(1, 2, 1),
         tested.(bundle := Some(1), decisions := [Decision(1, 2)]));
    calls := calls + [Decide(1, 2, 1)];
  }
}
