/** Which calls of the decision cache can still be answered. */
module DecisionReach {
  import opened DecisionCache

  // ---- the owner of a directory -------------------------------------------------------------

  /** Every directory belongs to a call of its identity that is at work on it or over. */
  ghost predicate Owned(id: Identity, s: State) {
    && Shaped(s)
    && forall k :: k in s.dirs ==>
         s.dirs[k] < |s.calls| && id(s.keys[s.dirs[k]]) == k
         && (Working(s.calls[s.dirs[k]]) || Over(s.calls[s.dirs[k]]))
  }

  lemma StepOwned(id: Identity, s: State, a: Action)
    requires Owned(id, s)
    ensures Owned(id, Do(id, s, a))
  {
  }

  lemma {:induction false} RunOwned(id: Identity, s: State, run: seq<Action>)
    requires Initial(s)
    ensures Owned(id, After(id, s, run))
  {
    if run != [] {
      var n := |run| - 1;
      RunOwned(id, s, run[..n]);
      hide Owned, Do;
      StepOwned(id, After(id, s, run[..n]), run[n]);
    }
  }

  // ---- runs that lead to an answer ------------------------------------------------------------

  ghost predicate CanReturn(id: Identity, s: State, j: nat)
    requires Shaped(s) && j < |s.calls|
  {
    exists run :: After(id, s, run).calls[j].Returned?
  }

  lemma {:induction false} FirstStep(id: Identity, s: State, a: Action, rest: seq<Action>)
    requires Shaped(s)
    ensures After(id, s, [a] + rest) == After(id, Do(id, s, a), rest)
  {
    hide Do;
    var run := [a] + rest;
    if rest == [] {
      assert run[..0] == [] && After(id, s, []) == s;
    } else {
      assert run[..|run| - 1] == [a] + rest[..|rest| - 1];
      FirstStep(id, s, a, rest[..|rest| - 1]);
    }
  }

  lemma StepCanReturn(id: Identity, s: State, a: Action, j: nat)
    requires Shaped(s) && j < |s.calls| && CanReturn(id, Do(id, s, a), j)
    ensures CanReturn(id, s, j)
  {
    hide Do, After;
    var rest :| After(id, Do(id, s, a), rest).calls[j].Returned?;
    FirstStep(id, s, a, rest);
  }

  lemma HasReturned(id: Identity, s: State, j: nat)
    requires Shaped(s) && j < |s.calls| && s.calls[j].Returned?
    ensures CanReturn(id, s, j)
  {
    assert After(id, s, []) == s;
  }

  /** What an undisturbed owner does next, and how many such steps lie before its sync. */
  function OwnMove(pc: Pc): Move { if pc.Writing? then WriteAll else Advance(0) }

  function Left(s: State, i: nat, k: int): nat
    requires i < |s.calls|
  {
    match s.calls[i]
    case Made => 4
    case Launched => 3
    case Decided(_) => 2
    case Writing(_) => if Readable(ResultAt(s, k)) then 0 else 1
    case _ => 0
  }

  lemma OwnerMoves(id: Identity, s: State, docs: map<int, Doc>, i: nat)
    requires Fits(id, s, docs) && i < |s.calls| && Working(s.calls[i]) && Left(s, i, id(s.keys[i])) > 0
    ensures var a := Action(i, OwnMove(s.calls[i])); var t := Do(id, s, a); var k := id(s.keys[i]);
      && Fits(id, t, DocsAfter(id, s, a, docs)) && t.dirs == s.dirs && t.calls == s.calls[i := t.calls[i]]
      && Working(t.calls[i]) && Left(t, i, k) < Left(s, i, k)
  {
    StepFits(id, s, Action(i, OwnMove(s.calls[i])), docs);
    assert CallFits(id, s, docs, i);
    hide DocsAfter;
  }

  /** A call that owns its directory can return. */
  lemma {:induction false} OwnerReturns(id: Identity, s: State, docs: map<int, Doc>, i: nat)
    requires Fits(id, s, docs) && i < |s.calls| && Working(s.calls[i])
    ensures CanReturn(id, s, i)
    decreases Left(s, i, id(s.keys[i]))
  {
    var k := id(s.keys[i]);
    if Left(s, i, k) > 0 {
      var a := Action(i, OwnMove(s.calls[i]));
      OwnerMoves(id, s, docs, i);
      hide Do, Fits, CanReturn, Left, DocsAfter;
      OwnerReturns(id, Do(id, s, a), DocsAfter(id, s, a, docs), i);
      StepCanReturn(id, s, a, i);
    } else {
      assert CallFits(id, s, docs, i);
      Synced(id, s, docs, i);
      hide Do, Fits, CanReturn;
      HasReturned(id, Do(id, s, Action(i, Sync)), i);
      StepCanReturn(id, s, Action(i, Sync), i);
    }
  }

  lemma Synced(id: Identity, s: State, docs: map<int, Doc>, i: nat)
    requires Fits(id, s, docs) && i < |s.calls| && s.calls[i].Writing? && Readable(ResultAt(s, id(s.keys[i])))
    ensures Do(id, s, Action(i, Sync)).calls[i].Returned?
  {
    assert CallFits(id, s, docs, i);
  }

  /** A call that starts beside such an owner can return. */
  lemma {:induction false} WaiterReturns(id: Identity, s: State, docs: map<int, Doc>, i: nat, j: nat)
    requires Fits(id, s, docs) && i < |s.calls| && j < |s.calls| && id(s.keys[i]) == id(s.keys[j])
    requires id(s.keys[j]) in s.dirs && s.calls[j].Called?
    requires Working(s.calls[i]) || Readable(ResultAt(s, id(s.keys[j])))
    ensures CanReturn(id, s, j)
    decreases Left(s, i, id(s.keys[j]))
  {
    var k := id(s.keys[j]);
    if Readable(ResultAt(s, k)) {
      CalledStep(id, s, docs, j, 0);
      hide Do, Fits, CanReturn;
      HasReturned(id, Do(id, s, Action(j, Advance(0))), j);
      StepCanReturn(id, s, Action(j, Advance(0)), j);
    } else {
      var a := Action(i, OwnMove(s.calls[i]));
      OwnerMoves(id, s, docs, i);
      hide Do, Fits, CanReturn, Left, DocsAfter;
      WaiterReturns(id, Do(id, s, a), DocsAfter(id, s, a, docs), i, j);
      StepCanReturn(id, s, a, j);
    }
  }

  lemma FreshSteps(id: Identity, s: State, j: nat)
    requires Shaped(s) && j < |s.calls| && s.calls[j].Called? && id(s.keys[j]) !in s.dirs
    ensures var t := Do(id, s, Action(j, Advance(0))); var u := Do(id, t, Action(j, Advance(0)));
      Working(u.calls[j])
  {
  }

  /** A call that starts on a new directory can return. */
  lemma FirstReturns(id: Identity, s: State, docs: map<int, Doc>, j: nat)
    requires Fits(id, s, docs) && j < |s.calls| && s.calls[j].Called? && id(s.keys[j]) !in s.dirs
    ensures CanReturn(id, s, j)
  {
    var a := Action(j, Advance(0));
    var t, mid := Do(id, s, a), DocsAfter(id, s, a, docs);
    StepFits(id, s, a, docs);
    StepFits(id, t, a, mid);
    FreshSteps(id, s, j);
    hide Do, Fits, CanReturn, DocsAfter;
    OwnerReturns(id, Do(id, t, a), DocsAfter(id, t, a, mid), j);
    StepCanReturn(id, t, a, j);
    StepCanReturn(id, s, a, j);
  }

  /** In every reachable state a call that starts can be answered exactly when no first attempt at
      its key is over without a readable result: there is none yet, it is still at work, or it
      left one. */
  lemma CanReturnExactly(id: Identity, start: State, run: seq<Action>, j: nat)
    requires Initial(start) && j < |start.calls| && After(id, start, run).calls[j].Called?
    ensures var t := After(id, start, run); CanReturn(id, t, j) <==> !Spoiled(t, id(t.keys[j]))
  {
    var docs := RunFits(id, start, run);
    RunOwned(id, start, run);
    var t := After(id, start, run);
    var k := id(t.keys[j]);
    if k !in t.dirs {
      hide Fits, CanReturn, Do, After;
      FirstReturns(id, t, docs, j);
    } else if !Spoiled(t, k) {
      var i := t.dirs[k];
      hide Fits, CanReturn, Do, After;
      WaiterReturns(id, t, docs, i, j);
    } else {
      hide Fits, Spoiled, Do;
      forall more ensures !After(id, t, more).calls[j].Returned? {
        var later := SpoiledForever(id, t, docs, k, more);
      }
    }
  }

  // ---- an answer that is lost -------------------------------------------------------------------

  lemma Then(id: Identity, start: State, run: seq<Action>, s: State, a: Action, t: State) returns (longer: seq<Action>)
    requires Shaped(start) && After(id, start, run) == s && Shaped(s) && Do(id, s, a) == t
    ensures After(id, start, longer) == t
  {
    longer := run + [a];
    assert longer[..|longer| - 1] == run;
  }

  /** Three calls of one key. */
  function Three(key: Key, calls: seq<Pc>, dirs: map<int, nat>, results: map<int, File>, launches: map<int, nat>): State
  {
    State(dirs, results, launches, [key, key, key], calls)
  }

  lemma Started(id: Identity, key: Key) returns (run: seq<Action>)
    ensures After(id, Three(key, [Called, Called, Called], map[], map[], map[]), run)
      == Three(key, [Launched, Called, Called], map[id(key) := 0], map[], map[id(key) := 1])
  {
    var k, go := id(key), Action(0, Advance(0));
    var s0 := Three(key, [Called, Called, Called], map[], map[], map[]);
    var s1 := Three(key, [Fresh, Called, Called], map[], map[], map[]);
    var s2 := Three(key, [Made, Called, Called], map[k := 0], map[], map[]);
    var s3 := Three(key, [Launched, Called, Called], map[k := 0], map[], map[k := 1]);
    run := [];
    assert After(id, s0, run) == s0;
    hide After;
    run := Then(id, s0, run, s0, go, s1);
    run := Then(id, s0, run, s1, go, s2);
    run := Then(id, s0, run, s2, go, s3);
  }

  lemma Opened(id: Identity, key: Key) returns (run: seq<Action>)
    ensures var k := id(key); var doc := Doc(k, 0);
      After(id, Three(key, [Called, Called, Called], map[], map[], map[]), run)
      == Three(key, [Writing(doc), Called, Called], map[k := 0], map[k := Open(0, doc, true)], map[k := 1])
  {
    hide After;
    var k := id(key);
    var doc, go := Doc(k, 0), Action(0, Advance(0));
    var s0 := Three(key, [Called, Called, Called], map[], map[], map[]);
    var s3 := Three(key, [Launched, Called, Called], map[k := 0], map[], map[k := 1]);
    var s4 := Three(key, [Decided(doc), Called, Called], map[k := 0], map[], map[k := 1]);
    var s5 := Three(key, [Writing(doc), Called, Called], map[k := 0], map[k := Open(0, doc, false)], map[k := 1]);
    var s6 := Three(key, [Writing(doc), Called, Called], map[k := 0], map[k := Open(0, doc, true)], map[k := 1]);
    run := Started(id, key);
    run := Then(id, s0, run, s3, go, s4);
    run := Then(id, s0, run, s4, go, s5);
    run := Then(id, s0, run, s5, Action(0, WriteAll), s6);
  }

  /** A second call reads the result before its sync, the sync then fails and the file is unlinked:
      one call has returned the decision, and the next one raises. */
  lemma LostAnswer(id: Identity, key: Key) returns (start: State, run: seq<Action>)
    ensures Initial(start)
    ensures After(id, start, run).calls == [Raised, Returned(Doc(id(key), 0)), Raised]
  {
    var k := id(key);
    var doc := Doc(k, 0);
    start := Three(key, [Called, Called, Called], map[], map[], map[]);
    run := Opened(id, key);
    hide After;
    var read := map[k := Open(0, doc, true)];
    var s6 := Three(key, [Writing(doc), Called, Called], map[k := 0], read, map[k := 1]);
    var s7 := Three(key, [Writing(doc), Returned(doc), Called], map[k := 0], read, map[k := 1]);
    var s8 := Three(key, [Raised, Returned(doc), Called], map[k := 0], map[k := Absent], map[k := 1]);
    var s9 := Three(key, [Raised, Returned(doc), Raised], map[k := 0], map[k := Absent], map[k := 1]);
    run := Then(id, start, run, s6, Action(1, Advance(0)), s7);
    run := Then(id, start, run, s7, Action(0, WriteFails), s8);
    run := Then(id, start, run, s8, Action(2, Advance(0)), s9);
  }
}
