/** Candidate decisions are computed once per key and answered from the persisted result
    afterwards, under concurrent calls, crashes and failing writes. */
module DecisionCache {

  datatype Lane = Primary | Replay

  datatype Key = Key(request: int, security: int, lane: Lane)

  /** A result names the invocation it belongs to. */
  datatype Doc = Doc(invocation: int, body: int)

  datatype File = Absent | Open(owner: nat, doc: Doc, whole: bool) | Closed(owner: nat, doc: Doc)

  /** The identity of a key; distinct keys are assumed to have distinct identities. */
  type Identity = Key -> int

  ghost predicate Injective(id: Identity) {
    forall a, b :: id(a) == id(b) ==> a == b
  }

  datatype Pc = Called | Fresh | Made | Launched | Decided(doc: Doc) | Writing(doc: Doc) | Returned(doc: Doc) | Raised

  /** One directory per identity with its owner, one result file in it; `launches` counts the
      processes started for an identity. */
  datatype State = State(dirs: map<int, nat>, results: map<int, File>, launches: map<int, nat>,
                         keys: seq<Key>, calls: seq<Pc>)

  datatype Move = Advance(body: int) | WriteAll | Sync | WriteFails | Fail

  datatype Action = Action(call: nat, move: Move)

  predicate Over(pc: Pc) { pc.Returned? || pc.Raised? }

  predicate Readable(f: File) { f.Closed? || (f.Open? && f.whole) }

  function ResultAt(s: State, k: int): File { if k in s.results then s.results[k] else Absent }

  function LaunchesAt(s: State, k: int): nat { if k in s.launches then s.launches[k] else 0 }

  function Become(s: State, i: nat, pc: Pc): State
    requires i < |s.calls|
  {
    s.(calls := s.calls[i := pc])
  }

  /** One step of call `i`; `Fail` is an exception or a crash at any point. */
  function Step(id: Identity, s: State, i: nat, move: Move): State
    requires |s.keys| == |s.calls| && i < |s.calls|
  {
    var k := id(s.keys[i]);
    var f := ResultAt(s, k);
    var pc := s.calls[i];
    if Over(pc) then s
    else if move.Fail? then Become(s, i, Raised)
    else
      match pc
      case Called =>
        if k !in s.dirs then Become(s, i, Fresh)
        else if Readable(f) && f.doc.invocation == k then Become(s, i, Returned(f.doc))
        else Become(s, i, Raised)
      case Fresh =>
        if k in s.dirs then Become(s, i, Raised) else Become(s.(dirs := s.dirs[k := i]), i, Made)
      case Made => Become(s.(launches := s.launches[k := LaunchesAt(s, k) + 1]), i, Launched)
      case Launched => if move.Advance? then Become(s, i, Decided(Doc(k, move.body))) else s
      case Decided(doc) =>
        if f.Absent? then Become(s.(results := s.results[k := Open(i, doc, false)]), i, Writing(doc))
        else Become(s, i, Raised)
      case Writing(doc) =>
        if !f.Open? || f.owner != i then s
        else
          (match move
           case WriteAll => s.(results := s.results[k := Open(i, doc, true)])
           case Sync =>
             if f.whole then Become(s.(results := s.results[k := Closed(i, doc)]), i, Returned(doc)) else s
           case WriteFails => Become(s.(results := s.results[k := Absent]), i, Raised)
           case _ => s)
      case _ => s
  }

  predicate Shaped(s: State) { |s.keys| == |s.calls| }

  predicate Initial(s: State) {
    && Shaped(s) && s.dirs == map[] && s.results == map[] && s.launches == map[]
    && forall i :: 0 <= i < |s.calls| ==> s.calls[i].Called?
  }

  function Do(id: Identity, s: State, a: Action): (t: State)
    requires Shaped(s)
    ensures Shaped(t) && t.keys == s.keys
  {
    if a.call < |s.calls| then Step(id, s, a.call, a.move) else s
  }

  function After(id: Identity, s: State, run: seq<Action>): (t: State)
    requires Shaped(s)
    ensures Shaped(t) && t.keys == s.keys
  {
    if run == [] then s else Do(id, After(id, s, run[..|run| - 1]), run[|run| - 1])
  }

  // ---- what every reachable state satisfies --------------------------------------------

  /** The call that made the directory and may still write its result. */
  predicate Working(pc: Pc) { pc.Made? || pc.Launched? || pc.Decided? || pc.Writing? }

  /** `docs` is the one document an identity can ever have, once it was decided. */
  ghost predicate CallFits(id: Identity, s: State, docs: map<int, Doc>, i: nat)
    requires Shaped(s) && i < |s.calls|
  {
    var k := id(s.keys[i]);
    var pc := s.calls[i];
    && (Working(pc) ==> k in s.dirs && s.dirs[k] == i)
    && (pc.Made? ==> LaunchesAt(s, k) == 0 && k !in docs && ResultAt(s, k).Absent?)
    && (pc.Launched? ==> LaunchesAt(s, k) == 1 && k !in docs && ResultAt(s, k).Absent?)
    && (pc.Decided? ==> k in docs && docs[k] == pc.doc && ResultAt(s, k).Absent?)
    && (pc.Writing? ==> k in docs && docs[k] == pc.doc && ResultAt(s, k).Open? && ResultAt(s, k).owner == i)
    && (pc.Returned? ==> k in docs && docs[k] == pc.doc)
  }

  ghost predicate KeyFits(s: State, docs: map<int, Doc>, k: int) {
    && LaunchesAt(s, k) <= 1
    && (k !in s.dirs ==> LaunchesAt(s, k) == 0 && k !in docs && ResultAt(s, k).Absent?)
    && (k in docs ==> docs[k].invocation == k && LaunchesAt(s, k) == 1)
    && (!ResultAt(s, k).Absent? ==> k in docs && ResultAt(s, k).doc == docs[k])
  }

  ghost predicate Fits(id: Identity, s: State, docs: map<int, Doc>) {
    && Shaped(s)
    && (forall k :: KeyFits(s, docs, k))
    && (forall i :: 0 <= i < |s.calls| ==> CallFits(id, s, docs, i))
  }

  function DocsAfter(id: Identity, s: State, a: Action, docs: map<int, Doc>): map<int, Doc>
    requires Shaped(s)
  {
    if a.call < |s.calls| && s.calls[a.call].Launched? && a.move.Advance? then
      docs[id(s.keys[a.call]) := Doc(id(s.keys[a.call]), a.move.body)]
    else docs
  }

  lemma StepKeys(id: Identity, s: State, a: Action, docs: map<int, Doc>, k: int)
    requires Fits(id, s, docs)
    ensures KeyFits(Do(id, s, a), DocsAfter(id, s, a, docs), k)
  {
    assert KeyFits(s, docs, k);
    if a.call < |s.calls| {
      assert CallFits(id, s, docs, a.call);
      assert KeyFits(s, docs, id(s.keys[a.call]));
    }
  }

  lemma StepSelf(id: Identity, s: State, a: Action, docs: map<int, Doc>)
    requires Fits(id, s, docs) && a.call < |s.calls|
    ensures CallFits(id, Do(id, s, a), DocsAfter(id, s, a, docs), a.call)
  {
    assert CallFits(id, s, docs, a.call);
    assert KeyFits(s, docs, id(s.keys[a.call]));
  }

  /** What a step of one call leaves to the others. */
  lemma StepFrame(id: Identity, s: State, a: Action, docs: map<int, Doc>)
    requires Fits(id, s, docs) && a.call < |s.calls|
    ensures var t, k := Do(id, s, a), id(s.keys[a.call]);
      && t.calls == s.calls[a.call := t.calls[a.call]]
      && (forall x :: x in s.dirs ==> x in t.dirs && t.dirs[x] == s.dirs[x])
      && (forall x :: x != k ==> LaunchesAt(t, x) == LaunchesAt(s, x) && ResultAt(t, x) == ResultAt(s, x))
      && (LaunchesAt(t, k) != LaunchesAt(s, k) || ResultAt(t, k) != ResultAt(s, k) ==> Working(s.calls[a.call]))
      && (DocsAfter(id, s, a, docs) != docs ==> Working(s.calls[a.call]) && k !in docs)
  {
    assert CallFits(id, s, docs, a.call);
  }

  lemma StepOther(id: Identity, s: State, a: Action, docs: map<int, Doc>, j: nat)
    requires Fits(id, s, docs) && a.call < |s.calls| && j < |s.calls| && j != a.call
    ensures CallFits(id, Do(id, s, a), DocsAfter(id, s, a, docs), j)
  {
    assert CallFits(id, s, docs, j) && CallFits(id, s, docs, a.call);
    StepFrame(id, s, a, docs);
    hide Do;
  }

  lemma StepFits(id: Identity, s: State, a: Action, docs: map<int, Doc>)
    requires Fits(id, s, docs)
    ensures Fits(id, Do(id, s, a), DocsAfter(id, s, a, docs))
  {
    hide KeyFits, CallFits, Step, DocsAfter;
    forall k ensures KeyFits(Do(id, s, a), DocsAfter(id, s, a, docs), k) { StepKeys(id, s, a, docs, k); }
    if a.call < |s.calls| {
      forall j | 0 <= j < |s.calls| ensures CallFits(id, Do(id, s, a), DocsAfter(id, s, a, docs), j) {
        if j == a.call { StepSelf(id, s, a, docs); } else { StepOther(id, s, a, docs, j); }
      }
    } else {
      NoStep(id, s, a, docs);
    }
  }

  lemma NoStep(id: Identity, s: State, a: Action, docs: map<int, Doc>)
    requires Fits(id, s, docs) && a.call >= |s.calls|
    ensures Do(id, s, a) == s && DocsAfter(id, s, a, docs) == docs
  {
  }

  lemma {:induction false} RunFits(id: Identity, s: State, run: seq<Action>) returns (docs: map<int, Doc>)
    requires Initial(s)
    ensures Fits(id, After(id, s, run), docs)
  {
    if run == [] {
      docs := map[];
    } else {
      var before := RunFits(id, s, run[..|run| - 1]);
      hide Fits, Do, DocsAfter;
      StepFits(id, After(id, s, run[..|run| - 1]), run[|run| - 1], before);
      docs := DocsAfter(id, After(id, s, run[..|run| - 1]), run[|run| - 1], before);
    }
  }

  // ---- the promises ---------------------------------------------------------------------

  /** In every run each identity launches at most one process, and exactly one where a call has
      returned, and all calls that return agree on the document of their identity; so calls
      return one document exactly when they have one key, and the two lanes never share a result. */
  lemma OneDecisionPerKey(id: Identity, s: State, run: seq<Action>, i: nat, j: nat)
    requires Injective(id) && Initial(s) && i < |s.calls| && j < |s.calls|
    ensures forall k :: LaunchesAt(After(id, s, run), k) <= 1
    ensures var t := After(id, s, run);
      && (t.calls[i].Returned? ==> LaunchesAt(t, id(t.keys[i])) == 1)
      && (t.calls[i].Returned? && t.calls[j].Returned? ==>
            (t.calls[i].doc == t.calls[j].doc <==> t.keys[i] == t.keys[j]))
  {
    var docs := RunFits(id, s, run);
    var t := After(id, s, run);
    forall k ensures LaunchesAt(t, k) <= 1 { assert KeyFits(t, docs, k); }
    assert CallFits(id, t, docs, i) && CallFits(id, t, docs, j);
    assert KeyFits(t, docs, id(t.keys[i])) && KeyFits(t, docs, id(t.keys[j]));
  }

  /** The first attempt at an identity is over and nothing readable is persisted. */
  predicate Spoiled(s: State, k: int) {
    && k in s.dirs && s.dirs[k] < |s.calls| && Over(s.calls[s.dirs[k]]) && !Readable(ResultAt(s, k))
  }

  lemma StepSpoiled(id: Identity, s: State, a: Action, docs: map<int, Doc>, k: int)
    requires Fits(id, s, docs) && Spoiled(s, k)
    ensures Spoiled(Do(id, s, a), k)
    ensures forall i :: 0 <= i < |s.calls| && id(s.keys[i]) == k && Do(id, s, a).calls[i].Returned? ==>
              s.calls[i].Returned?
  {
    if a.call < |s.calls| {
      assert CallFits(id, s, docs, a.call);
      StepFrame(id, s, a, docs);
    }
  }

  /** A key whose first attempt ended without a persisted result never succeeds again. */
  lemma {:induction false} SpoiledForever(id: Identity, s: State, docs: map<int, Doc>, k: int, run: seq<Action>)
    returns (later: map<int, Doc>)
    requires Fits(id, s, docs) && Spoiled(s, k)
    ensures var t := After(id, s, run);
      && Fits(id, t, later) && Spoiled(t, k)
      && forall i :: 0 <= i < |s.calls| && id(s.keys[i]) == k && t.calls[i].Returned? ==> s.calls[i].Returned?
  {
    if run == [] {
      later := docs;
    } else {
      var before, a := After(id, s, run[..|run| - 1]), run[|run| - 1];
      var mid := SpoiledForever(id, s, docs, k, run[..|run| - 1]);
      hide Fits, Spoiled, Do, DocsAfter;
      StepFits(id, before, a, mid);
      StepSpoiled(id, before, a, mid, k);
      later := DocsAfter(id, before, a, mid);
    }
  }

  // ---- answers from the persisted result --------------------------------------------------

  /** The write of the result fails after its bytes could be read. */
  predicate LateFailure(id: Identity, s: State, a: Action, k: int)
    requires Shaped(s)
  {
    && a.call < |s.calls| && id(s.keys[a.call]) == k && a.move.WriteFails?
    && s.calls[a.call].Writing? && Readable(ResultAt(s, k))
  }

  /** Some step of the run was such a failure. */
  predicate Lost(id: Identity, s: State, run: seq<Action>, k: int)
    requires Shaped(s)
  {
    run != [] && (Lost(id, s, run[..|run| - 1], k)
                  || LateFailure(id, After(id, s, run[..|run| - 1]), run[|run| - 1], k))
  }

  ghost predicate Answered(id: Identity, s: State, k: int)
    requires Shaped(s)
  {
    exists i :: 0 <= i < |s.calls| && id(s.keys[i]) == k && s.calls[i].Returned?
  }

  /** A lost result stays lost; one that was returned and not lost can be read. */
  ghost predicate Kept(id: Identity, s: State, k: int, lost: bool)
    requires Shaped(s)
  {
    if lost then Spoiled(s, k) else Answered(id, s, k) ==> Readable(ResultAt(s, k))
  }

  lemma StepKept(id: Identity, s: State, a: Action, docs: map<int, Doc>, k: int, lost: bool)
    requires Fits(id, s, docs) && Kept(id, s, k, lost)
    ensures Kept(id, Do(id, s, a), k, lost || LateFailure(id, s, a, k))
  {
    if lost {
      StepSpoiled(id, s, a, docs, k);
    } else if a.call < |s.calls| {
      assert CallFits(id, s, docs, a.call);
      StepFrame(id, s, a, docs);
      hide DocsAfter;
      if !LateFailure(id, s, a, k) { StepAnswers(id, s, a, docs, k); }
    }
  }

  lemma StepAnswers(id: Identity, s: State, a: Action, docs: map<int, Doc>, k: int)
    requires Fits(id, s, docs) && a.call < |s.calls| && !LateFailure(id, s, a, k)
    requires Answered(id, s, k) ==> Readable(ResultAt(s, k))
    ensures Answered(id, Do(id, s, a), k) ==> Readable(ResultAt(Do(id, s, a), k))
  {
    var t := Do(id, s, a);
    assert CallFits(id, s, docs, a.call);
    StepFrame(id, s, a, docs);
    StepReads(id, s, a, k, docs);
    hide Do;
    if i :| 0 <= i < |t.calls| && id(t.keys[i]) == k && t.calls[i].Returned? {
      assert i != a.call ==> s.calls[i].Returned?;
      if i == a.call && !s.calls[i].Returned? { ReturnsReadable(id, s, a, docs); }
    }
  }

  /** Only a late failure makes a readable result unreadable. */
  lemma StepReads(id: Identity, s: State, a: Action, k: int, docs: map<int, Doc>)
    requires Fits(id, s, docs) && a.call < |s.calls| && !LateFailure(id, s, a, k)
    ensures Readable(ResultAt(s, k)) ==> Readable(ResultAt(Do(id, s, a), k))
  {
    assert CallFits(id, s, docs, a.call);
  }

  lemma ReturnsReadable(id: Identity, s: State, a: Action, docs: map<int, Doc>)
    requires Fits(id, s, docs) && a.call < |s.calls|
    requires !s.calls[a.call].Returned? && Do(id, s, a).calls[a.call].Returned?
    ensures Readable(ResultAt(Do(id, s, a), id(s.keys[a.call])))
  {
  }

  lemma {:induction false} RunKept(id: Identity, s: State, run: seq<Action>, k: int)
    requires Initial(s)
    ensures Kept(id, After(id, s, run), k, Lost(id, s, run, k))
  {
    if run == [] {
    } else {
      var n := |run| - 1;
      RunKept(id, s, run[..n], k);
      var docs := RunFits(id, s, run[..n]);
      hide Fits, Kept, Do, LateFailure;
      StepKept(id, After(id, s, run[..n]), run[n], docs, k, Lost(id, s, run[..n], k));
    }
  }

  /** What the next step of a call that starts on an existing directory is. */
  lemma CalledStep(id: Identity, s: State, docs: map<int, Doc>, j: nat, body: int)
    requires Fits(id, s, docs) && j < |s.calls| && s.calls[j].Called? && id(s.keys[j]) in s.dirs
    ensures var k := id(s.keys[j]); var t := Do(id, s, Action(j, Advance(body)));
      && t == s.(calls := s.calls[j := t.calls[j]])
      && t.calls[j] == (if Readable(ResultAt(s, k)) then Returned(ResultAt(s, k).doc) else Raised)
      && (k in docs && Readable(ResultAt(s, k)) ==> ResultAt(s, k).doc == docs[k])
  {
    assert KeyFits(s, docs, id(s.keys[j]));
  }

  /** Once a call has returned a document, every later call of its key returns that document with
      its next step, and starts no process, exactly when no write of the result failed after its
      bytes could be read; otherwise it raises. */
  lemma LaterCallAnswers(id: Identity, s: State, run: seq<Action>, i: nat, j: nat, body: int)
    requires Initial(s) && i < |s.calls| && j < |s.calls| && s.keys[i] == s.keys[j]
    requires var t := After(id, s, run); t.calls[i].Returned? && t.calls[j].Called?
    ensures var t := After(id, s, run); var u := Do(id, t, Action(j, Advance(body)));
      && u.calls[j] == (if Lost(id, s, run, id(s.keys[i])) then Raised else Returned(t.calls[i].doc))
      && u.launches == t.launches && u.results == t.results && u.dirs == t.dirs
  {
    var t, k := After(id, s, run), id(s.keys[i]);
    var docs := RunFits(id, s, run);
    RunKept(id, s, run, k);
    assert CallFits(id, t, docs, i) && KeyFits(t, docs, k);
    hide After, Lost, Do;
    CalledStep(id, t, docs, j, body);
  }

  /** Whenever a result can be read, every call of its key that starts returns it with its next
      step, and starts no process. */
  lemma ReadableAnswers(id: Identity, s: State, run: seq<Action>, j: nat, body: int)
    requires Initial(s) && j < |s.calls|
    requires var t := After(id, s, run); t.calls[j].Called? && Readable(ResultAt(t, id(s.keys[j])))
    ensures var t := After(id, s, run); var u := Do(id, t, Action(j, Advance(body)));
      && u.calls[j] == Returned(ResultAt(t, id(s.keys[j])).doc)
      && u.launches == t.launches && u.results == t.results && u.dirs == t.dirs
  {
    var t, k := After(id, s, run), id(s.keys[j]);
    var docs := RunFits(id, s, run);
    assert KeyFits(t, docs, k);
    hide After, Do;
    CalledStep(id, t, docs, j, body);
  }
}
