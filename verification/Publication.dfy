/** Publishing the artifacts of a tested candidate: passing and failing outcomes, writers that
    stop between or inside files, and retries. */
module Publication {

  datatype Name = PatchFile | ManifestFile | RequestFile | BundleFile | TestsFile

  /** A file written to its end, or cut short by a crash. */
  datatype Content = Whole(text: string) | Torn

  type Files = map<Name, Content>

  datatype Outcome =
    | Passed(patch: string, manifest: string, request: string, bundle: string, tests: string)
    | Failed(patch: string, manifest: string, tests: string)

  datatype Status = Completed | Conflicted | Stopped

  function Outputs(o: Outcome): seq<(Name, string)> {
    match o
    case Passed(patch, manifest, request, bundle, tests) =>
      [(PatchFile, patch), (ManifestFile, manifest), (RequestFile, request), (BundleFile, bundle), (TestsFile, tests)]
    case Failed(patch, manifest, tests) =>
      [(PatchFile, patch), (ManifestFile, manifest), (TestsFile, tests)]
  }

  /** The writing loop: equal files are kept, others conflict, missing ones are written until
      the budget is used up; the write that stops may leave a torn file. */
  function Put(files: Files, outputs: seq<(Name, string)>, budget: nat, tear: bool): (r: (Files, Status))
    decreases |outputs|
  {
    if outputs == [] then (files, Completed)
    else
      var (name, text) := outputs[0];
      if name in files then
        if files[name] == Whole(text) then Put(files, outputs[1..], budget, tear) else (files, Conflicted)
      else if budget == 0 then (if tear then files[name := Torn] else files, Stopped)
      else Put(files[name := Whole(text)], outputs[1..], budget - 1, tear)
  }

  function Publish(files: Files, o: Outcome, budget: nat, tear: bool): (Files, Status) {
    if o.Failed? && (BundleFile in files || RequestFile in files) then (files, Conflicted)
    else Put(files, Outputs(o), budget, tear)
  }

  class OutputDirectory {
    var files: Files

    /** Both publishing functions as they run; `budget` and `tear` say where the writer stops. */
    method PublishOutcome(o: Outcome, budget: nat, tear: bool) returns (status: Status)
      modifies this
      ensures (files, status) == Publish(old(files), o, budget, tear)
    {
      if o.Failed? && (BundleFile in files || RequestFile in files) { return Conflicted; }
      var outputs, left := Outputs(o), budget;
      for i := 0 to |outputs|
        invariant Put(files, outputs[i..], left, tear) == Put(old(files), outputs, budget, tear)
      {
        var (name, text) := outputs[i];
        assert outputs[i..][0] == outputs[i] && outputs[i..][1..] == outputs[i + 1..];
        if name in files {
          if files[name] != Whole(text) { return Conflicted; }
        } else if left == 0 {
          if tear { files := files[name := Torn]; }
          return Stopped;
        } else {
          files := files[name := Whole(text)];
          left := left - 1;
        }
      }
      assert outputs[|outputs|..] == [];
      return Completed;
    }
  }

  // ---- runs -----------------------------------------------------------------------------

  datatype Attempt = Attempt(outcome: Outcome, budget: nat, tear: bool)

  function After(files: Files, attempts: seq<Attempt>): Files {
    if attempts == [] then files
    else
      var a := attempts[|attempts| - 1];
      Publish(After(files, attempts[..|attempts| - 1]), a.outcome, a.budget, a.tear).0
  }

  lemma {:induction false} PutKeeps(files: Files, outputs: seq<(Name, string)>, budget: nat, tear: bool)
    ensures var t := Put(files, outputs, budget, tear).0;
      forall n :: n in files ==> n in t && t[n] == files[n]
    decreases |outputs|
  {
    if outputs != [] {
      var (name, text) := outputs[0];
      if name in files {
        PutKeeps(files, outputs[1..], budget, tear);
      } else if budget > 0 {
        PutKeeps(files[name := Whole(text)], outputs[1..], budget - 1, tear);
      }
    }
  }

  /** No published byte ever changes. */
  lemma {:induction false} PublishedBytesStay(files: Files, attempts: seq<Attempt>)
    ensures forall n :: n in files ==> n in After(files, attempts) && After(files, attempts)[n] == files[n]
  {
    if attempts != [] {
      var a := attempts[|attempts| - 1];
      PublishedBytesStay(files, attempts[..|attempts| - 1]);
      PutKeeps(After(files, attempts[..|attempts| - 1]), Outputs(a.outcome), a.budget, a.tear);
    }
  }

  // ---- no executable artifact beside a failed test manifest --------------------------------

  /** How outcomes are built: the manifest seals the hash of the test manifest, and an outcome
      is a passing one exactly when its test manifest says so. The hash is assumed injective. */
  datatype Sealing = Sealing(hash: string -> int, sealed: string -> int, verdict: string -> bool)

  ghost predicate Collides(z: Sealing, a: string, b: string) { a != b && z.hash(a) == z.hash(b) }

  ghost predicate Genuine(z: Sealing, o: Outcome) {
    z.sealed(o.manifest) == z.hash(o.tests) && (o.Passed? <==> z.verdict(o.tests))
  }

  ghost predicate Executable(files: Files) { BundleFile in files || RequestFile in files }

  ghost predicate FailedTests(z: Sealing, files: Files) {
    TestsFile in files && files[TestsFile].Whole? && !z.verdict(files[TestsFile].text)
  }

  /** Later artifacts stand behind a whole manifest, and fit the test manifest it seals. */
  ghost predicate Bound(z: Sealing, files: Files) {
    && (Executable(files) || TestsFile in files ==> ManifestFile in files && files[ManifestFile].Whole?)
    && (Executable(files) ==> exists t :: z.hash(t) == z.sealed(files[ManifestFile].text) && z.verdict(t))
    && (TestsFile in files && files[TestsFile].Whole? ==>
          z.hash(files[TestsFile].text) == z.sealed(files[ManifestFile].text))
  }

  /** Once the manifest agrees with the outcome, the rest of its files keep the binding. */
  lemma {:induction false} PutBound(z: Sealing, files: Files, o: Outcome, outputs: seq<(Name, string)>,
                                    budget: nat, tear: bool)
    requires Bound(z, files) && Genuine(z, o)
    requires ManifestFile in files && files[ManifestFile] == Whole(o.manifest)
    requires forall k :: 0 <= k < |outputs| ==>
      && outputs[k].0 in {RequestFile, BundleFile, TestsFile}
      && (outputs[k].0 != TestsFile ==> o.Passed?)
      && (outputs[k].0 == TestsFile ==> outputs[k].1 == o.tests)
    ensures Bound(z, Put(files, outputs, budget, tear).0)
    decreases |outputs|
  {
    if outputs != [] {
      var (name, text) := outputs[0];
      if name in files {
        PutBound(z, files, o, outputs[1..], budget, tear);
      } else if budget > 0 {
        var more := files[name := Whole(text)];
        assert Bound(z, more) by { assert z.hash(o.tests) == z.sealed(o.manifest); }
        PutBound(z, more, o, outputs[1..], budget - 1, tear);
      } else {
        assert z.hash(o.tests) == z.sealed(o.manifest);
      }
    }
  }

  lemma PublishBound(z: Sealing, files: Files, o: Outcome, budget: nat, tear: bool)
    requires Bound(z, files) && Genuine(z, o)
    ensures Bound(z, Publish(files, o, budget, tear).0)
  {
    var outputs := Outputs(o);
    if !(o.Failed? && Executable(files)) && (PatchFile !in files ==> budget > 0)
      && (PatchFile in files ==> files[PatchFile] == Whole(o.patch)) {
      var left := if PatchFile in files then budget else budget - 1;
      var one := if PatchFile in files then files else files[PatchFile := Whole(o.patch)];
      assert Put(files, outputs, budget, tear) == Put(one, outputs[1..], left, tear);
      assert outputs[1..][0] == (ManifestFile, o.manifest) && outputs[1..][1..] == outputs[2..];
      if (ManifestFile in one ==> one[ManifestFile] == Whole(o.manifest)) && (ManifestFile !in one ==> left > 0) {
        var two := if ManifestFile in one then one else one[ManifestFile := Whole(o.manifest)];
        PutBound(z, two, o, outputs[2..], if ManifestFile in one then left else left - 1, tear);
      }
    }
  }

  /** After any sequence of publishing attempts, whatever their outcomes and wherever they
      stopped, no bundle and no validation request stands beside a failed test manifest,
      unless two test manifests collide. */
  lemma {:induction false} NothingExecutableFailed(z: Sealing, attempts: seq<Attempt>)
    requires forall k :: 0 <= k < |attempts| ==> Genuine(z, attempts[k].outcome)
    requires forall a, b :: !Collides(z, a, b)
    ensures Bound(z, After(map[], attempts))
    ensures !(Executable(After(map[], attempts)) && FailedTests(z, After(map[], attempts)))
  {
    var files := After(map[], attempts);
    if attempts != [] {
      var init, a := attempts[..|attempts| - 1], attempts[|attempts| - 1];
      assert forall k :: 0 <= k < |init| ==> init[k] == attempts[k];
      NothingExecutableFailed(z, init);
      PublishBound(z, After(map[], init), a.outcome, a.budget, a.tear);
    }
    if Executable(files) && FailedTests(z, files) {
      var t :| z.hash(t) == z.sealed(files[ManifestFile].text) && z.verdict(t);
      assert Collides(z, t, files[TestsFile].text);
      assert false;
    }
  }

  // ---- retries ------------------------------------------------------------------------------

  ghost predicate Agrees(files: Files, outputs: seq<(Name, string)>) {
    forall k :: 0 <= k < |outputs| && outputs[k].0 in files ==> files[outputs[k].0] == Whole(outputs[k].1)
  }

  ghost predicate DistinctNames(outputs: seq<(Name, string)>) {
    forall j, k :: 0 <= j < k < |outputs| ==> outputs[j].0 != outputs[k].0
  }

  /** The directory with all of these files in it. */
  function With(files: Files, outputs: seq<(Name, string)>): Files
    decreases |outputs|
  {
    if outputs == [] then files else With(files[outputs[0].0 := Whole(outputs[0].1)], outputs[1..])
  }

  lemma {:induction false} PutCompletes(files: Files, outputs: seq<(Name, string)>, budget: nat)
    requires DistinctNames(outputs) && budget >= |outputs|
    ensures Put(files, outputs, budget, false).1 == if Agrees(files, outputs) then Completed else Conflicted
    ensures Agrees(files, outputs) ==> Put(files, outputs, budget, false).0 == With(files, outputs)
    decreases |outputs|
  {
    if outputs != [] {
      var (name, text) := outputs[0];
      var rest := outputs[1..];
      assert forall k :: 0 <= k < |rest| ==> rest[k] == outputs[k + 1];
      var more := files[name := Whole(text)];
      if name in files && files[name] == Whole(text) {
        assert more == files;
        PutCompletes(files, rest, budget);
      } else if name !in files {
        PutCompletes(more, rest, budget - 1);
      }
      if Agrees(more, rest) && (name in files ==> files[name] == Whole(text)) {
        forall k | 0 <= k < |outputs| && outputs[k].0 in files ensures files[outputs[k].0] == Whole(outputs[k].1) {
          assert k > 0 ==> outputs[k] == rest[k - 1];
        }
      }
    }
  }

  lemma {:induction false} PutPartKeepsAgreement(files: Files, outputs: seq<(Name, string)>, budget: nat)
    requires DistinctNames(outputs)
    ensures var t := Put(files, outputs, budget, false).0;
      && (Agrees(t, outputs) <==> Agrees(files, outputs))
      && (Agrees(files, outputs) ==> With(t, outputs) == With(files, outputs))
    decreases |outputs|
  {
    if outputs != [] {
      var (name, text) := outputs[0];
      var rest := outputs[1..];
      assert forall k :: 0 <= k < |rest| ==> rest[k] == outputs[k + 1];
      AgreesSplit(files, outputs);
      if name in files && files[name] == Whole(text) {
        PutPartKeepsAgreement(files, rest, budget);
        var t := Put(files, rest, budget, false).0;
        PutKeeps(files, rest, budget, false);
        AgreesSplit(t, outputs);
        assert t[name := Whole(text)] == t && files[name := Whole(text)] == files;
      } else if name !in files && budget > 0 {
        var more := files[name := Whole(text)];
        PutPartKeepsAgreement(more, rest, budget - 1);
        var t := Put(more, rest, budget - 1, false).0;
        PutKeeps(more, rest, budget - 1, false);
        AgreesSplit(t, outputs);
        assert t[name := Whole(text)] == t;
        AgreesElsewhere(files, name, text, rest);
      }
    }
  }

  lemma AgreesSplit(files: Files, outputs: seq<(Name, string)>)
    requires outputs != []
    ensures Agrees(files, outputs)
       <==> (outputs[0].0 in files ==> files[outputs[0].0] == Whole(outputs[0].1)) && Agrees(files, outputs[1..])
  {
    var rest := outputs[1..];
    assert forall k :: 0 <= k < |rest| ==> rest[k] == outputs[k + 1];
    if Agrees(files, rest) && (outputs[0].0 in files ==> files[outputs[0].0] == Whole(outputs[0].1)) {
      forall k | 0 <= k < |outputs| && outputs[k].0 in files ensures files[outputs[k].0] == Whole(outputs[k].1) {
        assert k > 0 ==> outputs[k] == rest[k - 1];
      }
    }
  }

  lemma AgreesElsewhere(files: Files, name: Name, text: string, rest: seq<(Name, string)>)
    requires forall k :: 0 <= k < |rest| ==> rest[k].0 != name
    ensures Agrees(files[name := Whole(text)], rest) <==> Agrees(files, rest)
  {
    var more := files[name := Whole(text)];
    assert forall k :: 0 <= k < |rest| ==> (rest[k].0 in more <==> rest[k].0 in files);
  }

  /** The condition under which an outcome can be published: what is there already agrees with
      it, and nothing executable is there if it failed. */
  ghost predicate Publishable(files: Files, o: Outcome) {
    Agrees(files, Outputs(o)) && !(o.Failed? && Executable(files))
  }

  /** An undisturbed attempt completes exactly when the outcome is publishable, with all of its
      files in place; and if an earlier attempt at the same outcome was stopped between two of
      its files, the retry completes in the same cases with the same directory. */
  lemma RetryCompletesTheSame(files: Files, o: Outcome, budget: nat)
    ensures var t := Publish(files, o, budget, false).0;
      && (Publish(files, o, 5, false).1 == Completed <==> Publishable(files, o))
      && (Publishable(files, o) ==> Publish(files, o, 5, false).0 == With(files, Outputs(o)))
      && Publish(t, o, 5, false).1 == Publish(files, o, 5, false).1
      && (Publishable(files, o) ==> Publish(t, o, 5, false) == Publish(files, o, 5, false))
  {
    var outputs := Outputs(o);
    assert DistinctNames(outputs);
    var t := Publish(files, o, budget, false).0;
    PutCompletes(files, outputs, 5);
    PutCompletes(t, outputs, 5);
    if !(o.Failed? && Executable(files)) {
      PutPartKeepsAgreement(files, outputs, budget);
      if o.Failed? { FailedPutsNothing(files, outputs, budget, false); }
    }
  }

  /** A torn file is never completed: from then on every attempt to publish it conflicts. */
  lemma TornFileBlocks(files: Files, attempts: seq<Attempt>, o: Outcome, k: nat)
    requires k < |Outputs(o)| && Outputs(o)[k].0 in files && files[Outputs(o)[k].0] == Torn
    ensures Publish(After(files, attempts), o, 5, false).1 == Conflicted
  {
    PublishedBytesStay(files, attempts);
    var now := After(files, attempts);
    assert DistinctNames(Outputs(o));
    PutCompletes(now, Outputs(o), 5);
    assert !Agrees(now, Outputs(o));
  }

  ghost predicate Holds(files: Files, name: Name, text: string) { name in files && files[name] == Whole(text) }

  lemma {:induction false} PutHolds(files: Files, outputs: seq<(Name, string)>, budget: nat, tear: bool, k: nat)
    requires Put(files, outputs, budget, tear).1 == Completed && k < |outputs|
    ensures Holds(Put(files, outputs, budget, tear).0, outputs[k].0, outputs[k].1)
    decreases |outputs|
  {
    var (name, text) := outputs[0];
    var more := files[name := Whole(text)];
    var left := if name in files then budget else budget - 1;
    assert name in files ==> more == files;
    if k == 0 { PutKeeps(more, outputs[1..], left, tear); } else { PutHolds(more, outputs[1..], left, tear, k - 1); }
  }

  /** An attempt that completes leaves every artifact of its outcome under its own name, and an
      outcome that failed leaves no bundle and no validation request. */
  lemma CompletedHolds(files: Files, o: Outcome, budget: nat, tear: bool)
    requires Publish(files, o, budget, tear).1 == Completed
    ensures var t := Publish(files, o, budget, tear).0;
      match o
      case Passed(patch, manifest, request, bundle, tests) =>
        && Holds(t, PatchFile, patch) && Holds(t, ManifestFile, manifest) && Holds(t, RequestFile, request)
        && Holds(t, BundleFile, bundle) && Holds(t, TestsFile, tests)
      case Failed(patch, manifest, tests) =>
        && Holds(t, PatchFile, patch) && Holds(t, ManifestFile, manifest) && Holds(t, TestsFile, tests)
        && BundleFile !in t && RequestFile !in t
  {
    var outputs := Outputs(o);
    assert |outputs| == if o.Passed? then 5 else 3;
    forall k | 0 <= k < |outputs| ensures Holds(Publish(files, o, budget, tear).0, outputs[k].0, outputs[k].1) {
      PutHolds(files, outputs, budget, tear, k);
    }
    assert outputs[0].0 == PatchFile && outputs[1].0 == ManifestFile;
    if o.Passed? {
      assert outputs[2].0 == RequestFile && outputs[3].0 == BundleFile && outputs[4].0 == TestsFile;
    } else {
      assert outputs[2].0 == TestsFile;
      FailedPutsNothing(files, outputs, budget, tear);
    }
  }

  lemma {:induction false} FailedPutsNothing(files: Files, outputs: seq<(Name, string)>, budget: nat, tear: bool)
    requires forall k :: 0 <= k < |outputs| ==> outputs[k].0 !in {BundleFile, RequestFile}
    ensures Executable(Put(files, outputs, budget, tear).0) <==> Executable(files)
    decreases |outputs|
  {
    if outputs != [] {
      var (name, text) := outputs[0];
      if name in files {
        FailedPutsNothing(files, outputs[1..], budget, tear);
      } else if budget > 0 {
        FailedPutsNothing(files[name := Whole(text)], outputs[1..], budget - 1, tear);
      }
    }
  }

  lemma {:induction false} PutInOrder(files: Files, outputs: seq<(Name, string)>, budget: nat, tear: bool,
                                      j: nat, k: nat)
    requires j < k < |outputs| && DistinctNames(outputs)
    requires outputs[k].0 !in files && outputs[k].0 in Put(files, outputs, budget, tear).0
    ensures Holds(Put(files, outputs, budget, tear).0, outputs[j].0, outputs[j].1)
    decreases |outputs|
  {
    var (name, text) := outputs[0];
    assert outputs[k].0 != outputs[0].0;
    var more := files[name := Whole(text)];
    var left := if name in files then budget else budget - 1;
    assert name in files ==> more == files;
    if j == 0 {
      PutKeeps(more, outputs[1..], left, tear);
    } else {
      PutInOrder(more, outputs[1..], left, tear, j - 1, k - 1);
    }
  }

  /** Wherever the writer stops, what it added stands behind the whole of what comes before it: the
      manifest behind the patch, the request behind the manifest, the bundle behind the request, and
      the test manifest last. */
  lemma WrittenInOrder(files: Files, o: Outcome, budget: nat, tear: bool)
    ensures var t := Publish(files, o, budget, tear).0;
      && (ManifestFile in t && ManifestFile !in files ==> Holds(t, PatchFile, o.patch))
      && (RequestFile in t && RequestFile !in files ==> o.Passed? && Holds(t, ManifestFile, o.manifest))
      && (BundleFile in t && BundleFile !in files ==> o.Passed? && Holds(t, RequestFile, o.request))
      && (TestsFile in t && TestsFile !in files ==>
            Holds(t, ManifestFile, o.manifest) && (o.Passed? ==> Holds(t, BundleFile, o.bundle)))
  {
    var outputs, t := Outputs(o), Publish(files, o, budget, tear).0;
    if t != files {
      forall j: nat, k: nat | j < k < |outputs| && outputs[k].0 in t && outputs[k].0 !in files
        ensures Holds(t, outputs[j].0, outputs[j].1)
      {
        PutInOrder(files, outputs, budget, tear, j, k);
      }
      if o.Passed? {
        assert outputs[0].0 == PatchFile && outputs[1].0 == ManifestFile && outputs[2].0 == RequestFile;
        assert outputs[3].0 == BundleFile && outputs[4].0 == TestsFile;
      } else {
        FailedPutsNothing(files, outputs, budget, tear);
        assert outputs[0].0 == PatchFile && outputs[1].0 == ManifestFile && outputs[2].0 == TestsFile;
      }
    }
  }
}
