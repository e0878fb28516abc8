/** The one-shot invocation protocol: any number of executing and adopting hosts, three
    files created exclusively and filled afterwards, and a crash between any two steps. */
module OneShot {
  import opened Text

  /** A file during its life: bytes are missing, all there but not yet synced, or durable. */
  datatype File =
    | Absent
    | Open(owner: nat, content: int, whole: bool)
    | Closed(owner: nat, content: int)

  predicate Readable(f: File) { f.Closed? || (f.Open? && f.whole) }

  /** Where a host is. The first group executes the invocation, the second adopts its output. */
  datatype Pc =
    | ToExecute | Unmarked | Starting | Started | Running | Holding(out: int) | Marking(out: int) | Marked(out: int)
    | Issuing(out: int)
    | ToAdopt | Checked | Vetted(out: int) | Publishing(out: int) | Published(out: int) | Sealing(out: int)
    | Done | Dead

  datatype State = State(started: File, completed: File, published: File, hosts: seq<Pc>,
                         launches: nat, completions: nat)

  /** `patient`: adoption begins only once the host that owns the start marker is gone.
      `startedLate`, `completedLate`, `publishedLate`: writing that file may still fail, and be
      undone, after all its bytes are visible.
      `fixed`: the validated output does not depend on when it is validated. */
  datatype Rules = Rules(patient: bool, startedLate: bool, completedLate: bool, publishedLate: bool,
                         fixed: Option<int>)

  datatype Move = Advance(out: int) | WriteAll | Sync | WriteFails | Crash

  datatype Action = Action(host: nat, move: Move)

  predicate Gone(pc: Pc) { pc.Done? || pc.Dead? }

  /** One step of writing a file the host created exclusively; a failed write unlinks it. */
  function Write(late: bool, f: File, i: nat, move: Move): Option<File> {
    if !f.Open? || f.owner != i then None
    else
      match move
      case WriteAll => if f.whole then None else Some(Open(i, f.content, true))
      case Sync => if f.whole then Some(Closed(i, f.content)) else None
      case WriteFails => if f.whole && !late then None else Some(Absent)
      case _ => None
  }

  predicate MayAdopt(rules: Rules, s: State) {
    && Readable(s.started) && s.completed.Absent?
    && (rules.patient ==> s.started.owner < |s.hosts| && Gone(s.hosts[s.started.owner]))
  }

  predicate OutputAllowed(rules: Rules, out: int) { rules.fixed.Some? ==> out == rules.fixed.value }

  /** The host's state after a write step: it moves on at the sync and dies on a failure. */
  function AfterWrite(pc: Pc, f: File, next: Pc): Pc {
    match f
    case Absent => Dead
    case Open(_, _, _) => pc
    case Closed(_, _) => next
  }

  /** One step of host `i`, or `None` where the move is not possible there. */
  function Step(rules: Rules, s: State, i: nat, move: Move): Option<State>
    requires i < |s.hosts|
  {
    var pc := s.hosts[i];
    if Gone(pc) then None
    else if move.Crash? then Some(s.(hosts := s.hosts[i := Dead]))
    else
      match pc
      case Starting =>
        (match Write(rules.startedLate, s.started, i, move)
         case None => None
         case Some(f) => Some(s.(started := f, hosts := s.hosts[i := AfterWrite(pc, f, Started)])))
      case Marking(out) =>
        (match Write(rules.completedLate, s.completed, i, move)
         case None => None
         case Some(f) => Some(s.(completed := f, hosts := s.hosts[i := AfterWrite(pc, f, Marked(out))],
                                 completions := s.completions + if f.Closed? then 1 else 0)))
      case Sealing(out) =>
        (match Write(rules.completedLate, s.completed, i, move)
         case None => None
         case Some(f) => Some(s.(completed := f, hosts := s.hosts[i := AfterWrite(pc, f, Done)],
                                 completions := s.completions + if f.Closed? then 1 else 0)))
      case Issuing(out) =>
        (match Write(rules.publishedLate, s.published, i, move)
         case None => None
         case Some(f) => Some(s.(published := f, hosts := s.hosts[i := AfterWrite(pc, f, Done)])))
      case Publishing(out) =>
        (match Write(rules.publishedLate, s.published, i, move)
         case None => None
         case Some(f) => Some(s.(published := f, hosts := s.hosts[i := AfterWrite(pc, f, Published(out))])))
      case _ =>
        if move.Advance? then Some(Advanced(rules, s, i, move.out)) else None
  }

  /** A step of program text that is not a write. A refusal ends the host. */
  function Advanced(rules: Rules, s: State, i: nat, out: int): State
    requires i < |s.hosts|
  {
    var refused := s.(hosts := s.hosts[i := Dead]);
    match s.hosts[i]
    case ToExecute =>
      if s.started.Absent? && s.completed.Absent? then s.(hosts := s.hosts[i := Unmarked]) else refused
    case Unmarked =>
      if s.started.Absent? then s.(started := Open(i, 0, false), hosts := s.hosts[i := Starting]) else refused
    case Started =>
      s.(launches := s.launches + 1, hosts := s.hosts[i := Running])
    case Running =>
      if OutputAllowed(rules, out) then s.(hosts := s.hosts[i := Holding(out)]) else refused
    case Holding(held) =>
      if s.completed.Absent? then
        s.(completed := Open(i, held, false), hosts := s.hosts[i := Marking(held)])
      else refused
    case Marked(held) =>
      if s.published.Absent? then
        s.(published := Open(i, held, false), hosts := s.hosts[i := Issuing(held)])
      else refused
    case ToAdopt =>
      if MayAdopt(rules, s) then s.(hosts := s.hosts[i := Checked]) else refused
    case Checked =>
      if s.completed.Absent? && OutputAllowed(rules, out) then s.(hosts := s.hosts[i := Vetted(out)]) else refused
    case Vetted(held) =>
      if s.published.Absent? then
        s.(published := Open(i, held, false), hosts := s.hosts[i := Publishing(held)])
      else if Readable(s.published) && s.published.content == held then
        s.(hosts := s.hosts[i := Published(held)])
      else refused
    case Published(held) =>
      if s.completed.Absent? then
        s.(completed := Open(i, held, false), hosts := s.hosts[i := Sealing(held)])
      else refused
    case _ => s
  }

  /** A run from the start: hosts that will execute or adopt, and no files. */
  predicate Initial(s: State) {
    && s.started.Absent? && s.completed.Absent? && s.published.Absent? && s.launches == 0 && s.completions == 0
    && forall i :: 0 <= i < |s.hosts| ==> s.hosts[i].ToExecute? || s.hosts[i].ToAdopt?
  }

  /** What an action does; an impossible one changes nothing. */
  function Do(rules: Rules, s: State, a: Action): (t: State)
    ensures |t.hosts| == |s.hosts|
  {
    if a.host >= |s.hosts| then s
    else match Step(rules, s, a.host, a.move) case None => s case Some(t) => t
  }

  /** The state a run leads to. */
  function After(rules: Rules, s: State, run: seq<Action>): State {
    if run == [] then s else Do(rules, After(rules, s, run[..|run| - 1]), run[|run| - 1])
  }

  // ---- what every reachable state satisfies -----------------------------------

  /** Past the start marker, on the executing side. */
  predicate Launcher(pc: Pc) {
    pc.Started? || pc.Running? || pc.Holding? || pc.Marking? || pc.Marked? || pc.Issuing?
  }

  predicate Adopting(pc: Pc) {
    pc.Checked? || pc.Vetted? || pc.Publishing? || pc.Published? || pc.Sealing?
  }

  predicate HostOnce(s: State, i: nat)
    requires i < |s.hosts|
  {
    match s.hosts[i]
    case Starting => s.started.Open? && s.started.owner == i && s.launches == 0
    case Started => s.started.Closed? && s.started.owner == i && s.launches == 0
    case Marking(out) => s.completed.Open? && s.completed.owner == i && s.completed.content == out
    case Sealing(out) => s.completed.Open? && s.completed.owner == i && s.completed.content == out
    case Marked(out) => s.completed == Closed(i, out)
    case Issuing(out) =>
      s.completed == Closed(i, out) && s.published.Open? && s.published.owner == i && s.published.content == out
    case Publishing(out) => s.published.Open? && s.published.owner == i && s.published.content == out
    case _ => Launcher(s.hosts[i]) ==> s.started.Closed? && s.started.owner == i
  }

  ghost predicate Once(s: State) {
    && s.launches <= 1 && (s.launches == 1 ==> s.started.Closed?)
    && s.completions == (if s.completed.Closed? then 1 else 0)
    && forall i :: 0 <= i < |s.hosts| ==>
         HostOnce(s, i) && (Launcher(s.hosts[i]) ==> s.started.Closed? && s.started.owner == i)
  }

  /** A step of host `i` leaves a file alone, or changes one that is absent or that it is writing. */
  predicate Touched(f: File, g: File, i: nat) {
    f == g || ((f.Absent? || (f.Open? && f.owner == i)) && (g.Absent? || g.owner == i))
  }

  lemma StepTouches(rules: Rules, s: State, i: nat, move: Move)
    requires i < |s.hosts| && Step(rules, s, i, move).Some?
    ensures var t := Step(rules, s, i, move).value;
      && |t.hosts| == |s.hosts| && t.hosts == s.hosts[i := t.hosts[i]]
      && Touched(s.started, t.started, i) && Touched(s.completed, t.completed, i)
      && Touched(s.published, t.published, i)
      && (t.launches != s.launches ==> s.hosts[i].Started? && t.launches == s.launches + 1)
  {
  }

  lemma OthersStayOnce(rules: Rules, s: State, i: nat, move: Move, j: nat)
    requires i < |s.hosts| && j < |s.hosts| && j != i && Step(rules, s, i, move).Some?
    requires Once(s)
    ensures HostOnce(Step(rules, s, i, move).value, j)
    ensures var t := Step(rules, s, i, move).value;
      Launcher(t.hosts[j]) ==> t.started.Closed? && t.started.owner == j
  {
    assert HostOnce(s, i) && HostOnce(s, j);
    StepTouches(rules, s, i, move);
    hide Step;
  }

  lemma AdvancedOnce(rules: Rules, s: State, i: nat, out: int)
    requires i < |s.hosts| && Once(s)
    ensures var t := Advanced(rules, s, i, out);
      HostOnce(t, i) && (Launcher(t.hosts[i]) ==> t.started.Closed? && t.started.owner == i)
  {
    hide MayAdopt, OutputAllowed, Readable;
    assert HostOnce(s, i);
  }

  predicate Writing(pc: Pc) { pc.Starting? || pc.Marking? || pc.Sealing? || pc.Issuing? || pc.Publishing? }

  lemma WrittenOnce(rules: Rules, s: State, i: nat, move: Move)
    requires i < |s.hosts| && Once(s) && Step(rules, s, i, move).Some?
    requires Writing(s.hosts[i]) || move.Crash?
    ensures var t := Step(rules, s, i, move).value;
      HostOnce(t, i) && (Launcher(t.hosts[i]) ==> t.started.Closed? && t.started.owner == i)
  {
    hide Advanced;
    assert HostOnce(s, i);
  }

  lemma SelfStaysOnce(rules: Rules, s: State, i: nat, move: Move)
    requires i < |s.hosts| && Once(s) && Step(rules, s, i, move).Some?
    ensures var t := Step(rules, s, i, move).value;
      HostOnce(t, i) && (Launcher(t.hosts[i]) ==> t.started.Closed? && t.started.owner == i)
  {
    hide HostOnce, Advanced, Write;
    if Writing(s.hosts[i]) || move.Crash? {
      WrittenOnce(rules, s, i, move);
    } else {
      AdvancedOnce(rules, s, i, move.out);
    }
  }

  lemma CountsStay(rules: Rules, s: State, i: nat, move: Move)
    requires i < |s.hosts| && Once(s) && Step(rules, s, i, move).Some?
    ensures var t := Step(rules, s, i, move).value;
      && t.launches <= 1 && (t.launches == 1 ==> t.started.Closed?)
      && t.completions == if t.completed.Closed? then 1 else 0
  {
    assert HostOnce(s, i);
  }

  lemma StepOnce(rules: Rules, s: State, i: nat, move: Move)
    requires i < |s.hosts| && Once(s) && Step(rules, s, i, move).Some?
    ensures Once(Step(rules, s, i, move).value)
  {
    var t := Step(rules, s, i, move).value;
    CountsStay(rules, s, i, move);
    StepTouches(rules, s, i, move);
    forall j | 0 <= j < |t.hosts|
      ensures HostOnce(t, j) && (Launcher(t.hosts[j]) ==> t.started.Closed? && t.started.owner == j)
    {
      if j == i { SelfStaysOnce(rules, s, i, move); } else { OthersStayOnce(rules, s, i, move, j); }
    }
    hide Step, HostOnce;
  }

  // ---- agreement of the published output with the completion marker -----------------

  /** Wherever both can be read, they carry the same output hash. */
  predicate Agree(s: State) {
    Readable(s.completed) && Readable(s.published) ==> s.completed.content == s.published.content
  }

  /** The owner of the start marker is gone, so nobody can launch or finish a launch. */
  predicate Settled(s: State) {
    !s.started.Absent? && s.started.owner < |s.hosts| && Gone(s.hosts[s.started.owner])
  }

  predicate NoAdopter(s: State) {
    forall i :: 0 <= i < |s.hosts| ==> !Adopting(s.hosts[i])
  }

  predicate HostHandover(s: State, i: nat)
    requires i < |s.hosts|
  {
    var pc := s.hosts[i];
    && (Adopting(pc) ==> Settled(s))
    && (pc.Published? || pc.Sealing? ==> Readable(s.published) && s.published.content == pc.out)
  }

  predicate FilesHandover(s: State) {
    && (!s.published.Absent? ==> Settled(s) || s.completed.Closed?)
    && (!s.completed.Absent? ==>
          || (NoAdopter(s) && (s.published.Absent? || s.published.content == s.completed.content))
          || (Readable(s.published) && s.published.content == s.completed.content))
  }

  ghost predicate Handover(s: State) {
    FilesHandover(s) && forall i :: 0 <= i < |s.hosts| ==> HostHandover(s, i)
  }

  lemma SettledStays(rules: Rules, s: State, i: nat, move: Move)
    requires i < |s.hosts| && Once(s) && Settled(s) && Step(rules, s, i, move).Some?
    ensures Settled(Step(rules, s, i, move).value)
  {
    StepTouches(rules, s, i, move);
    assert HostOnce(s, i);
    assert !Gone(s.hosts[i]);
    hide Step;
  }

  /** Without late failures a readable publication stays as it is read. */
  lemma ReadableStays(rules: Rules, s: State, i: nat, move: Move)
    requires i < |s.hosts| && !rules.publishedLate && Step(rules, s, i, move).Some?
    ensures var t := Step(rules, s, i, move).value;
      && (Readable(s.published) ==> Readable(t.published) && t.published.content == s.published.content)
      && (s.completed.Closed? ==> t.completed.Closed?)
  {
  }

  lemma HandoverHosts(rules: Rules, s: State, i: nat, move: Move, j: nat)
    requires i < |s.hosts| && j < |s.hosts| && Once(s) && Handover(s) && Step(rules, s, i, move).Some?
    requires rules.patient && !rules.publishedLate
    ensures HostHandover(Step(rules, s, i, move).value, j)
  {
    assert HostHandover(s, j) && HostHandover(s, i) && HostOnce(s, i);
    if Settled(s) { SettledStays(rules, s, i, move); }
    ReadableStays(rules, s, i, move);
    if j == i { OwnHandover(rules, s, i, move); } else { StepTouches(rules, s, i, move); }
    hide Step, Once;
  }

  lemma OwnHandover(rules: Rules, s: State, i: nat, move: Move)
    requires i < |s.hosts| && HostOnce(s, i) && HostHandover(s, i) && Step(rules, s, i, move).Some?
    requires rules.patient && !rules.publishedLate
    ensures var t := Step(rules, s, i, move).value;
      && (Adopting(t.hosts[i]) ==> Settled(s))
      && (t.hosts[i].Published? || t.hosts[i].Sealing? ==>
            Readable(t.published) && t.published.content == t.hosts[i].out)
  {
  }

  lemma PublishedHandover(rules: Rules, s: State, i: nat, move: Move)
    requires i < |s.hosts| && Once(s) && Handover(s) && Step(rules, s, i, move).Some?
    requires rules.patient && !rules.publishedLate
    ensures var t := Step(rules, s, i, move).value;
      !t.published.Absent? ==> Settled(t) || t.completed.Closed?
  {
    assert HostHandover(s, i) && HostOnce(s, i);
    if Settled(s) { SettledStays(rules, s, i, move); }
    ReadableStays(rules, s, i, move);
    hide Once;
  }

  lemma CompletedHandover(rules: Rules, s: State, i: nat, move: Move)
    requires i < |s.hosts| && Once(s) && Handover(s) && Step(rules, s, i, move).Some?
    requires rules.patient && !rules.publishedLate && !Step(rules, s, i, move).value.completed.Absent?
    ensures var t := Step(rules, s, i, move).value;
      || (NoAdopter(t) && (t.published.Absent? || t.published.content == t.completed.content))
      || (Readable(t.published) && t.published.content == t.completed.content)
  {
    var t := Step(rules, s, i, move).value;
    assert HostHandover(s, i) && HostOnce(s, i) && (Launcher(s.hosts[i]) ==> s.started.owner == i);
    StepTouches(rules, s, i, move);
    ReadableStays(rules, s, i, move);
    forall j | 0 <= j < |s.hosts| ensures Adopting(s.hosts[j]) ==> Settled(s) { assert HostHandover(s, j); }
    NewCompleted(rules, s, i, move);
    NewPublished(rules, s, i, move);
    hide Step, Once, HostOnce, HostHandover;
  }

  /** Who creates the completion marker, and what is published then. */
  lemma NewCompleted(rules: Rules, s: State, i: nat, move: Move)
    requires i < |s.hosts| && HostOnce(s, i) && HostHandover(s, i) && Step(rules, s, i, move).Some?
    ensures var t := Step(rules, s, i, move).value;
      && (s.completed.Absent? && !t.completed.Absent? ==>
            && t.published == s.published
            && ((s.hosts[i].Holding? && !Adopting(t.hosts[i]))
                || (Readable(s.published) && s.published.content == t.completed.content)))
      && (!s.completed.Absent? && !t.completed.Absent? ==> t.completed.content == s.completed.content)
      && (!s.completed.Absent? && !Adopting(s.hosts[i]) ==> !Adopting(t.hosts[i]))
  {
  }

  lemma NewPublished(rules: Rules, s: State, i: nat, move: Move)
    requires i < |s.hosts| && HostOnce(s, i) && Step(rules, s, i, move).Some?
    ensures var t := Step(rules, s, i, move).value;
      && (s.published.Absent? && !t.published.Absent? ==>
            Adopting(s.hosts[i]) || (s.completed.Closed? && t.published.content == s.completed.content))
      && (!s.published.Absent? && !t.published.Absent? ==> t.published.content == s.published.content)
  {
  }

  lemma StepHandover(rules: Rules, s: State, i: nat, move: Move)
    requires i < |s.hosts| && Once(s) && Handover(s) && Step(rules, s, i, move).Some?
    requires rules.patient && !rules.publishedLate
    ensures Handover(Step(rules, s, i, move).value)
  {
    var t := Step(rules, s, i, move).value;
    PublishedHandover(rules, s, i, move);
    if !t.completed.Absent? { CompletedHandover(rules, s, i, move); }
    forall j | 0 <= j < |t.hosts| ensures HostHandover(t, j) { HandoverHosts(rules, s, i, move, j); }
    hide Step, Once, HostHandover;
  }

  // ---- every run -------------------------------------------------------------------

  lemma {:induction false} RunOnce(rules: Rules, s: State, run: seq<Action>)
    requires Initial(s)
    ensures Once(After(rules, s, run))
  {
    if run != [] {
      var before, a := After(rules, s, run[..|run| - 1]), run[|run| - 1];
      RunOnce(rules, s, run[..|run| - 1]);
      if a.host < |before.hosts| && Step(rules, before, a.host, a.move).Some? {
        StepOnce(rules, before, a.host, a.move);
      }
    }
    hide Once, Step;
  }

  /** A host past its start marker has launched the child. */
  predicate Launched(s: State) {
    forall i :: 0 <= i < |s.hosts| && Launcher(s.hosts[i]) && !s.hosts[i].Started? ==> s.launches == 1
  }

  lemma StepLaunched(rules: Rules, s: State, i: nat, move: Move)
    requires i < |s.hosts| && Once(s) && Launched(s) && Step(rules, s, i, move).Some?
    ensures Launched(Step(rules, s, i, move).value)
  {
    var t := Step(rules, s, i, move).value;
    StepTouches(rules, s, i, move);
    assert HostOnce(s, i);
    hide Write, MayAdopt, OutputAllowed;
  }

  lemma {:induction false} RunLaunched(rules: Rules, s: State, run: seq<Action>)
    requires Initial(s)
    ensures Launched(After(rules, s, run))
  {
    if run != [] {
      var before, a := After(rules, s, run[..|run| - 1]), run[|run| - 1];
      RunOnce(rules, s, run[..|run| - 1]);
      RunLaunched(rules, s, run[..|run| - 1]);
      hide Once, Step, Launched, Initial;
      if a.host < |before.hosts| && Step(rules, before, a.host, a.move).Some? {
        StepLaunched(rules, before, a.host, a.move);
      }
    }
  }

  /** However hosts interleave and crash, the child is launched at most once and at most one
      completion marker is ever finished; and a host has output of its own only after the launch. */
  lemma LaunchedOnce(rules: Rules, s: State, run: seq<Action>)
    requires Initial(s)
    ensures After(rules, s, run).launches <= 1 && After(rules, s, run).completions <= 1
    ensures var t := After(rules, s, run);
      forall i :: 0 <= i < |t.hosts| && (t.hosts[i].Holding? || t.hosts[i].Marking? || t.hosts[i].Issuing?) ==>
        t.launches == 1
  {
    RunOnce(rules, s, run);
    RunLaunched(rules, s, run);
  }

  lemma {:induction false} RunHandover(rules: Rules, s: State, run: seq<Action>)
    requires Initial(s) && rules.patient && !rules.publishedLate
    ensures Handover(After(rules, s, run))
  {
    if run != [] {
      var before, a := After(rules, s, run[..|run| - 1]), run[|run| - 1];
      RunOnce(rules, s, run[..|run| - 1]);
      RunHandover(rules, s, run[..|run| - 1]);
      hide Once, Step, Handover, Initial;
      if a.host < |before.hosts| && Step(rules, before, a.host, a.move).Some? {
        StepHandover(rules, before, a.host, a.move);
      }
    }
  }

  lemma HandoverAgrees(s: State)
    requires Handover(s)
    ensures Agree(s)
  {
  }

  /** With a fixed output everything that is held or written is that output. */
  ghost predicate AllFixed(rules: Rules, s: State) {
    && rules.fixed.Some?
    && (!s.completed.Absent? ==> s.completed.content == rules.fixed.value)
    && (!s.published.Absent? ==> s.published.content == rules.fixed.value)
    && forall i :: 0 <= i < |s.hosts| ==> Fixed(s.hosts[i], rules.fixed.value)
  }

  predicate Fixed(pc: Pc, out: int) {
    match pc
    case Holding(o) => o == out
    case Marking(o) => o == out
    case Marked(o) => o == out
    case Issuing(o) => o == out
    case Vetted(o) => o == out
    case Publishing(o) => o == out
    case Published(o) => o == out
    case Sealing(o) => o == out
    case _ => true
  }

  lemma StepFixed(rules: Rules, s: State, i: nat, move: Move)
    requires i < |s.hosts| && AllFixed(rules, s) && Step(rules, s, i, move).Some?
    ensures AllFixed(rules, Step(rules, s, i, move).value)
  {
    assert Fixed(s.hosts[i], rules.fixed.value);
    StepTouches(rules, s, i, move);
    OwnFixed(rules, s, i, move);
    hide Step, Fixed;
  }

  lemma OwnFixed(rules: Rules, s: State, i: nat, move: Move)
    requires i < |s.hosts| && rules.fixed.Some? && Fixed(s.hosts[i], rules.fixed.value) && Step(rules, s, i, move).Some?
    ensures var t := Step(rules, s, i, move).value;
      && Fixed(t.hosts[i], rules.fixed.value)
      && (t.completed.Absent? || t.completed.content == rules.fixed.value
          || (!s.completed.Absent? && t.completed.content == s.completed.content))
      && (t.published.Absent? || t.published.content == rules.fixed.value
          || (!s.published.Absent? && t.published.content == s.published.content))
  {
  }

  lemma {:induction false} RunFixed(rules: Rules, s: State, run: seq<Action>)
    requires Initial(s) && rules.fixed.Some?
    ensures AllFixed(rules, After(rules, s, run))
  {
    if run != [] {
      var before, a := After(rules, s, run[..|run| - 1]), run[|run| - 1];
      RunFixed(rules, s, run[..|run| - 1]);
      hide Step, AllFixed;
      if a.host < |before.hosts| && Step(rules, before, a.host, a.move).Some? {
        StepFixed(rules, before, a.host, a.move);
      }
    }
  }

  // ---- exactly when they agree -------------------------------------------------------

  ghost predicate AlwaysAgrees(rules: Rules) {
    forall s, run :: Initial(s) ==> Agree(After(rules, s, run))
  }

  lemma Then(rules: Rules, start: State, run: seq<Action>, s: State, host: nat, move: Move, t: State)
    returns (longer: seq<Action>)
    requires After(rules, start, run) == s && host < |s.hosts|
    requires Step(rules, s, host, move).Some? && Same(Step(rules, s, host, move).value, t)
    ensures After(rules, start, longer) == t
  {
    longer := run + [Action(host, move)];
    assert longer[..|longer| - 1] == run;
  }

  predicate Same(s: State, t: State) {
    && s.started == t.started && s.completed == t.completed && s.published == t.published
    && s.hosts == t.hosts && s.launches == t.launches && s.completions == t.completions
  }

  lemma Impatient1(rules: Rules, start: State, before: seq<Action>) returns (run: seq<Action>)
    requires rules.fixed.None? && !rules.patient
    requires After(rules, start, before) == State(Absent, Absent, Absent, [ToExecute, ToAdopt], 0, 0)
    ensures After(rules, start, run) == State(Open(0, 0, false), Absent, Absent, [Starting, ToAdopt], 0, 0)
  {
    hide After;
    run := before;
    var s0 := State(Absent, Absent, Absent, [ToExecute, ToAdopt], 0, 0);
    var s1 := State(Absent, Absent, Absent, [Unmarked, ToAdopt], 0, 0);
    var s2 := State(Open(0, 0, false), Absent, Absent, [Starting, ToAdopt], 0, 0);
    run := Then(rules, start, run, s0, 0, Advance(0), s1);
    run := Then(rules, start, run, s1, 0, Advance(0), s2);
  }

  lemma Impatient2(rules: Rules, start: State, before: seq<Action>) returns (run: seq<Action>)
    requires rules.fixed.None? && !rules.patient
    requires After(rules, start, before) == State(Open(0, 0, false), Absent, Absent, [Starting, ToAdopt], 0, 0)
    ensures After(rules, start, run) == State(Closed(0, 0), Absent, Absent, [Started, ToAdopt], 0, 0)
  {
    hide After;
    run := before;
    var s0 := State(Open(0, 0, false), Absent, Absent, [Starting, ToAdopt], 0, 0);
    var s1 := State(Open(0, 0, true), Absent, Absent, [Starting, ToAdopt], 0, 0);
    var s2 := State(Closed(0, 0), Absent, Absent, [Started, ToAdopt], 0, 0);
    run := Then(rules, start, run, s0, 0, WriteAll, s1);
    run := Then(rules, start, run, s1, 0, Sync, s2);
  }

  lemma Impatient3(rules: Rules, start: State, before: seq<Action>) returns (run: seq<Action>)
    requires rules.fixed.None? && !rules.patient
    requires After(rules, start, before) == State(Closed(0, 0), Absent, Absent, [Started, ToAdopt], 0, 0)
    ensures After(rules, start, run) == State(Closed(0, 0), Absent, Absent, [Running, Checked], 1, 0)
  {
    hide After;
    run := before;
    var s0 := State(Closed(0, 0), Absent, Absent, [Started, ToAdopt], 0, 0);
    var s1 := State(Closed(0, 0), Absent, Absent, [Running, ToAdopt], 1, 0);
    var s2 := State(Closed(0, 0), Absent, Absent, [Running, Checked], 1, 0);
    run := Then(rules, start, run, s0, 0, Advance(0), s1);
    run := Then(rules, start, run, s1, 1, Advance(0), s2);
  }

  lemma Impatient4(rules: Rules, start: State, before: seq<Action>) returns (run: seq<Action>)
    requires rules.fixed.None? && !rules.patient
    requires After(rules, start, before) == State(Closed(0, 0), Absent, Absent, [Running, Checked], 1, 0)
    ensures After(rules, start, run) == State(Closed(0, 0), Absent, Open(1, 2, false), [Running, Publishing(2)], 1, 0)
  {
    hide After;
    run := before;
    var s0 := State(Closed(0, 0), Absent, Absent, [Running, Checked], 1, 0);
    var s1 := State(Closed(0, 0), Absent, Absent, [Running, Vetted(2)], 1, 0);
    var s2 := State(Closed(0, 0), Absent, Open(1, 2, false), [Running, Publishing(2)], 1, 0);
    run := Then(rules, start, run, s0, 1, Advance(2), s1);
    run := Then(rules, start, run, s1, 1, Advance(0), s2);
  }

  lemma Impatient5(rules: Rules, start: State, before: seq<Action>) returns (run: seq<Action>)
    requires rules.fixed.None? && !rules.patient
    requires After(rules, start, before)
      == State(Closed(0, 0), Absent, Open(1, 2, false), [Running, Publishing(2)], 1, 0)
    ensures After(rules, start, run)
      == State(Closed(0, 0), Absent, Open(1, 2, true), [Holding(1), Publishing(2)], 1, 0)
  {
    hide After;
    run := before;
    var s0 := State(Closed(0, 0), Absent, Open(1, 2, false), [Running, Publishing(2)], 1, 0);
    var s1 := State(Closed(0, 0), Absent, Open(1, 2, true), [Running, Publishing(2)], 1, 0);
    var s2 := State(Closed(0, 0), Absent, Open(1, 2, true), [Holding(1), Publishing(2)], 1, 0);
    run := Then(rules, start, run, s0, 1, WriteAll, s1);
    run := Then(rules, start, run, s1, 0, Advance(1), s2);
  }

  lemma Impatient6(rules: Rules, start: State, before: seq<Action>) returns (run: seq<Action>)
    requires rules.fixed.None? && !rules.patient
    requires After(rules, start, before)
      == State(Closed(0, 0), Absent, Open(1, 2, true), [Holding(1), Publishing(2)], 1, 0)
    ensures After(rules, start, run)
      == State(Closed(0, 0), Open(0, 1, true), Open(1, 2, true), [Marking(1), Publishing(2)], 1, 0)
  {
    hide After;
    run := before;
    var s0 := State(Closed(0, 0), Absent, Open(1, 2, true), [Holding(1), Publishing(2)], 1, 0);
    var s1 := State(Closed(0, 0), Open(0, 1, false), Open(1, 2, true), [Marking(1), Publishing(2)], 1, 0);
    var s2 := State(Closed(0, 0), Open(0, 1, true), Open(1, 2, true), [Marking(1), Publishing(2)], 1, 0);
    run := Then(rules, start, run, s0, 0, Advance(0), s1);
    run := Then(rules, start, run, s1, 0, WriteAll, s2);
  }

  /** An adopter that does not wait publishes one output while the executor, still alive,
      marks another. */
  lemma ImpatientRun(rules: Rules) returns (start: State, run: seq<Action>)
    requires rules.fixed.None? && !rules.patient
    ensures Initial(start) && !Agree(After(rules, start, run))
  {
    start := State(Absent, Absent, Absent, [ToExecute, ToAdopt], 0, 0);
    run := [];
    assert After(rules, start, run) == start;
    hide After;
    run := Impatient1(rules, start, run);
    run := Impatient2(rules, start, run);
    run := Impatient3(rules, start, run);
    run := Impatient4(rules, start, run);
    run := Impatient5(rules, start, run);
    run := Impatient6(rules, start, run);
  }

  lemma LateFailure1(rules: Rules, start: State, before: seq<Action>) returns (run: seq<Action>)
    requires rules.fixed.None? && rules.publishedLate
    requires After(rules, start, before)
      == State(Absent, Absent, Absent, [ToExecute, ToAdopt, ToAdopt, ToAdopt], 0, 0)
    ensures After(rules, start, run)
      == State(Open(0, 0, false), Absent, Absent, [Starting, ToAdopt, ToAdopt, ToAdopt], 0, 0)
  {
    hide After;
    run := before;
    var s0 := State(Absent, Absent, Absent, [ToExecute, ToAdopt, ToAdopt, ToAdopt], 0, 0);
    var s1 := State(Absent, Absent, Absent, [Unmarked, ToAdopt, ToAdopt, ToAdopt], 0, 0);
    var s2 := State(Open(0, 0, false), Absent, Absent, [Starting, ToAdopt, ToAdopt, ToAdopt], 0, 0);
    run := Then(rules, start, run, s0, 0, Advance(0), s1);
    run := Then(rules, start, run, s1, 0, Advance(0), s2);
  }

  lemma LateFailure2(rules: Rules, start: State, before: seq<Action>) returns (run: seq<Action>)
    requires rules.fixed.None? && rules.publishedLate
    requires After(rules, start, before)
      == State(Open(0, 0, false), Absent, Absent, [Starting, ToAdopt, ToAdopt, ToAdopt], 0, 0)
    ensures After(rules, start, run)
      == State(Open(0, 0, true), Absent, Absent, [Dead, ToAdopt, ToAdopt, ToAdopt], 0, 0)
  {
    hide After;
    run := before;
    var s0 := State(Open(0, 0, false), Absent, Absent, [Starting, ToAdopt, ToAdopt, ToAdopt], 0, 0);
    var s1 := State(Open(0, 0, true), Absent, Absent, [Starting, ToAdopt, ToAdopt, ToAdopt], 0, 0);
    var s2 := State(Open(0, 0, true), Absent, Absent, [Dead, ToAdopt, ToAdopt, ToAdopt], 0, 0);
    run := Then(rules, start, run, s0, 0, WriteAll, s1);
    run := Then(rules, start, run, s1, 0, Crash, s2);
  }

  lemma LateFailure3(rules: Rules, start: State, before: seq<Action>) returns (run: seq<Action>)
    requires rules.fixed.None? && rules.publishedLate
    requires After(rules, start, before)
      == State(Open(0, 0, true), Absent, Absent, [Dead, ToAdopt, ToAdopt, ToAdopt], 0, 0)
    ensures After(rules, start, run)
      == State(Open(0, 0, true), Absent, Absent, [Dead, Checked, Checked, ToAdopt], 0, 0)
  {
    hide After;
    run := before;
    var s0 := State(Open(0, 0, true), Absent, Absent, [Dead, ToAdopt, ToAdopt, ToAdopt], 0, 0);
    var s1 := State(Open(0, 0, true), Absent, Absent, [Dead, Checked, ToAdopt, ToAdopt], 0, 0);
    var s2 := State(Open(0, 0, true), Absent, Absent, [Dead, Checked, Checked, ToAdopt], 0, 0);
    run := Then(rules, start, run, s0, 1, Advance(0), s1);
    run := Then(rules, start, run, s1, 2, Advance(0), s2);
  }

  lemma LateFailure4(rules: Rules, start: State, before: seq<Action>) returns (run: seq<Action>)
    requires rules.fixed.None? && rules.publishedLate
    requires After(rules, start, before)
      == State(Open(0, 0, true), Absent, Absent, [Dead, Checked, Checked, ToAdopt], 0, 0)
    ensures After(rules, start, run)
      == State(Open(0, 0, true), Absent, Absent, [Dead, Vetted(1), Checked, Checked], 0, 0)
  {
    hide After;
    run := before;
    var s0 := State(Open(0, 0, true), Absent, Absent, [Dead, Checked, Checked, ToAdopt], 0, 0);
    var s1 := State(Open(0, 0, true), Absent, Absent, [Dead, Checked, Checked, Checked], 0, 0);
    var s2 := State(Open(0, 0, true), Absent, Absent, [Dead, Vetted(1), Checked, Checked], 0, 0);
    run := Then(rules, start, run, s0, 3, Advance(0), s1);
    run := Then(rules, start, run, s1, 1, Advance(1), s2);
  }

  lemma LateFailure5(rules: Rules, start: State, before: seq<Action>) returns (run: seq<Action>)
    requires rules.fixed.None? && rules.publishedLate
    requires After(rules, start, before)
      == State(Open(0, 0, true), Absent, Absent, [Dead, Vetted(1), Checked, Checked], 0, 0)
    ensures After(rules, start, run)
      == State(Open(0, 0, true), Absent, Absent, [Dead, Vetted(1), Vetted(1), Vetted(3)], 0, 0)
  {
    hide After;
    run := before;
    var s0 := State(Open(0, 0, true), Absent, Absent, [Dead, Vetted(1), Checked, Checked], 0, 0);
    var s1 := State(Open(0, 0, true), Absent, Absent, [Dead, Vetted(1), Vetted(1), Checked], 0, 0);
    var s2 := State(Open(0, 0, true), Absent, Absent, [Dead, Vetted(1), Vetted(1), Vetted(3)], 0, 0);
    run := Then(rules, start, run, s0, 2, Advance(1), s1);
    run := Then(rules, start, run, s1, 3, Advance(3), s2);
  }

  lemma LateFailure6(rules: Rules, start: State, before: seq<Action>) returns (run: seq<Action>)
    requires rules.fixed.None? && rules.publishedLate
    requires After(rules, start, before)
      == State(Open(0, 0, true), Absent, Absent, [Dead, Vetted(1), Vetted(1), Vetted(3)], 0, 0)
    ensures After(rules, start, run)
      == State(Open(0, 0, true), Absent, Open(1, 1, true), [Dead, Publishing(1), Vetted(1), Vetted(3)], 0, 0)
  {
    hide After;
    run := before;
    var s0 := State(Open(0, 0, true), Absent, Absent, [Dead, Vetted(1), Vetted(1), Vetted(3)], 0, 0);
    var s1 := State(Open(0, 0, true), Absent, Open(1, 1, false), [Dead, Publishing(1), Vetted(1), Vetted(3)], 0, 0);
    var s2 := State(Open(0, 0, true), Absent, Open(1, 1, true), [Dead, Publishing(1), Vetted(1), Vetted(3)], 0, 0);
    run := Then(rules, start, run, s0, 1, Advance(0), s1);
    run := Then(rules, start, run, s1, 1, WriteAll, s2);
  }

  lemma LateFailure7(rules: Rules, start: State, before: seq<Action>) returns (run: seq<Action>)
    requires rules.fixed.None? && rules.publishedLate
    requires After(rules, start, before)
      == State(Open(0, 0, true), Absent, Open(1, 1, true), [Dead, Publishing(1), Vetted(1), Vetted(3)], 0, 0)
    ensures After(rules, start, run)
      == State(Open(0, 0, true), Absent, Absent, [Dead, Dead, Published(1), Vetted(3)], 0, 0)
  {
    hide After;
    run := before;
    var s0 := State(Open(0, 0, true), Absent, Open(1, 1, true), [Dead, Publishing(1), Vetted(1), Vetted(3)], 0, 0);
    var s1 := State(Open(0, 0, true), Absent, Open(1, 1, true), [Dead, Publishing(1), Published(1), Vetted(3)], 0, 0);
    var s2 := State(Open(0, 0, true), Absent, Absent, [Dead, Dead, Published(1), Vetted(3)], 0, 0);
    run := Then(rules, start, run, s0, 2, Advance(0), s1);
    run := Then(rules, start, run, s1, 1, WriteFails, s2);
  }

  lemma LateFailure8(rules: Rules, start: State, before: seq<Action>) returns (run: seq<Action>)
    requires rules.fixed.None? && rules.publishedLate
    requires After(rules, start, before)
      == State(Open(0, 0, true), Absent, Absent, [Dead, Dead, Published(1), Vetted(3)], 0, 0)
    ensures After(rules, start, run)
      == State(Open(0, 0, true), Open(2, 1, true), Absent, [Dead, Dead, Sealing(1), Vetted(3)], 0, 0)
  {
    hide After;
    run := before;
    var s0 := State(Open(0, 0, true), Absent, Absent, [Dead, Dead, Published(1), Vetted(3)], 0, 0);
    var s1 := State(Open(0, 0, true), Open(2, 1, false), Absent, [Dead, Dead, Sealing(1), Vetted(3)], 0, 0);
    var s2 := State(Open(0, 0, true), Open(2, 1, true), Absent, [Dead, Dead, Sealing(1), Vetted(3)], 0, 0);
    run := Then(rules, start, run, s0, 2, Advance(0), s1);
    run := Then(rules, start, run, s1, 2, WriteAll, s2);
  }

  lemma LateFailure9(rules: Rules, start: State, before: seq<Action>) returns (run: seq<Action>)
    requires rules.fixed.None? && rules.publishedLate
    requires After(rules, start, before)
      == State(Open(0, 0, true), Open(2, 1, true), Absent, [Dead, Dead, Sealing(1), Vetted(3)], 0, 0)
    ensures After(rules, start, run)
      == State(Open(0, 0, true), Open(2, 1, true), Open(3, 3, true), [Dead, Dead, Sealing(1), Publishing(3)], 0, 0)
  {
    hide After;
    run := before;
    var s0 := State(Open(0, 0, true), Open(2, 1, true), Absent, [Dead, Dead, Sealing(1), Vetted(3)], 0, 0);
    var s1 := State(Open(0, 0, true), Open(2, 1, true), Open(3, 3, false),
                    [Dead, Dead, Sealing(1), Publishing(3)], 0, 0);
    var s2 := State(Open(0, 0, true), Open(2, 1, true), Open(3, 3, true),
                    [Dead, Dead, Sealing(1), Publishing(3)], 0, 0);
    run := Then(rules, start, run, s0, 3, Advance(0), s1);
    run := Then(rules, start, run, s1, 3, WriteAll, s2);
  }

  /** Three adopters after a crash: the second sees the first one's output just before its
      sync fails and seals that output, while the third publishes its own. */
  lemma LateFailureRun(rules: Rules) returns (start: State, run: seq<Action>)
    requires rules.fixed.None? && rules.publishedLate
    ensures Initial(start) && !Agree(After(rules, start, run))
  {
    start := State(Absent, Absent, Absent, [ToExecute, ToAdopt, ToAdopt, ToAdopt], 0, 0);
    run := [];
    assert After(rules, start, run) == start;
    hide After;
    run := LateFailure1(rules, start, run);
    run := LateFailure2(rules, start, run);
    run := LateFailure3(rules, start, run);
    run := LateFailure4(rules, start, run);
    run := LateFailure5(rules, start, run);
    run := LateFailure6(rules, start, run);
    run := LateFailure7(rules, start, run);
    run := LateFailure8(rules, start, run);
    run := LateFailure9(rules, start, run);
  }

  /** Published output and completion marker agree in every run exactly when the output does
      not depend on who validates it, or adopters wait for the executor to be gone and no
      publication fails once its bytes can be read; late failures of the two markers are harmless. */
  lemma AgreementExactly(rules: Rules)
    ensures AlwaysAgrees(rules) <==> rules.fixed.Some? || (rules.patient && !rules.publishedLate)
  {
    hide After, Initial, Agree, Handover, AllFixed;
    if rules.fixed.Some? {
      forall s, run | Initial(s) ensures Agree(After(rules, s, run)) {
        RunFixed(rules, s, run);
        FixedAgrees(rules, After(rules, s, run));
      }
    } else if rules.patient && !rules.publishedLate {
      forall s, run | Initial(s) ensures Agree(After(rules, s, run)) {
        RunHandover(rules, s, run);
        HandoverAgrees(After(rules, s, run));
      }
    } else if !rules.patient {
      var s, run := ImpatientRun(rules);
    } else {
      var s, run := LateFailureRun(rules);
    }
  }

  lemma FixedAgrees(rules: Rules, s: State)
    requires AllFixed(rules, s)
    ensures Agree(s)
  {
  }
}
