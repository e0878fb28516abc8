/** The first patch parser, which searches the lines of the patch for section headers:
    exactly which of the differing paths it reports, and two it misses. */
module PatchLegacy {
  import opened Text
  import opened Lines
  import opened PatchPrinter
  import opened PatchPolicy
  import opened PatchSoundness
  import opened PatchHeaders
  import PatchAcceptance
  import PatchTheorems

  // ---- the parser -------------------------------------------------------------

  function Both(a: Option<set<string>>, b: Option<set<string>>): Option<set<string>> {
    match (a, b)
    case (Some(x), Some(y)) => Some(x + y)
    case _ => None
  }

  lemma BothAssociates(a: Option<set<string>>, b: Option<set<string>>, c: Option<set<string>>)
    ensures Both(Both(a, b), c) == Both(a, Both(b, c)) && Both(a, Some({})) == a == Both(Some({}), a)
  {
    if a.Some? {
      assert a.value + {} == a.value == {} + a.value;
      if b.Some? && c.Some? { assert a.value + b.value + c.value == a.value + (b.value + c.value); }
    }
  }

  /** The paths of one line, or `None` where a path is unsafe or the line is binary. */
  function LineSet(line: string): Option<set<string>> {
    match LegacyHeader(line)
    case Some((a, b)) =>
      (match (NormalV1Path(a), NormalV1Path(b))
       case (Some(from), Some(to)) => Some({from, to})
       case _ => None)
    case None => if StartsWith(line, "GIT binary patch") then None else Some({})
  }

  function HeaderSet(lines: seq<string>): Option<set<string>> {
    if lines == [] then Some({}) else Both(LineSet(lines[0]), HeaderSet(lines[1..]))
  }

  function ChangedPathsV1(patch: string): Option<seq<string>> {
    match HeaderSet(SplitLines(ReadText(patch)))
    case None => None
    case Some(paths) => if paths == {} then None else Some(SortedNames(paths))
  }

  lemma {:induction false} HeaderSetAppend(a: seq<string>, b: seq<string>)
    ensures HeaderSet(a + b) == Both(HeaderSet(a), HeaderSet(b))
  {
    hide LineSet;
    if a == [] {
      assert a + b == b;
      BothAssociates(HeaderSet(b), None, None);
    } else {
      assert (a + b)[1..] == a[1..] + b;
      HeaderSetAppend(a[1..], b);
      BothAssociates(LineSet(a[0]), HeaderSet(a[1..]), HeaderSet(b));
    }
  }

  lemma HeaderSetStep(lines: seq<string>, i: nat)
    requires i < |lines|
    ensures HeaderSet(lines[..i + 1]) == Both(HeaderSet(lines[..i]), LineSet(lines[i]))
    ensures LineSet(lines[i]) == None ==> HeaderSet(lines) == None
  {
    hide LineSet, HeaderSet;
    assert lines[..i + 1] == lines[..i] + [lines[i]];
    assert lines == lines[..i + 1] + lines[i + 1..];
    OneLine(lines[i]);
    HeaderSetAppend(lines[..i], [lines[i]]);
    HeaderSetAppend(lines[..i + 1], lines[i + 1..]);
  }

  lemma OneLine(line: string)
    ensures HeaderSet([line]) == LineSet(line)
  {
    assert [line][1..] == [];
    BothAssociates(LineSet(line), None, None);
  }

  /** The parser as it runs. */
  method ReadChangedPathsV1(patch: string) returns (r: Option<seq<string>>)
    ensures r == ChangedPathsV1(patch)
  {
    hide LegacyHeader, NormalV1Path, StartsWith, SplitLines, ReadText;
    var lines := SplitLines(ReadText(patch));
    var paths: set<string> := {};
    for i := 0 to |lines|
      invariant HeaderSet(lines[..i]) == Some(paths)
    {
      HeaderSetStep(lines, i);
      match LegacyHeader(lines[i])
      case Some((a, b)) =>
        var from, to := NormalV1Path(a), NormalV1Path(b);
        if from == None || to == None { return None; }
        paths := paths + {from.value, to.value};
      case None =>
        if StartsWith(lines[i], "GIT binary patch") { return None; }
        assert paths + {} == paths;
    }
    assert lines[..|lines|] == lines;
    r := if paths == {} then None else Some(SortedNames(paths));
  }

  // ---- what it finds in a printed patch -----------------------------------------

  predicate BodyLine(line: string) { IsLine(line) && line[0] in {' ', '+', '-', '@'} }

  ghost predicate BodyLines(lines: seq<string>) {
    forall i :: 0 <= i < |lines| ==> BodyLine(lines[i])
  }

  /** Alignment emits whole lines with the prefixes of a unified diff. */
  ghost predicate Unified(align: Alignment) {
    forall old_, new_, to :: Split(old_) && Split(new_) && NoBreak(to) ==> BodyLines(align(old_, new_, to))
  }

  predicate Closed(base: Tree, candidate: Tree, align: Alignment, path: string) {
    var section := Section(base, candidate, align, path);
    Ended(section[|section| - 1])
  }

  /** Of the listed paths, the first if its section starts on a line of its own, and every
      one whose predecessor's section ends in a line end. */
  function FreshPaths(base: Tree, candidate: Tree, align: Alignment, paths: seq<string>, own: bool): set<string> {
    if paths == [] then {}
    else
      (if own then {paths[0]} else {})
      + FreshPaths(base, candidate, align, paths[1..], Closed(base, candidate, align, paths[0]))
  }

  /** The headers of a text, and those on the lines after its first. */
  function Found(text: string): Option<set<string>> { HeaderSet(SplitLines(text)) }

  function FoundLater(text: string): Option<set<string>> { HeaderSet(SplitLines(TakeLine(text).1)) }

  lemma BodyLineFinds(line: string, rest: string)
    requires BodyLine(line)
    ensures Found(line + rest) == if Ended(line) then Found(rest) else FoundLater(rest)
    ensures FoundLater(line + rest) == if Ended(line) then Found(rest) else FoundLater(rest)
  {
    FirstOfBody(line, rest);
    hide SplitLines, TakeLine, BodyLine, LineSet, Ended;
    var text := line + rest;
    SplitLinesFirst(text);
    var later := SplitLines(TakeLine(text).1);
    assert ([Chomp(TakeLine(text).0)] + later)[1..] == later;
    BothAssociates(HeaderSet(later), None, None);
  }

  lemma FirstOfBody(line: string, rest: string)
    requires BodyLine(line)
    ensures TakeLine(line + rest).1 == if Ended(line) then rest else TakeLine(rest).1
    ensures LineSet(Chomp(TakeLine(line + rest).0)) == Some({})
    ensures line + rest != ""
  {
    if Ended(line) {
      TakeEndedLine(line, rest);
    } else {
      assert NoBreak(line) by { assert line == line[..|line| - 1] + [line[|line| - 1]]; }
      TakeOpenLine(line, rest);
    }
    var first := TakeLine(line + rest).0;
    assert first[0] == line[0];
    hide TakeLine;
    OtherLine(Chomp(first));
  }

  lemma SplitLinesFirst(text: string)
    requires text != ""
    ensures SplitLines(text) == [Chomp(TakeLine(text).0)] + SplitLines(TakeLine(text).1)
  {
  }

  lemma OtherLine(line: string)
    requires line == "" || line[0] in {' ', '+', '-', '@'}
    ensures LegacyHeader(line) == None && !StartsWith(line, "GIT binary patch")
  {
    FirstCharDiffers(line, "diff --git a/");
    FirstCharDiffers(line, "GIT binary patch");
  }

  /** The paths a printed header is taken for. */
  function Taken(path: string): Option<set<string>> { LineSet(HeaderText(path)) }

  lemma HeaderFinds(path: string, rest: string)
    requires PlainPath(path)
    ensures FoundLater(Header(path) + rest) == Found(rest)
    ensures Found(Header(path) + rest) == Both(Taken(path), Found(rest))
  {
    PatchAcceptance.OpeningLines(map[], path);
    TakeEndedLine(Header(path), rest);
    SplitLinesFirst(Header(path) + rest);
    hide SplitLines, TakeLine, Header, HeaderText, LineSet;
    assert ([HeaderText(path)] + SplitLines(rest))[1..] == SplitLines(rest);
  }

  lemma TakenOnce(path: string)
    requires PlainHeader(path)
    ensures Taken(path) == Some({path})
  {
    HeaderBack(path);
    hide LegacyHeader, HeaderText, NormalV1Path, Contains;
    assert {path, path} == {path};
  }

  /** A header whose path holds a separator is refused, or taken for paths of which each that
      holds one is longer. */
  lemma TakenTwice(path: string, p: string)
    requires NormalV1Path(path) == Some(path) && Contains(path, " b/")
    requires Taken(path).Some? && p in Taken(path).value && Contains(p, " b/")
    ensures |p| > |path|
  {
    HeaderTaken(path);
    hide LegacyHeader, HeaderText, NormalV1Path, Contains;
  }

  lemma {:induction false} BodyFinds(body: seq<string>, rest: string)
    requires forall i :: 0 <= i < |body| ==> BodyLine(body[i])
    ensures Found(Concat(body) + rest)
         == if body == [] || Ended(body[|body| - 1]) then Found(rest) else FoundLater(rest)
    ensures body != [] ==> FoundLater(Concat(body) + rest) == Found(Concat(body) + rest)
  {
    hide Found, FoundLater, BodyLine;
    if body == [] {
      assert Concat(body) + rest == rest;
    } else {
      var tail := Concat(body[1..]) + rest;
      assert Concat(body) + rest == body[0] + tail;
      BodyLineFinds(body[0], tail);
      BodyFinds(body[1..], rest);
      if body[1..] == [] { assert tail == rest; }
    }
  }

  lemma SectionBody(base: Tree, candidate: Tree, align: Alignment, path: string)
    requires Unified(align) && PlainPath(path) && (path !in base ==> LinesAt(candidate, path) != [])
    ensures var section := Section(base, candidate, align, path);
      && |section| >= 2 && section[0] == Header(path)
      && forall i :: 1 <= i < |section| ==> BodyLine(section[i])
  {
    PatchAcceptance.OpeningLines(base, path);
    PatchAcceptance.SectionOpens(base, candidate, align, path);
    if path in base {
      ChangedBody(base, candidate, align, path);
    } else {
      NewBody(base, candidate, align, path);
    }
    hide Section, BodyLine, Header;
  }

  lemma ChangedBody(base: Tree, candidate: Tree, align: Alignment, path: string)
    requires Unified(align) && PlainPath(path) && path in base
    ensures var section := Section(base, candidate, align, path);
      forall i :: 1 <= i < |section| ==> BodyLine(section[i])
  {
    hide LinesAt, Header;
    var section := Section(base, candidate, align, path);
    PatchAcceptance.OpeningLines(base, path);
    var to := if path in candidate then "b/" + path else "/dev/null";
    NoBreakConcat("b/", path);
    assert NoBreak(to);
    var rest := align(LinesAt(base, path), LinesAt(candidate, path), to);
    assert BodyLines(rest);
    assert forall i :: 2 <= i < |section| ==> section[i] == rest[i - 2];
    assert section[1] == PatchAcceptance.SecondLine(base, path) + "\n";
  }

  lemma NewBody(base: Tree, candidate: Tree, align: Alignment, path: string)
    requires PlainPath(path) && path !in base && LinesAt(candidate, path) != []
    ensures var section := Section(base, candidate, align, path);
      forall i :: 1 <= i < |section| ==> BodyLine(section[i])
  {
    hide LinesAt, IsLine, Ended;
    var section, file := Section(base, candidate, align, path), LinesAt(candidate, path);
    HeadLines(path, |file|);
    assert NewFileHunk(|file|)[0] == '@';
    forall i | 1 <= i < |section| ensures BodyLine(section[i]) {
      if i >= 4 { AddedLine(file[i - 4]); }
    }
  }

  lemma SectionFinds(base: Tree, candidate: Tree, align: Alignment, path: string, rest: string)
    requires Unified(align) && PlainPath(path)
    requires path !in base ==> LinesAt(candidate, path) != []
    ensures var text := Concat(Section(base, candidate, align, path)) + rest;
      var later := if Closed(base, candidate, align, path) then Found(rest) else FoundLater(rest);
      && FoundLater(text) == later
      && Found(text) == Both(Taken(path), later)
  {
    hide Section, Found, FoundLater, Taken, BodyLine, Unified, Header, Ended, Concat;
    SectionBody(base, candidate, align, path);
    var section := Section(base, candidate, align, path);
    var body := section[1..];
    HeadAndBody(section, rest);
    HeaderFinds(path, Concat(body) + rest);
    BodyFinds(body, rest);
    assert body[|body| - 1] == section[|section| - 1];
  }

  lemma HeadAndBody(section: seq<string>, rest: string)
    requires section != []
    ensures Concat(section) + rest == section[0] + (Concat(section[1..]) + rest)
  {
  }

  lemma NothingFound()
    ensures Found("") == Some({}) && FoundLater("") == Some({})
  {
  }

  /** The paths the headers that stand on a line of their own are taken for. */
  function FreshTaken(base: Tree, candidate: Tree, align: Alignment, paths: seq<string>, own: bool)
    : Option<set<string>>
  {
    if paths == [] then Some({})
    else
      Both(if own then Taken(paths[0]) else Some({}),
           FreshTaken(base, candidate, align, paths[1..], Closed(base, candidate, align, paths[0])))
  }

  lemma {:induction false} PatchFinds(base: Tree, candidate: Tree, align: Alignment, paths: seq<string>)
    requires Unified(align) && PatchAcceptance.Printable(base, candidate, paths)
    ensures var text := PatchOf(base, candidate, align, paths);
      && Found(text) == FreshTaken(base, candidate, align, paths, true)
      && FoundLater(text) == FreshTaken(base, candidate, align, paths, false)
  {
    hide PatchAcceptance.Printable, Taken, Unified, Section, Concat, Closed, Found, FoundLater;
    if paths == [] {
      NothingFound();
    } else {
      assert paths[0] in paths;
      PatchAcceptance.PrintableTail(base, candidate, paths);
      PatchFinds(base, candidate, align, paths[1..]);
      SectionFinds(base, candidate, align, paths[0], PatchOf(base, candidate, align, paths[1..]));
      var later := FreshTaken(base, candidate, align, paths[1..], Closed(base, candidate, align, paths[0]));
      BothAssociates(later, None, None);
    }
  }

  lemma {:induction false} FreshPlain(base: Tree, candidate: Tree, align: Alignment, paths: seq<string>, own: bool)
    requires forall p :: p in paths ==> PlainHeader(p)
    ensures FreshTaken(base, candidate, align, paths, own) == Some(FreshPaths(base, candidate, align, paths, own))
  {
    hide Taken, Closed, PlainHeader;
    if paths != [] {
      assert paths[0] in paths && forall p :: p in paths[1..] ==> p in paths;
      TakenOnce(paths[0]);
      FreshPlain(base, candidate, align, paths[1..], Closed(base, candidate, align, paths[0]));
    }
  }

  /** What is reported was read from the header of a listed path. */
  lemma {:induction false} FreshFrom(base: Tree, candidate: Tree, align: Alignment, paths: seq<string>, own: bool,
                                     p: string)
    requires FreshTaken(base, candidate, align, paths, own).Some?
    requires p in FreshTaken(base, candidate, align, paths, own).value
    ensures exists q :: q in paths && Taken(q).Some? && p in Taken(q).value
  {
    hide Taken, Closed;
    var next := Closed(base, candidate, align, paths[0]);
    assert paths[0] in paths && forall q :: q in paths[1..] ==> q in paths;
    if p in FreshTaken(base, candidate, align, paths[1..], next).value {
      FreshFrom(base, candidate, align, paths[1..], next, p);
    }
  }

  lemma {:induction false} FreshAt(base: Tree, candidate: Tree, align: Alignment, paths: seq<string>, own: bool)
    requires forall i, j :: 0 <= i < j < |paths| ==> paths[i] != paths[j]
    ensures FreshPaths(base, candidate, align, paths, own) <= Elements(paths)
    ensures paths != [] ==> (paths[0] in FreshPaths(base, candidate, align, paths, own) <==> own)
    ensures forall i :: 1 <= i < |paths| ==>
      (paths[i] in FreshPaths(base, candidate, align, paths, own) <==> Closed(base, candidate, align, paths[i - 1]))
  {
    hide Closed;
    if paths != [] {
      var rest, next := paths[1..], Closed(base, candidate, align, paths[0]);
      var later := FreshPaths(base, candidate, align, rest, next);
      FreshAt(base, candidate, align, rest, next);
      assert forall p :: p in rest ==> p in paths;
      assert paths[0] !in rest;
      forall i | 1 <= i < |paths|
        ensures paths[i] in FreshPaths(base, candidate, align, paths, own)
                <==> Closed(base, candidate, align, paths[i - 1])
      {
        var j := i - 1;
        assert paths[i] == rest[j] && paths[i] != paths[0];
        if j > 0 {
          assert rest[j] in later <==> Closed(base, candidate, align, rest[j - 1]);
          assert rest[j - 1] == paths[j];
        }
      }
    }
  }

  // ---- names that are reported are whole lines of the patch -------------------------

  lemma {:induction false} PartsPlain(s: string)
    requires PlainPath(s)
    ensures forall part :: part in Parts(s) ==> PlainPath(part)
  {
    if s != "" {
      PartsPlain(s[1..]);
      var rest := Parts(s[1..]);
      assert rest[0] in rest && forall k :: 0 <= k < |rest[1..]| ==> rest[1..][k] == rest[k + 1];
      assert PlainPath([s[0]] + rest[0]);
    }
  }

  lemma {:induction false} KeptPlain(parts: seq<string>)
    ensures forall part :: part in Kept(parts) ==> part in parts
  {
    if parts != [] {
      KeptPlain(parts[1..]);
      assert forall part :: part in parts[1..] ==> part in parts;
    }
  }

  lemma {:induction false} JoinedPlain(parts: seq<string>)
    requires forall part :: part in parts ==> PlainPath(part)
    ensures PlainPath(Joined(parts))
  {
    if |parts| > 1 {
      assert parts[0] in parts && forall part :: part in parts[1..] ==> part in parts;
      JoinedPlain(parts[1..]);
    } else if |parts| == 1 {
      assert parts[0] in parts;
    }
  }

  lemma NormalPlain(value: string)
    requires PlainPath(value) && NormalV1Path(value).Some?
    ensures PlainPath(NormalV1Path(value).value)
  {
    PartsPlain(Slashes(value));
    KeptPlain(Parts(Slashes(value)));
    JoinedPlain(Kept(Parts(Slashes(value))));
  }

  lemma LinePlain(line: string)
    requires PlainPath(line) && LineSet(line).Some?
    ensures forall p :: p in LineSet(line).value ==> PlainPath(p)
  {
    if LegacyHeader(line).Some? {
      var (a, b) := LegacyHeader(line).value;
      NormalPlain(a);
      NormalPlain(b);
    }
  }

  lemma {:induction false} HeaderSetPlain(lines: seq<string>)
    requires (forall i :: 0 <= i < |lines| ==> PlainPath(lines[i])) && HeaderSet(lines).Some?
    ensures forall p :: p in HeaderSet(lines).value ==> PlainPath(p)
  {
    hide PlainPath, LineSet;
    if lines != [] {
      LinePlain(lines[0]);
      HeaderSetPlain(lines[1..]);
    }
  }

  lemma CutPlain(text: string)
    requires NoReturn(text)
    ensures forall i :: 0 <= i < |SplitLines(text)| ==> PlainPath(SplitLines(text)[i])
  {
    SplitKeepShape(text);
    PatchTheorems.SplitKeepNoReturn(text);
    var kept := SplitKeep(text);
    forall i | 0 <= i < |kept| ensures PlainPath(Chomp(kept[i])) {
      var line := kept[i];
      assert IsLine(line) && NoReturn(line);
      assert line == line[..|line| - 1] + [line[|line| - 1]];
    }
  }

  /** A name with a line end is never reported. */
  lemma ReportedPlain(patch: string)
    requires ChangedPathsV1(patch).Some?
    ensures forall p :: p in ChangedPathsV1(patch).value ==> PlainPath(p)
  {
    hide SplitLines, ReadText, PlainPath;
    CutPlain(ReadText(patch));
    HeaderSetPlain(SplitLines(ReadText(patch)));
    var paths := HeaderSet(SplitLines(ReadText(patch))).value;
    assert forall p :: p in SortedNames(paths) <==> p in Elements(SortedNames(paths));
  }

  /** The shortest of the paths that hold a separator is in no report of differing paths only: no
      header is taken for it. */
  lemma {:induction false} ShortestUnreported(base: Tree, candidate: Tree, align: Alignment, paths: seq<string>,
                                              p: string)
    requires forall q :: q in paths ==> NormalV1Path(q) == Some(q)
    requires FreshTaken(base, candidate, align, paths, true) == Some(Elements(paths))
    requires p in paths && Contains(p, " b/")
    ensures false
    decreases |p|
  {
    hide FreshTaken, Taken, NormalV1Path, Contains;
    assert p in Elements(paths);
    FreshFrom(base, candidate, align, paths, true, p);
    var q :| q in paths && Taken(q).Some? && p in Taken(q).value;
    if Contains(q, " b/") {
      TakenTwice(q, p);
      ShortestUnreported(base, candidate, align, paths, q);
    } else {
      NormalNotEmpty(q);
      TakenOnce(q);
    }
  }

  lemma NormalNotEmpty(path: string)
    requires NormalV1Path(path) == Some(path)
    ensures path != ""
  {
    NormalParts(path);
  }

  lemma SeparatedNotAll(base: Tree, candidate: Tree, align: Alignment)
    requires Unified(align) && PatchTheorems.AddsNoReturn(align)
    requires forall p :: p in Differing(base, candidate) ==> PlainPath(p) && NormalV1Path(p) == Some(p)
    requires exists p :: p in Differing(base, candidate) && Contains(p, " b/")
    ensures var paths := SortedNames(Differing(base, candidate));
      ChangedPathsV1(Patch(base, candidate, align)) != Some(paths)
  {
    hide Differing, PlainPath, Patch, PatchTheorems.AddsNoReturn, Unified, ChangedPathsV1, FreshTaken, NormalV1Path,
      Contains;
    var paths := SortedNames(Differing(base, candidate));
    assert forall p :: p in paths <==> p in Elements(paths);
    LegacyFound(base, candidate, align);
    var p :| p in Differing(base, candidate) && Contains(p, " b/");
    assert p in paths;
    if ChangedPathsV1(Patch(base, candidate, align)) == Some(paths) {
      assert Elements(paths) == FreshTaken(base, candidate, align, paths, true).value;
      ShortestUnreported(base, candidate, align, paths, p);
    }
  }

  /** The first parser never reports a path with a line end. Where the differing paths have none,
      and none holds the separator ` b/` of the header, it reports those whose section does not
      follow an open last line. So it reports the differing paths exactly when none has a line
      end, none holds the separator, and every section but the last is closed. */
  lemma LegacyReports(base: Tree, candidate: Tree, align: Alignment)
    requires Unified(align) && PatchTheorems.AddsNoReturn(align)
    requires forall p :: p in Differing(base, candidate) && PlainPath(p) ==> NormalV1Path(p) == Some(p)
    ensures var paths := SortedNames(Differing(base, candidate));
      var found := ChangedPathsV1(Patch(base, candidate, align));
      && (found.Some? ==> forall p :: p in found.value ==> PlainPath(p))
      && ((forall i :: 0 <= i < |paths| ==> PlainPath(paths[i]) && !Contains(paths[i], " b/")) ==>
            && (paths == [] ==> found == None)
            && (paths != [] ==> found.Some? && forall i :: 0 <= i < |paths| ==>
                  (paths[i] in found.value <==> i == 0 || Closed(base, candidate, align, paths[i - 1])))
            && (found.Some? ==> Elements(found.value) <= Elements(paths)))
      && (found == Some(paths) <==>
            && paths != [] && (forall i :: 0 <= i < |paths| ==> PlainPath(paths[i]) && !Contains(paths[i], " b/"))
            && forall i :: 0 <= i < |paths| - 1 ==> Closed(base, candidate, align, paths[i]))
  {
    hide Differing, PlainPath, Closed, Patch, PatchTheorems.AddsNoReturn, Unified, ChangedPathsV1, NormalV1Path,
      Contains;
    var paths := SortedNames(Differing(base, candidate));
    var found := ChangedPathsV1(Patch(base, candidate, align));
    if found.Some? { ReportedPlain(Patch(base, candidate, align)); }
    assert forall p :: p in paths <==> p in Differing(base, candidate) by {
      assert forall p :: p in paths <==> p in Elements(paths);
    }
    if i :| 0 <= i < |paths| && !PlainPath(paths[i]) {
      assert paths[i] in paths;
    } else {
      assert forall p :: p in paths ==> PlainPath(p);
      if i :| 0 <= i < |paths| && Contains(paths[i], " b/") {
        assert paths[i] in paths;
        SeparatedNotAll(base, candidate, align);
      } else {
        forall p | p in Differing(base, candidate) ensures PlainHeader(p) {
          assert p in paths;
          NormalNotEmpty(p);
        }
        PlainReports(base, candidate, align);
      }
    }
  }

  lemma PlainReports(base: Tree, candidate: Tree, align: Alignment)
    requires Unified(align) && PatchTheorems.AddsNoReturn(align)
    requires forall p :: p in Differing(base, candidate) ==> PlainPath(p) && PlainHeader(p)
    ensures var paths := SortedNames(Differing(base, candidate));
      var found := ChangedPathsV1(Patch(base, candidate, align));
      && (paths == [] ==> found == None)
      && (paths != [] ==> found.Some? && forall i :: 0 <= i < |paths| ==>
            (paths[i] in found.value <==> i == 0 || Closed(base, candidate, align, paths[i - 1])))
      && (found.Some? ==> Elements(found.value) <= Elements(paths))
      && (found == Some(paths) <==>
            paths != [] && forall i :: 0 <= i < |paths| - 1 ==> Closed(base, candidate, align, paths[i]))
  {
    hide Differing, PlainPath, Closed, Patch, PatchTheorems.AddsNoReturn, Unified, PlainHeader, ChangedPathsV1,
      FreshPaths, FreshTaken;
    var paths := SortedNames(Differing(base, candidate));
    var reported := FreshPaths(base, candidate, align, paths, true);
    assert forall p :: p in paths <==> p in Elements(paths);
    LegacyFound(base, candidate, align);
    FreshPlain(base, candidate, align, paths, true);
    AscendingDistinct(paths);
    FreshAt(base, candidate, align, paths, true);
    AscendingUnique(SortedNames(Elements(paths)), paths);
    if paths != [] {
      assert paths[0] in reported;
      var found := SortedNames(reported);
      assert forall p :: p in found <==> p in Elements(found);
      if forall i :: 0 <= i < |paths| - 1 ==> Closed(base, candidate, align, paths[i]) {
        forall p | p in Elements(paths) ensures p in reported {
          var i :| 0 <= i < |paths| && paths[i] == p;
          assert i > 0 ==> Closed(base, candidate, align, paths[i - 1]);
        }
        assert reported == Elements(paths);
      }
      if found == paths {
        forall i | 0 <= i < |paths| - 1 ensures Closed(base, candidate, align, paths[i]) {
          assert paths[i + 1] in found;
        }
      }
    }
  }

  lemma LegacyFound(base: Tree, candidate: Tree, align: Alignment)
    requires Unified(align) && PatchTheorems.AddsNoReturn(align)
    requires forall p :: p in Differing(base, candidate) ==> PlainPath(p)
    ensures var taken := FreshTaken(base, candidate, align, SortedNames(Differing(base, candidate)), true);
      ChangedPathsV1(Patch(base, candidate, align))
      == if taken == None || taken.value == {} then None else Some(SortedNames(taken.value))
  {
    hide Differing, PlainPath, PatchOf, PatchTheorems.AddsNoReturn, Unified, SplitLines, ReadText, Unix,
      PatchAcceptance.Printable, FreshTaken;
    var paths := SortedNames(Differing(base, candidate));
    assert forall p :: p in paths ==> p in Elements(paths);
    PatchTheorems.DifferingPrintable(base, candidate);
    PatchTheorems.PatchNoReturn(base, candidate, align, paths);
    UnixKeeps(PatchOf(base, candidate, align, paths));
    ReadTextKeeps(PatchOf(base, candidate, align, paths));
    PatchFinds(base, candidate, align, paths);
  }

  lemma AscendingDistinct(paths: seq<string>)
    requires Ascending(paths)
    ensures forall i, j :: 0 <= i < j < |paths| ==> paths[i] != paths[j]
  {
    forall i, j | 0 <= i < j < |paths| ensures paths[i] != paths[j] { LessIrreflexive(paths[i]); }
  }

  /** A changed file the first parser does not report: its header is swallowed by the open
      last line of the file before it. */
  lemma LegacyMissesAChange(align: Alignment)
    requires Unified(align) && PatchTheorems.AddsNoReturn(align)
    ensures var base, candidate: Tree := map[], map["a" := "x", "b" := "y\n"];
      && Differing(base, candidate) == {"a", "b"}
      && ChangedPathsV1(Patch(base, candidate, align)).Some?
      && "b" !in ChangedPathsV1(Patch(base, candidate, align)).value
  {
    var base, candidate: Tree := map[], map["a" := "x", "b" := "y\n"];
    SmallTrees();
    SmallDiffering();
    hide Differing, PlainHeader, PlainPath, Unified, PatchTheorems.AddsNoReturn, ChangedPathsV1, Section, LinesAt;
    PlainReports(base, candidate, align);
    var paths := SortedNames(Differing(base, candidate));
    OpenFileOpenSection(candidate, align, "a");
    assert "b" == paths[1];
  }

  /** Where a path that holds the separator is the only one that differs, the first parser refuses
      the patch or reports other paths in its place. */
  lemma LegacyMissesASeparator(base: Tree, candidate: Tree, align: Alignment, path: string)
    requires Unified(align) && PatchTheorems.AddsNoReturn(align) && Differing(base, candidate) == {path}
    requires PlainPath(path) && NormalV1Path(path) == Some(path) && Contains(path, " b/")
    ensures var found := ChangedPathsV1(Patch(base, candidate, align)); found.Some? ==> path !in found.value
  {
    hide Differing, PlainPath, Patch, PatchTheorems.AddsNoReturn, Unified, ChangedPathsV1, FreshTaken, NormalV1Path,
      Contains, Taken;
    LegacyFound(base, candidate, align);
    OneName(path);
    var taken := FreshTaken(base, candidate, align, [path], true);
    if taken.Some? && path in taken.value {
      FreshFrom(base, candidate, align, [path], true, path);
      var q :| q in [path] && Taken(q).Some? && path in Taken(q).value;
      assert q == path;
      TakenTwice(path, path);
    } else if taken.Some? && taken.value != {} {
      assert forall p :: p in SortedNames(taken.value) <==> p in Elements(SortedNames(taken.value));
    }
  }

  lemma OpenFileOpenSection(candidate: Tree, align: Alignment, path: string)
    requires LinesAt(candidate, path) != [] && !EndsInBreak(candidate, path)
    ensures !Closed(map[], candidate, align, path)
  {
    hide NewFileHead;
    var file := LinesAt(candidate, path);
    var line := file[|file| - 1];
    assert !Ended(line);
    assert ("+" + line)[|line|] == line[|line| - 1];
  }

  lemma SmallDiffering()
    ensures var base, candidate: Tree := map[], map["a" := "x", "b" := "y\n"];
      Differing(base, candidate) == {"a", "b"} && SortedNames({"a", "b"}) == ["a", "b"]
  {
    SmallTrees();
    hide LinesAt;
    PatchTheorems.AbsentHasNoLines(map[], "a");
    PatchTheorems.AbsentHasNoLines(map[], "b");
    assert Ascending(["a", "b"]);
    assert Elements(["a", "b"]) == {"a", "b"};
    AscendingUnique(SortedNames({"a", "b"}), ["a", "b"]);
  }

  lemma SmallTrees()
    ensures var candidate: Tree := map["a" := "x", "b" := "y\n"];
      && LinesAt(candidate, "a") == ["x"] && LinesAt(candidate, "b") == ["y\n"]
      && PlainPath("a") && PlainPath("b") && PlainHeader("a") && PlainHeader("b") && !EndsInBreak(candidate, "a")
  {
    var candidate: Tree := map["a" := "x", "b" := "y\n"];
    assert ReadText("x") == "x" && ReadText("y\n") == "y\n";
    SplitOpenLine("x");
    SplitKeepOne("y");
    PlainName('a');
    PlainName('b');
  }

  lemma PlainName(c: char)
    requires c !in {'/', '\\', '.', ' ', '\0'}
    ensures PlainHeader([c])
  {
    var p := [c];
    assert Slashes(p) == p;
    assert p[1..] == "" && Parts("") == [""];
    assert Parts(p) == [[c] + ""] + Parts("")[1..];
    assert [c] + "" == [c];
    var parts := Parts(p);
    assert parts == [p] && parts[1..] == [];
    assert Kept([p]) == [p];
    assert p[0] != '.' && ".."[0] == '.';
    FirstCharDiffers(p, "/");
    assert p[..1] == p;
    assert NormalV1Path(p) == Some(p);
    assert !Contains(p, " b/");
  }

  lemma SplitKeepOne(text: string)
    requires NoBreak(text)
    ensures SplitKeep(text + "\n") == [text + "\n"]
  {
    EndedText(text);
    SplitEndedLine(text + "\n", "");
    assert text + "\n" + "" == text + "\n";
  }

  // ---- a name the lines cut apart -------------------------------------------------------

  /** U+2028, which may stand in a file name. */
  const SEPARATOR: char := 0x2028 as char

  const BROKEN := "b" + [SEPARATOR]

  lemma {:induction false} NothingInHeaders(lines: seq<string>)
    requires forall i :: 0 <= i < |lines| ==> LineSet(lines[i]) == Some({})
    ensures HeaderSet(lines) == Some({})
  {
    hide LineSet;
    if lines != [] {
      NothingInHeaders(lines[1..]);
      BothAssociates(Some({}), None, None);
    }
  }

  /** The lines of a section that adds one line under the broken name. */
  function BrokenLines(): seq<string> {
    ["diff --git a/b" + [SEPARATOR], " b/b" + [SEPARATOR], "" + ['\n'], "--- /dev/null" + ['\n'],
     "+++ b/b" + [SEPARATOR], "" + ['\n'], "@@ -0,0 +1 @@" + ['\n'], "+y" + ['\n']]
  }

  /** A whole line in which the parser finds nothing. */
  ghost predicate Silent(line: string) {
    IsLine(line) && Ended(line) && NoReturn(line) && LineSet(Chomp(line)) == Some({})
  }

  lemma EndedOther(text: string, c: char)
    requires NoBreak(text) && NoReturn(text) && IsBreak(c) && c != '\r'
    requires text == "" || text[0] in {' ', '+', '-', '@'}
    ensures Silent(text + [c])
  {
    assert (text + [c])[..|text|] == text;
    OtherLine(text);
  }

  lemma EndedFront(text: string, c: char)
    requires text == "diff --git a/b" && IsBreak(c) && c != '\r'
    ensures Silent(text + [c])
  {
    hide LegacyHeader;
    assert (text + [c])[..|text|] == text;
    FrontOnly();
  }

  lemma BrokenEnded(i: nat)
    requires i < |BrokenLines()|
    ensures Silent(BrokenLines()[i])
  {
    hide Silent;
    assert IsBreak(SEPARATOR) && IsBreak('\n');
    EndedFront("diff --git a/b", SEPARATOR);
    EndedOther(" b/b", SEPARATOR);
    EndedOther("", '\n');
    EndedOther("--- /dev/null", '\n');
    EndedOther("+++ b/b", SEPARATOR);
    EndedOther("@@ -0,0 +1 @@", '\n');
    EndedOther("+y", '\n');
  }

  lemma FrontOnly()
    ensures LegacyHeader("diff --git a/b") == None && !StartsWith("diff --git a/b", "GIT binary patch")
  {
    var s := "diff --git a/b"[13..];
    assert s == "b";
    assert LastSeparator(s, 1) == -1;
    FirstCharDiffers("diff --git a/b", "GIT binary patch");
  }

  lemma BrokenSection(candidate: Tree, align: Alignment)
    requires LinesAt(candidate, BROKEN) == ["y\n"]
    ensures Concat(Section(map[], candidate, align, BROKEN)) == Concat(BrokenLines())
  {
    hide LinesAt, NewFileHunk, Concat;
    var sep, end := [SEPARATOR], "" + ['\n'];
    var tail := ["@@ -0,0 +1 @@" + ['\n'], "+y" + ['\n']];
    BrokenTail();
    AddedOne();
    assert Section(map[], candidate, align, BROKEN)
        == [Header(BROKEN), "--- /dev/null\n", "+++ b/" + BROKEN + "\n"] + tail;
    assert Header(BROKEN) == ("diff --git a/b" + sep) + (" b/b" + sep) + end;
    assert "+++ b/" + BROKEN + "\n" == ("+++ b/b" + sep) + end && "--- /dev/null\n" == "--- /dev/null" + ['\n'];
    var dash := "--- /dev/null" + ['\n'];
    ThreeSplit("diff --git a/b" + sep, " b/b" + sep, end, dash, "+++ b/b" + sep, end, tail);
    assert BrokenLines() == ["diff --git a/b" + sep, " b/b" + sep, end, dash, "+++ b/b" + sep, end] + tail;
  }

  lemma BrokenTail()
    ensures NewFileHunk(1) == "@@ -0,0 +1 @@" + ['\n'] && "+y\n" == "+y" + ['\n']
  {
  }

  lemma AddedOne()
    ensures Added(["y\n"]) == ["+y\n"]
  {
    assert "+" + "y\n" == "+y\n";
  }

  lemma JoinTwo(x: string, y: string, tail: seq<string>)
    ensures Concat([x + y] + tail) == Concat([x] + ([y] + tail))
  {
    hide Concat;
    ConcatStep(x + y, tail);
    ConcatStep(x, [y] + tail);
    ConcatStep(y, tail);
  }

  lemma ThreeSplit(x: string, y: string, z: string, m: string, v: string, w: string, tail: seq<string>)
    ensures Concat([x + y + z, m, v + w] + tail) == Concat([x, y, z, m, v, w] + tail)
  {
    hide Concat;
    var two, three := [v + w] + tail, [m] + ([v] + ([w] + tail));
    JoinTwo(v, w, tail);
    ConcatStep(m, two);
    ConcatStep(m, [v] + ([w] + tail));
    ConcatStep(x + y + z, [m] + two);
    ConcatStep(x + y + z, three);
    JoinTwo(x + y, z, three);
    JoinTwo(x, y, [z] + three);
    assert [x + y + z, m, v + w] + tail == [x + y + z] + ([m] + two);
    assert [x, y, z, m, v, w] + tail == [x] + ([y] + ([z] + three));
  }

  /** A changed file the first parser does not report although every section is closed: the line
      end in its name cuts its header apart. */
  lemma LegacyMissesABrokenName(align: Alignment)
    requires Unified(align) && PatchTheorems.AddsNoReturn(align)
    ensures var base, candidate: Tree := map[], map["a" := "x\n", BROKEN := "y\n"];
      && Differing(base, candidate) == {"a", BROKEN}
      && Closed(base, candidate, align, "a") && Closed(base, candidate, align, BROKEN)
      && ChangedPathsV1(Patch(base, candidate, align)) == Some(["a"])
  {
    var base, candidate: Tree := map[], map["a" := "x\n", BROKEN := "y\n"];
    BrokenTrees();
    hide Differing, Section, LinesAt, SplitLines, PlainHeader, Unified, BROKEN, BrokenLines, PlainPath, Closed;
    var section, rest := Section(base, candidate, align, "a"), Concat(BrokenLines());
    BrokenText(candidate, align);
    SectionFinds(base, candidate, align, "a", rest);
    TakenOnce("a");
    BrokenFound();
    assert {"a"} + {} == {"a"} && SortedNames({"a"}) == ["a"] by { OneName("a"); }
  }

  lemma OneName(p: string)
    ensures SortedNames({p}) == [p]
  {
    assert Elements([p]) == {p} && Ascending([p]);
    AscendingUnique(SortedNames({p}), [p]);
  }

  lemma BrokenTrees()
    ensures var candidate: Tree := map["a" := "x\n", BROKEN := "y\n"];
      && LinesAt(candidate, "a") == ["x\n"] && LinesAt(candidate, BROKEN) == ["y\n"]
      && PlainPath("a") && PlainHeader("a")
      && Differing(map[], candidate) == {"a", BROKEN} && SortedNames({"a", BROKEN}) == ["a", BROKEN]
  {
    var candidate: Tree := map["a" := "x\n", BROKEN := "y\n"];
    assert ReadText("x\n") == "x\n" && ReadText("y\n") == "y\n";
    SplitKeepOne("x");
    SplitKeepOne("y");
    PlainName('a');
    hide LinesAt;
    PatchTheorems.AbsentHasNoLines(map[], "a");
    PatchTheorems.AbsentHasNoLines(map[], BROKEN);
    assert Less("a", BROKEN) && Ascending(["a", BROKEN]);
    assert Elements(["a", BROKEN]) == {"a", BROKEN};
    AscendingUnique(SortedNames({"a", BROKEN}), ["a", BROKEN]);
  }

  lemma BrokenFound()
    ensures Found(Concat(BrokenLines())) == Some({})
  {
    var lines := BrokenLines();
    forall i | 0 <= i < |lines| ensures IsLine(lines[i]) && Ended(lines[i]) && LineSet(Chomp(lines[i])) == Some({}) {
      BrokenEnded(i);
    }
    hide BrokenLines, LineSet, IsLine, Ended, Chomp, Silent;
    SplitEndedLines(lines, "");
    assert Concat(lines) + "" == Concat(lines);
    NothingLeft();
    assert lines + [] == lines;
    NothingInHeaders(Chomped(lines));
  }

  /** The text of the patch, and that neither replacement of line ends changes it. */
  lemma BrokenText(candidate: Tree, align: Alignment)
    requires PatchTheorems.AddsNoReturn(align)
    requires Differing(map[], candidate) == {"a", BROKEN} && SortedNames({"a", BROKEN}) == ["a", BROKEN]
    requires LinesAt(candidate, "a") == ["x\n"] && LinesAt(candidate, BROKEN) == ["y\n"]
    ensures Closed(map[], candidate, align, "a") && Closed(map[], candidate, align, BROKEN)
    ensures ReadText(Patch(map[], candidate, align))
         == Concat(Section(map[], candidate, align, "a")) + Concat(BrokenLines())
  {
    hide Differing, Section, LinesAt, BROKEN, BrokenLines, Concat, PatchTheorems.AddsNoReturn, Closed, NoReturn,
      PatchOf, ReadText, Unix;
    BrokenClosed(candidate, align, "a", "x\n");
    BrokenClosed(candidate, align, BROKEN, "y\n");
    BrokenSection(candidate, align);
    BrokenNoReturn(candidate, align);
    TwoSections(candidate, align);
    var text := Concat(Section(map[], candidate, align, "a")) + Concat(BrokenLines());
    UnixKeeps(text);
    ReadTextKeeps(text);
  }

  lemma BrokenNoReturn(candidate: Tree, align: Alignment)
    requires PatchTheorems.AddsNoReturn(align) && LinesAt(candidate, "a") == ["x\n"]
    ensures NoReturn(Concat(Section(map[], candidate, align, "a")) + Concat(BrokenLines()))
  {
    hide Section, LinesAt, BrokenLines, Concat, PatchTheorems.AddsNoReturn, PlainPath, NoReturn;
    PlainNameA();
    PatchTheorems.SectionNoReturn(map[], candidate, align, "a");
    PatchTheorems.ConcatNoReturn(Section(map[], candidate, align, "a"));
    forall i | 0 <= i < |BrokenLines()| ensures NoReturn(BrokenLines()[i]) { BrokenEnded(i); }
    PatchTheorems.ConcatNoReturn(BrokenLines());
    BothNoReturn(Concat(Section(map[], candidate, align, "a")), Concat(BrokenLines()));
  }

  lemma BothNoReturn(a: string, b: string)
    requires NoReturn(a) && NoReturn(b)
    ensures NoReturn(a + b)
  {
  }

  lemma PlainNameA()
    ensures PlainPath("a")
  {
  }

  lemma TwoSections(candidate: Tree, align: Alignment)
    ensures PatchOf(map[], candidate, align, ["a", BROKEN])
         == Concat(Section(map[], candidate, align, "a")) + Concat(Section(map[], candidate, align, BROKEN))
  {
    hide Section, Concat;
    assert ["a", BROKEN][1..] == [BROKEN] && [BROKEN][1..] == [];
    var text := Concat(Section(map[], candidate, align, BROKEN));
    assert PatchOf(map[], candidate, align, []) == "";
    assert PatchOf(map[], candidate, align, [BROKEN]) == text + "" == text;
  }

  lemma BrokenClosed(candidate: Tree, align: Alignment, path: string, line: string)
    requires LinesAt(candidate, path) == [line] && line != "" && line[|line| - 1] == '\n'
    ensures Closed(map[], candidate, align, path)
  {
    hide LinesAt, NewFileHead;
    assert Added([line])[0] == "+" + line;
  }
}
