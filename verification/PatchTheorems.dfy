/** The printed patch under the new-files-only policy: when it is accepted, what is read off
    it, and that it holds the added files completely. */
module PatchTheorems {
  import opened Text
  import opened Lines
  import opened PatchPrinter
  import opened PatchPolicy
  import opened PatchSoundness
  import opened PatchAcceptance
  import PatchBreaks

  ghost predicate NoReturns(lines: seq<string>) {
    forall i :: 0 <= i < |lines| ==> NoReturn(lines[i])
  }

  /** Alignment puts no carriage return of its own into the patch. */
  ghost predicate AddsNoReturn(align: Alignment) {
    forall old_, new_, to :: NoReturns(old_) && NoReturns(new_) && NoReturn(to) ==> NoReturns(align(old_, new_, to))
  }

  // ---- carriage returns -----------------------------------------------------

  lemma {:induction false} SplitKeepNoReturn(s: string)
    requires NoReturn(s)
    ensures NoReturns(SplitKeep(s))
    decreases |s|
  {
    if s != "" {
      var line, rest := TakeLine(s).0, TakeLine(s).1;
      assert forall i :: 0 <= i < |line| ==> line[i] == s[i];
      assert forall i :: 0 <= i < |rest| ==> rest[i] == s[|line| + i];
      SplitKeepNoReturn(rest);
    }
  }

  lemma {:induction false} ConcatNoReturn(parts: seq<string>)
    requires NoReturns(parts)
    ensures NoReturn(Concat(parts))
  {
    if parts != [] {
      assert NoReturn(parts[0]);
      assert forall i :: 0 <= i < |parts[1..]| ==> parts[1..][i] == parts[i + 1];
      ConcatNoReturn(parts[1..]);
    }
  }

  lemma LinesAtNoReturn(tree: Tree, path: string)
    ensures NoReturns(LinesAt(tree, path))
  {
    if path in tree { SplitKeepNoReturn(ReadText(tree[path])); }
  }

  lemma HeadNoReturn(path: string, n: nat)
    requires PlainPath(path) && n > 0
    ensures NoReturns(NewFileHead(path, n)) && NoReturns([Header(path), "--- a/" + path + "\n"])
  {
    hide JsonText.NatText;
    HunkNoReturn(n);
  }

  lemma HunkNoReturn(n: nat)
    ensures NoReturn(NewFileHunk(n))
  {
    var digits := JsonText.NatText(n);
    hide JsonText.NatText;
    assert forall i :: 0 <= i < |digits| ==> JsonText.IsDigit(digits[i]);
  }

  lemma SectionNoReturn(base: Tree, candidate: Tree, align: Alignment, path: string)
    requires AddsNoReturn(align) && PlainPath(path) && (path !in base ==> LinesAt(candidate, path) != [])
    ensures NoReturns(Section(base, candidate, align, path))
  {
    hide NewFileHead, LinesAt;
    var old_, new_ := LinesAt(base, path), LinesAt(candidate, path);
    LinesAtNoReturn(base, path);
    LinesAtNoReturn(candidate, path);
    if path in base {
      HeadNoReturn(path, 1);
      var to := if path in candidate then "b/" + path else "/dev/null";
      assert NoReturn(to);
      assert NoReturns(align(old_, new_, to));
    } else {
      HeadNoReturn(path, |new_|);
      assert forall i :: 0 <= i < |new_| ==> NoReturn(Added(new_)[i]);
    }
  }

  lemma {:induction false} PatchNoReturn(base: Tree, candidate: Tree, align: Alignment, paths: seq<string>)
    requires AddsNoReturn(align) && Printable(base, candidate, paths)
    ensures NoReturn(PatchOf(base, candidate, align, paths))
  {
    hide Printable, Section, AddsNoReturn, Concat;
    if paths != [] {
      PrintableTail(base, candidate, paths);
      SectionNoReturn(base, candidate, align, paths[0]);
      ConcatNoReturn(Section(base, candidate, align, paths[0]));
      PatchNoReturn(base, candidate, align, paths[1..]);
    }
  }

  // ---- no forbidden metadata at a line start --------------------------------

  predicate OrdinaryAt(s: string, i: nat)
    requires i < |s|
  {
    s[i] in {'-', '+', '@'} || (s[i] == 'd' && i + 1 < |s| && s[i + 1] == 'i')
  }

  predicate OrdinaryStarts(s: string) {
    forall i :: 0 <= i < |s| && LineStart(s, i) ==> OrdinaryAt(s, i)
  }

  lemma OrdinaryLine(line: string)
    requires IsLine(line) && OrdinaryAt(line, 0)
    ensures OrdinaryStarts(line)
  {
    assert forall j :: 0 <= j < |line| - 1 ==> line[..|line| - 1][j] == line[j];
  }

  lemma OrdinaryConcat(a: string, b: string)
    requires OrdinaryStarts(a) && OrdinaryStarts(b)
    ensures OrdinaryStarts(a + b)
  {
    var s := a + b;
    forall i | 0 <= i < |s| && LineStart(s, i) ensures OrdinaryAt(s, i) {
      if i < |a| {
        assert LineStart(a, i) && OrdinaryAt(a, i);
      } else {
        assert LineStart(b, i - |a|) && OrdinaryAt(b, i - |a|);
      }
    }
  }

  lemma {:induction false} OrdinaryChunks(parts: seq<string>)
    requires forall i :: 0 <= i < |parts| ==> IsLine(parts[i]) && OrdinaryAt(parts[i], 0)
    ensures OrdinaryStarts(Concat(parts))
  {
    if parts != [] {
      OrdinaryLine(parts[0]);
      OrdinaryChunks(parts[1..]);
      OrdinaryConcat(parts[0], Concat(parts[1..]));
    }
  }

  lemma OrdinarySection(base: Tree, candidate: Tree, align: Alignment, path: string)
    requires PlainPath(path) && path !in base && LinesAt(candidate, path) != []
    ensures OrdinaryStarts(Concat(Section(base, candidate, align, path)))
  {
    var file := LinesAt(candidate, path);
    var section := NewFileHead(path, |file|) + Added(file);
    HeadLines(path, |file|);
    assert Header(path)[1] == 'i' && NewFileHunk(|file|)[0] == '@';
    forall i | 0 <= i < |section| ensures IsLine(section[i]) && OrdinaryAt(section[i], 0) {
      if i >= 4 { AddedLine(file[i - 4]); }
    }
    OrdinaryChunks(section);
  }

  lemma {:induction false} OrdinaryPatch(base: Tree, candidate: Tree, align: Alignment, paths: seq<string>)
    requires Printable(base, candidate, paths) && forall p :: p in paths ==> p !in base
    ensures OrdinaryStarts(PatchOf(base, candidate, align, paths))
  {
    hide Printable, Section, Concat, OrdinaryStarts, LinesAt;
    if paths != [] {
      assert paths[0] in paths && forall p :: p in paths[1..] ==> p in paths;
      PrintableTail(base, candidate, paths);
      OrdinarySection(base, candidate, align, paths[0]);
      OrdinaryPatch(base, candidate, align, paths[1..]);
      OrdinaryConcat(Concat(Section(base, candidate, align, paths[0])), PatchOf(base, candidate, align, paths[1..]));
    } else {
      NothingOrdinary();
    }
  }

  lemma NothingOrdinary()
    ensures OrdinaryStarts("")
  {
  }

  lemma OrdinaryText(s: string, word: char -> bool)
    requires OrdinaryStarts(s)
    ensures !ForbiddenMetadata(s, word) && !SymlinkMode(s)
  {
    forall i | 0 <= i <= |s| && LineStart(s, i) ensures !ForbiddenAt(s[i..], word) && !SymlinkAt(s[i..]) {
      var rest := s[i..];
      assert i < |s| ==> OrdinaryAt(s, i) && rest[0] == s[i];
      assert i + 1 < |s| ==> rest[1] == s[i + 1];
      OrdinaryWord(rest, word);
    }
  }

  lemma OrdinaryWord(rest: string, word: char -> bool)
    requires rest != "" ==> OrdinaryAt(rest, 0)
    ensures !ForbiddenAt(rest, word) && !SymlinkAt(rest)
  {
    forall k | 0 <= k < |FORBIDDEN_METADATA| ensures !StartsWith(rest, FORBIDDEN_METADATA[k]) {
      var f := FORBIDDEN_METADATA[k];
      assert f[0] in {'o', 'd', 'r', 'c'} && (f[0] == 'd' ==> f[1] == 'e');
      assert |f| <= |rest| ==> rest[..|f|][0] == rest[0] && rest[..|f|][1] == rest[1];
    }
    forall k | 0 <= k < |SYMLINK_MODES| ensures !StartsWith(rest, SYMLINK_MODES[k]) {
      FirstCharDiffers(rest, SYMLINK_MODES[k]);
    }
  }

  // ---- acceptance -----------------------------------------------------------

  lemma DifferingPrintable(base: Tree, candidate: Tree)
    requires forall p :: p in Differing(base, candidate) ==> PlainPath(p)
    ensures Printable(base, candidate, SortedNames(Differing(base, candidate)))
  {
    var paths := SortedNames(Differing(base, candidate));
    hide LinesAt;
    forall p | p in paths ensures PlainPath(p) && (p !in base ==> LinesAt(candidate, p) != []) {
      assert p in Elements(paths);
      AbsentHasNoLines(base, p);
    }
    forall i, j | 0 <= i < j < |paths| ensures paths[i] != paths[j] { LessIrreflexive(paths[i]); }
  }

  lemma AbsentHasNoLines(tree: Tree, path: string)
    ensures path !in tree ==> LinesAt(tree, path) == []
  {
  }

  /** The new-files-only policy accepts a printed patch exactly when the trees differ, every
      differing path is absent from the base and safe, every differing file but the last
      ends in a line end, and the text holds no NUL and no binary marker; it then returns
      the differing paths in order. */
  lemma PrintedPatchAcceptance(base: Tree, candidate: Tree, align: Alignment, word: char -> bool)
    requires AddsNoReturn(align)
    ensures var paths := SortedNames(Differing(base, candidate));
      ChangedPathsV2(Patch(base, candidate, align), word)
      == if paths != [] && OnlyAddsFiles(base, candidate, paths) && Textual(Patch(base, candidate, align))
         then Some(paths) else None
  {
    hide Differing, PlainPath, OnlyAddsFiles, Patch, ChangedPathsV2, Textual;
    var paths := SortedNames(Differing(base, candidate));
    if forall p :: p in Differing(base, candidate) ==> PlainPath(p) {
      PlainPatchAcceptance(base, candidate, align, word);
    } else {
      var p :| p in Differing(base, candidate) && !PlainPath(p);
      assert p in Elements(paths);
      var i :| 0 <= i < |paths| && paths[i] == p;
      BrokenPathRefused(base, candidate, align, word, i);
      BrokenPathUnsafe(base, candidate, paths, i);
    }
  }

  lemma BrokenPathUnsafe(base: Tree, candidate: Tree, paths: seq<string>, i: nat)
    requires i < |paths| && !PlainPath(paths[i])
    ensures !OnlyAddsFiles(base, candidate, paths)
  {
    hide PlainPath;
    assert !SafePath(paths[i]);
  }

  /** A differing path that holds a line end of any kind makes the policy refuse. */
  lemma BrokenPathRefused(base: Tree, candidate: Tree, align: Alignment, word: char -> bool, i: nat)
    requires var paths := SortedNames(Differing(base, candidate)); i < |paths| && !PlainPath(paths[i])
    ensures ChangedPathsV2(Patch(base, candidate, align), word) == None
  {
    hide Differing, PlainPath, PatchOf, ChangedPathsV2, Unix;
    var paths := SortedNames(Differing(base, candidate));
    var a, b := BrokenText(base, candidate, align, paths, i);
    PatchBreaks.BrokenHeaderRefused(a, paths[i], b, word);
  }

  /** A printed patch from a path's header on. */
  lemma {:induction false} BrokenText(base: Tree, candidate: Tree, align: Alignment, paths: seq<string>, i: nat)
    returns (a: string, b: string)
    requires i < |paths|
    ensures a != "" && a[|a| - 1] == '/'
    ensures PatchOf(base, candidate, align, paths)
         == a + (paths[i] + (" b/" + (paths[i] + ("\n-" + b))))
  {
    hide Section, Concat, Header;
    if i > 0 {
      a, b := BrokenText(base, candidate, align, paths[1..], i - 1);
      var front, whole := Concat(Section(base, candidate, align, paths[0])), a;
      Associate(front, whole, paths[i] + (" b/" + (paths[i] + ("\n-" + b))));
      a := front + whole;
    } else {
      var p := paths[0];
      var rest := PatchOf(base, candidate, align, paths[1..]);
      a := "diff --git a/";
      b := SectionText(base, candidate, align, p, rest);
    }
  }

  lemma SectionText(base: Tree, candidate: Tree, align: Alignment, p: string, rest: string) returns (b: string)
    ensures Concat(Section(base, candidate, align, p)) + rest
         == "diff --git a/" + (p + (" b/" + (p + ("\n-" + b))))
  {
    var section := Section(base, candidate, align, p);
    SectionOpens(base, candidate, align, p);
    hide Section, Concat, SecondLine;
    var later := Concat(section[2..]) + rest;
    TwoChunks(section, rest);
    var second := SecondLine(base, p) + "\n";
    DashSecond(base, p);
    b := second[1..] + later;
    HeaderText4(p, second, later);
  }

  lemma DashSecond(base: Tree, p: string)
    ensures SecondLine(base, p) != "" && SecondLine(base, p)[0] == '-'
  {
  }

  lemma HeaderText4(p: string, second: string, later: string)
    requires second != "" && second[0] == '-'
    ensures Header(p) + (second + later)
         == "diff --git a/" + (p + (" b/" + (p + ("\n-" + (second[1..] + later)))))
  {
    assert second == "-" + second[1..];
    assert second + later == "-" + (second[1..] + later);
  }

  lemma PlainPatchAcceptance(base: Tree, candidate: Tree, align: Alignment, word: char -> bool)
    requires AddsNoReturn(align) && forall p :: p in Differing(base, candidate) ==> PlainPath(p)
    ensures var paths := SortedNames(Differing(base, candidate));
      ChangedPathsV2(Patch(base, candidate, align), word)
      == if paths != [] && OnlyAddsFiles(base, candidate, paths) && Textual(Patch(base, candidate, align))
         then Some(paths) else None
  {
    hide SplitLines, ReadText, Unix, Textual, OnlyAddsFiles, ForbiddenMetadata, SymlinkMode, PatchLines, Printable,
      PatchOf, ChangedPathsV2, AddsNoReturn, Differing, HeaderText, ParseSections, IsSectionStart;
    var paths := SortedNames(Differing(base, candidate));
    var patch := PatchOf(base, candidate, align, paths);
    DifferingPrintable(base, candidate);
    PatchNoReturn(base, candidate, align, paths);
    UnixKeeps(patch);
    ReadTextKeeps(patch);
    ParsePatch(base, candidate, align, paths, []);
    var lines := PatchLines(base, candidate, align, paths);
    assert lines == SplitLines(ReadText(patch)) by { PatchLinesAre(base, candidate, align, paths); }
    assert [] + paths == paths;
    AscendingUnique(SortedNames(Elements(paths)), paths);
    if paths == [] {
      NoLines(base, candidate, align);
      NothingRead(patch, word);
    } else {
      PrintableTail(base, candidate, paths);
      FirstLines(base, candidate, align, paths);
      HeaderStarts(paths[0]);
      ReadFromFirst(patch, word);
      if OnlyAddsFiles(base, candidate, paths) {
        AllNew(base, candidate, paths);
        OrdinaryPatch(base, candidate, align, paths);
        OrdinaryText(patch, word);
      }
    }
  }

  lemma PatchLinesAre(base: Tree, candidate: Tree, align: Alignment, paths: seq<string>)
    ensures PatchLines(base, candidate, align, paths) == SplitLines(PatchOf(base, candidate, align, paths))
  {
  }

  lemma NothingRead(patch: string, word: char -> bool)
    requires SplitLines(ReadText(patch)) == []
    ensures ChangedPathsV2(patch, word) == None
  {
  }

  lemma ReadFromFirst(patch: string, word: char -> bool)
    requires var lines := SplitLines(ReadText(patch)); lines != [] && IsSectionStart(lines[0])
    ensures ChangedPathsV2(patch, word)
         == if ForbiddenMetadata(patch, word) || SymlinkMode(patch) || !Textual(patch) then None
            else match ParseSections(SplitLines(ReadText(patch)), [])
              case None => None
              case Some(paths) => Some(SortedNames(Elements(paths)))
  {
    hide SplitLines, ReadText, Textual, ForbiddenMetadata, SymlinkMode, ParseSections, IsSectionStart;
    var lines := SplitLines(ReadText(patch));
    assert FirstSection(lines) == 0 && lines[0..] == lines;
  }

  lemma AllNew(base: Tree, candidate: Tree, paths: seq<string>)
    requires OnlyAddsFiles(base, candidate, paths)
    ensures forall p :: p in paths ==> p !in base
  {
  }

  // ---- completeness of the accepted text ------------------------------------

  function Stripped(lines: seq<string>): (r: seq<string>)
    ensures |r| == |lines| && forall i :: 0 <= i < |r| ==> r[i] == if lines[i] == "" then "" else lines[i][1..]
  {
    seq(|lines|, i requires 0 <= i < |lines| => if lines[i] == "" then "" else lines[i][1..])
  }

  /** The files a patch of new files adds: what stands after the plus signs below the hunk line. */
  function Replay(lines: seq<string>): map<string, seq<string>>
    decreases |lines|
  {
    if lines == [] then map[]
    else
      var end := SectionEnd(lines);
      var rest := Replay(lines[end..]);
      match HeaderPaths(Chomp(lines[0]))
      case Some((path, _)) => if end < 4 then rest else rest[path := Stripped(lines[4..end])]
      case None => rest
  }

  ghost predicate Holds(base: Tree, candidate: Tree, paths: seq<string>, files: map<string, seq<string>>) {
    && files.Keys == Elements(paths)
    && forall p :: p in files ==> files[p] == LinesAt(candidate, p)
  }

  lemma {:induction false} ReplayPatch(base: Tree, candidate: Tree, align: Alignment, paths: seq<string>)
    requires Printable(base, candidate, paths) && OnlyAddsFiles(base, candidate, paths)
    ensures Holds(base, candidate, paths, Replay(SplitKeep(PatchOf(base, candidate, align, paths))))
  {
    hide Printable, OnlyAddsFiles, SafePath, EndsInBreak, LinesAt, SplitKeep, PatchOf, Replay;
    if paths == [] {
      NothingReplayed(base, candidate, align);
    } else {
      var p, rest := paths[0], paths[1..];
      PrintableTail(base, candidate, paths);
      OnlyAddsTail(base, candidate, paths);
      ReplayPatch(base, candidate, align, rest);
      ReplaySection(base, candidate, align, paths);
      assert forall q :: q in paths <==> q == p || q in rest;
    }
  }

  lemma NothingReplayed(base: Tree, candidate: Tree, align: Alignment)
    ensures Holds(base, candidate, [], Replay(SplitKeep(PatchOf(base, candidate, align, []))))
  {
  }

  lemma ReplaySection(base: Tree, candidate: Tree, align: Alignment, paths: seq<string>)
    requires Printable(base, candidate, paths) && paths != [] && paths[0] !in base && SafePath(paths[0])
    requires paths[1..] == [] || EndsInBreak(candidate, paths[0])
    ensures Replay(SplitKeep(PatchOf(base, candidate, align, paths)))
         == Replay(SplitKeep(PatchOf(base, candidate, align, paths[1..])))[paths[0] := LinesAt(candidate, paths[0])]
  {
    var p := paths[0];
    PrintableTail(base, candidate, paths);
    var file := LinesAt(candidate, p);
    var tail := PatchOf(base, candidate, align, paths[1..]);
    ClosedSection(p, file, tail);
    NewPatchText(base, candidate, align, paths);
    KeptTailStarts(base, candidate, align, paths[1..]);
    hide LinesAt, PatchOf, SplitKeep, EndsInBreak, Printable, Concat;
    ReplayOne(p, file, SplitKeep(tail));
  }

  lemma KeptFirst(text: string)
    ensures SplitKeep(text) != [] ==> SplitKeep(text)[0] == TakeLine(text).0
  {
  }

  lemma KeptTailStarts(base: Tree, candidate: Tree, align: Alignment, paths: seq<string>)
    requires paths != [] ==> PlainPath(paths[0])
    ensures var kept := SplitKeep(PatchOf(base, candidate, align, paths)); kept != [] ==> IsSectionStart(kept[0])
  {
    hide TakeLine, Section, Concat, Chomp, PatchLines;
    if paths != [] {
      PatchOpens(base, candidate, align, paths);
      KeptFirst(PatchOf(base, candidate, align, paths));
      assert Header(paths[0])[..11] == "diff --git ";
    } else {
      NothingReplayed(base, candidate, align);
    }
  }

  lemma ReplayOne(path: string, file: seq<string>, rest: seq<string>)
    requires PlainPath(path) && SafePath(path) && (rest != [] ==> IsSectionStart(rest[0])) && file != []
    ensures Replay(NewFileHead(path, |file|) + Added(file) + rest) == Replay(rest)[path := file]
  {
    var section := NewFileHead(path, |file|) + Added(file);
    FirstChomped(path, |file|);
    HeaderPathsBack(path);
    KeptNoStart(path, file);
    FourLines(path, |file|);
    hide NewFileHead, SafePath, HeaderText, Chomp, HeaderPaths, Replay, IsSectionStart, PlainPath;
    ReplayStep(section, rest, path);
    assert section[4..] == Added(file);
    assert Stripped(Added(file)) == file;
  }

  lemma FirstChomped(path: string, n: nat)
    requires PlainPath(path) && n > 0
    ensures Chomp(NewFileHead(path, n)[0]) == HeaderText(path)
  {
    HeadLines(path, n);
    assert Chomped(NewFileHead(path, n))[0] == HeaderText(path);
  }

  lemma ReplayStep(section: seq<string>, rest: seq<string>, path: string)
    requires |section| >= 4 && HeaderPaths(Chomp(section[0])) == Some((path, path))
    requires forall i :: 1 <= i < |section| ==> !IsSectionStart(section[i])
    requires rest != [] ==> IsSectionStart(rest[0])
    ensures Replay(section + rest) == Replay(rest)[path := Stripped(section[4..])]
  {
    hide HeaderPaths, Chomp, IsSectionStart;
    SectionThenRest(section, rest);
    var lines := section + rest;
    assert SectionEnd(lines) == |lines[..SectionEnd(lines)]|;
    assert lines[4..|section|] == section[4..];
  }

  lemma KeptNoStart(path: string, file: seq<string>)
    requires file != []
    ensures var section := NewFileHead(path, |file|) + Added(file);
      forall i :: 1 <= i < |section| ==> !IsSectionStart(section[i])
  {
    var section := NewFileHead(path, |file|) + Added(file);
    assert NewFileHunk(|file|)[0] == '@';
    forall i | 1 <= i < |section| ensures !IsSectionStart(section[i]) {
      assert i >= 4 ==> section[i] == "+" + file[i - 4];
      NotAStart(section[i]);
    }
  }

  /** An accepted patch is complete: replaying its added lines over the base gives back every
      line list of the candidate, and the base keeps all of its files unchanged. */
  lemma AcceptedPatchRebuildsCandidate(base: Tree, candidate: Tree, align: Alignment, word: char -> bool)
    requires AddsNoReturn(align)
    requires ChangedPathsV2(Patch(base, candidate, align), word).Some?
    ensures var added := Replay(SplitKeep(Patch(base, candidate, align)));
      && added.Keys == Differing(base, candidate)
      && added.Keys !! base.Keys
      && forall p :: LinesAt(candidate, p) == if p in added then added[p] else LinesAt(base, p)
  {
    hide Replay, SplitKeep, LinesAt, OnlyAddsFiles, Printable, ChangedPathsV2, Patch, PatchOf, AddsNoReturn, Textual;
    var paths := SortedNames(Differing(base, candidate));
    PrintedPatchAcceptance(base, candidate, align, word);
    AcceptedText(base, candidate, align);
    ReplayPatch(base, candidate, align, paths);
    AllNew(base, candidate, paths);
    var added := Replay(SplitKeep(Patch(base, candidate, align)));
    assert forall p :: p in added ==> p in Elements(paths);
    forall p ensures LinesAt(candidate, p) == if p in added then added[p] else LinesAt(base, p) {
      if p !in added {
        AbsentHasNoLines(base, p);
        AbsentHasNoLines(candidate, p);
        assert p !in Differing(base, candidate);
      }
    }
  }

  /** Where only files on safe paths are added the replacement of line ends changes nothing. */
  lemma AcceptedText(base: Tree, candidate: Tree, align: Alignment)
    requires AddsNoReturn(align) && OnlyAddsFiles(base, candidate, SortedNames(Differing(base, candidate)))
    ensures var paths := SortedNames(Differing(base, candidate));
      Printable(base, candidate, paths) && Patch(base, candidate, align) == PatchOf(base, candidate, align, paths)
  {
    hide Differing, PatchOf, AddsNoReturn, OnlyAddsFiles, PlainPath, Printable, NoReturn;
    var paths := SortedNames(Differing(base, candidate));
    OnlyAddsPlain(base, candidate, paths);
    assert forall p :: p in Differing(base, candidate) ==> p in Elements(paths);
    DifferingPrintable(base, candidate);
    PatchNoReturn(base, candidate, align, paths);
    UnixKeeps(PatchOf(base, candidate, align, paths));
  }

  lemma OnlyAddsPlain(base: Tree, candidate: Tree, paths: seq<string>)
    requires OnlyAddsFiles(base, candidate, paths)
    ensures forall p :: p in paths ==> PlainPath(p)
  {
    hide PlainPath;
    forall p | p in paths ensures PlainPath(p) {
      var i :| 0 <= i < |paths| && paths[i] == p;
      assert SafePath(paths[i]);
    }
  }
}
