/** The printer and the new-files-only parser meet: exactly when a printed patch is accepted,
    and that accepting it reads off the differing paths. */
module PatchAcceptance {
  import opened Text
  import opened Lines
  import opened PatchPrinter
  import opened PatchPolicy
  import opened PatchSoundness

  // ---- section headers ----------------------------------------------------

  predicate NoBlank(s: string) { ' ' !in s && '\t' !in s }

  lemma {:induction false} WordAll(w: string, rest: string)
    requires NoBlank(w) && (rest != "" ==> rest[0] == ' ' || rest[0] == '\t')
    ensures Word(w + rest).0 == w && Word(w + rest).1 == rest
  {
    if w == "" {
      assert w + rest == rest;
    } else {
      assert w[0] in w && forall c :: c in w[1..] ==> c in w;
      WordAll(w[1..], rest);
      assert (w + rest)[1..] == w[1..] + rest;
      assert w == [w[0]] + w[1..];
    }
  }

  lemma {:induction false} WordStops(s: string)
    requires !NoBlank(s)
    ensures Word(s).1 != ""
  {
    if s[0] != ' ' && s[0] != '\t' {
      assert s == [s[0]] + s[1..];
      WordStops(s[1..]);
    }
  }

  lemma {:induction false} WordShape(s: string)
    ensures NoBlank(Word(s).0)
    ensures Word(s).1 != "" ==> Word(s).1[0] == ' ' || Word(s).1[0] == '\t'
  {
    if s != "" && s[0] != ' ' && s[0] != '\t' { WordShape(s[1..]); }
  }

  /** A header gives its path back exactly when the path is free of blanks. */
  lemma HeaderPathsBack(path: string)
    ensures HeaderPaths(HeaderText(path))
         == if path != "" && NoBlank(path) then Some((path, path)) else None
  {
    var line, tail := HeaderText(path), " b/" + path;
    assert line[13..] == path + tail;
    assert line[..13] == "diff --git a/";
    if NoBlank(path) {
      WordAll(path, tail);
      assert tail[3..] == path && StartsWith(tail, " b/");
      assert path + "" == path;
      WordAll(path, "");
    } else {
      var (w, r) := Word(path);
      WordShape(path);
      WordStops(path);
      assert path + tail == w + (r + tail);
      WordAll(w, r + tail);
      SecondWord(r, tail);
    }
  }

  lemma SecondWord(r: string, tail: string)
    requires r != "" && tail != "" && tail[0] == ' '
    ensures StartsWith(r + tail, " b/") ==> Word((r + tail)[3..]).1 != ""
  {
    var after := r + tail;
    if StartsWith(after, " b/") {
      assert after[..3][1] == after[1] && after[..3][2] == after[2];
      assert |r| >= 3;
      assert after[3..][|r| - 3] == ' ';
      WordStops(after[3..]);
    }
  }

  // ---- one section --------------------------------------------------------

  lemma SectionEndIs(lines: seq<string>, n: nat)
    requires 1 <= n <= |lines| && (n < |lines| ==> IsSectionStart(lines[n]))
    requires forall i :: 1 <= i < n ==> !IsSectionStart(lines[i])
    ensures SectionEnd(lines) == n
  {
  }

  predicate AddedText(line: string) { line != "" && line[0] == '+' }

  lemma NotAStart(line: string)
    requires line != "" && line[0] != 'd'
    ensures !IsSectionStart(line)
  {
    FirstCharDiffers(line, "diff --git ");
  }

  lemma HeaderStarts(path: string)
    ensures IsSectionStart(HeaderText(path))
  {
    assert HeaderText(path)[..11] == "diff --git ";
  }

  /** The section of a new file on a safe path is read as that path. */
  lemma NewSectionPath(path: string, n: nat, more: seq<string>)
    requires n > 0 && SafePath(path) && forall i :: 0 <= i < |more| ==> AddedText(more[i])
    ensures SectionPath(NewHead(path, n) + more) == Some(path)
  {
    hide NormalV2Path, HeaderPaths;
    var section := NewHead(path, n) + more;
    HeaderPathsBack(path);
    var body := section[1..];
    assert body == ["--- /dev/null", "+++ b/" + path, HunkText(n)] + more;
    assert body[0] == "--- /dev/null" && body[0][0] == '-' && body[1][0] == '+';
    assert IndexOf(body, "--- /dev/null") == 0 && IndexOf(body, "+++ b/" + path) == 1;
    HunkIsValid(n);
    HunkStarts(n);
    forall i | 2 <= i < |body| ensures HunkLine(body[i]) {
      if i > 2 {
        assert body[i] == more[i - 3];
        AddedHunkLine(body[i]);
      }
    }
    assert forall i :: 0 <= i < |body[2..]| ==> body[2..][i] == body[i + 2];
    hide HunkText, SafePath, IsNewFileHunk, HunkLine;
    assert NewFileBody(body, path);
  }

  lemma HunkStarts(n: nat)
    ensures StartsWith(HunkText(n), "@@ ") && HunkText(n) != "" && HunkText(n)[0] == '@'
  {
    assert HunkText(n)[..3] == "@@ ";
  }

  lemma AddedHunkLine(line: string)
    requires AddedText(line)
    ensures HunkLine(line)
  {
    FirstCharDiffers(line, "@@ ");
    assert line[..1] == "+";
  }

  lemma OtherHunkLine(line: string)
    requires line != "" && line[0] == '-'
    ensures !HunkLine(line)
  {
    FirstCharDiffers(line, "@@ ");
    FirstCharDiffers(line, "+");
    FirstCharDiffers(line, "\\ No newline at end of file");
  }

  /** A file the base holds makes its section fail. */
  lemma ChangedSectionFails(section: seq<string>, path: string)
    requires section != [] && (|section| > 1 ==> section[1] == "--- a/" + path)
    ensures SectionPath(section) == None
  {
    var body := section[1..];
    if body != [] {
      assert body[0][4] == 'a';
      assert body[0] != "--- /dev/null";
      FirstCharDiffers(body[0], "new file mode ");
      FirstCharDiffers(body[0], "index ");
      assert !IsMetadata(body[0]);
    }
  }

  /** An unsafe path makes its section fail. */
  lemma UnsafeSectionFails(section: seq<string>, path: string)
    requires |section| >= 3 && section[0] == HeaderText(path) && PlainPath(path) && !SafePath(path)
    requires section[1] == "--- /dev/null" && section[2] == "+++ b/" + path
    ensures SectionPath(section) == None
  {
    HeaderPathsBack(path);
    var body := section[1..];
    assert body[0] == "--- /dev/null" && body[1] == "+++ b/" + path;
    assert IndexOf(body, "--- /dev/null") == 0;
    match NormalV2Path(path) {
      case None =>
      case Some(to) =>
        if to != path {
          assert ("+++ b/" + to)[6..] == to && ("+++ b/" + path)[6..] == path;
          assert IndexOf(body, "+++ b/" + to) != 1;
        }
    }
  }

  /** A header swallowed by an open last line leaves a minus line behind that no hunk may hold. */
  lemma SwallowedHeaderFails(section: seq<string>, path: string, k: nat)
    requires |section| >= 4 && section[0] == HeaderText(path)
    requires section[1] == "--- /dev/null"
    requires 4 <= k < |section| && section[k] != "" && section[k][0] == '-'
    ensures SectionPath(section) == None
  {
    var body := section[1..];
    assert body[0] == "--- /dev/null" && IndexOf(body, "--- /dev/null") == 0;
    OtherHunkLine(section[k]);
    assert body[2..][k - 3] == section[k];
    hide HunkLine, IsNewFileHunk, IsMetadata, NormalV2Path, HeaderPaths;
  }

  // ---- the whole patch ----------------------------------------------------

  function PatchLines(base: Tree, candidate: Tree, align: Alignment, paths: seq<string>): seq<string> {
    SplitLines(PatchOf(base, candidate, align, paths))
  }

  ghost predicate Printable(base: Tree, candidate: Tree, paths: seq<string>) {
    && (forall p :: p in paths ==> PlainPath(p) && (p !in base ==> LinesAt(candidate, p) != []))
    && forall i, j :: 0 <= i < j < |paths| ==> paths[i] != paths[j]
  }

  function SecondLine(base: Tree, path: string): string {
    if path in base then "--- a/" + path else "--- /dev/null"
  }

  lemma OpeningLines(base: Tree, path: string)
    requires PlainPath(path)
    ensures IsLine(Header(path)) && Ended(Header(path)) && Chomp(Header(path)) == HeaderText(path)
    ensures var second := SecondLine(base, path) + "\n";
      IsLine(second) && Ended(second) && Chomp(second) == SecondLine(base, path)
  {
    HeadLines(path, 1);
    assert Chomped(NewFileHead(path, 1))[0] == HeaderText(path);
    assert NewFileHead(path, 1)[0] == Header(path);
    NoBreakConcat("--- a/", path);
    EndedText(SecondLine(base, path));
  }

  lemma SectionOpens(base: Tree, candidate: Tree, align: Alignment, path: string)
    ensures var section := Section(base, candidate, align, path);
      |section| >= 2 && section[0] == Header(path) && section[1] == SecondLine(base, path) + "\n"
  {
    assert "--- /dev/null" + "\n" == "--- /dev/null\n";
  }

  /** Every section begins with its header and its old-file line, whatever follows. */
  lemma PatchOpens(base: Tree, candidate: Tree, align: Alignment, paths: seq<string>)
    requires paths != [] && PlainPath(paths[0])
    ensures var text := PatchOf(base, candidate, align, paths);
      && TakeLine(text).0 == Header(paths[0])
      && SplitKeep(TakeLine(text).1) != []
      && Chomp(SplitKeep(TakeLine(text).1)[0]) == SecondLine(base, paths[0])
    ensures PatchLines(base, candidate, align, paths)
         == [HeaderText(paths[0])]
            + Chomped(SplitKeep(TakeLine(PatchOf(base, candidate, align, paths)).1))
  {
    var section := Section(base, candidate, align, paths[0]);
    var rest := PatchOf(base, candidate, align, paths[1..]);
    SectionOpens(base, candidate, align, paths[0]);
    OpeningLines(base, paths[0]);
    hide Section, Header, HeaderText, SecondLine, Concat, TakeLine, SplitKeep, SplitLines, Chomped, Chomp, PlainPath,
      IsLine, Ended;
    OpensWith(section, rest);
    assert PatchOf(base, candidate, align, paths) == Concat(section) + rest;
  }

  lemma OpensWith(section: seq<string>, rest: string)
    requires |section| >= 2
    requires IsLine(section[0]) && Ended(section[0]) && IsLine(section[1]) && Ended(section[1])
    ensures var text := Concat(section) + rest;
      && TakeLine(text).0 == section[0]
      && SplitKeep(TakeLine(text).1) != []
      && SplitKeep(TakeLine(text).1)[0] == section[1]
      && SplitLines(text) == [Chomp(section[0])] + Chomped(SplitKeep(TakeLine(text).1))
  {
    hide IsLine, Ended, TakeLine, SplitKeep, Chomp, Chomped, Concat;
    var tail := Concat(section[2..]) + rest;
    TwoChunks(section, rest);
    TakeEndedLine(section[0], section[1] + tail);
    SplitEndedLine(section[1], tail);
    SplitEndedLine(section[0], section[1] + tail);
    ChompedAppend([section[0]], SplitKeep(section[1] + tail));
    ChompedOne(section[0]);
  }

  lemma TwoChunks(section: seq<string>, rest: string)
    requires |section| >= 2
    ensures Concat(section) + rest == section[0] + (section[1] + (Concat(section[2..]) + rest))
  {
    hide Concat;
    var tail := section[2..];
    assert section == [section[0]] + ([section[1]] + tail);
    ConcatStep(section[0], [section[1]] + tail);
    ConcatStep(section[1], tail);
    Associate(section[0], section[1] + Concat(tail), rest);
    Associate(section[1], Concat(tail), rest);
  }

  lemma ChompedOne(line: string)
    ensures Chomped([line]) == [Chomp(line)]
  {
  }

  /** The reading of a printed patch, section by section. */
  lemma {:induction false} ParsePatch(base: Tree, candidate: Tree, align: Alignment,
                                      paths: seq<string>, seen: seq<string>)
    requires Printable(base, candidate, paths) && forall p :: p in paths ==> p !in seen
    ensures ParseSections(PatchLines(base, candidate, align, paths), seen)
         == if OnlyAddsFiles(base, candidate, paths) then Some(seen + paths) else None
  {
    hide Printable, SectionPath, SafePath, PatchLines, OnlyAddsFiles, EndsInBreak, SectionEnd, ParseSections;
    NoLines(base, candidate, align);
    if paths == [] {
      NothingParsed(seen);
      assert seen + paths == seen;
    } else {
      var p, rest := paths[0], paths[1..];
      assert p in paths;
      PrintableTail(base, candidate, paths);
      OnlyAddsTail(base, candidate, paths);
      if p !in base && SafePath(p) && (rest == [] || EndsInBreak(candidate, p)) {
        GoodSection(base, candidate, align, paths);
        FirstParsed(PatchLines(base, candidate, align, paths), p, seen);
        OneSeen(paths, seen);
        ParsePatch(base, candidate, align, rest, seen + [p]);
      } else {
        BadSection(base, candidate, align, paths);
        NothingAccepted(PatchLines(base, candidate, align, paths), seen);
      }
    }
  }

  lemma OneSeen(paths: seq<string>, seen: seq<string>)
    requires paths != [] && paths[0] !in paths[1..] && forall p :: p in paths ==> p !in seen
    ensures forall p :: p in paths[1..] ==> p !in seen + [paths[0]]
    ensures (seen + [paths[0]]) + paths[1..] == seen + paths
  {
    assert paths == [paths[0]] + paths[1..];
    forall p | p in paths[1..] ensures p !in seen + [paths[0]] { assert p in paths; }
  }

  lemma NothingParsed(seen: seq<string>)
    ensures ParseSections([], seen) == Some(seen)
  {
  }

  lemma FirstParsed(lines: seq<string>, path: string, seen: seq<string>)
    requires lines != [] && SectionPath(lines[..SectionEnd(lines)]) == Some(path) && path !in seen
    ensures ParseSections(lines, seen) == ParseSections(lines[SectionEnd(lines)..], seen + [path])
  {
    hide SectionPath, SectionEnd;
  }

  lemma NothingAccepted(lines: seq<string>, seen: seq<string>)
    requires lines != [] && SectionPath(lines[..SectionEnd(lines)]) == None
    ensures ParseSections(lines, seen) == None
  {
    hide SectionPath, SectionEnd;
  }

  lemma NoLines(base: Tree, candidate: Tree, align: Alignment)
    ensures PatchLines(base, candidate, align, []) == [] && OnlyAddsFiles(base, candidate, [])
  {
  }

  lemma PrintableTail(base: Tree, candidate: Tree, paths: seq<string>)
    requires Printable(base, candidate, paths) && paths != []
    ensures Printable(base, candidate, paths[1..]) && paths[0] !in paths[1..]
    ensures PlainPath(paths[0]) && (paths[0] !in base ==> LinesAt(candidate, paths[0]) != [])
    ensures |paths| > 1 ==> PlainPath(paths[1])
  {
    assert forall i :: 0 <= i < |paths[1..]| ==> paths[1..][i] == paths[i + 1];
    assert paths[0] in paths;
    assert |paths| > 1 ==> paths[1] in paths;
  }

  lemma OnlyAddsTail(base: Tree, candidate: Tree, paths: seq<string>)
    requires paths != []
    ensures OnlyAddsFiles(base, candidate, paths)
       <==> && paths[0] !in base && SafePath(paths[0])
            && (paths[1..] == [] || EndsInBreak(candidate, paths[0]))
            && OnlyAddsFiles(base, candidate, paths[1..])
  {
    hide SafePath, EndsInBreak;
    var rest := paths[1..];
    assert forall i :: 0 <= i < |rest| ==> rest[i] == paths[i + 1];
    if OnlyAddsFiles(base, candidate, rest) && paths[0] !in base && SafePath(paths[0])
      && (rest == [] || EndsInBreak(candidate, paths[0])) {
      forall i | 0 <= i < |paths| ensures paths[i] !in base && SafePath(paths[i]) {
        assert i > 0 ==> paths[i] == rest[i - 1];
      }
      forall i | 0 <= i < |paths| - 1 ensures EndsInBreak(candidate, paths[i]) {
        assert i > 0 ==> paths[i] == rest[i - 1];
      }
    }
  }

  lemma GoodSection(base: Tree, candidate: Tree, align: Alignment, paths: seq<string>)
    requires Printable(base, candidate, paths) && paths != []
    requires paths[0] !in base && SafePath(paths[0]) && (paths[1..] == [] || EndsInBreak(candidate, paths[0]))
    ensures var lines, rest := PatchLines(base, candidate, align, paths),
              PatchLines(base, candidate, align, paths[1..]);
      && lines != []
      && SectionPath(lines[..SectionEnd(lines)]) == Some(paths[0])
      && lines[SectionEnd(lines)..] == rest
  {
    var p, rest := paths[0], paths[1..];
    PrintableTail(base, candidate, paths);
    var more := GoodSectionLines(base, candidate, align, paths);
    var n := |LinesAt(candidate, p)|;
    NewSectionPath(p, n, more);
    SectionLinesNoStart(p, n, more);
    if rest != [] {
      FirstLines(base, candidate, align, rest);
      HeaderStarts(rest[0]);
    } else {
      NoLines(base, candidate, align);
    }
    hide NewHead, IsSectionStart, PatchLines, SectionPath, HeaderText, LinesAt, SafePath, Printable;
    SectionThenRest(NewHead(p, n) + more, PatchLines(base, candidate, align, rest));
  }

  lemma SectionThenRest(section: seq<string>, rest: seq<string>)
    requires section != [] && (rest != [] ==> IsSectionStart(rest[0]))
    requires forall i :: 1 <= i < |section| ==> !IsSectionStart(section[i])
    ensures var lines := section + rest;
      lines[..SectionEnd(lines)] == section && lines[SectionEnd(lines)..] == rest
  {
    hide IsSectionStart;
    var lines := section + rest;
    assert forall i :: 1 <= i < |section| ==> lines[i] == section[i];
    SectionEndIs(lines, |section|);
  }

  /** The first two lines of a printed patch. */
  lemma FirstLines(base: Tree, candidate: Tree, align: Alignment, paths: seq<string>)
    requires paths != [] && PlainPath(paths[0])
    ensures var lines := PatchLines(base, candidate, align, paths);
      |lines| >= 2 && lines[0] == HeaderText(paths[0]) && lines[1] == SecondLine(base, paths[0])
  {
    PatchOpens(base, candidate, align, paths);
    hide PatchOf, PatchLines, HeaderText, SecondLine, TakeLine, SplitKeep, Chomp;
  }

  lemma GoodSectionLines(base: Tree, candidate: Tree, align: Alignment, paths: seq<string>)
    returns (more: seq<string>)
    requires Printable(base, candidate, paths) && paths != []
    requires paths[0] !in base && (paths[1..] == [] || EndsInBreak(candidate, paths[0]))
    ensures forall i :: 0 <= i < |more| ==> AddedText(more[i])
    ensures LinesAt(candidate, paths[0]) != []
    ensures PatchLines(base, candidate, align, paths)
         == NewHead(paths[0], |LinesAt(candidate, paths[0])|) + more + PatchLines(base, candidate, align, paths[1..])
  {
    hide NewFileHead, Added, Concat, SplitKeep, Chomped, NewHead, LinesAt, PatchOf, IsLine, Ended, AddedText;
    var p, rest := paths[0], paths[1..];
    PrintableTail(base, candidate, paths);
    var file := LinesAt(candidate, p);
    var tail := PatchOf(base, candidate, align, rest);
    var head := NewFileHead(p, |file|);
    NewPatchText(base, candidate, align, paths);
    ClosedEnd(base, candidate, align, paths);
    ClosedSection(p, file, tail);
    HeadLines(p, |file|);
    AddedTexts(file);
    more := Chomped(Added(file));
    ChompedAppend(head + Added(file), SplitKeep(tail));
    ChompedAppend(head, Added(file));
  }

  lemma ClosedEnd(base: Tree, candidate: Tree, align: Alignment, paths: seq<string>)
    requires Printable(base, candidate, paths) && paths != [] && paths[0] !in base
    requires paths[1..] == [] || EndsInBreak(candidate, paths[0])
    ensures var file := LinesAt(candidate, paths[0]);
      file != [] && (Ended(file[|file| - 1]) || PatchOf(base, candidate, align, paths[1..]) == "")
  {
    hide LinesAt, Section, Concat;
    PrintableTail(base, candidate, paths);
  }

  lemma SectionLinesNoStart(path: string, n: nat, more: seq<string>)
    requires forall i :: 0 <= i < |more| ==> AddedText(more[i])
    ensures var section := NewHead(path, n) + more;
      forall i :: 1 <= i < |section| ==> !IsSectionStart(section[i])
  {
    var section := NewHead(path, n) + more;
    HunkStarts(n);
    forall i | 1 <= i < |section| ensures !IsSectionStart(section[i]) {
      if i >= 4 { assert section[i] == more[i - 4]; }
      NotAStart(section[i]);
    }
  }

  lemma BadSection(base: Tree, candidate: Tree, align: Alignment, paths: seq<string>)
    requires Printable(base, candidate, paths) && paths != []
    requires !(paths[0] !in base && SafePath(paths[0]) && (paths[1..] == [] || EndsInBreak(candidate, paths[0])))
    ensures var lines := PatchLines(base, candidate, align, paths);
      lines != [] && SectionPath(lines[..SectionEnd(lines)]) == None
  {
    hide PatchLines, SectionPath, SafePath, HeaderText, LinesAt, EndsInBreak, Printable, PlainPath, SectionEnd;
    PrintableTail(base, candidate, paths);
    FirstLines(base, candidate, align, paths);
    if paths[0] in base {
      ChangedSection(base, candidate, align, paths);
    } else if !SafePath(paths[0]) {
      UnsafeSection(base, candidate, align, paths);
    } else {
      RunOnSection(base, candidate, align, paths);
    }
  }

  lemma ChangedSection(base: Tree, candidate: Tree, align: Alignment, paths: seq<string>)
    requires Printable(base, candidate, paths) && paths != [] && PlainPath(paths[0]) && paths[0] in base
    ensures var lines := PatchLines(base, candidate, align, paths);
      lines != [] && SectionPath(lines[..SectionEnd(lines)]) == None
  {
    FirstLines(base, candidate, align, paths);
    hide PatchLines, SectionPath, HeaderText, Printable, PlainPath, SectionEnd;
    var lines := PatchLines(base, candidate, align, paths);
    ChangedSectionFails(lines[..SectionEnd(lines)], paths[0]);
  }

  lemma UnsafeSection(base: Tree, candidate: Tree, align: Alignment, paths: seq<string>)
    requires Printable(base, candidate, paths) && paths != [] && PlainPath(paths[0])
    requires paths[0] !in base && !SafePath(paths[0])
    ensures var lines := PatchLines(base, candidate, align, paths);
      lines != [] && SectionPath(lines[..SectionEnd(lines)]) == None
  {
    hide PatchLines, SectionPath, SafePath, LinesAt, Printable, PlainPath, NewHead, SectionEnd;
    NewSectionLines(base, candidate, align, paths);
    UnsafeHead(PatchLines(base, candidate, align, paths), paths[0], |LinesAt(candidate, paths[0])|);
  }

  lemma UnsafeHead(lines: seq<string>, path: string, n: nat)
    requires |lines| >= 4 && lines[..4] == NewHead(path, n) && PlainPath(path) && !SafePath(path)
    ensures SectionPath(lines[..SectionEnd(lines)]) == None
  {
    hide SectionPath, SafePath, HeaderText, PlainPath, IsSectionStart, SectionEnd, HunkText;
    assert forall i :: 0 <= i < 4 ==> lines[i] == NewHead(path, n)[i];
    NotAStart(lines[1]);
    NotAStart(lines[2]);
    var end := SectionEnd(lines);
    assert end != 1 && end != 2;
    UnsafeSectionFails(lines[..end], path);
  }

  lemma RunOnSection(base: Tree, candidate: Tree, align: Alignment, paths: seq<string>)
    requires Printable(base, candidate, paths) && paths != [] && PlainPath(paths[0])
    requires paths[0] !in base && paths[1..] != [] && !EndsInBreak(candidate, paths[0])
    ensures var lines := PatchLines(base, candidate, align, paths);
      lines != [] && SectionPath(lines[..SectionEnd(lines)]) == None
  {
    FirstLines(base, candidate, align, paths);
    hide PatchLines, SectionPath, HeaderText, LinesAt, EndsInBreak, Printable, PlainPath, SectionEnd;
    var lines := PatchLines(base, candidate, align, paths);
    var k := SwallowedHeader(base, candidate, align, paths);
    SwallowedHeaderFails(lines[..SectionEnd(lines)], paths[0], k);
  }

  lemma NewSectionLines(base: Tree, candidate: Tree, align: Alignment, paths: seq<string>)
    requires Printable(base, candidate, paths) && paths != [] && paths[0] !in base
    ensures var lines := PatchLines(base, candidate, align, paths);
      |lines| >= 4 && lines[..4] == NewHead(paths[0], |LinesAt(candidate, paths[0])|)
  {
    hide NewFileHead, Added, Concat, SplitKeep, Chomped, NewHead, LinesAt, PatchOf, IsLine, Ended;
    var p := paths[0];
    PrintableTail(base, candidate, paths);
    var file := LinesAt(candidate, p);
    var head, tail := NewFileHead(p, |file|), PatchOf(base, candidate, align, paths[1..]);
    NewPatchText(base, candidate, align, paths);
    HeadLines(p, |file|);
    FourLines(p, |file|);
    ConcatAppend(head, Added(file));
    assert Concat(head) + Concat(Added(file)) + tail == Concat(head) + (Concat(Added(file)) + tail);
    SplitEndedLines(head, Concat(Added(file)) + tail);
    ChompedAppend(head, SplitKeep(Concat(Added(file)) + tail));
  }

  lemma FourLines(path: string, n: nat)
    ensures |NewHead(path, n)| == |NewFileHead(path, n)| == 4
  {
  }

  /** After an open last line, the next section's header is part of that line, and its
      old-file line stands in the section before it. */
  lemma SwallowedHeader(base: Tree, candidate: Tree, align: Alignment, paths: seq<string>) returns (k: nat)
    requires Printable(base, candidate, paths) && |paths| > 1
    requires paths[0] !in base && !EndsInBreak(candidate, paths[0])
    ensures var lines := PatchLines(base, candidate, align, paths);
      && lines != [] && 4 <= k < SectionEnd(lines)
      && lines[k] != "" && lines[k][0] == '-'
  {
    var p, q := paths[0], paths[1];
    PrintableTail(base, candidate, paths);
    var n := |LinesAt(candidate, p)|;
    var more, rest := OpenSectionLines(base, candidate, align, paths);
    var lines := PatchLines(base, candidate, align, paths);
    var front := NewHead(p, n) + more;
    SectionLinesNoStart(p, n, more);
    k := |front|;
    assert lines[k] == SecondLine(base, q);
    NotAStart(lines[k]);
    hide IsSectionStart, PatchLines, LinesAt, NewHead, EndsInBreak;
    forall i | 1 <= i <= k ensures !IsSectionStart(lines[i]) {
      assert i < k ==> lines[i] == front[i];
    }
  }

  lemma OpenSectionLines(base: Tree, candidate: Tree, align: Alignment, paths: seq<string>)
    returns (more: seq<string>, rest: seq<string>)
    requires Printable(base, candidate, paths) && |paths| > 1
    requires paths[0] !in base && !EndsInBreak(candidate, paths[0])
    ensures forall i :: 0 <= i < |more| ==> AddedText(more[i])
    ensures rest != [] && rest[0] == SecondLine(base, paths[1])
    ensures PatchLines(base, candidate, align, paths)
         == NewHead(paths[0], |LinesAt(candidate, paths[0])|) + more + rest
  {
    hide NewFileHead, Added, Concat, SplitKeep, NewHead, LinesAt, TakeLine, Header, HeaderText, PatchOf, Chomp,
      AddedText, Section, IsLine, Ended, SecondLine, Chomped;
    var p, q := paths[0], paths[1];
    PrintableTail(base, candidate, paths);
    var file := LinesAt(candidate, p);
    var tail := PatchOf(base, candidate, align, paths[1..]);
    NewPatchText(base, candidate, align, paths);
    OpenEnd(base, candidate, align, paths);
    OpenSection(p, file, tail);
    PatchOpens(base, candidate, align, paths[1..]);
    var init, last := file[..|file| - 1], "+" + file[|file| - 1];
    OpeningLines(base, q);
    JoinedLine(file[|file| - 1], q);
    AddedTexts(init);
    HeadLines(p, |file|);
    var head, joined, kept := NewFileHead(p, |file|), [last + Header(q)], SplitKeep(TakeLine(tail).1);
    more, rest := Chomped(Added(init)) + Chomped(joined), Chomped(kept);
    ChompedAppend(head + Added(init) + joined, kept);
    ChompedAppend(head + Added(init), joined);
    ChompedAppend(head, Added(init));
    AppendFour(Chomped(head), Chomped(Added(init)), Chomped(joined), rest);
  }

  lemma NewPatchText(base: Tree, candidate: Tree, align: Alignment, paths: seq<string>)
    requires paths != [] && paths[0] !in base
    ensures var file := LinesAt(candidate, paths[0]);
      PatchOf(base, candidate, align, paths)
      == Concat(NewFileHead(paths[0], |file|) + Added(file)) + PatchOf(base, candidate, align, paths[1..])
  {
  }

  lemma OpenEnd(base: Tree, candidate: Tree, align: Alignment, paths: seq<string>)
    requires Printable(base, candidate, paths) && paths != []
    requires paths[0] !in base && !EndsInBreak(candidate, paths[0])
    ensures var file := LinesAt(candidate, paths[0]); file != [] && !Ended(file[|file| - 1])
  {
    PrintableTail(base, candidate, paths);
  }

  lemma AddedTexts(lines: seq<string>)
    requires forall i :: 0 <= i < |lines| ==> IsLine(lines[i])
    ensures forall i :: 0 <= i < |lines| ==> AddedText(Chomped(Added(lines))[i])
  {
    forall i | 0 <= i < |lines| ensures AddedText(Chomped(Added(lines))[i]) { AddedLine(lines[i]); }
  }

  lemma AppendFour(a: seq<string>, b: seq<string>, c: seq<string>, d: seq<string>)
    ensures a + b + c + d == a + (b + c) + d
  {
  }

  lemma JoinedLine(line: string, path: string)
    ensures AddedText(Chomp("+" + line + Header(path)))
  {
    var joined := "+" + line + Header(path);
    assert joined[0] == '+' && |joined| > 1;
  }
}
