/** The grammar of the patches that the second parser accepts, written out line by line, and that
    the parser accepts exactly those texts. */
module PatchGrammar {
  import opened Text
  import opened Lines
  import opened PatchPolicy
  import opened PatchAcceptance
  import opened PatchBreaks
  import opened PatchNames
  import JsonText

  // ---- header lines -------------------------------------------------------------------------

  predicate HeaderNames(line: string, a: string, b: string) {
    line == "diff --git a/" + a + " b/" + b && a != "" && b != "" && NoBlank(a) && NoBlank(b)
  }

  lemma HeaderRead(line: string, a: string, b: string)
    requires HeaderNames(line, a, b)
    ensures HeaderPaths(line) == Some((a, b))
  {
    var after := " b/" + b;
    assert line[..13] == "diff --git a/" && line[13..] == a + after;
    WordAll(a, after);
    assert after[..3] == " b/" && after[3..] == b && b + "" == b;
    WordAll(b, "");
    hide Word;
  }

  lemma HeaderWritten(line: string, a: string, b: string)
    requires HeaderPaths(line) == Some((a, b))
    ensures HeaderNames(line, a, b)
  {
    hide Word;
    var after := Word(line[13..]).1;
    WordShape(line[13..]);
    WordShape(after[3..]);
    assert line == line[..13] + line[13..] && after == after[..3] + after[3..];
  }

  lemma HeaderExactly(line: string, a: string, b: string)
    ensures HeaderPaths(line) == Some((a, b)) <==> HeaderNames(line, a, b)
  {
    if HeaderNames(line, a, b) { HeaderRead(line, a, b); }
    if HeaderPaths(line) == Some((a, b)) { HeaderWritten(line, a, b); }
  }

  // ---- metadata lines -------------------------------------------------------------------------

  predicate Octal(mode: string) {
    |mode| == 6 && forall i :: 0 <= i < |mode| ==> mode[i] in "01234567"
  }

  predicate ModeText(line: string, mode: string) {
    line == "new file mode " + mode && Octal(mode) && mode != "120000"
  }

  lemma OctalExactly(mode: string)
    ensures IsFileMode(mode) <==> Octal(mode)
  {
    forall c: char ensures '0' <= c <= '7' <==> c in "01234567" { OctalDigit(c); }
  }

  lemma OctalDigit(c: char)
    ensures '0' <= c <= '7' <==> c in "01234567"
  {
    assert forall i :: 0 <= i < 8 ==> "01234567"[i] == '0' + i as char;
    if '0' <= c <= '7' { assert "01234567"[c as int - '0' as int] == c; }
  }

  /** Zeros for the missing old file, the hash of the new one, and possibly its mode. */
  predicate IndexText(line: string, zeros: string, hex: string, mode: string) {
    && line == "index " + zeros + ".." + hex + mode
    && zeros != "" && (forall i :: 0 <= i < |zeros| ==> zeros[i] == '0')
    && hex != "" && (forall i :: 0 <= i < |hex| ==> IsHex(hex[i]))
    && (mode != "" ==> mode[0] == ' ' && Octal(mode[1..]))
  }

  ghost predicate Metadata(line: string) {
    (exists mode :: ModeText(line, mode)) || exists zeros, hex, mode :: IndexText(line, zeros, hex, mode)
  }

  lemma {:induction false} ZerosThen(zeros: string, rest: string)
    requires (forall i :: 0 <= i < |zeros| ==> zeros[i] == '0') && (rest != "" ==> rest[0] != '0')
    ensures SkipZeros(zeros + rest) == rest
  {
    if zeros == "" {
      assert zeros + rest == rest;
    } else {
      assert (zeros + rest)[1..] == zeros[1..] + rest;
      ZerosThen(zeros[1..], rest);
    }
  }

  lemma {:induction false} HexThen(hex: string, rest: string)
    requires (forall i :: 0 <= i < |hex| ==> IsHex(hex[i])) && (rest != "" ==> !IsHex(rest[0]))
    ensures SkipHex(hex + rest) == rest
  {
    if hex == "" {
      assert hex + rest == rest;
    } else {
      assert (hex + rest)[1..] == hex[1..] + rest;
      HexThen(hex[1..], rest);
    }
  }

  lemma {:induction false} ZerosOf(s: string) returns (n: nat)
    ensures n <= |s| && SkipZeros(s) == s[n..] && forall i :: 0 <= i < n ==> s[i] == '0'
  {
    n := 0;
    if s != "" && s[0] == '0' {
      n := ZerosOf(s[1..]);
      assert s[1..][n..] == s[n + 1..] && forall i :: 0 < i < n + 1 ==> s[i] == s[1..][i - 1];
      n := n + 1;
    }
  }

  lemma {:induction false} HexOf(s: string) returns (n: nat)
    ensures n <= |s| && SkipHex(s) == s[n..] && forall i :: 0 <= i < n ==> IsHex(s[i])
  {
    n := 0;
    if s != "" && IsHex(s[0]) {
      n := HexOf(s[1..]);
      assert s[1..][n..] == s[n + 1..] && forall i :: 0 < i < n + 1 ==> s[i] == s[1..][i - 1];
      n := n + 1;
    }
  }

  lemma IndexRead(line: string, zeros: string, hex: string, mode: string)
    requires IndexText(line, zeros, hex, mode)
    ensures StartsWith(line, "index ") && IsIndexLine(line[6..])
  {
    var dots := ".." + hex + mode;
    assert line[..6] == "index " && line[6..] == zeros + dots;
    ZerosThen(zeros, dots);
    assert dots[..2] == ".." && dots[2..] == hex + mode;
    HexThen(hex, mode);
    if mode != "" { OctalExactly(mode[1..]); }
  }

  lemma IndexPieces(rest: string) returns (zeros: string, hex: string, mode: string)
    requires IsIndexLine(rest)
    ensures rest == zeros + (".." + (hex + mode))
    ensures zeros != "" && forall i :: 0 <= i < |zeros| ==> zeros[i] == '0'
    ensures hex != "" && forall i :: 0 <= i < |hex| ==> IsHex(hex[i])
    ensures mode != "" ==> mode[0] == ' ' && IsFileMode(mode[1..])
  {
    hide SkipZeros, SkipHex, IsHex, IsFileMode;
    var n := ZerosOf(rest);
    var dots := rest[n..];
    var tail := dots[2..];
    var k := HexOf(tail);
    zeros, hex, mode := rest[..n], tail[..k], tail[k..];
    assert rest == zeros + dots && dots == dots[..2] + tail && tail == hex + mode;
  }

  lemma IndexWritten(line: string) returns (zeros: string, hex: string, mode: string)
    requires StartsWith(line, "index ") && IsIndexLine(line[6..])
    ensures IndexText(line, zeros, hex, mode)
  {
    hide IsIndexLine, IsHex, IsFileMode;
    zeros, hex, mode := IndexPieces(line[6..]);
    if mode != "" { OctalExactly(mode[1..]); }
    hide Octal;
    assert line == line[..6] + line[6..];
    assert "index " + (zeros + (".." + (hex + mode))) == "index " + zeros + ".." + hex + mode;
  }

  lemma MetadataExactly(line: string)
    ensures IsMetadata(line) <==> Metadata(line)
  {
    hide IsIndexLine, IndexText;
    if exists mode :: ModeText(line, mode) {
      var mode :| ModeText(line, mode);
      OctalExactly(mode);
      assert line[..14] == "new file mode " && line[14..] == mode;
    }
    if exists zeros, hex, mode :: IndexText(line, zeros, hex, mode) {
      var zeros, hex, mode :| IndexText(line, zeros, hex, mode);
      IndexRead(line, zeros, hex, mode);
    }
    if IsMetadata(line) {
      if StartsWith(line, "index ") && IsIndexLine(line[6..]) {
        var zeros, hex, mode := IndexWritten(line);
      } else {
        OctalExactly(line[14..]);
        assert line == line[..14] + line[14..] && ModeText(line, line[14..]);
      }
    }
  }

  // ---- hunk lines ---------------------------------------------------------------------------

  predicate Count(n: string) { n != "" && JsonText.AllDigits(n) && n[0] != '0' }

  /** A range of the new file alone, and possibly a heading behind it. */
  predicate HunkParts(line: string, n: string, count: string, heading: string) {
    && line == "@@ -0,0 +" + n + count + " @@" + heading && Count(n)
    && (count != "" ==> count[0] == ',' && Count(count[1..]))
    && (heading != "" ==> heading[0] == ' ')
  }

  ghost predicate Hunk(line: string) { exists n, count, heading :: HunkParts(line, n, count, heading) }

  lemma TailExactly(s: string)
    ensures HunkTail(s) <==> exists heading :: s == " @@" + heading && (heading != "" ==> heading[0] == ' ')
  {
    if HunkTail(s) {
      assert s == " @@" + s[3..];
    } else if exists heading :: s == " @@" + heading && (heading != "" ==> heading[0] == ' ') {
      var heading :| s == " @@" + heading && (heading != "" ==> heading[0] == ' ');
      assert s[..3] == " @@";
    }
  }

  lemma CountRead(count: string, tail: string)
    requires (count != "" ==> count[0] == ',' && Count(count[1..])) && HunkTail(tail)
    ensures var after := count + tail;
      && after != "" && !JsonText.IsDigit(after[0])
      && if StartsWith(after, ",") then
           var (m, rest) := JsonText.TakeDigits(after[1..]); IsCount(m) && HunkTail(rest)
         else HunkTail(after)
  {
    hide JsonText.TakeDigits;
    assert tail[..3] == " @@" && tail[0] == ' ';
    if count != "" {
      assert (count + tail)[..1] == "," && (count + tail)[1..] == count[1..] + tail;
      JsonText.TakeDigitsAll(count[1..], tail);
    } else {
      assert count + tail == tail;
    }
  }

  lemma HunkRead(line: string, n: string, count: string, heading: string)
    requires HunkParts(line, n, count, heading)
    ensures IsNewFileHunk(line)
  {
    hide JsonText.TakeDigits, HunkTail;
    var tail := " @@" + heading;
    TailExactly(tail);
    CountRead(count, tail);
    assert line[..9] == "@@ -0,0 +" && line[9..] == n + (count + tail);
    JsonText.TakeDigitsAll(n, count + tail);
  }

  /** What stands behind the start of the range. */
  lemma CountWritten(after: string) returns (count: string, heading: string)
    requires if StartsWith(after, ",") then
               var (m, tail) := JsonText.TakeDigits(after[1..]); IsCount(m) && HunkTail(tail)
             else HunkTail(after)
    ensures after == count + " @@" + heading && (count != "" ==> count[0] == ',' && Count(count[1..]))
    ensures heading != "" ==> heading[0] == ' '
  {
    hide JsonText.TakeDigits, HunkTail;
    if StartsWith(after, ",") {
      var (m, tail) := JsonText.TakeDigits(after[1..]);
      TailExactly(tail);
      heading :| tail == " @@" + heading && (heading != "" ==> heading[0] == ' ');
      count := "," + m;
      assert after == after[..1] + after[1..] && count[1..] == m;
    } else {
      TailExactly(after);
      heading :| after == " @@" + heading && (heading != "" ==> heading[0] == ' ');
      count := "";
    }
  }

  lemma HunkWritten(line: string) returns (n: string, count: string, heading: string)
    requires IsNewFileHunk(line)
    ensures HunkParts(line, n, count, heading)
  {
    hide JsonText.TakeDigits, HunkTail;
    var after := JsonText.TakeDigits(line[9..]).1;
    n := JsonText.TakeDigits(line[9..]).0;
    count, heading := CountWritten(after);
    assert line == line[..9] + line[9..];
  }

  lemma HunkExactly(line: string)
    ensures IsNewFileHunk(line) <==> Hunk(line)
  {
    hide IsNewFileHunk, HunkParts;
    if IsNewFileHunk(line) { var n, count, heading := HunkWritten(line); }
    if Hunk(line) {
      var n, count, heading :| HunkParts(line, n, count, heading);
      HunkRead(line, n, count, heading);
    }
  }

  /** A line below the first hunk line. */
  ghost predicate BodyLine(line: string) {
    if StartsWith(line, "@@ ") then Hunk(line)
    else StartsWith(line, "+") || StartsWith(line, "\\ No newline at end of file")
  }

  // ---- sections -----------------------------------------------------------------------------

  /** A header that names one path twice, `m` metadata lines, the two file lines of a new file, a hunk
      line, and the body. */
  ghost predicate SectionParts(section: seq<string>, path: string, a: string, b: string, m: nat) {
    && |section| > m + 3
    && HeaderNames(section[0], a, b) && NamesPath(a, path) && NamesPath(b, path)
    && (forall i :: 0 < i <= m ==> Metadata(section[i]))
    && section[m + 1] == "--- /dev/null" && section[m + 2] == "+++ b/" + path
    && Hunk(section[m + 3]) && (forall i :: m + 3 < i < |section| ==> BodyLine(section[i]))
  }

  ghost predicate NewFileSection(section: seq<string>, path: string) {
    exists a, b, m :: SectionParts(section, path, a, b, m)
  }

  lemma BodyExactly(line: string)
    ensures HunkLine(line) <==> BodyLine(line)
  {
    HunkExactly(line);
    hide IsNewFileHunk, Hunk, StartsWith;
  }

  lemma NoFileLine(line: string)
    requires IsMetadata(line)
    ensures line != "" && line[0] in {'n', 'i'}
  {
    MetadataLegal(line);
  }

  lemma {:induction false} IndexIs(body: seq<string>, item: string, m: nat)
    requires m < |body| && body[m] == item && forall i :: 0 <= i < m ==> body[i] != item
    ensures IndexOf(body, item) == m
  {
    var i := IndexOf(body, item);
    assert i < |body| by { IndexFound(body, item, m); }
  }

  lemma {:induction false} IndexFound(body: seq<string>, item: string, m: nat)
    requires m < |body| && body[m] == item
    ensures IndexOf(body, item) <= m
  {
    if body[0] != item { IndexFound(body[1..], item, m - 1); }
  }

  /** A body in which the two file lines stand behind `m` metadata lines. */
  predicate BodyAt(body: seq<string>, path: string, m: nat) {
    && |body| > m + 2
    && (forall i :: 0 <= i < m ==> IsMetadata(body[i]))
    && body[m] == "--- /dev/null" && body[m + 1] == "+++ b/" + path
    && IsNewFileHunk(body[m + 2]) && (forall i :: m + 2 < i < |body| ==> HunkLine(body[i]))
  }

  lemma FirstIsHunkLine(line: string)
    requires IsNewFileHunk(line)
    ensures HunkLine(line)
  {
    assert StartsWith(line, "@@ -0,0 +");
    assert line[..9][..3] == line[..3] && "@@ -0,0 +"[..3] == "@@ ";
  }

  lemma BodyRead(body: seq<string>, path: string, m: nat)
    requires BodyAt(body, path, m)
    ensures NewFileBody(body, path)
  {
    hide IsMetadata, IsNewFileHunk, HunkLine;
    assert body[m][0] == '-' && body[m + 1][0] == '+';
    forall i | 0 <= i < m ensures body[i] != body[m] && body[i] != body[m + 1] { NoFileLine(body[i]); }
    IndexIs(body, "--- /dev/null", m);
    IndexIs(body, "+++ b/" + path, m + 1);
    var hunks := body[m + 2..];
    assert hunks[0] == body[m + 2];
    FirstIsHunkLine(hunks[0]);
    forall i | 0 <= i < |hunks| ensures HunkLine(hunks[i]) { assert hunks[i] == body[m + 2 + i]; }
  }

  lemma BodyWritten(body: seq<string>, path: string) returns (m: nat)
    requires NewFileBody(body, path)
    ensures BodyAt(body, path, m)
  {
    hide IsMetadata, IsNewFileHunk, HunkLine;
    m := IndexOf(body, "--- /dev/null");
    var hunks := body[m + 2..];
    assert hunks[0] == body[m + 2];
    forall i | m + 2 < i < |body| ensures HunkLine(body[i]) { assert hunks[i - m - 2] == body[i]; }
  }

  lemma BodyShift(section: seq<string>, path: string, m: nat)
    requires section != []
    ensures BodyAt(section[1..], path, m)
       <==> && |section| > m + 3 && (forall i :: 0 < i <= m ==> Metadata(section[i]))
            && section[m + 1] == "--- /dev/null" && section[m + 2] == "+++ b/" + path
            && Hunk(section[m + 3]) && (forall i :: m + 3 < i < |section| ==> BodyLine(section[i]))
  {
    var body := section[1..];
    forall i | 0 < i < |section|
      ensures body[i - 1] == section[i]
      ensures IsMetadata(section[i]) <==> Metadata(section[i])
      ensures IsNewFileHunk(section[i]) <==> Hunk(section[i])
      ensures HunkLine(section[i]) <==> BodyLine(section[i])
    {
      MetadataExactly(section[i]);
      HunkExactly(section[i]);
      BodyExactly(section[i]);
    }
    hide IsMetadata, IsNewFileHunk, HunkLine, Metadata, Hunk, BodyLine;
    if BodyAt(body, path, m) {
      forall i | 0 < i <= m ensures Metadata(section[i]) { assert IsMetadata(body[i - 1]); }
      forall i | m + 3 < i < |section| ensures BodyLine(section[i]) { assert HunkLine(body[i - 1]); }
    }
  }

  /** The parser takes a section for that of a new file on this path exactly when it is one. */
  lemma SectionExactly(section: seq<string>, path: string)
    requires section != []
    ensures SectionPath(section) == Some(path) <==> NewFileSection(section, path)
  {
    hide HeaderNames, NamesPath, NewFileBody, BodyAt, HeaderPaths, NormalV2Path, Metadata, Hunk, BodyLine;
    if NewFileSection(section, path) {
      var a, b, m :| SectionParts(section, path, a, b, m);
      HeaderExactly(section[0], a, b);
      NamesPathExactly(a, path);
      NamesPathExactly(b, path);
      BodyShift(section, path, m);
      BodyRead(section[1..], path, m);
    }
    if SectionPath(section) == Some(path) {
      var (a, b) := HeaderPaths(section[0]).value;
      HeaderExactly(section[0], a, b);
      NamesPathExactly(a, path);
      NamesPathExactly(b, path);
      var m := BodyWritten(section[1..], path);
      BodyShift(section, path, m);
      assert SectionParts(section, path, a, b, m);
    }
  }

  // ---- whole patches ------------------------------------------------------------------------

  function Joined(sections: seq<seq<string>>): seq<string> {
    if sections == [] then [] else sections[0] + Joined(sections[1..])
  }

  /** One section behind the other, each of a new file on its path, and no path twice. */
  ghost predicate Sections(sections: seq<seq<string>>, paths: seq<string>) {
    && |sections| == |paths|
    && (forall k :: 0 <= k < |sections| ==> sections[k] != [] && NewFileSection(sections[k], paths[k]))
    && (forall j, k :: 0 <= j < k < |paths| ==> paths[j] != paths[k])
  }

  /** Lines that say nothing, and then at least one section. */
  ghost predicate NewFilesOnly(lines: seq<string>, paths: seq<string>) {
    exists blank: nat, sections :: PatchParts(lines, paths, blank, sections)
  }

  ghost predicate PatchParts(lines: seq<string>, paths: seq<string>, blank: nat, sections: seq<seq<string>>) {
    && blank <= |lines| && (forall i :: 0 <= i < blank ==> lines[i] == "")
    && sections != [] && lines[blank..] == Joined(sections) && Sections(sections, paths)
  }

  lemma BodyNoStart(body: seq<string>, path: string, m: nat, i: nat)
    requires BodyAt(body, path, m) && i < |body|
    ensures !IsSectionStart(body[i])
  {
    hide IsMetadata, IsNewFileHunk, HunkLine, IsSectionStart;
    if i < m {
      NoFileLine(body[i]);
      NotAStart(body[i]);
    } else if i < m + 2 {
      assert body[m][0] == '-' && body[m + 1][0] == '+';
      NotAStart(body[i]);
    } else {
      if i == m + 2 { FirstIsHunkLine(body[i]); }
      HunkLegal(body[i]);
    }
  }

  lemma SectionStartsOnce(section: seq<string>, path: string)
    requires section != [] && SectionPath(section) == Some(path)
    ensures IsSectionStart(section[0]) && forall i :: 0 < i < |section| ==> !IsSectionStart(section[i])
  {
    hide NewFileBody, BodyAt, NormalV2Path;
    var m := BodyWritten(section[1..], path);
    assert section[0][..13][..11] == section[0][..11] && "diff --git a/"[..11] == "diff --git ";
    hide IsSectionStart, HeaderPaths;
    forall i | 0 < i < |section| ensures !IsSectionStart(section[i]) { BodyNoStart(section[1..], path, m, i - 1); }
  }

  lemma {:induction false} EndIs(lines: seq<string>, n: nat)
    requires 0 < n <= |lines| && (forall i :: 0 < i < n ==> !IsSectionStart(lines[i]))
    requires n < |lines| ==> IsSectionStart(lines[n])
    ensures SectionEnd(lines) == n
  {
    if SectionEnd(lines) < n { assert IsSectionStart(lines[SectionEnd(lines)]); }
  }

  lemma FirstStarts(sections: seq<seq<string>>, paths: seq<string>)
    requires Sections(sections, paths) && sections != []
    ensures |paths| == |sections| && sections[0] != [] && SectionPath(sections[0]) == Some(paths[0])
    ensures Joined(sections) != [] && IsSectionStart(Joined(sections)[0])
    ensures forall i :: 0 < i < |sections[0]| ==> !IsSectionStart(sections[0][i])
  {
    hide SectionPath, NewFileSection, IsSectionStart;
    SectionExactly(sections[0], paths[0]);
    SectionStartsOnce(sections[0], paths[0]);
  }

  lemma TailSections(sections: seq<seq<string>>, paths: seq<string>)
    requires Sections(sections, paths) && sections != []
    ensures Sections(sections[1..], paths[1..])
  {
    hide NewFileSection;
  }

  lemma EndBefore(first: seq<string>, rest: seq<string>)
    requires first != [] && (forall i :: 0 < i < |first| ==> !IsSectionStart(first[i]))
    requires rest != [] ==> IsSectionStart(rest[0])
    ensures SectionEnd(first + rest) == |first|
  {
    hide IsSectionStart, SectionEnd;
    EndIs(first + rest, |first|);
  }

  lemma FirstEnds(sections: seq<seq<string>>, paths: seq<string>)
    requires Sections(sections, paths) && sections != []
    ensures var lines, n := Joined(sections), |sections[0]|;
      && SectionEnd(lines) == n && lines[..n] == sections[0] && lines[n..] == Joined(sections[1..])
      && SectionPath(sections[0]) == Some(paths[0])
  {
    hide SectionPath, Sections, IsSectionStart;
    var first, rest := sections[0], Joined(sections[1..]);
    FirstStarts(sections, paths);
    TailSections(sections, paths);
    if |sections| > 1 { FirstStarts(sections[1..], paths[1..]); }
    assert rest != [] ==> IsSectionStart(rest[0]);
    assert Joined(sections) == first + rest;
    hide Joined;
    EndBefore(first, rest);
  }

  lemma {:induction false} SectionsRead(sections: seq<seq<string>>, paths: seq<string>, seen: seq<string>)
    requires Sections(sections, paths) && forall k :: 0 <= k < |paths| ==> paths[k] !in seen
    ensures ParseSections(Joined(sections), seen) == Some(seen + paths)
    decreases |sections|
  {
    hide SectionPath, NewFileSection, SectionEnd;
    if sections == [] {
      assert seen + paths == seen;
    } else {
      FirstEnds(sections, paths);
      TailSections(sections, paths);
      var more := seen + [paths[0]];
      forall k | 0 <= k < |paths[1..]| ensures paths[1..][k] !in more { assert paths[1..][k] == paths[k + 1]; }
      SectionsRead(sections[1..], paths[1..], more);
      assert more + paths[1..] == seen + paths;
    }
  }

  lemma MoreSections(section: seq<string>, path: string, rest: seq<seq<string>>, others: seq<string>)
    requires section != [] && NewFileSection(section, path) && Sections(rest, others)
    requires forall k :: 0 <= k < |others| ==> others[k] != path
    ensures Sections([section] + rest, [path] + others) && Joined([section] + rest) == section + Joined(rest)
  {
    hide NewFileSection;
    assert ([section] + rest)[1..] == rest;
  }

  lemma NoSections()
    ensures Joined([]) == [] && Sections([], [])
  {
  }

  lemma {:induction false} SectionsWritten(lines: seq<string>, seen: seq<string>)
    returns (sections: seq<seq<string>>, paths: seq<string>)
    requires ParseSections(lines, seen).Some?
    ensures lines == Joined(sections) && Sections(sections, paths)
    ensures forall k :: 0 <= k < |paths| ==> paths[k] !in seen
    decreases |lines|
  {
    hide SectionPath, NewFileSection, SectionEnd, Sections, Joined;
    NoSections();
    if lines == [] {
      sections, paths := [], [];
    } else {
      var n := SectionEnd(lines);
      var path := SectionPath(lines[..n]).value;
      SectionExactly(lines[..n], path);
      var rest, others := SectionsWritten(lines[n..], seen + [path]);
      assert forall k :: 0 <= k < |others| ==> others[k] !in seen + [path];
      MoreSections(lines[..n], path, rest, others);
      sections, paths := [lines[..n]] + rest, [path] + others;
      assert lines == lines[..n] + lines[n..];
    }
  }

  // ---- what the two searches for metadata add ------------------------------------------------------

  lemma ReadStarts(t: string, w: string)
    requires StartsWith(t, w) && NoReturn(w)
    ensures StartsWith(ReadText(t), w)
  {
    var rest := t[|w|..];
    assert t == w + rest;
    if w == "" {
      assert ReadText(t)[..0] == w;
    } else {
      ReadTextJoin(w, rest);
      ReadTextKeeps(w);
    }
  }

  lemma FirstLineStarts(t: string, w: string)
    requires w != "" && StartsWith(t, w) && NoBreak(w)
    ensures SplitLines(t) != [] && StartsWith(SplitLines(t)[0], w)
  {
    var rest := t[|w|..];
    assert t == w + rest;
    TakeOpenLine(w, rest);
    var line := TakeLine(t).0;
    if line == w {
      assert !IsBreak(w[|w| - 1]);
    } else {
      assert Chomp(line)[..|w|] == w;
    }
  }

  /** A word at the front of a raw line is at the front of a line of the text. */
  lemma WordOpensLine(patch: string, i: nat, w: string) returns (j: nat)
    requires LineStart(patch, i) && StartsWith(patch[i..], w) && w != "" && NoBreak(w) && NoReturn(w)
    ensures j < |SplitLines(ReadText(patch))| && StartsWith(SplitLines(ReadText(patch))[j], w)
  {
    hide ReadText, SplitKeep, StartsWith;
    var x, y := patch[..i], patch[i..];
    assert patch == x + y;
    ReadTextJoin(x, y);
    ReadStarts(y, w);
    var s, t := ReadText(x), ReadText(y);
    FirstLineStarts(t, w);
    if i == 0 {
      NothingRead();
      assert s == "" && s + t == t;
      j := 0;
    } else {
      EndsRead(x);
      SplitAtBreak(s, t);
      j := |SplitKeep(s)|;
      var kept := SplitKeep(s) + SplitKeep(t);
      assert kept[j] == SplitKeep(t)[0];
    }
  }

  lemma EndsRead(x: string)
    requires x != "" && x[|x| - 1] == '\n'
    ensures ReadText(x) != "" && IsBreak(ReadText(x)[|ReadText(x)| - 1])
  {
    if |x| > 1 && x[|x| - 2] == '\r' {
      var a := x[..|x| - 2];
      assert x == a + "\r\n";
      ReadTextJoin(a, "\r\n");
      assert ReadText("\r\n") == "\n" + ReadText("\r\n"[2..]);
    } else {
      var a := x[..|x| - 1];
      assert x == a + "\n";
      ReadTextJoin(a, "\n");
      assert ReadText("\n") == "\n" + ReadText("\n"[1..]);
    }
  }

  /** Which letters a legal line may begin with. */
  lemma LegalFirst(line: string)
    requires Legal(line)
    ensures line != ""
    ensures line[0] in {'-', '+', '@', '\\', 'n', 'i'} || (|line| > 1 && line[0] == 'd' && line[1] == 'i')
  {
    if IsSectionStart(line) {
      assert line[..11][0] == line[0] && line[..11][1] == line[1];
    } else if IsMetadata(line) {
      NoFileLine(line);
    }
  }

  lemma StartsChar(line: string, w: string, i: nat)
    requires StartsWith(line, w) && i < |w|
    ensures i < |line| && line[i] == w[i]
  {
    assert line[..|w|][i] == line[i];
  }

  /** A line of an accepted patch never says what the two searches look for. */
  lemma LegalNotForbidden(line: string, k: nat)
    requires (line == "" || Legal(line)) && k < |FORBIDDEN_METADATA|
    ensures !StartsWith(line, FORBIDDEN_METADATA[k])
  {
    if StartsWith(line, FORBIDDEN_METADATA[k]) {
      StartsChar(line, FORBIDDEN_METADATA[k], 0);
      StartsChar(line, FORBIDDEN_METADATA[k], 1);
      hide Legal, StartsWith;
      LegalFirst(line);
    }
  }

  lemma SymlinkNotMetadata(line: string)
    requires StartsWith(line, "new file mode 120000")
    ensures !IsMetadata(line)
  {
    StartsChar(line, "new file mode 120000", 0);
    if StartsWith(line, "index ") { StartsChar(line, "index ", 0); }
    assert |line| == 20 ==> line[14..] == line[..20][14..];
  }

  lemma OtherModeNotMetadata(line: string, k: nat)
    requires 0 < k < |SYMLINK_MODES| && StartsWith(line, SYMLINK_MODES[k])
    ensures !IsMetadata(line)
  {
    StartsChar(line, SYMLINK_MODES[k], 0);
    StartsChar(line, SYMLINK_MODES[k], 4);
    hide IsFileMode, IsIndexLine;
    if StartsWith(line, "index ") { StartsChar(line, "index ", 0); }
    if StartsWith(line, "new file mode ") {
      StartsChar(line, "new file mode ", 0);
      StartsChar(line, "new file mode ", 4);
    }
  }

  lemma LegalNotSymlink(line: string, k: nat)
    requires (line == "" || Legal(line)) && k < |SYMLINK_MODES|
    ensures !StartsWith(line, SYMLINK_MODES[k])
  {
    if StartsWith(line, SYMLINK_MODES[k]) {
      StartsChar(line, SYMLINK_MODES[k], 0);
      if k == 0 { SymlinkNotMetadata(line); } else { OtherModeNotMetadata(line, k); }
      hide IsMetadata, StartsWith;
      NotAStart(line);
    }
  }

  predicate Searched(w: string) { w in FORBIDDEN_METADATA || w in SYMLINK_MODES }

  lemma SearchedPlain(w: string)
    requires Searched(w)
    ensures w != "" && NoBreak(w) && NoReturn(w)
  {
    forall i | 0 <= i < |w| ensures !IsBreak(w[i]) && w[i] != '\r' { assert ' ' <= w[i] <= 'z'; }
  }

  /** Where every line that says something is legal, neither search finds anything. */
  lemma NothingFound(patch: string, word: char -> bool)
    requires var lines := SplitLines(ReadText(patch));
      forall j :: 0 <= j < |lines| ==> lines[j] == "" || Legal(lines[j])
    ensures !ForbiddenMetadata(patch, word) && !SymlinkMode(patch)
  {
    hide SplitLines, ReadText, StartsWith, Legal, LineStart;
    var lines := SplitLines(ReadText(patch));
    if ForbiddenMetadata(patch, word) {
      var i :| 0 <= i <= |patch| && LineStart(patch, i) && ForbiddenAt(patch[i..], word);
      var k :| 0 <= k < |FORBIDDEN_METADATA| && StartsWith(patch[i..], FORBIDDEN_METADATA[k]);
      var w := FORBIDDEN_METADATA[k];
      SearchedPlain(w);
      var j := WordOpensLine(patch, i, w);
      LegalNotForbidden(lines[j], k);
    }
    if SymlinkMode(patch) {
      var i :| 0 <= i <= |patch| && LineStart(patch, i) && SymlinkAt(patch[i..]);
      var k :| 0 <= k < |SYMLINK_MODES| && StartsWith(patch[i..], SYMLINK_MODES[k]);
      var w := SYMLINK_MODES[k];
      SearchedPlain(w);
      var j := WordOpensLine(patch, i, w);
      LegalNotSymlink(lines[j], k);
    }
  }

  // ---- the theorem ---------------------------------------------------------------------------

  lemma PartsRead(lines: seq<string>, paths: seq<string>, blank: nat, sections: seq<seq<string>>)
    requires PatchParts(lines, paths, blank, sections)
    ensures blank < |lines| && FirstSection(lines) == blank
    ensures ParseSections(lines[blank..], []) == Some(paths)
    ensures forall j :: 0 <= j < |lines| ==> lines[j] == "" || Legal(lines[j])
  {
    hide Sections, NewFileSection, Legal, IsSectionStart, ParseSections, Joined, SectionPath, AllLegal;
    FirstStarts(sections, paths);
    SectionsRead(sections, paths, []);
    assert [] + paths == paths && lines[blank..][0] == lines[blank];
    assert !IsSectionStart("") by { EmptyNoStart(); }
    SectionsLegal(lines[blank..], []);
    assert forall j :: 0 <= j < |lines[blank..]| ==> Legal(lines[blank..][j]) by { UseAllLegal(lines[blank..]); }
    forall j | 0 <= j < |lines| ensures lines[j] == "" || Legal(lines[j]) {
      assert j >= blank ==> lines[blank..][j - blank] == lines[j];
    }
  }

  lemma UseAllLegal(lines: seq<string>)
    requires AllLegal(lines)
    ensures forall j :: 0 <= j < |lines| ==> Legal(lines[j])
  {
  }

  lemma EmptyNoStart()
    ensures !IsSectionStart("")
  {
  }

  /** The second parser accepts a text exactly when it holds no NUL and no binary marker, and its lines
      are those of new files: one section for each path, none twice. What it returns is their sorted
      list. The searches for forbidden metadata and symbolic links decide nothing besides. */
  lemma AcceptedExactly(patch: string, word: char -> bool)
    ensures var lines, r := SplitLines(ReadText(patch)), ChangedPathsV2(patch, word);
      && (r.Some? <==>
            && '\0' !in patch && !Contains(patch, "GIT binary patch") && !Contains(patch, "Binary files ")
            && exists paths :: NewFilesOnly(lines, paths))
      && (forall paths :: r.Some? && NewFilesOnly(lines, paths) ==>
            Ascending(r.value) && forall p :: p in r.value <==> p in paths)
  {
    hide ForbiddenMetadata, SymlinkMode, SplitLines, ReadText, SectionPath, Contains, PatchParts, FirstSection,
      ParseSections;
    var lines, r := SplitLines(ReadText(patch)), ChangedPathsV2(patch, word);
    forall paths | NewFilesOnly(lines, paths)
      ensures !ForbiddenMetadata(patch, word) && !SymlinkMode(patch)
      ensures FirstSection(lines) < |lines| && ParseSections(lines[FirstSection(lines)..], []) == Some(paths)
      ensures forall i :: 0 <= i < FirstSection(lines) ==> lines[i] == ""
    {
      var blank: nat, sections :| PatchParts(lines, paths, blank, sections);
      PartsRead(lines, paths, blank, sections);
      BlankFront(lines, paths, blank, sections);
      NothingFound(patch, word);
    }
    forall paths, p: string | r.Some? && NewFilesOnly(lines, paths) ensures p in r.value <==> p in paths {
      assert p in Elements(r.value) <==> p in Elements(paths);
    }
    if r.Some? { AcceptedWritten(patch, word); }
  }

  lemma BlankFront(lines: seq<string>, paths: seq<string>, blank: nat, sections: seq<seq<string>>)
    requires PatchParts(lines, paths, blank, sections)
    ensures forall i :: 0 <= i < blank ==> lines[i] == ""
  {
  }

  lemma AcceptedWritten(patch: string, word: char -> bool)
    requires ChangedPathsV2(patch, word).Some?
    ensures exists paths :: NewFilesOnly(SplitLines(ReadText(patch)), paths)
  {
    hide ForbiddenMetadata, SymlinkMode, SplitLines, ReadText, SectionPath, Textual, Sections;
    var lines := SplitLines(ReadText(patch));
    var first := FirstSection(lines);
    var sections, paths := SectionsWritten(lines[first..], []);
    assert sections == [] ==> Joined(sections) == [];
    assert lines[first..] != [];
    assert PatchParts(lines, paths, first, sections);
    assert NewFilesOnly(lines, paths);
  }
}
