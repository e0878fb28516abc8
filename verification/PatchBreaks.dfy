/** Paths with a line end of any kind: whatever else a patch holds, the new-files-only parser
    refuses it when one of its headers names such a path. */
module PatchBreaks {
  import opened Text
  import opened Lines
  import opened PatchPolicy
  import opened PatchSoundness
  import opened PatchAcceptance

  // ---- texts whose line ends are made uniform ------------------------------------

  /** A text as the parser cuts it, after the printer's replacement. */
  function Normal(s: string): string { ReadText(Unix(s)) }

  /** No two-character line end straddles the border. */
  predicate Apart(x: string, y: string) {
    x == "" || x[|x| - 1] != '\r' || y == "" || (y[0] != '\r' && y[0] != '\n')
  }

  lemma UnixPair(t: string)
    ensures Unix("\r\n" + t) == "\n" + Unix(t)
  {
    assert ("\r\n" + t)[2..] == t;
  }

  lemma UnixChar(c: char, t: string)
    requires t == "" || c != '\r' || t[0] != '\n'
    ensures Unix([c] + t) == [c] + Unix(t)
  {
    assert ([c] + t)[1..] == t;
  }

  lemma PairJoins(t: string, y: string)
    requires Unix(t + y) == Unix(t) + Unix(y)
    ensures Unix(("\r\n" + t) + y) == Unix("\r\n" + t) + Unix(y)
  {
    hide Unix;
    UnixPair(t);
    UnixPair(t + y);
    assert ("\r\n" + t) + y == "\r\n" + (t + y);
  }

  lemma CharJoins(c: char, t: string, y: string)
    requires Unix(t + y) == Unix(t) + Unix(y) && Apart([c] + t, y) && (t == "" || c != '\r' || t[0] != '\n')
    ensures Unix(([c] + t) + y) == Unix([c] + t) + Unix(y)
  {
    hide Unix;
    UnixChar(c, t);
    UnixChar(c, t + y);
    assert ([c] + t) + y == [c] + (t + y);
  }

  lemma {:induction false} UnixJoin(x: string, y: string)
    requires Apart(x, y)
    ensures Unix(x + y) == Unix(x) + Unix(y)
    decreases |x|
  {
    if x == "" {
      assert x + y == y && Unix(x) == "";
    } else {
      hide Unix;
      if |x| > 1 && x[0] == '\r' && x[1] == '\n' {
        UnixJoin(x[2..], y);
        PairJoins(x[2..], y);
        assert x == "\r\n" + x[2..];
      } else {
        UnixJoin(x[1..], y);
        assert x == [x[0]] + x[1..];
        CharJoins(x[0], x[1..], y);
      }
    }
  }

  lemma {:induction false} UnixEnds(s: string)
    requires s != ""
    ensures Unix(s) != "" && (Unix(s)[|Unix(s)| - 1] == '\r' ==> s[|s| - 1] == '\r')
    ensures s[0] != '\r' ==> Unix(s)[0] == s[0]
    decreases |s|
  {
    if |s| >= 2 {
      if s[0] == '\r' && s[1] == '\n' {
        if |s| > 2 { UnixEnds(s[2..]); }
      } else {
        UnixEnds(s[1..]);
      }
    }
  }

  lemma NormalJoin(x: string, y: string)
    requires Apart(x, y)
    ensures Normal(x + y) == Normal(x) + Normal(y)
  {
    UnixJoin(x, y);
    if x != "" { UnixEnds(x); }
    if y != "" { UnixEnds(y); }
    hide Unix, ReadText;
    NothingReadYet();
    ReadTextJoin(Unix(x), Unix(y));
  }

  lemma NothingReadYet()
    ensures Unix("") == ""
  {
  }

  lemma NormalKeeps(s: string)
    requires NoReturn(s)
    ensures Normal(s) == s
  {
    UnixKeeps(s);
    ReadTextKeeps(s);
  }

  predicate EndsLine(c: char) { IsBreak(c) || c == '\r' }

  lemma NormalBreaks(d: char, rest: string)
    requires EndsLine(d)
    ensures Normal([d] + rest) != "" && IsBreak(Normal([d] + rest)[0])
  {
    var s := [d] + rest;
    assert s[1..] == rest;
    assert rest != "" ==> s[2..] == rest[1..];
  }

  // ---- where lines begin and end ---------------------------------------------------

  lemma {:induction false} FirstBreak(p: string) returns (u: string, d: char, rest: string)
    requires !PlainPath(p)
    ensures p == u + [d] + rest && PlainPath(u) && EndsLine(d)
  {
    if EndsLine(p[0]) {
      u, d, rest := "", p[0], p[1..];
    } else {
      assert p == [p[0]] + p[1..];
      u, d, rest := FirstBreak(p[1..]);
      u := [p[0]] + u;
    }
  }

  lemma {:induction false} LastBreak(s: string) returns (front: string, last: string)
    requires !NoBreak(s)
    ensures s == front + last && front != "" && IsBreak(front[|front| - 1]) && NoBreak(last)
  {
    var n := |s| - 1;
    if IsBreak(s[n]) {
      front, last := s, "";
    } else {
      assert !NoBreak(s[..n]);
      front, last := LastBreak(s[..n]);
      assert s == s[..n] + [s[n]];
      last := last + [s[n]];
    }
  }

  /** A text is cut at each of its line ends. */
  lemma {:induction false} SplitAtBreak(s: string, rest: string)
    requires s != "" && IsBreak(s[|s| - 1])
    ensures SplitKeep(s + rest) == SplitKeep(s) + SplitKeep(rest)
    decreases |s|
  {
    var line, later := TakeLine(s).0, TakeLine(s).1;
    TakeLineShape(s);
    assert s + rest == line + (later + rest);
    assert later == "" ==> line == s;
    TakeEndedLine(line, later + rest);
    if later != "" {
      assert later[|later| - 1] == s[|s| - 1];
      SplitAtBreak(later, rest);
    } else {
      assert later + rest == rest;
    }
    hide TakeLine;
    assert [line] + (SplitKeep(later) + SplitKeep(rest)) == [line] + SplitKeep(later) + SplitKeep(rest);
  }

  /** Text between two line ends is a line. */
  lemma LineBetween(s: string, m: string, c: char, rest: string) returns (j: nat)
    requires s != "" && IsBreak(s[|s| - 1]) && NoBreak(m) && IsBreak(c)
    ensures var lines := SplitLines(s + (m + [c] + rest));
      && j < |lines| && lines[j] == m && lines[j + 1..] == SplitLines(rest)
  {
    SplitAtBreak(s, m + [c] + rest);
    var line := m + [c];
    assert line[..|m|] == m;
    SplitEndedLine(line, rest);
    j := |SplitKeep(s)|;
    hide SplitKeep;
    var kept := SplitKeep(s) + ([line] + SplitKeep(rest));
    assert kept[j] == line && kept[j + 1..] == SplitKeep(rest);
    assert Chomped(kept)[j + 1..] == Chomped(SplitKeep(rest));
  }

  lemma DashStarts(rest: string)
    ensures SplitLines("-" + rest) != [] && StartsWith(SplitLines("-" + rest)[0], "-")
  {
    var text := "-" + rest;
    assert text[0] == '-' && text[1..] == rest;
    var line := TakeLine(text).0;
    TakeLineShape(text);
    assert line[0] == '-' && Chomp(line)[0] == '-' && Chomp(line)[..1] == "-";
  }

  // ---- what an accepted patch is made of ----------------------------------------------

  predicate Legal(line: string) {
    if IsSectionStart(line) then HeaderPaths(line).Some?
    else line != "" && (line[0] in {'-', '+', '@', '\\'} || IsMetadata(line))
  }

  /** An old-file line stands right below a header or its metadata. */
  predicate LegalPair(line: string, next: string) {
    StartsWith(next, "-") ==> IsSectionStart(line) || IsMetadata(line)
  }

  ghost predicate AllLegal(lines: seq<string>) {
    && (forall i :: 0 <= i < |lines| ==> Legal(lines[i]))
    && (forall i :: 0 < i < |lines| ==> LegalPair(lines[i - 1], lines[i]))
  }

  lemma HunkLegal(line: string)
    requires HunkLine(line)
    ensures line != "" && line[0] in {'+', '@', '\\'} && !IsSectionStart(line) && !StartsWith(line, "-")
  {
    if StartsWith(line, "@@ ") {
      assert line[..3][0] == line[0];
    } else if StartsWith(line, "+") {
      assert line[..1][0] == line[0];
    } else {
      assert line[..27][0] == line[0];
    }
    FirstCharDiffers(line, "diff --git ");
    FirstCharDiffers(line, "-");
  }

  lemma MetadataLegal(line: string)
    requires IsMetadata(line)
    ensures line != "" && line[0] in {'n', 'i'} && !StartsWith(line, "-")
  {
    if StartsWith(line, "new file mode ") {
      assert line[..14][0] == line[0];
    } else {
      assert line[..6][0] == line[0];
    }
    FirstCharDiffers(line, "-");
  }

  lemma PlusLegal(line: string)
    requires line != "" && line[0] == '+'
    ensures Legal(line) && !StartsWith(line, "-")
  {
    FirstCharDiffers(line, "diff --git ");
    FirstCharDiffers(line, "-");
  }

  lemma SectionLegal(section: seq<string>)
    requires section != [] && IsSectionStart(section[0]) && SectionPath(section).Some?
    ensures AllLegal(section)
  {
    var body, path := section[1..], SectionPath(section).value;
    hide HeaderPaths, NormalV2Path, IsMetadata, HunkLine, IsNewFileHunk, IsSectionStart;
    var from := IndexOf(body, "--- /dev/null");
    var hunks := body[from + 2..];
    forall i | 0 <= i < |body| ensures Legal(body[i]) && LegalPair(section[i], body[i]) {
      if i < from {
        MetadataLegal(body[i]);
        NotAStart(body[i]);
      } else if i == from {
        NotAStart(body[i]);
        assert i > 0 ==> IsMetadata(body[i - 1]);
      } else if i == from + 1 {
        PlusLegal(body[i]);
      } else {
        assert body[i] == hunks[i - from - 2];
        HunkLegal(body[i]);
      }
    }
    forall i | 0 <= i < |section| ensures Legal(section[i]) { assert i > 0 ==> section[i] == body[i - 1]; }
    forall i | 0 < i < |section| ensures LegalPair(section[i - 1], section[i]) { assert section[i] == body[i - 1]; }
  }

  lemma {:induction false} SectionsLegal(lines: seq<string>, seen: seq<string>)
    requires (lines != [] ==> IsSectionStart(lines[0])) && ParseSections(lines, seen).Some?
    ensures AllLegal(lines)
    decreases |lines|
  {
    hide SectionPath, Legal, LegalPair;
    if lines != [] {
      var n := SectionEnd(lines);
      var section, rest := lines[..n], lines[n..];
      SectionLegal(section);
      SectionsLegal(rest, seen + [SectionPath(section).value]);
      forall i | 0 < i < |lines| ensures LegalPair(lines[i - 1], lines[i]) {
        if i < n {
          assert section[i] == lines[i] && section[i - 1] == lines[i - 1];
        } else if i > n {
          assert rest[i - n] == lines[i] && rest[i - n - 1] == lines[i - 1];
        } else {
          StartPair(lines[i - 1], lines[i]);
        }
      }
      forall i | 0 <= i < |lines| ensures Legal(lines[i]) {
        assert lines[i] == if i < n then section[i] else rest[i - n];
      }
    }
  }

  lemma StartPair(line: string, next: string)
    requires IsSectionStart(next)
    ensures LegalPair(line, next)
  {
    assert next[..11][0] == next[0];
    FirstCharDiffers(next, "-");
  }

  /** Of an accepted patch every line that is not empty is legal, and so is every such line with
      the one below it. */
  lemma AcceptedLegal(patch: string, word: char -> bool, j: nat)
    requires ChangedPathsV2(patch, word).Some?
    requires var lines := SplitLines(ReadText(patch)); j < |lines| && lines[j] != ""
    ensures var lines := SplitLines(ReadText(patch));
      Legal(lines[j]) && (j + 1 < |lines| ==> LegalPair(lines[j], lines[j + 1]))
  {
    hide ForbiddenMetadata, SymlinkMode, Textual, ReadText, SplitLines, Legal, LegalPair, IsSectionStart,
      SectionPath, SectionEnd;
    var lines := SplitLines(ReadText(patch));
    var first := FirstSection(lines);
    var rest := lines[first..];
    SectionsLegal(rest, []);
    assert j >= first && rest[j - first] == lines[j];
    assert j + 1 < |lines| ==> rest[j + 1 - first] == lines[j + 1];
  }

  // ---- no legal line goes on with another path -------------------------------------------

  lemma HeaderThenMore(line: string, more: string)
    requires HeaderPaths(line).Some? && more != "" && more[0] == ' '
    ensures HeaderPaths(line + more) == None
  {
    var (a, after) := Word(line[13..]);
    var (b, nothing) := Word(after[3..]);
    WordShape(line[13..]);
    WordShape(after[3..]);
    var whole := line + more;
    assert whole[13..] == a + (after + more);
    WordAll(a, after + more);
    assert (after + more)[3..] == b + more;
    WordAll(b, more);
  }

  lemma {:induction false} SkipZerosThen(s: string, more: string)
    requires SkipZeros(s) != ""
    ensures SkipZeros(s + more) == SkipZeros(s) + more
  {
    if s[0] == '0' {
      SkipZerosThen(s[1..], more);
      assert (s + more)[1..] == s[1..] + more;
    }
  }

  lemma {:induction false} SkipHexThen(s: string, more: string)
    requires more != "" && !IsHex(more[0])
    ensures SkipHex(s + more) == SkipHex(s) + more
  {
    if s == "" {
      assert s + more == more;
    } else if IsHex(s[0]) {
      SkipHexThen(s[1..], more);
      assert (s + more)[1..] == s[1..] + more;
    }
  }

  lemma IndexThenMore(rest: string, more: string)
    requires IsIndexLine(rest) && |more| > 1 && more[0] == ' ' && more[1] == 'b'
    ensures !IsIndexLine(rest + more)
  {
    var dots := SkipZeros(rest);
    SkipZerosThen(rest, more);
    assert (dots + more)[2..] == dots[2..] + more;
    SkipHexThen(dots[2..], more);
    var tail := SkipHex(dots[2..]);
    if tail == "" {
      assert tail + more == more && more[1..][0] == 'b';
    } else {
      assert |(tail + more)[1..]| > 6;
    }
  }

  lemma SamePrefix(line: string, more: string, prefix: string)
    requires StartsWith(line, prefix)
    ensures StartsWith(line + more, prefix) && (line + more)[|prefix|..] == line[|prefix|..] + more
  {
    assert (line + more)[..|prefix|] == line[..|prefix|];
  }

  lemma MetadataThenMore(line: string, more: string)
    requires IsMetadata(line) && |more| > 1 && more[0] == ' ' && more[1] == 'b'
    ensures !Legal(line + more)
  {
    hide IsIndexLine;
    MetadataLegal(line);
    var whole := line + more;
    assert whole[0] == line[0];
    FirstCharDiffers(whole, "diff --git ");
    if StartsWith(line, "new file mode ") && IsFileMode(line[14..]) {
      SamePrefix(line, more, "new file mode ");
      assert line[..14][0] == 'n';
      FirstCharDiffers(whole, "index ");
      assert |whole[14..]| > 6;
    } else {
      SamePrefix(line, more, "index ");
      assert line[..6][0] == 'i';
      FirstCharDiffers(whole, "new file mode ");
      IndexThenMore(line[6..], more);
    }
  }

  /** A line that may stand above an old-file line is no longer legal with a path behind it. */
  lemma NothingGoesOn(line: string, u: string)
    requires Legal(line) && (IsSectionStart(line) || IsMetadata(line))
    ensures !Legal(line + (" b/" + u))
  {
    var more := " b/" + u;
    hide HeaderPaths, IsMetadata;
    if IsSectionStart(line) {
      SamePrefix(line, more, "diff --git ");
      HeaderThenMore(line, more);
    } else {
      MetadataThenMore(line, more);
    }
  }

  lemma BlankStartIllegal(u: string)
    ensures !Legal(" b/" + u)
  {
    var line := " b/" + u;
    FirstCharDiffers(line, "diff --git ");
    FirstCharDiffers(line, "new file mode ");
    FirstCharDiffers(line, "index ");
  }

  // ---- a path with a line end is refused ------------------------------------------------------

  /** The normal text of a printed header and what follows. */
  lemma HeaderNormal(a: string, p: string, b: string)
    requires a != "" && a[|a| - 1] == '/'
    ensures Normal(a + (p + (" b/" + (p + ("\n-" + b)))))
         == Normal(a) + (Normal(p) + (" b/" + Normal(p + ("\n-" + b))))
  {
    var tail := p + ("\n-" + b);
    NormalJoin(a, p + (" b/" + tail));
    NormalJoin(p, " b/" + tail);
    NormalJoin(" b/", tail);
    NormalKeeps(" b/");
  }

  /** Its first path, cut by a line end, and the text between the last line end of the one and
      the first of the other: that text is a line. */
  lemma MiddleLine(a: string, p: string, b: string) returns (w: string, u: string, j: nat)
    requires a != "" && a[|a| - 1] == '/' && !PlainPath(p)
    ensures exists front :: Normal(p) == front + w && front != "" && IsBreak(front[|front| - 1])
    ensures NoBreak(w)
    ensures var lines := SplitLines(Normal(a + (p + (" b/" + (p + ("\n-" + b))))));
      j < |lines| && lines[j] == w + (" b/" + u)
  {
    HeaderNormal(a, p, b);
    var d: char, rest: string;
    u, d, rest := FirstBreak(p);
    PathBreaks(p, u, d, rest, "");
    assert p + "" == p;
    var front;
    front, w := LastBreak(Normal(p));
    PathBreaks(p, u, d, rest, "\n-" + b);
    var after := Normal(p + ("\n-" + b));
    hide Normal, SplitLines, IsBreak;
    var s, m := Normal(a) + front, w + (" b/" + u);
    NoBreakConcat(" b/", u);
    NoBreakConcat(w, " b/" + u);
    j := LineBetween(s, m, after[|u|], after[|u| + 1..]);
    Middle(Normal(a), front, w, u, after);
  }

  lemma Middle(a: string, front: string, w: string, u: string, after: string)
    requires |u| < |after| && after[..|u|] == u
    ensures a + ((front + w) + (" b/" + after))
         == (a + front) + ((w + (" b/" + u)) + [after[|u|]] + after[|u| + 1..])
  {
    assert after == u + [after[|u|]] + after[|u| + 1..];
  }

  /** A path with a line end keeps its first stretch and then ends a line. */
  lemma PathBreaks(p: string, u: string, d: char, rest: string, more: string)
    requires p == u + [d] + rest && PlainPath(u) && EndsLine(d)
    ensures var after := Normal(p + more);
      |u| < |after| && after[..|u|] == u && IsBreak(after[|u|]) && !NoBreak(after)
  {
    var tail := [d] + (rest + more);
    assert p + more == u + tail;
    NormalJoin(u, tail);
    NormalKeeps(u);
    NormalBreaks(d, rest + more);
    hide Normal;
  }

  /** Where the path does not end in a line end, its last stretch stands above the old-file line. */
  lemma LastLine(a: string, p: string, b: string, front: string, w: string) returns (k: nat)
    requires a != "" && a[|a| - 1] == '/'
    requires Normal(p) == front + w && front != "" && IsBreak(front[|front| - 1]) && NoBreak(w) && w != ""
    ensures var lines := SplitLines(Normal(a + (p + (" b/" + (p + ("\n-" + b))))));
      k + 1 < |lines| && lines[k] == w && StartsWith(lines[k + 1], "-")
  {
    HeaderNormal(a, p, b);
    EndsOpen(p, w);
    NormalJoin(p, "\n-" + b);
    assert "\n-" + b == "\n" + ("-" + b);
    NormalJoin("\n", "-" + b);
    NormalKeeps("\n");
    NormalJoin("-", b);
    NormalKeeps("-");
    hide Normal, SplitLines, IsBreak;
    var s := Normal(a) + (front + w + (" b/" + front));
    k := LineBetween(s, w, '\n', "-" + Normal(b)) by { NewlineBreaks(); }
    DashStarts(Normal(b));
    Last(Normal(a), front, w, "-" + Normal(b));
  }

  lemma NewlineBreaks()
    ensures IsBreak('\n')
  {
  }

  lemma Last(a: string, front: string, w: string, tail: string)
    ensures a + ((front + w) + (" b/" + (front + w + ("\n" + tail))))
         == (a + (front + w + (" b/" + front))) + (w + ['\n'] + tail)
  {
  }

  lemma EndsOpen(p: string, w: string)
    requires w != "" && NoBreak(w) && |Normal(p)| >= |w| && Normal(p)[|Normal(p)| - |w|..] == w
    ensures p == "" || p[|p| - 1] != '\r'
  {
    assert Normal(p)[|Normal(p)| - 1] == w[|w| - 1] && !IsBreak(w[|w| - 1]);
    if p != "" && p[|p| - 1] == '\r' { EndsInReturn(p); }
  }

  lemma EndsInReturn(p: string)
    requires p != "" && p[|p| - 1] == '\r'
    ensures Normal(p) != "" && Normal(p)[|Normal(p)| - 1] == '\n'
  {
    hide Unix, ReadText;
    UnixLast(p);
    ReturnLast(Unix(p));
  }

  lemma {:induction false} UnixLast(s: string)
    requires s != "" && s[|s| - 1] == '\r'
    ensures Unix(s) != "" && Unix(s)[|Unix(s)| - 1] == '\r'
    decreases |s|
  {
    if |s| >= 2 {
      if s[0] == '\r' && s[1] == '\n' { UnixLast(s[2..]); } else { UnixLast(s[1..]); }
    }
  }

  lemma {:induction false} ReturnLast(s: string)
    requires s != "" && s[|s| - 1] == '\r'
    ensures ReadText(s) != "" && ReadText(s)[|ReadText(s)| - 1] == '\n'
    decreases |s|
  {
    if |s| == 1 {
      assert s[1..] == "" && ReadText("") == "";
    } else if s[0] == '\r' && s[1] == '\n' {
      ReturnLast(s[2..]);
    } else {
      ReturnLast(s[1..]);
    }
  }

  /** Whatever stands before and behind it, a header that names a path with a line end makes the
      new-files-only parser refuse the patch. */
  lemma BrokenHeaderRefused(a: string, p: string, b: string, word: char -> bool)
    requires a != "" && a[|a| - 1] == '/' && !PlainPath(p)
    ensures ChangedPathsV2(Unix(a + (p + (" b/" + (p + ("\n-" + b))))), word) == None
  {
    hide SplitLines, Legal, LegalPair, ChangedPathsV2, PlainPath, IsMetadata, IsSectionStart, NoBreak, IsBreak;
    var patch := Unix(a + (p + (" b/" + (p + ("\n-" + b)))));
    var w, u, j := MiddleLine(a, p, b);
    var lines := SplitLines(ReadText(patch));
    assert w == "" ==> w + (" b/" + u) == " b/" + u;
    if ChangedPathsV2(patch, word).Some? {
      AcceptedLegal(patch, word, j);
      if w == "" {
        BlankStartIllegal(u);
      } else {
        var front :| Normal(p) == front + w && front != "" && IsBreak(front[|front| - 1]);
        var k := LastLine(a, p, b, front, w);
        AcceptedLegal(patch, word, k);
        UseLegalPair(lines[k], lines[k + 1]);
        NothingGoesOn(w, u);
      }
    }
  }

  lemma UseLegalPair(line: string, next: string)
    requires LegalPair(line, next) && StartsWith(next, "-")
    ensures IsSectionStart(line) || IsMetadata(line)
  {
  }
}
