/** What the new-files-only parser makes of a printed patch: it accepts exactly the patches
    that only add files, each on a safe path, and reads off exactly the differing paths. */
module PatchSoundness {
  import opened Text
  import opened Lines
  import opened JsonText
  import opened PatchPrinter
  import opened PatchPolicy

  predicate PlainPath(path: string) { NoBreak(path) && NoReturn(path) }

  predicate SafePath(path: string) {
    PlainPath(path) && path != "" && ' ' !in path && '\t' !in path && NormalV2Path(path) == Some(path)
  }

  predicate EndsInBreak(tree: Tree, path: string) {
    var lines := LinesAt(tree, path);
    lines != [] && Ended(lines[|lines| - 1])
  }

  /** The differing paths are new, safe, and all but the last of them end in a line end. */
  predicate OnlyAddsFiles(base: Tree, candidate: Tree, paths: seq<string>) {
    && (forall i :: 0 <= i < |paths| ==> paths[i] !in base && SafePath(paths[i]))
    && (forall i :: 0 <= i < |paths| - 1 ==> EndsInBreak(candidate, paths[i]))
  }

  // ---- lines of a section -------------------------------------------------

  lemma FirstCharDiffers(s: string, prefix: string)
    requires prefix != "" && (s == "" || s[0] != prefix[0])
    ensures !StartsWith(s, prefix)
  {
    assert |prefix| <= |s| ==> s[..|prefix|][0] == s[0];
  }

  lemma EndedText(text: string)
    requires NoBreak(text)
    ensures IsLine(text + "\n") && Ended(text + "\n") && Chomp(text + "\n") == text
  {
    assert (text + "\n")[..|text|] == text;
  }

  lemma NoBreakConcat(a: string, b: string)
    requires NoBreak(a) && NoBreak(b)
    ensures NoBreak(a + b)
  {
  }

  function HeaderText(path: string): string { "diff --git a/" + path + " b/" + path }

  function HunkText(n: nat): string {
    "@@ -0,0 +1" + (if n == 1 then "" else "," + NatText(n)) + " @@"
  }

  lemma HunkSplit(tail: string)
    requires tail != "" && !IsDigit(tail[0])
    ensures StartsWith("@@ -0,0 +1" + tail, "@@ -0,0 +")
    ensures TakeDigits(("@@ -0,0 +1" + tail)[9..]) == ("1", tail) && IsCount("1")
  {
    assert ("@@ -0,0 +1" + tail)[9..] == "1" + tail;
    TakeDigitsAll("1", tail);
  }

  lemma ManyLinesHunk(digits: string)
    requires AllDigits(digits) && IsCount(digits)
    ensures IsNewFileHunk("@@ -0,0 +1" + ("," + digits + " @@"))
  {
    var tail := "," + (digits + " @@");
    assert "," + digits + " @@" == tail;
    HunkSplit(tail);
    CommaTail(digits);
    hide TakeDigits, StartsWith, HunkTail, IsCount;
  }

  lemma CommaTail(digits: string)
    requires AllDigits(digits)
    ensures var tail := "," + (digits + " @@");
      StartsWith(tail, ",") && TakeDigits(tail[1..]) == (digits, " @@") && HunkTail(" @@")
  {
    var tail := "," + (digits + " @@");
    assert tail[1..] == digits + " @@";
    TakeDigitsAll(digits, " @@");
    StartsComma(digits + " @@");
  }

  lemma HunkNoBreak(digits: string)
    requires AllDigits(digits)
    ensures NoBreak("@@ -0,0 +1" + ("," + digits + " @@"))
  {
  }

  lemma StartsComma(s: string)
    ensures StartsWith("," + s, ",")
  {
  }

  lemma OneLineHunk()
    ensures NoBreak("@@ -0,0 +1" + " @@") && IsNewFileHunk("@@ -0,0 +1" + " @@")
  {
    HunkSplit(" @@");
    assert !StartsWith(" @@", ",");
  }

  lemma HunkIsValid(n: nat)
    requires n > 0
    ensures NoBreak(HunkText(n)) && IsNewFileHunk(HunkText(n))
  {
    hide IsNewFileHunk, NatText;
    if n == 1 {
      OneLineHunk();
      assert HunkText(n) == "@@ -0,0 +1" + " @@";
    } else {
      NatTextValue(n);
      ManyLinesHunk(NatText(n));
      HunkNoBreak(NatText(n));
      assert HunkText(n) == "@@ -0,0 +1" + ("," + NatText(n) + " @@");
    }
  }

  function NewHead(path: string, n: nat): seq<string> {
    [HeaderText(path), "--- /dev/null", "+++ b/" + path, HunkText(n)]
  }

  lemma HeaderTextPlain(path: string)
    requires NoBreak(path)
    ensures NoBreak(HeaderText(path)) && HeaderText(path) + "\n" == Header(path)
  {
    NoBreakConcat("diff --git a/", path);
    NoBreakConcat(" b/", path);
    NoBreakConcat("diff --git a/" + path, " b/" + path);
    assert "diff --git a/" + path + (" b/" + path) == HeaderText(path);
  }

  lemma HunkTextPlain(n: nat)
    requires n > 0
    ensures NoBreak(HunkText(n)) && HunkText(n) + "\n" == NewFileHunk(n)
  {
    HunkIsValid(n);
    hide NatText, IsNewFileHunk;
  }

  lemma TargetPlain(path: string)
    requires NoBreak(path)
    ensures NoBreak("+++ b/" + path)
  {
  }

  lemma HeadLines(path: string, n: nat)
    requires PlainPath(path) && n > 0
    ensures forall i :: 0 <= i < 4 ==> IsLine(NewFileHead(path, n)[i]) && Ended(NewFileHead(path, n)[i])
    ensures Chomped(NewFileHead(path, n)) == NewHead(path, n)
  {
    HeaderTextPlain(path);
    HunkTextPlain(n);
    TargetPlain(path);
    hide HeaderText, HunkText, Header, NewFileHunk, IsLine, Ended, Chomp;
    EndedText(HeaderText(path));
    EndedText("--- /dev/null");
    assert "--- /dev/null" + "\n" == "--- /dev/null\n";
    hide NoBreak;
    EndedText("+++ b/" + path);
    EndedText(HunkText(n));
  }

  lemma AddedLine(line: string)
    requires IsLine(line)
    ensures IsLine("+" + line) && (Ended("+" + line) <==> Ended(line))
    ensures Chomp("+" + line) == "+" + Chomp(line)
  {
    assert ("+" + line)[..|line|] == "+" + line[..|line| - 1];
  }

  lemma {:induction false} ConcatAppend(a: seq<string>, b: seq<string>)
    ensures Concat(a + b) == Concat(a) + Concat(b)
  {
    if a == [] {
      assert [] + b == b;
    } else {
      ConcatAppend(a[1..], b);
      ConcatStep(a[0], a[1..]);
      ConcatStep(a[0], a[1..] + b);
      Regroup(a, b);
      Associate(a[0], Concat(a[1..]), Concat(b));
      hide Concat;
    }
  }

  lemma Regroup(a: seq<string>, b: seq<string>)
    requires a != []
    ensures a == [a[0]] + a[1..] && a + b == [a[0]] + (a[1..] + b)
  {
  }

  lemma Associate(x: string, y: string, z: string)
    ensures x + (y + z) == x + y + z
  {
  }

  lemma ConcatStep(head: string, tail: seq<string>)
    ensures Concat([head] + tail) == head + Concat(tail)
  {
    assert ([head] + tail)[1..] == tail;
  }

  lemma ChompedAppend(a: seq<string>, b: seq<string>)
    ensures Chomped(a + b) == Chomped(a) + Chomped(b)
  {
  }

  /** A section whose file ends in a line end, or which ends the patch, is cut into its own lines. */
  lemma ClosedSection(path: string, lines: seq<string>, rest: string)
    requires PlainPath(path) && Split(lines) && lines != []
    requires Ended(lines[|lines| - 1]) || rest == ""
    ensures SplitKeep(Concat(NewFileHead(path, |lines|) + Added(lines)) + rest)
         == NewFileHead(path, |lines|) + Added(lines) + SplitKeep(rest)
  {
    var section := NewFileHead(path, |lines|) + Added(lines);
    HeadLines(path, |lines|);
    forall i | 0 <= i < |lines|
      ensures IsLine(Added(lines)[i]) && (i < |lines| - 1 ==> Ended(Added(lines)[i]))
      ensures Ended(Added(lines)[i]) <==> Ended(lines[i])
    {
      AddedLine(lines[i]);
    }
    hide NewFileHead, Added;
    SplitChunks(section, rest);
  }

  lemma SplitChunks(section: seq<string>, rest: string)
    requires section != [] && forall i :: 0 <= i < |section| ==> IsLine(section[i])
    requires forall i :: 0 <= i < |section| - 1 ==> Ended(section[i])
    requires Ended(section[|section| - 1]) || rest == ""
    ensures SplitKeep(Concat(section) + rest) == section + SplitKeep(rest)
  {
    hide IsLine, Ended, SplitKeep, Concat;
    var init, last := section[..|section| - 1], section[|section| - 1];
    if Ended(last) {
      SplitEndedLines(section, rest);
    } else {
      assert section == init + [last];
      ConcatSnoc(init, last);
      SplitEndedLines(init, last);
      OpenIsAlone(last);
      NothingLeft();
      assert Concat(section) + rest == Concat(init) + last;
      assert section + [] == section;
    }
  }

  lemma OpenIsAlone(line: string)
    requires IsLine(line) && !Ended(line)
    ensures SplitKeep(line) == [line]
  {
    assert NoBreak(line) by { assert line == line[..|line| - 1] + [line[|line| - 1]]; }
    SplitOpenLine(line);
  }

  lemma NothingLeft()
    ensures SplitKeep("") == []
  {
  }

  /** The lines of a section whose last line runs into what follows it. */
  lemma OpenSection(path: string, lines: seq<string>, rest: string)
    requires PlainPath(path) && Split(lines) && lines != [] && !Ended(lines[|lines| - 1])
    ensures var last := "+" + lines[|lines| - 1];
      SplitKeep(Concat(NewFileHead(path, |lines|) + Added(lines)) + rest)
      == NewFileHead(path, |lines|) + Added(lines[..|lines| - 1])
         + [last + TakeLine(rest).0] + SplitKeep(TakeLine(rest).1)
  {
    var n := |lines|;
    var init, last := lines[..n - 1], "+" + lines[n - 1];
    var front := NewFileHead(path, n) + Added(init);
    FrontLines(path, lines);
    assert Added(lines) == Added(init) + [last];
    hide NewFileHead, Added, Split, IsLine, Ended, TakeLine, SplitKeep;
    assert NewFileHead(path, n) + Added(lines) == front + [last];
    ConcatSnoc(front, last);
    assert Concat(front + [last]) + rest == Concat(front) + (last + rest);
    SplitEndedLines(front, last + rest);
    OpenLast(lines[n - 1], rest);
    assert front + ([last + TakeLine(rest).0] + SplitKeep(TakeLine(rest).1))
        == front + [last + TakeLine(rest).0] + SplitKeep(TakeLine(rest).1);
  }

  lemma FrontLines(path: string, lines: seq<string>)
    requires PlainPath(path) && Split(lines) && lines != []
    ensures IsLine(lines[|lines| - 1])
    ensures var front := NewFileHead(path, |lines|) + Added(lines[..|lines| - 1]);
      forall i :: 0 <= i < |front| ==> IsLine(front[i]) && Ended(front[i])
  {
    var init := lines[..|lines| - 1];
    HeadLines(path, |lines|);
    hide NewFileHead;
    forall i | 0 <= i < |init| ensures IsLine(Added(init)[i]) && Ended(Added(init)[i]) {
      AddedLine(lines[i]);
    }
  }

  lemma OpenLast(line: string, rest: string)
    requires IsLine(line) && !Ended(line)
    ensures SplitKeep("+" + line + rest) == ["+" + line + TakeLine(rest).0] + SplitKeep(TakeLine(rest).1)
  {
    var last := "+" + line;
    assert NoBreak(last) by { assert line == line[..|line| - 1] + [line[|line| - 1]]; }
    TakeOpenLine(last, rest);
  }
}
