/** The text of a printed patch, section by section, as a reader of the file meets it. */
module PatchText {
  import opened Text
  import opened Lines
  import opened JsonText
  import opened PatchPrinter

  /** What stands behind the start of a range of `n` lines: nothing for one, a comma and the number
      without leading zeros for more. */
  predicate CountText(count: string, n: nat) {
    if n == 1 then count == ""
    else
      && |count| > 1 && count[0] == ',' && AllDigits(count[1..])
      && DigitsValue(count[1..]) == n && (n > 0 ==> count[1] != '0')
  }

  /** Every line of the file with a plus sign in front. */
  predicate AddsLines(body: seq<string>, file: seq<string>) {
    |body| == |file| && forall i :: 0 <= i < |file| ==> body[i] == "+" + file[i]
  }

  predicate NewFileParts(text: string, path: string, file: seq<string>, count: string, body: seq<string>) {
    && text == "diff --git a/" + path + " b/" + path + "\n" + "--- /dev/null\n" + "+++ b/" + path + "\n"
               + "@@ -0,0 +1" + count + " @@\n" + Concat(body)
    && CountText(count, |file|) && AddsLines(body, file)
  }

  /** The section of a file that the base does not hold. */
  ghost predicate NewFileText(text: string, path: string, file: seq<string>) {
    exists count, body :: NewFileParts(text, path, file, count, body)
  }

  /** The section of a file that the base holds, from the aligned change on as the library has it. */
  predicate ChangedFileText(text: string, path: string, change: seq<string>) {
    text == "diff --git a/" + path + " b/" + path + "\n" + "--- a/" + path + "\n" + Concat(change)
  }

  ghost predicate SectionText(text: string, base: Tree, candidate: Tree, align: Alignment, path: string) {
    var old_, new_ := LinesAt(base, path), LinesAt(candidate, path);
    if path !in base then NewFileText(text, path, new_)
    else if path in candidate then ChangedFileText(text, path, align(old_, new_, "b/" + path))
    else ChangedFileText(text, path, align(old_, [], "/dev/null"))
  }

  lemma ConcatTwo(a: string, b: string, rest: seq<string>)
    ensures Concat([a, b] + rest) == a + b + Concat(rest)
  {
    assert ([a, b] + rest)[1..] == [b] + rest && ([b] + rest)[1..] == rest;
    assert a + (b + Concat(rest)) == a + b + Concat(rest);
  }

  lemma CountPrinted(n: nat) returns (count: string)
    requires n > 0
    ensures CountText(count, n) && NewFileHunk(n) == "@@ -0,0 +1" + count + " @@\n"
  {
    if n == 1 {
      count := "";
    } else {
      NatTextValue(n);
      hide NatText;
      count := "," + NatText(n);
      assert count[1..] == NatText(n);
    }
  }

  lemma NewFilePrinted(base: Tree, candidate: Tree, align: Alignment, path: string)
    requires path !in base && LinesAt(candidate, path) != []
    ensures NewFileText(Concat(Section(base, candidate, align, path)), path, LinesAt(candidate, path))
  {
    hide LinesAt, Concat, NewFileHunk;
    var file := LinesAt(candidate, path);
    var body := Added(file);
    var count := CountPrinted(|file|);
    var head, minus, plus, hunk := Header(path), "--- /dev/null\n", "+++ b/" + path + "\n", NewFileHunk(|file|);
    assert NewFileHead(path, |file|) + body == [head, minus] + ([plus, hunk] + body);
    ConcatTwo(head, minus, [plus, hunk] + body);
    ConcatTwo(plus, hunk, body);
    var text := Concat(Section(base, candidate, align, path));
    assert text == head + minus + (plus + hunk + Concat(body));
    NewFileJoined(path, count, Concat(body));
    assert NewFileParts(text, path, file, count, body);
  }

  lemma NewFileJoined(path: string, count: string, body: string)
    ensures Header(path) + "--- /dev/null\n" + ("+++ b/" + path + "\n" + ("@@ -0,0 +1" + count + " @@\n") + body)
         == "diff --git a/" + path + " b/" + path + "\n" + "--- /dev/null\n" + "+++ b/" + path + "\n"
            + "@@ -0,0 +1" + count + " @@\n" + body
  {
    var front := Header(path) + "--- /dev/null\n";
    var plus := "+++ b/" + path + "\n";
    assert front + "+++ b/" + path + "\n" == front + plus;
    assert front + plus + "@@ -0,0 +1" + count + " @@\n" == front + plus + ("@@ -0,0 +1" + count + " @@\n");
  }

  lemma SectionPrinted(base: Tree, candidate: Tree, align: Alignment, path: string)
    requires path in Differing(base, candidate)
    ensures SectionText(Concat(Section(base, candidate, align, path)), base, candidate, align, path)
  {
    if path !in base {
      NewFilePrinted(base, candidate, align, path);
    } else {
      hide Concat;
      var change := align(LinesAt(base, path), LinesAt(candidate, path),
                          if path in candidate then "b/" + path else "/dev/null");
      ConcatTwo(Header(path), "--- a/" + path + "\n", change);
      var front := Header(path);
      assert front + "--- a/" + path + "\n" == front + ("--- a/" + path + "\n");
    }
  }

  lemma {:induction false} SectionsPrinted(base: Tree, candidate: Tree, align: Alignment, paths: seq<string>)
    returns (texts: seq<string>)
    requires forall i :: 0 <= i < |paths| ==> paths[i] in Differing(base, candidate)
    ensures |texts| == |paths| && PatchOf(base, candidate, align, paths) == Concat(texts)
    ensures forall i :: 0 <= i < |paths| ==> SectionText(texts[i], base, candidate, align, paths[i])
  {
    hide SectionText, Section, Differing;
    if paths == [] {
      texts := [];
    } else {
      SectionPrinted(base, candidate, align, paths[0]);
      var rest := SectionsPrinted(base, candidate, align, paths[1..]);
      texts := [Concat(Section(base, candidate, align, paths[0]))] + rest;
      assert texts[1..] == rest;
    }
  }

  /** A printed patch is one section for every path whose lines differ, in ascending order, line
      ends aside; the range of a new file counts the lines that follow. */
  lemma PatchPrinted(base: Tree, candidate: Tree, align: Alignment) returns (paths: seq<string>, texts: seq<string>)
    ensures Ascending(paths) && |texts| == |paths|
    ensures forall p :: p in paths <==> p in base.Keys + candidate.Keys && LinesAt(base, p) != LinesAt(candidate, p)
    ensures forall i :: 0 <= i < |paths| ==> SectionText(texts[i], base, candidate, align, paths[i])
    ensures Patch(base, candidate, align) == Unix(Concat(texts))
  {
    hide SectionText, LinesAt, PatchOf, Concat, Unix;
    paths := SortedNames(Differing(base, candidate));
    assert forall p :: p in paths <==> p in Elements(paths);
    texts := SectionsPrinted(base, candidate, align, paths);
  }
}
