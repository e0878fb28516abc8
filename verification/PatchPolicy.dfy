/** The two patch parsers of the path policy. */
module PatchPolicy {
  import opened Text
  import opened Lines
  import opened JsonText

  // ---- paths ------------------------------------------------------------

  /** What `str.strip` removes. */
  predicate IsSpace(c: char) {
    || 0x09 <= c as int <= 0x0d
    || 0x1c <= c as int <= 0x20
    || 0x2000 <= c as int <= 0x200a
    || c as int in {0x85, 0xa0, 0x1680, 0x2028, 0x2029, 0x202f, 0x205f, 0x3000}
  }

  function StripLeft(s: string): string {
    if s != "" && IsSpace(s[0]) then StripLeft(s[1..]) else s
  }

  function StripRight(s: string): string {
    if s != "" && IsSpace(s[|s| - 1]) then StripRight(s[..|s| - 1]) else s
  }

  function Slashes(s: string): (r: string)
    ensures |r| == |s|
  {
    seq(|s|, i requires 0 <= i < |s| => if s[i] == '\\' then '/' else s[i])
  }

  /** `split("/")`. */
  function Parts(s: string): (r: seq<string>)
    ensures r != []
  {
    if s == "" then [""]
    else
      var rest := Parts(s[1..]);
      if s[0] == '/' then [""] + rest else [[s[0]] + rest[0]] + rest[1..]
  }

  predicate SafeParts(parts: seq<string>) {
    && parts != []
    && ':' !in parts[0]
    && forall part :: part in parts ==> part !in {"", ".", ".."}
  }

  /** A leading slash makes an empty first part, so it needs no test of its own. */
  function NormalV2Path(value: string): Option<string> {
    var normalized := StripRight(StripLeft(Slashes(value)));
    if !SafeParts(Parts(normalized)) || '\0' in normalized then None else Some(normalized)
  }

  // ---- the new-files-only parser -----------------------------------------

  predicate LineStart(s: string, i: nat) {
    i <= |s| && (i == 0 || s[i - 1] == '\n')
  }

  const FORBIDDEN_METADATA := ["old mode", "deleted file mode", "rename from", "rename to", "copy from", "copy to"]

  const SYMLINK_MODES := ["new file mode 120000", "old mode 120000", "new mode 120000"]

  /** One of the words begins the text and ends at a word boundary. */
  predicate ForbiddenAt(s: string, word: char -> bool) {
    exists k :: 0 <= k < |FORBIDDEN_METADATA| && StartsWith(s, FORBIDDEN_METADATA[k])
      && (|s| == |FORBIDDEN_METADATA[k]| || !word(s[|FORBIDDEN_METADATA[k]|]))
  }

  predicate SymlinkAt(s: string) {
    exists k :: 0 <= k < |SYMLINK_MODES| && StartsWith(s, SYMLINK_MODES[k])
      && (|s| == |SYMLINK_MODES[k]| || s[|SYMLINK_MODES[k]|] == '\n')
  }

  predicate ForbiddenMetadata(patch: string, word: char -> bool) {
    exists i :: 0 <= i <= |patch| && LineStart(patch, i) && ForbiddenAt(patch[i..], word)
  }

  predicate SymlinkMode(patch: string) {
    exists i :: 0 <= i <= |patch| && LineStart(patch, i) && SymlinkAt(patch[i..])
  }

  /** No NUL and neither of the two binary markers. */
  predicate Textual(patch: string) {
    '\0' !in patch && !Contains(patch, "GIT binary patch") && !Contains(patch, "Binary files ")
  }

  predicate IsSectionStart(line: string) { StartsWith(line, "diff --git ") }

  /** The longest prefix without blanks or tabs, and the rest. */
  function Word(s: string): (r: (string, string))
    ensures s == r.0 + r.1
  {
    if s == "" || s[0] == ' ' || s[0] == '\t' then ("", s)
    else var (w, rest) := Word(s[1..]); ([s[0]] + w, rest)
  }

  /** The two paths of a section header that has no blank in either. */
  function HeaderPaths(line: string): Option<(string, string)> {
    if !StartsWith(line, "diff --git a/") then None
    else
      var (a, after) := Word(line[13..]);
      if a == "" || !StartsWith(after, " b/") then None
      else
        var (b, rest) := Word(after[3..]);
        if b == "" || rest != "" then None else Some((a, b))
  }

  predicate IsFileMode(s: string) {
    |s| == 6 && forall i :: 0 <= i < |s| ==> '0' <= s[i] <= '7'
  }

  predicate IsHex(c: char) { IsDigit(c) || 'a' <= c <= 'f' || 'A' <= c <= 'F' }

  function SkipZeros(s: string): string {
    if s != "" && s[0] == '0' then SkipZeros(s[1..]) else s
  }

  function SkipHex(s: string): string {
    if s != "" && IsHex(s[0]) then SkipHex(s[1..]) else s
  }

  /** Zeros, two dots, hexadecimal digits, and possibly a file mode. */
  predicate IsIndexLine(rest: string) {
    var dots := SkipZeros(rest);
    && dots != rest && StartsWith(dots, "..")
    && var tail := SkipHex(dots[2..]);
      tail != dots[2..] && (tail == "" || (tail[0] == ' ' && IsFileMode(tail[1..])))
  }

  predicate IsMetadata(line: string) {
    || (StartsWith(line, "new file mode ") && line[14..] != "120000" && IsFileMode(line[14..]))
    || (StartsWith(line, "index ") && IsIndexLine(line[6..]))
  }

  predicate IsCount(digits: string) { digits != "" && digits[0] != '0' }

  predicate HunkTail(s: string) { StartsWith(s, " @@") && (|s| == 3 || s[3] == ' ') }

  predicate IsNewFileHunk(line: string) {
    && StartsWith(line, "@@ -0,0 +")
    && var (n, after) := TakeDigits(line[9..]);
      && IsCount(n)
      && if StartsWith(after, ",") then
           var (m, tail) := TakeDigits(after[1..]); IsCount(m) && HunkTail(tail)
         else HunkTail(after)
  }

  predicate HunkLine(line: string) {
    if StartsWith(line, "@@ ") then IsNewFileHunk(line)
    else StartsWith(line, "+") || StartsWith(line, "\\ No newline at end of file")
  }

  /** `list.index`, or the length where the item is missing. */
  function IndexOf(lines: seq<string>, item: string): (i: nat)
    ensures i <= |lines| && (i < |lines| ==> lines[i] == item)
    ensures forall j :: 0 <= j < i ==> lines[j] != item
  {
    if lines == [] || lines[0] == item then 0 else 1 + IndexOf(lines[1..], item)
  }

  predicate NewFileBody(body: seq<string>, path: string) {
    var from, to := IndexOf(body, "--- /dev/null"), IndexOf(body, "+++ b/" + path);
    && from < |body| && to < |body| && to == from + 1
    && (forall i :: 0 <= i < from ==> IsMetadata(body[i]))
    && var hunks := body[to + 1..];
      hunks != [] && IsNewFileHunk(hunks[0]) && forall i :: 0 <= i < |hunks| ==> HunkLine(hunks[i])
  }

  /** The one path of a section, if its header and body are those of a new file. */
  function SectionPath(section: seq<string>): Option<string>
    requires section != []
  {
    match HeaderPaths(section[0])
    case None => None
    case Some((a, b)) =>
      match (NormalV2Path(a), NormalV2Path(b))
      case (Some(from), Some(to)) =>
        if from == to && NewFileBody(section[1..], to) then Some(to) else None
      case _ => None
  }

  /** Where the section that the first line begins ends. */
  function SectionEnd(lines: seq<string>): (n: nat)
    requires lines != []
    ensures 1 <= n <= |lines|
    ensures forall i :: 1 <= i < n ==> !IsSectionStart(lines[i])
    ensures n < |lines| ==> IsSectionStart(lines[n])
  {
    if |lines| == 1 || IsSectionStart(lines[1]) then 1 else 1 + SectionEnd(lines[1..])
  }

  function ParseSections(lines: seq<string>, seen: seq<string>): Option<seq<string>>
    decreases |lines|
  {
    if lines == [] then Some(seen)
    else
      var end := SectionEnd(lines);
      match SectionPath(lines[..end])
      case None => None
      case Some(path) => if path in seen then None else ParseSections(lines[end..], seen + [path])
  }

  function FirstSection(lines: seq<string>): (n: nat)
    ensures n <= |lines| && (n < |lines| ==> IsSectionStart(lines[n]))
    ensures forall i :: 0 <= i < n ==> !IsSectionStart(lines[i])
  {
    if lines == [] || IsSectionStart(lines[0]) then 0 else 1 + FirstSection(lines[1..])
  }

  /** The paths the new-files-only policy reads off a patch, or `None` where it raises;
      `word` says which characters count as word characters at a word boundary. */
  function ChangedPathsV2(patch: string, word: char -> bool): Option<seq<string>> {
    if ForbiddenMetadata(patch, word) || SymlinkMode(patch) || !Textual(patch) then None
    else
      var lines := SplitLines(ReadText(patch));
      var first := FirstSection(lines);
      if first == |lines| || exists i :: 0 <= i < first && lines[i] != "" then None
      else
        match ParseSections(lines[first..], [])
        case None => None
        case Some(paths) => Some(SortedNames(Elements(paths)))
  }

  ghost predicate AllStarts(lines: seq<string>, upTo: nat, starts: seq<nat>) {
    && (forall k :: 0 <= k < |starts| ==> starts[k] < upTo <= |lines| && IsSectionStart(lines[starts[k]]))
    && (forall j, k :: 0 <= j < k < |starts| ==> starts[j] < starts[k])
    && (forall j :: 0 <= j < upTo <= |lines| && IsSectionStart(lines[j]) ==> j in starts)
  }

  method SectionStarts(lines: seq<string>) returns (starts: seq<nat>)
    ensures AllStarts(lines, |lines|, starts)
    ensures if starts == [] then FirstSection(lines) == |lines| else FirstSection(lines) == starts[0]
  {
    starts := [];
    for i := 0 to |lines|
      invariant AllStarts(lines, i, starts)
    {
      if IsSectionStart(lines[i]) { starts := starts + [i]; }
    }
  }

  /** The parser as it runs: collect the section starts, then check section by section. */
  method ReadChangedPathsV2(patch: string, word: char -> bool) returns (r: Option<seq<string>>)
    ensures r == ChangedPathsV2(patch, word)
  {
    hide ForbiddenMetadata, SymlinkMode, Textual, SplitLines, ReadText, SectionPath;
    if ForbiddenMetadata(patch, word) || SymlinkMode(patch) || !Textual(patch) { return None; }
    var lines := SplitLines(ReadText(patch));
    var starts := SectionStarts(lines);
    if starts == [] { return None; }
    for i := 0 to starts[0]
      invariant forall j :: 0 <= j < i ==> lines[j] == ""
    {
      if lines[i] != "" { return None; }
    }
    var parsed := ReadSections(lines, starts);
    r := if parsed == None then None else Some(SortedNames(Elements(parsed.value)));
  }

  method ReadSections(lines: seq<string>, starts: seq<nat>) returns (r: Option<seq<string>>)
    requires AllStarts(lines, |lines|, starts) && starts != []
    ensures r == ParseSections(lines[starts[0]..], [])
  {
    hide SectionPath, SectionEnd, IsSectionStart, AllStarts;
    StartsInside(lines, starts);
    var paths: seq<string> := [];
    for position := 0 to |starts|
      invariant ParseSections(lines[From(lines, starts, position)..], paths) == ParseSections(lines[starts[0]..], [])
    {
      var start, end := starts[position], From(lines, starts, position + 1);
      SectionEndAt(lines, starts, position);
      ghost var rest := lines[start..];
      assert rest[..end - start] == lines[start..end];
      assert rest[end - start..] == lines[end..];
      var path := SectionPath(lines[start..end]);
      if path == None || path.value in paths { return None; }
      paths := paths + [path.value];
    }
    assert lines[|lines|..] == [];
    return Some(paths);
  }

  lemma StartsInside(lines: seq<string>, starts: seq<nat>)
    requires AllStarts(lines, |lines|, starts)
    ensures forall k :: 0 <= k < |starts| ==> starts[k] < |lines|
  {
  }

  /** Where the section at a position begins, or the end of the lines after the last. */
  function From(lines: seq<string>, starts: seq<nat>, position: nat): (i: nat)
    requires position <= |starts| && forall k :: 0 <= k < |starts| ==> starts[k] < |lines|
    ensures i <= |lines|
  {
    if position < |starts| then starts[position] else |lines|
  }

  lemma SectionEndAt(lines: seq<string>, starts: seq<nat>, position: nat)
    requires AllStarts(lines, |lines|, starts) && position < |starts|
    ensures starts[position] + SectionEnd(lines[starts[position]..]) == From(lines, starts, position + 1)
    ensures starts[position] < From(lines, starts, position + 1)
  {
    var start, next := starts[position], From(lines, starts, position + 1);
    var rest := lines[start..];
    var n := SectionEnd(rest);
    assert next < |lines| ==> rest[next - start] == lines[next];
    assert start + n <= next;
    assert n < |rest| ==> rest[n] == lines[start + n];
    if n < |rest| {
      var k :| 0 <= k < |starts| && starts[k] == start + n;
      assert k > position;
    }
  }
}
