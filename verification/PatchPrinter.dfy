/** The text-only unified patch between two file trees. */
module PatchPrinter {
  import opened Text
  import opened Lines
  import opened JsonText

  /** A file tree: POSIX path to the decoded text of the file. */
  type Tree = map<string, string>

  /** How the alignment library renders the change of one file that the base holds, from
      the line after `--- a/path` on; it gets the two line lists and the target label. */
  type Alignment = (seq<string>, seq<string>, string) -> seq<string>

  function LinesAt(tree: Tree, path: string): (r: seq<string>)
    ensures Split(r)
  {
    if path in tree then
      SplitKeepShape(ReadText(tree[path]));
      SplitKeep(ReadText(tree[path]))
    else []
  }

  function Differing(base: Tree, candidate: Tree): set<string> {
    set p | p in base.Keys + candidate.Keys && LinesAt(base, p) != LinesAt(candidate, p)
  }

  function Header(path: string): string {
    "diff --git a/" + path + " b/" + path + "\n"
  }

  /** The range of the only hunk of a new file of `n` lines. */
  function NewFileHunk(n: nat): string {
    "@@ -0,0 +1" + (if n == 1 then "" else "," + NatText(n)) + " @@\n"
  }

  function Added(lines: seq<string>): (r: seq<string>)
    ensures |r| == |lines| && forall i :: 0 <= i < |lines| ==> r[i] == "+" + lines[i]
  {
    seq(|lines|, i requires 0 <= i < |lines| => "+" + lines[i])
  }

  function NewFileHead(path: string, n: nat): seq<string> {
    [Header(path), "--- /dev/null\n", "+++ b/" + path + "\n", NewFileHunk(n)]
  }

  /** What the patch holds about one differing file. */
  function Section(base: Tree, candidate: Tree, align: Alignment, path: string): seq<string> {
    var old_, new_ := LinesAt(base, path), LinesAt(candidate, path);
    if path in base then
      [Header(path), "--- a/" + path + "\n"]
      + align(old_, new_, if path in candidate then "b/" + path else "/dev/null")
    else NewFileHead(path, |new_|) + Added(new_)
  }

  function PatchOf(base: Tree, candidate: Tree, align: Alignment, paths: seq<string>): string {
    if paths == [] then ""
    else Concat(Section(base, candidate, align, paths[0])) + PatchOf(base, candidate, align, paths[1..])
  }

  function Patch(base: Tree, candidate: Tree, align: Alignment): string {
    Unix(PatchOf(base, candidate, align, SortedNames(Differing(base, candidate))))
  }

  lemma {:induction false} PatchOfSnoc(base: Tree, candidate: Tree, align: Alignment,
                                       paths: seq<string>, last: string)
    ensures PatchOf(base, candidate, align, paths + [last])
         == PatchOf(base, candidate, align, paths) + Concat(Section(base, candidate, align, last))
  {
    hide Section, Concat;
    var whole := paths + [last];
    if paths == [] {
      assert whole[1..] == [];
    } else {
      PatchOfSnoc(base, candidate, align, paths[1..], last);
      assert whole[1..] == paths[1..] + [last];
    }
  }

  /** The printer's loop: every path of either tree in order, skipping the unchanged ones. */
  method DeterministicPatch(base: Tree, candidate: Tree, align: Alignment) returns (patch: string)
    ensures patch == Patch(base, candidate, align)
  {
    hide Section, Concat, LinesAt, Unix;
    patch := "";
    var all := SortedNames(base.Keys + candidate.Keys);
    ghost var done: seq<string> := [];
    for i := 0 to |all|
      invariant patch == PatchOf(base, candidate, align, done)
      invariant Listed(base, candidate, all, i, done)
    {
      var path := all[i];
      ListedStep(base, candidate, all, i, done);
      if LinesAt(base, path) != LinesAt(candidate, path) {
        PatchOfSnoc(base, candidate, align, done, path);
        patch := patch + Concat(Section(base, candidate, align, path));
        done := done + [path];
      }
    }
    ListedAll(base, candidate, all, done);
    patch := Unix(patch);
  }

  /** `done` lists, in order, the differing ones of the first `n` paths. */
  ghost predicate Listed(base: Tree, candidate: Tree, all: seq<string>, n: nat, done: seq<string>)
    requires n <= |all|
  {
    && Ascending(done)
    && forall p :: p in done <==> p in all[..n] && LinesAt(base, p) != LinesAt(candidate, p)
  }

  lemma ListedStep(base: Tree, candidate: Tree, all: seq<string>, n: nat, done: seq<string>)
    requires n < |all| && Ascending(all) && Listed(base, candidate, all, n, done)
    ensures Listed(base, candidate, all, n + 1,
                   if LinesAt(base, all[n]) != LinesAt(candidate, all[n]) then done + [all[n]] else done)
  {
    hide LinesAt;
    var more := done + [all[n]];
    assert all[..n + 1] == all[..n] + [all[n]];
    forall j, k | 0 <= j < k < |more| ensures Less(more[j], more[k]) {
      assert k == |done| ==> done[j] in all[..n];
    }
  }

  lemma ListedAll(base: Tree, candidate: Tree, all: seq<string>, done: seq<string>)
    requires Elements(all) == base.Keys + candidate.Keys && Listed(base, candidate, all, |all|, done)
    ensures done == SortedNames(Differing(base, candidate))
  {
    hide LinesAt;
    assert all[..|all|] == all;
    assert forall p :: p in all <==> p in Elements(all);
    assert Elements(done) == Differing(base, candidate);
    AscendingUnique(done, SortedNames(Differing(base, candidate)));
  }
}
