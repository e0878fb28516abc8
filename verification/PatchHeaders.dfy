/** The section headers as the first patch parser reads them: which two paths it takes a printed
    header for. */
module PatchHeaders {
  import opened Text
  import opened PatchSoundness
  import opened PatchPolicy

  /** Pure POSIX path text: repeated separators and `.` parts vanish. */
  function Joined(parts: seq<string>): string {
    if parts == [] then ""
    else if |parts| == 1 then parts[0]
    else parts[0] + "/" + Joined(parts[1..])
  }

  function Kept(parts: seq<string>): seq<string> {
    if parts == [] then []
    else if parts[0] in {"", "."} then Kept(parts[1..])
    else [parts[0]] + Kept(parts[1..])
  }

  function NormalV1Path(value: string): Option<string> {
    var normalized := Slashes(value);
    var parts := Kept(Parts(normalized));
    if StartsWith(normalized, "/") || ".." in parts || '\0' in normalized || parts == [] then None
    else Some(Joined(parts))
  }

  /** Where the last ` b/` stands that has text before and after it; the greedy groups of the
      header pattern are what it separates. */
  function LastSeparator(s: string, n: nat): (i: int)
    requires n <= |s|
    ensures -1 <= i < n
    ensures i >= 0 ==> i > 0 && i + 3 < |s| && StartsWith(s[i..], " b/")
    ensures forall j :: i < j < n && j > 0 && j + 3 < |s| ==> !StartsWith(s[j..], " b/")
  {
    if n == 0 then -1
    else if n - 1 > 0 && n + 2 < |s| && StartsWith(s[n - 1..], " b/") then n - 1
    else LastSeparator(s, n - 1)
  }

  function LegacyHeader(line: string): Option<(string, string)> {
    if !StartsWith(line, "diff --git a/") then None
    else
      var s := line[13..];
      var i := LastSeparator(s, |s|);
      if i < 0 then None else Some((s[..i], s[i + 3..]))
  }

  /** A path that one header names twice. */
  predicate PlainHeader(path: string) {
    && path != "" && !Contains(path, " b/") && NormalV1Path(path) == Some(path)
  }

  lemma SeparatorAt(path: string, j: nat)
    requires path != ""
    ensures var s := path + " b/" + path;
      && StartsWith(s[|path|..], " b/")
      && (|path| < j && j + 3 <= |s| && StartsWith(s[j..], " b/") ==> j >= |path| + 3 && Contains(path, " b/"))
  {
    var s := path + " b/" + path;
    assert s[|path|..][..3] == " b/";
    if |path| < j && j + 3 <= |s| && StartsWith(s[j..], " b/") {
      assert s[j..][..3][0] == s[j] && s[j..][..3][1] == s[j + 1] && s[j..][..3][2] == s[j + 2];
      var k := j - |path| - 3;
      assert k >= 0 ==> path[k..][..3] == s[j..][..3];
    }
  }

  lemma HeaderBack(path: string)
    requires PlainHeader(path)
    ensures LegacyHeader(HeaderText(path)) == Some((path, path))
  {
    var line, s := HeaderText(path), path + " b/" + path;
    HeaderSplit(path);
    var i := LastSeparator(s, |s|);
    hide LastSeparator, StartsWith, Contains, NormalV1Path;
    SeparatorAt(path, |path|);
    if i > |path| { SeparatorAt(path, i); }
    assert i == |path|;
    assert s[..i] == path && s[i + 3..] == path;
  }

  lemma HeaderSplit(path: string)
    ensures StartsWith(HeaderText(path), "diff --git a/") && HeaderText(path)[13..] == path + " b/" + path
  {
    assert HeaderText(path)[..13] == "diff --git a/";
  }


  // ---- paths in normal form -----------------------------------------------------------------

  /** The text a list of parts takes, with a separator behind each. */
  function Size(parts: seq<string>): nat {
    if parts == [] then 0 else |parts[0]| + 1 + Size(parts[1..])
  }

  lemma {:induction false} SizeBoth(a: seq<string>, b: seq<string>)
    ensures Size(a + b) == Size(a) + Size(b)
  {
    if a == [] {
      assert a + b == b;
    } else {
      assert (a + b)[1..] == a[1..] + b;
      SizeBoth(a[1..], b);
    }
  }

  lemma {:induction false} JoinedSize(parts: seq<string>)
    requires parts != []
    ensures |Joined(parts)| + 1 == Size(parts)
  {
    if |parts| > 1 {
      JoinedSize(parts[1..]);
    } else {
      assert parts[1..] == [];
    }
  }

  lemma {:induction false} PartsSize(s: string)
    ensures Size(Parts(s)) == |s| + 1
  {
    if s == "" {
      assert Parts(s)[1..] == [];
    } else {
      PartsSize(s[1..]);
    }
  }

  lemma {:induction false} KeptSize(parts: seq<string>)
    ensures Size(Kept(parts)) <= Size(parts)
    ensures Size(Kept(parts)) == Size(parts) ==> Kept(parts) == parts
    ensures forall part :: part in Kept(parts) ==> part !in {"", "."}
  {
    if parts != [] {
      KeptSize(parts[1..]);
      assert parts == [parts[0]] + parts[1..];
      if parts[0] !in {"", "."} {
        assert Kept(parts)[1..] == Kept(parts[1..]);
      }
    }
  }

  lemma {:induction false} KeptBoth(a: seq<string>, b: seq<string>)
    ensures Kept(a + b) == Kept(a) + Kept(b)
  {
    if a == [] {
      assert a + b == b;
    } else {
      assert (a + b)[1..] == a[1..] + b;
      KeptBoth(a[1..], b);
    }
  }

  lemma {:induction false} JoinedParts(s: string)
    ensures Joined(Parts(s)) == s
  {
    if s != "" {
      var rest := Parts(s[1..]);
      JoinedParts(s[1..]);
      if s[0] == '/' {
        assert ([""] + rest)[1..] == rest;
      } else {
        var parts := [[s[0]] + rest[0]] + rest[1..];
        assert parts[1..] == rest[1..] && rest == [rest[0]] + rest[1..];
        assert |parts| > 1 ==> Joined(parts) == [s[0]] + rest[0] + "/" + Joined(rest[1..]);
      }
      assert s == [s[0]] + s[1..];
    }
  }

  function OnFirst(c: char, parts: seq<string>): seq<string>
    requires parts != []
  {
    if c == '/' then [""] + parts else [[c] + parts[0]] + parts[1..]
  }

  lemma PartsStep(c: char, t: string)
    ensures Parts([c] + t) == OnFirst(c, Parts(t))
  {
    assert ([c] + t)[1..] == t;
  }

  lemma OnFirstBoth(c: char, x: seq<string>, y: seq<string>)
    requires x != []
    ensures OnFirst(c, x + y) == OnFirst(c, x) + y
  {
    assert (x + y)[1..] == x[1..] + y;
  }

  lemma {:induction false} PartsSplit(a: string, b: string)
    ensures Parts(a + "/" + b) == Parts(a) + Parts(b)
  {
    hide Parts, OnFirst;
    if a == "" {
      PartsStep('/', b);
      EmptyParts(b);
      assert a + "/" + b == ['/'] + b;
    } else {
      var c, t := a[0], a[1..];
      assert a == [c] + t && a + "/" + b == [c] + (t + "/" + b);
      PartsSplit(t, b);
      PartsStep(c, t);
      PartsStep(c, t + "/" + b);
      OnFirstBoth(c, Parts(t), Parts(b));
    }
  }

  lemma EmptyParts(b: string)
    ensures OnFirst('/', Parts(b)) == Parts("") + Parts(b)
  {
  }

  /** A path in normal form is its own list of parts. */
  lemma NormalParts(path: string)
    requires NormalV1Path(path) == Some(path)
    ensures Slashes(path) == path && Kept(Parts(path)) == Parts(path)
    ensures path != "" && !StartsWith(path, "/") && ".." !in Parts(path) && '\0' !in path
    ensures forall part :: part in Parts(path) ==> part !in {"", "."}
  {
    var s := Slashes(path);
    PartsSize(s);
    KeptSize(Parts(s));
    JoinedSize(Kept(Parts(s)));
    JoinedParts(s);
  }

  /** What follows a separator in a path in normal form is in normal form. */
  lemma NormalTail(path: string, m: nat)
    requires NormalV1Path(path) == Some(path) && m < |path| && path[m] == '/'
    ensures NormalV1Path(path[m + 1..]) == Some(path[m + 1..]) && m + 1 < |path|
  {
    hide Kept, Parts, Joined, Slashes;
    var front, tail := path[..m], path[m + 1..];
    NormalParts(path);
    assert path == front + "/" + tail;
    PartsSplit(front, tail);
    SlashesTail(path, m + 1);
    TailParts(tail, Parts(front));
  }

  lemma SlashesTail(path: string, m: nat)
    requires Slashes(path) == path && m <= |path|
    ensures Slashes(path[m..]) == path[m..]
  {
    forall i | 0 <= i < |path| - m ensures path[m..][i] != '\\' {
      assert path[m + i] == Slashes(path)[m + i];
    }
  }

  lemma TailParts(tail: string, front: seq<string>)
    requires Slashes(tail) == tail && '\0' !in tail
    requires forall part :: part in front + Parts(tail) ==> part !in {"", ".", ".."}
    ensures NormalV1Path(tail) == Some(tail) && tail != ""
  {
    forall part | part in Parts(tail) ensures part !in {"", ".", ".."} { assert part in front + Parts(tail); }
    hide Parts, Kept, Joined, StartsWith, Slashes;
    KeptAll(Parts(tail));
    JoinedParts(tail);
    if StartsWith(tail, "/") { SlashFirst(tail); }
  }

  lemma SlashFirst(s: string)
    requires StartsWith(s, "/")
    ensures "" in Parts(s)
  {
    assert s[0] == '/' by { assert s[..1] == "/"; }
    assert Parts(s)[0] == "";
  }

  lemma {:induction false} KeptAll(parts: seq<string>)
    requires forall part :: part in parts ==> part !in {"", "."}
    ensures Kept(parts) == parts
  {
    if parts != [] {
      assert parts[0] in parts && forall part :: part in parts[1..] ==> part in parts;
      KeptAll(parts[1..]);
    }
  }

  // ---- a path with a separator of the header in it -------------------------------------------

  /** `y` is `x` with ` b` behind its last part. */
  predicate Grown(x: seq<string>, y: seq<string>) {
    x != [] && |y| == |x| && y[..|x| - 1] == x[..|x| - 1] && y[|x| - 1] == x[|x| - 1] + " b"
  }

  lemma GrownOnFirst(c: char, x: seq<string>, y: seq<string>)
    requires Grown(x, y)
    ensures Grown(OnFirst(c, x), OnFirst(c, y))
  {
    var u, v, n := OnFirst(c, x), OnFirst(c, y), |x| - 1;
    if c == '/' {
      assert u[..n + 1] == [""] + x[..n] && v[..n + 1] == [""] + y[..n];
    } else if n == 0 {
      assert [c] + (x[0] + " b") == [c] + x[0] + " b";
    } else {
      assert x[0] == x[..n][0] == y[..n][0] == y[0];
      assert u[..n] == [[c] + x[0]] + x[..n][1..] && v[..n] == [[c] + y[0]] + y[..n][1..];
    }
  }

  lemma {:induction false} LastPartGrows(s: string)
    ensures Grown(Parts(s), Parts(s + " b"))
  {
    hide Parts, Grown, OnFirst;
    if s == "" {
      EmptyGrows();
    } else {
      var c, t := s[0], s[1..];
      LastPartGrows(t);
      assert s == [c] + t && s + " b" == [c] + (t + " b");
      PartsStep(c, t);
      PartsStep(c, t + " b");
      GrownOnFirst(c, Parts(t), Parts(t + " b"));
    }
  }

  lemma EmptyGrows()
    ensures Grown(Parts(""), Parts("" + " b"))
  {
    NoSlash(" b");
    assert "" + " b" == " b";
  }

  lemma {:induction false} NoSlash(s: string)
    requires '/' !in s
    ensures Parts(s) == [s]
  {
    if s != "" {
      assert s[0] in s && forall c :: c in s[1..] ==> c in s;
      NoSlash(s[1..]);
      assert s == [s[0]] + s[1..];
    }
  }

  /** The first path read is longer than the one printed. */
  lemma FirstLonger(path: string, rest: string)
    requires NormalV1Path(path) == Some(path) && NormalV1Path(path + " b/" + rest).Some?
    ensures |NormalV1Path(path + " b/" + rest).value| > |path|
  {
    hide Parts, Kept, Joined;
    NormalParts(path);
    var s := path + " b/" + rest;
    var tail := Slashes(rest);
    assert Slashes(s) == (path + " b") + "/" + tail;
    PartsSplit(path + " b", tail);
    LastPartGrows(path);
    var x, y := Parts(path), Parts(path + " b");
    GrownKept(x, y);
    KeptBoth(y, Parts(tail));
    SizeBoth(Kept(y), Kept(Parts(tail)));
    JoinedSize(Kept(y) + Kept(Parts(tail)));
    PartsSize(path);
  }

  lemma GrownKept(x: seq<string>, y: seq<string>)
    requires Grown(x, y) && Kept(x) == x
    ensures Kept(y) != [] && Size(Kept(y)) > Size(x)
  {
    hide Kept, Size;
    var n := |x| - 1;
    assert x == x[..n] + [x[n]] && y == x[..n] + [y[n]];
    SizeBoth(x[..n], [x[n]]);
    SizeBoth(x[..n], [y[n]]);
    LastKept(y[n]);
    LastSize(x[n]);
    LastSize(y[n]);
    KeptBoth(x[..n], [x[n]]);
    KeptBoth(x[..n], [y[n]]);
    InitKept(x, n);
  }

  lemma InitKept(x: seq<string>, n: nat)
    requires Kept(x) == x && n < |x|
    ensures Kept(x[..n]) == x[..n]
  {
    KeptSize(x);
    assert forall part :: part in x[..n] ==> part in x;
    KeptAll(x[..n]);
  }

  lemma LastKept(part: string)
    requires |part| >= 2
    ensures Kept([part]) == [part]
  {
    assert [part][1..] == [];
  }

  lemma LastSize(part: string)
    ensures Size([part]) == |part| + 1
  {
    assert [part][1..] == [];
  }

  lemma EndsInPart(path: string)
    requires NormalV1Path(path) == Some(path)
    ensures path[|path| - 1] != '/'
  {
    if path[|path| - 1] == '/' { NormalTail(path, |path| - 1); }
  }

  /** The two paths a printed header is taken for: the path itself, or, where the path holds the
      separator, one that is longer and one without a separator. */
  lemma HeaderTaken(path: string)
    requires NormalV1Path(path) == Some(path)
    ensures LegacyHeader(HeaderText(path)).Some?
    ensures !Contains(path, " b/") ==> LegacyHeader(HeaderText(path)) == Some((path, path))
    ensures Contains(path, " b/") ==>
      var (a, b) := LegacyHeader(HeaderText(path)).value;
      && (NormalV1Path(a).Some? ==> |NormalV1Path(a).value| > |path|)
      && NormalV1Path(b) == Some(b) && !Contains(b, " b/")
  {
    hide NormalV1Path, LastSeparator, Contains, StartsWith;
    NormalParts(path);
    if Contains(path, " b/") {
      SplitLater(path);
      var i := LastSeparator(path + " b/" + path, |path + " b/" + path|);
      HeaderSplit(path);
      SecondTail(path, i);
      var rest := path[..i - |path| - 3];
      if NormalV1Path(path + " b/" + rest).Some? { FirstLonger(path, rest); }
    } else {
      HeaderBack(path);
    }
  }

  lemma SplitLater(path: string)
    requires NormalV1Path(path) == Some(path) && Contains(path, " b/")
    ensures var s := path + " b/" + path; var i := LastSeparator(s, |s|);
      && i >= |path| + 3 && s[..i] == path + " b/" + path[..i - |path| - 3]
      && s[i + 3..] == path[i - |path|..] && path[i - |path| - 1] == '/'
  {
    hide NormalV1Path, LastSeparator;
    var s := path + " b/" + path;
    var k :| 0 <= k <= |path| && StartsWith(path[k..], " b/");
    var j := |path| + 3 + k;
    assert s[j..] == path[k..];
    assert path[k..][2] == '/' by { assert path[k..][..3] == " b/"; }
    EndsInPart(path);
    assert j + 3 < |s|;
    var i := LastSeparator(s, |s|);
    assert i >= j;
    assert s[i] == path[i - |path| - 3];
    assert s[i..][..3] == " b/" && s[i + 2] == s[i..][2];
  }

  lemma SecondTail(path: string, i: nat)
    requires NormalV1Path(path) == Some(path) && |path| + 3 <= i && i - |path| < |path| && path[i - |path| - 1] == '/'
    requires i == LastSeparator(path + " b/" + path, |path + " b/" + path|)
    ensures var b := path[i - |path|..]; NormalV1Path(b) == Some(b) && !Contains(b, " b/")
  {
    hide NormalV1Path, LastSeparator;
    var b, s := path[i - |path|..], path + " b/" + path;
    NormalTail(path, i - |path| - 1);
    if Contains(b, " b/") {
      var k :| 0 <= k <= |b| && StartsWith(b[k..], " b/");
      var j := i + 3 + k;
      assert s[j..] == b[k..];
      assert b[k..][2] == '/' by { assert b[k..][..3] == " b/"; }
      EndsInPart(b);
    }
  }
}
