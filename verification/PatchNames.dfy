/** Which texts the patch parsers take for a path, and for which: part by part, where the parts are
    the texts between separators. */
module PatchNames {
  import opened Text
  import opened PatchPolicy
  import opened PatchHeaders

  // ---- parts ------------------------------------------------------------------------------

  /** A part of a path: this text between two separators, or between one and an end. */
  predicate PartAt(s: string, k: nat, part: string) {
    && k + |part| <= |s| && s[k..k + |part|] == part
    && (k == 0 || s[k - 1] == '/') && (k + |part| == |s| || s[k + |part|] == '/')
  }

  ghost predicate HasPart(s: string, part: string) { exists k: nat :: PartAt(s, k, part) }

  lemma {:induction false} FirstPart(s: string, part: string)
    requires '/' !in part
    ensures Parts(s)[0] == part <==> PartAt(s, 0, part)
  {
    if s != "" && part != "" && s[0] == part[0] {
      assert part[0] in part && forall c :: c in part[1..] ==> c in part;
      FirstPart(s[1..], part[1..]);
      assert part == [part[0]] + part[1..];
      assert |part| <= |s| ==> s[..|part|] == [s[0]] + s[1..][..|part| - 1];
    }
  }

  lemma PartAtTail(s: string, k: nat, part: string)
    requires s != "" && (k > 0 || s[0] == '/')
    ensures PartAt(s, k + 1, part) <==> PartAt(s[1..], k, part)
  {
    if k + 1 + |part| <= |s| { assert s[k + 1..k + 1 + |part|] == s[1..][k..k + |part|]; }
  }

  lemma {:induction false} LaterParts(s: string, part: string)
    requires '/' !in part
    ensures part in Parts(s)[1..] <==> exists k: nat :: k > 0 && PartAt(s, k, part)
  {
    if s != "" {
      var rest := Parts(s[1..]);
      FirstPart(s[1..], part);
      LaterParts(s[1..], part);
      hide PartAt;
      assert rest == [rest[0]] + rest[1..];
      forall k: nat | k > 0 || s[0] == '/' ensures PartAt(s, k + 1, part) <==> PartAt(s[1..], k, part) {
        PartAtTail(s, k, part);
      }
      if s[0] == '/' {
        assert Parts(s)[1..] == rest;
        if part in rest { var k: nat :| PartAt(s[1..], k, part); assert PartAt(s, k + 1, part); }
      } else {
        assert Parts(s)[1..] == rest[1..];
        NoPartAfterChar(s, part);
        if part in rest[1..] { var k: nat :| k > 0 && PartAt(s[1..], k, part); assert PartAt(s, k + 1, part); }
      }
      if exists k: nat :: k > 0 && PartAt(s, k, part) {
        var k: nat :| k > 0 && PartAt(s, k, part);
        assert PartAt(s[1..], k - 1, part);
      }
    }
  }

  lemma NoPartAfterChar(s: string, part: string)
    requires s != "" && s[0] != '/'
    ensures !PartAt(s, 1, part)
  {
  }

  lemma PartsExactly(s: string, part: string)
    requires '/' !in part
    ensures part in Parts(s) <==> HasPart(s, part)
  {
    FirstPart(s, part);
    LaterParts(s, part);
    assert Parts(s) == [Parts(s)[0]] + Parts(s)[1..];
  }

  /** A colon before the first separator names a drive. */
  predicate DriveAt(s: string, i: nat) {
    i < |s| && s[i] == ':' && '/' !in s[..i]
  }

  lemma {:induction false} FirstPartDrive(s: string)
    ensures ':' in Parts(s)[0] <==> exists i: nat :: DriveAt(s, i)
  {
    if s != "" {
      FirstPartDrive(s[1..]);
      forall i: nat | i > 0 ensures DriveAt(s, i) <==> s[0] != '/' && DriveAt(s[1..], i - 1) {
        if i < |s| { assert s[..i] == [s[0]] + s[1..][..i - 1]; }
      }
      if s[0] == ':' { assert DriveAt(s, 0); }
      if s[0] != '/' && exists i: nat :: DriveAt(s[1..], i) {
        var i: nat :| DriveAt(s[1..], i);
        assert DriveAt(s, i + 1);
      }
      if exists i: nat :: DriveAt(s, i) {
        var i: nat :| DriveAt(s, i);
        assert i > 0 ==> DriveAt(s[1..], i - 1);
      }
    }
  }

  /** A relative path without empty parts, without dots alone, without a drive and without NUL. */
  ghost predicate SafeName(s: string) {
    && !HasPart(s, "") && !HasPart(s, ".") && !HasPart(s, "..")
    && (forall i: nat :: !DriveAt(s, i)) && '\0' !in s
  }

  lemma SafeNameExactly(s: string)
    ensures SafeParts(Parts(s)) && '\0' !in s <==> SafeName(s)
  {
    PartsExactly(s, "");
    PartsExactly(s, ".");
    PartsExactly(s, "..");
    FirstPartDrive(s);
    hide HasPart, DriveAt, Parts;
  }

  predicate Spaces(s: string) { forall i :: 0 <= i < |s| ==> IsSpace(s[i]) }

  /** What stays of a text when the spaces around it go. */
  ghost predicate Trimmed(s: string, front: string, middle: string, back: string) {
    && s == front + middle + back && Spaces(front) && Spaces(back)
    && (middle != "" ==> !IsSpace(middle[0]) && !IsSpace(middle[|middle| - 1]))
  }

  lemma {:induction false} StripLeftExactly(front: string, s: string)
    requires Spaces(front) && (s != "" ==> !IsSpace(s[0]))
    ensures StripLeft(front + s) == s
  {
    if front == "" {
      assert front + s == s;
    } else {
      assert (front + s)[1..] == front[1..] + s;
      StripLeftExactly(front[1..], s);
    }
  }

  lemma {:induction false} StripRightExactly(s: string, back: string)
    requires Spaces(back) && (s != "" ==> !IsSpace(s[|s| - 1]))
    ensures StripRight(s + back) == s
  {
    if back == "" {
      assert s + back == s;
    } else {
      var n := |back| - 1;
      assert (s + back)[..|s| + n] == s + back[..n];
      StripRightExactly(s, back[..n]);
    }
  }

  lemma {:induction false} StripLeftParts(s: string) returns (front: string)
    ensures s == front + StripLeft(s) && Spaces(front)
    ensures StripLeft(s) != "" ==> !IsSpace(StripLeft(s)[0])
  {
    front := "";
    if s != "" && IsSpace(s[0]) {
      front := StripLeftParts(s[1..]);
      front := [s[0]] + front;
      assert s == [s[0]] + s[1..];
    }
  }

  lemma {:induction false} StripRightParts(s: string) returns (back: string)
    ensures s == StripRight(s) + back && Spaces(back)
    ensures StripRight(s) != "" ==> !IsSpace(StripRight(s)[|StripRight(s)| - 1])
  {
    if s != "" && IsSpace(s[|s| - 1]) {
      var init, last := s[..|s| - 1], [s[|s| - 1]];
      var rest := StripRightParts(init);
      assert s == init + last && StripRight(s) == StripRight(init);
      hide StripRight;
      back := rest + last;
    } else {
      back := "";
    }
  }

  lemma TrimmedExactly(s: string, middle: string)
    ensures StripRight(StripLeft(s)) == middle <==> exists front, back :: Trimmed(s, front, middle, back)
  {
    hide StripLeft, StripRight;
    var front := StripLeftParts(s);
    var back := StripRightParts(StripLeft(s));
    var kept := StripRight(StripLeft(s));
    assert kept != "" ==> kept[0] == StripLeft(s)[0];
    assert Trimmed(s, front, kept, back);
    if exists f, b :: Trimmed(s, f, middle, b) {
      var f, b :| Trimmed(s, f, middle, b);
      if middle == "" {
        assert s == (f + b) + "" && "" + "" == "";
        StripLeftExactly(f + b, "");
        StripRightExactly("", "");
      } else {
        assert s == f + (middle + b);
        StripLeftExactly(f, middle + b);
        StripRightExactly(middle, b);
      }
    }
  }

  /** A path is read, with separators of either kind and spaces around it, as a safe name. */
  ghost predicate NamesPath(text: string, path: string) {
    SafeName(path) && exists front, back :: Trimmed(Slashes(text), front, path, back)
  }

  lemma NamesPathExactly(text: string, path: string)
    ensures NormalV2Path(text) == Some(path) <==> NamesPath(text, path)
  {
    TrimmedExactly(Slashes(text), path);
    SafeNameExactly(path);
    hide StripLeft, StripRight, SafeName, SafeParts, Parts, Slashes, Trimmed;
  }

  // ---- paths of the first parser --------------------------------------------------------------

  lemma {:induction false} KeptExactly(parts: seq<string>, part: string)
    ensures part in Kept(parts) <==> part in parts && part !in {"", "."}
  {
    if parts != [] {
      assert parts == [parts[0]] + parts[1..];
      KeptExactly(parts[1..], part);
    }
  }

  lemma {:induction false} NoSlashIn(s: string)
    ensures forall part :: part in Parts(s) ==> '/' !in part
  {
    if s != "" { NoSlashIn(s[1..]); }
  }

  lemma {:induction false} OnePart(s: string)
    requires '/' !in s
    ensures Parts(s) == [s]
  {
    if s != "" {
      assert s[0] in s && forall c :: c in s[1..] ==> c in s;
      OnePart(s[1..]);
      assert s == [s[0]] + s[1..];
    }
  }

  lemma {:induction false} JoinedBack(parts: seq<string>)
    requires parts != [] && forall part :: part in parts ==> '/' !in part
    ensures Parts(Joined(parts)) == parts
  {
    hide Parts;
    assert parts[0] in parts && forall part :: part in parts[1..] ==> part in parts;
    OnePart(parts[0]);
    if |parts| > 1 {
      JoinedBack(parts[1..]);
      PartsSplit(parts[0], Joined(parts[1..]));
      assert parts == [parts[0]] + parts[1..];
    }
  }

  /** A text names a path for the first parser exactly when, read with separators of one kind, it is
      relative, has no part that climbs, no NUL, and a part that is neither empty nor a dot; the path
      has just those parts, and a text that has no other is its own path. */
  lemma LegacyNameExactly(text: string)
    ensures var s, r := Slashes(text), NormalV1Path(text);
      && (r.Some? <==>
            && (s == "" || s[0] != '/') && !HasPart(s, "..") && '\0' !in s
            && exists part :: HasPart(s, part) && '/' !in part && part !in {"", "."})
      && (r.Some? ==>
            && (forall part :: '/' !in part ==> (HasPart(r.value, part) <==> HasPart(s, part) && part !in {"", "."}))
            && (!HasPart(s, "") && !HasPart(s, ".") ==> r.value == s))
  {
    var s, r := Slashes(text), NormalV1Path(text);
    var parts := Kept(Parts(s));
    NoSlashIn(s);
    assert s != "" ==> s[..1] == [s[0]];
    forall part | '/' !in part ensures part in Parts(s) <==> HasPart(s, part) { PartsExactly(s, part); }
    forall part ensures part in parts <==> part in Parts(s) && part !in {"", "."} { KeptExactly(Parts(s), part); }
    if parts != [] {
      assert parts[0] in parts;
      JoinedBack(parts);
      forall part | '/' !in part ensures part in parts <==> HasPart(Joined(parts), part) {
        PartsExactly(Joined(parts), part);
      }
      if !HasPart(s, "") && !HasPart(s, ".") {
        KeptAll(Parts(s));
        JoinedParts(s);
      }
    }
  }
}
