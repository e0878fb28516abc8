/** Strings as the host compares and searches them: code point order, prefixes,
    substrings, and the one ascending listing of a set of names. */
module Text {

  datatype Option<+T> = None | Some(value: T)

  /** The code point order of `sorted` on strings. */
  predicate Less(a: string, b: string) {
    if b == "" then false
    else if a == "" then true
    else a[0] < b[0] || (a[0] == b[0] && Less(a[1..], b[1..]))
  }

  lemma {:induction false} LessTransitive(a: string, b: string, c: string)
    requires Less(a, b) && Less(b, c)
    ensures Less(a, c)
  {
    if a != "" && a[0] == b[0] == c[0] {
      LessTransitive(a[1..], b[1..], c[1..]);
    }
  }

  lemma {:induction false} LessIrreflexive(a: string)
    ensures !Less(a, a)
  {
    if a != "" { LessIrreflexive(a[1..]); }
  }

  lemma {:induction false} LessTrichotomy(a: string, b: string)
    ensures Less(a, b) || a == b || Less(b, a)
    ensures !(Less(a, b) && Less(b, a))
    ensures !Less(a, a)
  {
    LessIrreflexive(a);
    if a != "" && b != "" && a[0] == b[0] {
      LessTrichotomy(a[1..], b[1..]);
      assert a == [a[0]] + a[1..] && b == [b[0]] + b[1..];
    }
  }

  /** The first difference decides, and a proper prefix comes first. */
  ghost predicate Precedes(a: string, b: string) { exists k: nat :: DecidedAt(a, b, k) }

  predicate DecidedAt(a: string, b: string, k: nat) {
    k <= |a| && k < |b| && a[..k] == b[..k] && (k == |a| || a[k] < b[k])
  }

  lemma {:induction false} LessExactly(a: string, b: string)
    ensures Less(a, b) <==> Precedes(a, b)
  {
    if a == "" || b == "" || a[0] != b[0] {
      assert b != "" ==> (DecidedAt(a, b, 0) <==> Less(a, b));
    } else {
      LessExactly(a[1..], b[1..]);
      forall k: nat ensures DecidedAt(a, b, k + 1) <==> DecidedAt(a[1..], b[1..], k) {
        if k < |a| && k < |b| {
          assert a[..k + 1] == [a[0]] + a[1..][..k] && b[..k + 1] == [b[0]] + b[1..][..k];
        }
      }
      if Precedes(a[1..], b[1..]) {
        var k: nat :| DecidedAt(a[1..], b[1..], k);
        assert DecidedAt(a, b, k + 1);
      }
      if Precedes(a, b) {
        var k: nat :| DecidedAt(a, b, k);
        assert DecidedAt(a[1..], b[1..], k - 1);
      }
    }
  }

  ghost predicate Ascending(names: seq<string>) {
    forall i, j :: 0 <= i < j < |names| ==> Less(names[i], names[j])
  }

  function Elements<T>(s: seq<T>): set<T> {
    set x | x in s
  }

  predicate IsLeast(m: string, names: set<string>) {
    m in names && forall x :: x in names ==> x == m || Less(m, x)
  }

  lemma {:induction false} LeastExists(names: set<string>) returns (m: string)
    requires names != {}
    ensures IsLeast(m, names)
  {
    var n :| n in names;
    var rest := names - {n};
    if rest == {} {
      m := n;
      assert names == {n};
    } else {
      var r := LeastExists(rest);
      LessTrichotomy(r, n);
      m := if Less(r, n) then r else n;
      forall x | x in names ensures x == m || Less(m, x) {
        LeastStep(x, n, r, rest);
      }
    }
  }

  lemma SomeLeast(names: set<string>)
    requires names != {}
    ensures exists m :: IsLeast(m, names)
  {
    var m := LeastExists(names);
  }

  lemma LeastStep(x: string, n: string, r: string, rest: set<string>)
    requires IsLeast(r, rest) && (x in rest || x == n) && r != n
    ensures Less(r, n) ==> x == r || Less(r, x)
    ensures !Less(r, n) ==> x == n || Less(n, x)
  {
    LessTrichotomy(r, n);
    if x in rest && x != r && !Less(r, n) { LessTransitive(n, r, x); }
  }

  lemma LeastUnique(names: set<string>)
    ensures forall a, b :: IsLeast(a, names) && IsLeast(b, names) ==> a == b
  {
    forall a, b | IsLeast(a, names) && IsLeast(b, names) ensures a == b {
      LessTrichotomy(a, b);
    }
  }

  /** `sorted(names)`. */
  function SortedNames(names: set<string>): (r: seq<string>)
    ensures Ascending(r)
    ensures Elements(r) == names
  {
    if names == {} then []
    else
      SomeLeast(names);
      LeastUnique(names);
      var m :| IsLeast(m, names);
      var rest := SortedNames(names - {m});
      SortedStep(m, rest, names);
      [m] + rest
  }

  lemma SortedStep(m: string, rest: seq<string>, names: set<string>)
    requires IsLeast(m, names) && Ascending(rest) && Elements(rest) == names - {m}
    ensures Ascending([m] + rest) && Elements([m] + rest) == names
  {
    var all := [m] + rest;
    assert forall j :: 0 <= j < |rest| ==> rest[j] in Elements(rest);
    assert all[0] == m && forall j :: 1 <= j < |all| ==> all[j] == rest[j - 1];
    forall x | x in names ensures x in all {
      if x != m { assert x in Elements(rest); }
    }
  }

  /** A set has only one ascending listing. */
  lemma {:induction false} AscendingUnique(a: seq<string>, b: seq<string>)
    requires Ascending(a) && Ascending(b) && Elements(a) == Elements(b)
    ensures a == b
  {
    assert a != [] ==> a[0] in Elements(b);
    assert b != [] ==> b[0] in Elements(a);
    if a != [] && b != [] {
      HeadUnique(a, b);
      TailElements(a);
      TailElements(b);
      AscendingUnique(a[1..], b[1..]);
      assert a == [a[0]] + a[1..] && b == [b[0]] + b[1..];
    }
  }

  lemma HeadUnique(a: seq<string>, b: seq<string>)
    requires Ascending(a) && Ascending(b) && a != [] && b != []
    requires a[0] in b && b[0] in a
    ensures a[0] == b[0]
  {
    LessTrichotomy(a[0], b[0]);
  }

  lemma TailElements(a: seq<string>)
    requires Ascending(a) && a != []
    ensures Elements(a[1..]) == Elements(a) - {a[0]}
  {
    LessTrichotomy(a[0], a[0]);
    assert a == [a[0]] + a[1..];
    forall x | x in a[1..] ensures x != a[0] {
      var i :| 0 <= i < |a[1..]| && a[1..][i] == x;
      assert a[i + 1] == x;
    }
  }

  predicate StartsWith(s: string, prefix: string) {
    |prefix| <= |s| && s[..|prefix|] == prefix
  }

  /** `part in s`. */
  predicate Contains(s: string, part: string) {
    exists i :: 0 <= i <= |s| && StartsWith(s[i..], part)
  }
}
