/** Glob patterns as `fnmatch` reads them: stars, question marks and bracketed classes, all of
    which also match separators. */
module Globs {
  import opened Text

  /** Which characters the text between brackets stands for. */
  type Classes = (string, char) -> bool

  datatype Token = Star | Any | Class(stuff: string) | Lit(c: char)

  function FindFrom(s: string, i: nat, c: char): (r: nat)
    requires i <= |s|
    ensures i <= r <= |s| && (r < |s| ==> s[r] == c)
    decreases |s| - i
  {
    if i == |s| || s[i] == c then i else FindFrom(s, i + 1, c)
  }

  /** Where the class that opens at the front closes: a bracket right after the opening, or after
      its exclamation mark, belongs to the class. */
  function ClassEnd(pattern: string): (r: nat)
    requires pattern != ""
    ensures 0 < r <= |pattern|
  {
    var i := if |pattern| > 1 && pattern[1] == '!' then 2 else 1;
    FindFrom(pattern, if i < |pattern| && pattern[i] == ']' then i + 1 else i, ']')
  }

  /** A bracket that is never closed stands for itself. */
  function Tokens(pattern: string): seq<Token>
    decreases |pattern|
  {
    if pattern == "" then []
    else if pattern[0] == '*' then [Star] + Tokens(pattern[1..])
    else if pattern[0] == '?' then [Any] + Tokens(pattern[1..])
    else if pattern[0] == '[' && ClassEnd(pattern) < |pattern| then
      [Class(pattern[1..ClassEnd(pattern)])] + Tokens(pattern[ClassEnd(pattern) + 1..])
    else [Lit(pattern[0])] + Tokens(pattern[1..])
  }

  predicate Fits(cls: Classes, c: char, t: Token)
    requires !t.Star?
  {
    match t
    case Any => true
    case Class(stuff) => cls(stuff, c)
    case Lit(l) => c == l
  }

  predicate TokensMatch(cls: Classes, path: string, ts: seq<Token>)
    decreases |path| + |ts|
  {
    if ts == [] then path == ""
    else if ts[0].Star? then TokensMatch(cls, path, ts[1..]) || (path != "" && TokensMatch(cls, path[1..], ts))
    else path != "" && Fits(cls, path[0], ts[0]) && TokensMatch(cls, path[1..], ts[1..])
  }

  /** `fnmatchcase`. */
  predicate Matches(cls: Classes, path: string, pattern: string) { TokensMatch(cls, path, Tokens(pattern)) }

  predicate MatchesAny(cls: Classes, path: string, patterns: seq<string>) {
    exists k :: 0 <= k < |patterns| && Matches(cls, path, patterns[k])
  }

  /** The star is the only wildcard. */
  predicate StarOnly(pattern: string) { '?' !in pattern && '[' !in pattern }

  /** No wildcard at all. */
  predicate Plain(s: string) { StarOnly(s) && '*' !in s }

  /** What stands before the first star. */
  function Literal(pattern: string): (r: string)
    ensures |r| <= |pattern|
  {
    if pattern == "" || pattern[0] == '*' then "" else [pattern[0]] + Literal(pattern[1..])
  }

  predicate AllStars(s: string) { forall i :: 0 <= i < |s| ==> s[i] == '*' }

  /** Matching where the star is the only wildcard. */
  predicate StarMatches(path: string, pattern: string)
    decreases |path| + |pattern|
  {
    if pattern == "" then path == ""
    else if pattern[0] == '*' then StarMatches(path, pattern[1..]) || (path != "" && StarMatches(path[1..], pattern))
    else path != "" && path[0] == pattern[0] && StarMatches(path[1..], pattern[1..])
  }

  // ---- reading a pattern token by token -----------------------------------------------

  lemma TailPlain(s: string)
    requires s != ""
    ensures StarOnly(s) ==> StarOnly(s[1..]) && s[0] != '?' && s[0] != '['
    ensures Plain(s) ==> Plain(s[1..]) && s[0] != '*'
  {
    assert s[0] in s && forall c :: c in s[1..] ==> c in s;
  }

  lemma {:induction false} StarOnlyMatches(cls: Classes, path: string, pattern: string)
    requires StarOnly(pattern)
    ensures Matches(cls, path, pattern) <==> StarMatches(path, pattern)
    decreases |path| + |pattern|
  {
    hide StarOnly;
    if pattern != "" {
      TailPlain(pattern);
      assert Tokens(pattern)[1..] == Tokens(pattern[1..]);
      StarOnlyMatches(cls, path, pattern[1..]);
      if path != "" {
        StarOnlyMatches(cls, path[1..], pattern[1..]);
        StarOnlyMatches(cls, path[1..], pattern);
      }
    }
  }

  /** A path that matches a pattern starts with whatever plain text the pattern starts with. */
  lemma {:induction false} MatchStartsPlain(cls: Classes, path: string, pattern: string, front: string)
    requires Matches(cls, path, pattern) && Plain(front) && StartsWith(pattern, front)
    ensures StartsWith(path, front)
  {
    if front != "" {
      TailPlain(front);
      assert pattern[..|front|][0] == pattern[0];
      assert pattern[1..][..|front| - 1] == pattern[..|front|][1..];
      assert Tokens(pattern)[1..] == Tokens(pattern[1..]);
      MatchStartsPlain(cls, path[1..], pattern[1..], front[1..]);
      assert path == [path[0]] + path[1..] && front == [front[0]] + front[1..];
    }
  }

  /** Without stars and classes a pattern fits character by character. */
  predicate FitsEach(path: string, pattern: string) {
    |path| == |pattern| && forall i :: 0 <= i < |pattern| ==> pattern[i] == '?' || pattern[i] == path[i]
  }

  lemma FitsTail(path: string, pattern: string)
    requires path != "" && pattern != ""
    ensures FitsEach(path, pattern)
            <==> (pattern[0] == '?' || pattern[0] == path[0]) && FitsEach(path[1..], pattern[1..])
  {
    if FitsEach(path[1..], pattern[1..]) && (pattern[0] == '?' || pattern[0] == path[0]) {
      forall i | 0 <= i < |pattern| ensures pattern[i] == '?' || pattern[i] == path[i] {
        if i > 0 { assert pattern[1..][i - 1] == pattern[i] && path[1..][i - 1] == path[i]; }
      }
    }
  }

  lemma {:induction false} SinglesMatch(cls: Classes, path: string, pattern: string)
    requires '*' !in pattern && '[' !in pattern
    ensures Matches(cls, path, pattern) <==> FitsEach(path, pattern)
  {
    if pattern != "" {
      assert pattern[0] in pattern && forall c :: c in pattern[1..] ==> c in pattern;
      assert Tokens(pattern)[1..] == Tokens(pattern[1..]);
      if path != "" {
        FitsTail(path, pattern);
        SinglesMatch(cls, path[1..], pattern[1..]);
      }
    }
  }

  /** A glob without classes, read as a path, matches itself. */
  lemma {:induction false} MatchesItself(cls: Classes, pattern: string)
    requires '[' !in pattern
    ensures Matches(cls, pattern, pattern)
  {
    if pattern != "" {
      assert pattern[0] in pattern && forall c :: c in pattern[1..] ==> c in pattern;
      MatchesItself(cls, pattern[1..]);
      var ts := Tokens(pattern);
      assert ts[1..] == Tokens(pattern[1..]);
      if pattern[0] == '*' { assert TokensMatch(cls, pattern[1..], ts); }
    }
  }

  /** A star stands for any text, separators included. */
  lemma {:induction false} StarSplits(cls: Classes, path: string, rest: string)
    ensures Matches(cls, path, "*" + rest) <==> exists k :: 0 <= k <= |path| && Matches(cls, path[k..], rest)
    decreases |path|
  {
    var pattern := "*" + rest;
    assert pattern[1..] == rest;
    var ts := Tokens(pattern);
    assert ts[0] == Star && ts[1..] == Tokens(rest);
    assert path[0..] == path;
    if path != "" {
      var tail := path[1..];
      StarSplits(cls, tail, rest);
      assert Matches(cls, path, pattern) <==> Matches(cls, path, rest) || Matches(cls, tail, pattern);
      assert forall k :: 0 <= k <= |tail| ==> tail[k..] == path[k + 1..];
      hide TokensMatch, Tokens;
      if exists k :: 0 <= k <= |tail| && Matches(cls, tail[k..], rest) {
        var k :| 0 <= k <= |tail| && Matches(cls, tail[k..], rest);
        assert Matches(cls, path[k + 1..], rest);
      }
      if exists k :: 0 <= k <= |path| && Matches(cls, path[k..], rest) {
        var k :| 0 <= k <= |path| && Matches(cls, path[k..], rest);
        assert k > 0 ==> Matches(cls, tail[k - 1..], rest);
      }
    }
  }

  /** A question mark stands for one character, any other character that opens nothing for itself. */
  lemma OneMatches(cls: Classes, path: string, c: char, rest: string)
    requires c != '*' && c != '['
    ensures Matches(cls, path, [c] + rest)
       <==> path != "" && (c == '?' || path[0] == c) && Matches(cls, path[1..], rest)
  {
    var pattern := [c] + rest;
    assert pattern[1..] == rest;
    var ts := Tokens(pattern);
    assert ts[1..] == Tokens(rest);
  }

  /** What may stand between the brackets of a class: at least one character after the exclamation
      mark, if there is one, and no closing bracket but in that first place. */
  predicate ClassText(stuff: string) {
    var body := if StartsWith(stuff, "!") then stuff[1..] else stuff;
    body != "" && ']' !in body[1..]
  }

  lemma {:induction false} FindExactly(s: string, i: nat, c: char, k: nat)
    requires i <= k <= |s| && c !in s[i..k] && (k < |s| ==> s[k] == c)
    ensures FindFrom(s, i, c) == k
    decreases k - i
  {
    if i < k {
      assert s[i] in s[i..k] && s[i..k][1..] == s[i + 1..k];
      FindExactly(s, i + 1, c, k);
    }
  }

  lemma ClassCloses(pattern: string, stuff: string)
    requires ClassText(stuff) && |pattern| > |stuff| + 1 && pattern[1..|stuff| + 1] == stuff
    requires pattern[|stuff| + 1] == ']'
    ensures ClassEnd(pattern) == |stuff| + 1
  {
    var end := |stuff| + 1;
    var front := if StartsWith(stuff, "!") then 1 else 0;
    var i := front + 1;
    assert forall k :: 0 <= k < |stuff| ==> pattern[k + 1] == stuff[k];
    assert StartsWith(stuff, "!") <==> stuff[0] == '!';
    assert pattern[i + 1..end] == stuff[front..][1..];
    if pattern[i] == ']' {
      FindExactly(pattern, i + 1, ']', end);
    } else {
      assert pattern[i..end] == [pattern[i]] + pattern[i + 1..end];
      FindExactly(pattern, i, ']', end);
    }
  }

  /** A bracketed class takes one character, as its text says, and the pattern goes on behind its
      closing bracket. */
  lemma ClassMatches(cls: Classes, path: string, stuff: string, rest: string)
    requires ClassText(stuff)
    ensures Matches(cls, path, "[" + stuff + "]" + rest)
       <==> path != "" && cls(stuff, path[0]) && Matches(cls, path[1..], rest)
  {
    var pattern := "[" + stuff + "]" + rest;
    assert pattern[1..|stuff| + 1] == stuff && pattern[|stuff| + 2..] == rest;
    ClassCloses(pattern, stuff);
    hide FindFrom, ClassText, ClassEnd;
    var ts := Tokens(pattern);
    assert ts[1..] == Tokens(rest);
  }

  /** An opening bracket that nothing closes is an ordinary character. */
  lemma OpenBracketMatches(cls: Classes, path: string, rest: string)
    requires ']' !in rest
    ensures Matches(cls, path, "[" + rest) <==> path != "" && path[0] == '[' && Matches(cls, path[1..], rest)
  {
    var pattern := "[" + rest;
    var i := if |pattern| > 1 && pattern[1] == '!' then 2 else 1;
    assert forall k :: 0 <= k < |rest| ==> pattern[k + 1] == rest[k] && rest[k] in rest;
    FindExactly(pattern, i, ']', |pattern|);
    assert pattern[1..] == rest;
    var ts := Tokens(pattern);
    assert ts[1..] == Tokens(rest);
  }

  // ---- patterns whose only wildcard is the star -------------------------------------

  lemma {:induction false} LiteralIsPrefix(pattern: string)
    ensures StartsWith(pattern, Literal(pattern))
    ensures '*' !in Literal(pattern)
    ensures |Literal(pattern)| < |pattern| ==> pattern[|Literal(pattern)|] == '*'
  {
    if pattern != "" && pattern[0] != '*' {
      LiteralIsPrefix(pattern[1..]);
      assert pattern == [pattern[0]] + pattern[1..];
    }
  }

  lemma {:induction false} MatchStartsWithLiteral(path: string, pattern: string)
    requires StarMatches(path, pattern)
    ensures StartsWith(path, Literal(pattern))
  {
    if pattern != "" && pattern[0] != '*' {
      MatchStartsWithLiteral(path[1..], pattern[1..]);
      assert path == [path[0]] + path[1..];
    }
  }

  lemma {:induction false} LiteralMatchesItself(s: string)
    requires '*' !in s
    ensures forall path :: StarMatches(path, s) <==> path == s
  {
    if s != "" {
      assert s[0] in s && forall c :: c in s[1..] ==> c in s;
      LiteralMatchesItself(s[1..]);
      forall path ensures StarMatches(path, s) <==> path == s {
        assert path != "" ==> path == [path[0]] + path[1..];
        assert s == [s[0]] + s[1..];
      }
    }
  }

  lemma {:induction false} StarsMatchAll(path: string, stars: string)
    requires AllStars(stars) && stars != ""
    ensures StarMatches(path, stars)
    decreases |path| + |stars|
  {
    if path != "" {
      StarsMatchAll(path[1..], stars);
    } else if |stars| > 1 {
      StarsMatchAll(path, stars[1..]);
    }
  }

  /** A path that begins with the literal of a widening pattern matches it. */
  lemma {:induction false} WideningMatches(path: string, pattern: string)
    requires Literal(pattern) != pattern && AllStars(pattern[|Literal(pattern)|..])
    requires StartsWith(path, Literal(pattern))
    ensures StarMatches(path, pattern)
  {
    if pattern[0] == '*' {
      assert pattern[0..] == pattern;
      StarsMatchAll(path, pattern);
    } else {
      var tail := pattern[1..];
      assert Literal(pattern)[1..] == Literal(tail);
      assert path[..|Literal(pattern)|][0] == path[0];
      assert path[1..][..|Literal(tail)|] == path[..|Literal(pattern)|][1..];
      assert tail[|Literal(tail)|..] == pattern[|Literal(pattern)|..];
      assert pattern == [pattern[0]] + tail;
      WideningMatches(path[1..], tail);
    }
  }

  /** A pattern that, read as a path, matches another pattern is included in it. */
  lemma {:induction false} MatchedPatternIncluded(path: string, p: string, q: string)
    requires StarMatches(p, q) && StarMatches(path, p)
    ensures StarMatches(path, q)
    decreases |path| + |p| + |q|, 1
  {
    if q == "" {
    } else if q[0] == '*' {
      if StarMatches(p, q[1..]) {
        MatchedPatternIncluded(path, p, q[1..]);
      } else {
        AbsorbFirst(path, p, q);
      }
    } else {
      MatchedPatternIncluded(path[1..], p[1..], q[1..]);
    }
  }

  /** The star of `q` swallows the first character of `p` and whatever that stood for. */
  lemma {:induction false} AbsorbFirst(path: string, p: string, q: string)
    requires q != "" && q[0] == '*' && p != "" && StarMatches(p[1..], q) && StarMatches(path, p)
    ensures StarMatches(path, q)
    decreases |path| + |p| + |q|, 0
  {
    if p[0] == '*' {
      if StarMatches(path, p[1..]) {
        MatchedPatternIncluded(path, p[1..], q);
      } else {
        AbsorbFirst(path[1..], p, q);
      }
    } else {
      MatchedPatternIncluded(path[1..], p[1..], q);
    }
  }

  /** How many characters a pattern asks for. */
  function Literals(pattern: string): string {
    if pattern == "" then ""
    else if pattern[0] == '*' then Literals(pattern[1..])
    else [pattern[0]] + Literals(pattern[1..])
  }

  lemma {:induction false} MatchNeedsLiterals(path: string, pattern: string)
    requires StarMatches(path, pattern)
    ensures |path| >= |Literals(pattern)|
    ensures forall c :: c in Literals(pattern) ==> c in path
    decreases |path| + |pattern|
  {
    if pattern == "" {
    } else if pattern[0] != '*' {
      MatchNeedsLiterals(path[1..], pattern[1..]);
      assert path == [path[0]] + path[1..];
    } else if StarMatches(path, pattern[1..]) {
      MatchNeedsLiterals(path, pattern[1..]);
    } else {
      MatchNeedsLiterals(path[1..], pattern);
      assert forall c :: c in path[1..] ==> c in path;
    }
  }

  lemma {:induction false} LiteralsMatch(pattern: string)
    ensures StarMatches(Literals(pattern), pattern)
    ensures Literals(pattern) == "" <==> AllStars(pattern)
    ensures '*' !in Literals(pattern)
  {
    if pattern != "" {
      LiteralsMatch(pattern[1..]);
      assert pattern == [pattern[0]] + pattern[1..];
      if pattern[0] != '*' {
        assert Literals(pattern)[1..] == Literals(pattern[1..]);
      } else {
        assert AllStars(pattern[1..]) ==> AllStars(pattern);
      }
    }
  }

  lemma {:induction false} LiteralsSplit(pattern: string)
    ensures |Literals(pattern)| == |Literal(pattern)| + |Literals(pattern[|Literal(pattern)|..])|
  {
    if pattern == "" || pattern[0] == '*' {
      assert pattern[0..] == pattern;
    } else {
      LiteralsSplit(pattern[1..]);
      assert pattern[1..][|Literal(pattern[1..])|..] == pattern[|Literal(pattern)|..];
    }
  }

  lemma {:induction false} LiteralOfExtended(s: string)
    requires '*' !in s
    ensures Literal(s + "*") == s
  {
    if s == "" {
      assert s + "*" == "*";
    } else {
      assert s[0] in s && forall c :: c in s[1..] ==> c in s;
      LiteralOfExtended(s[1..]);
      assert (s + "*")[1..] == s[1..] + "*";
      assert s == [s[0]] + s[1..];
    }
  }

  /** Matching a pattern with no character to spare. */
  lemma {:induction false} MatchExactly(path: string, pattern: string)
    requires StarMatches(path, pattern) && |path| == |Literals(pattern)|
    ensures path == Literals(pattern)
    decreases |path| + |pattern|
  {
    if pattern == "" {
    } else if pattern[0] != '*' {
      MatchExactly(path[1..], pattern[1..]);
      assert path == [path[0]] + path[1..];
    } else if StarMatches(path, pattern[1..]) {
      MatchExactly(path, pattern[1..]);
    } else {
      MatchNeedsLiterals(path[1..], pattern);
    }
  }

  lemma {:induction false} LiteralsStart(pattern: string)
    ensures StartsWith(Literals(pattern), Literal(pattern))
    ensures forall c :: c in Literals(pattern) ==> c in pattern
    ensures '*' in pattern ==> |Literals(pattern)| < |pattern|
    ensures |Literals(pattern)| <= |pattern|
  {
    if pattern != "" {
      LiteralsStart(pattern[1..]);
      assert pattern == [pattern[0]] + pattern[1..];
      if pattern[0] != '*' {
        assert Literals(pattern)[1..] == Literals(pattern[1..]);
        assert Literals(pattern)[..|Literal(pattern)|]
            == [pattern[0]] + Literals(pattern[1..])[..|Literal(pattern[1..])|];
      }
    }
  }
}
