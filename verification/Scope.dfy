/** Change scopes: the prefix test a proposal is checked with against what the glob patterns
    really match, and the path checks of the patch policy behind it. */
module Scope {
  import opened Text
  import opened Globs
  import opened PatchPrinter
  import opened PatchPolicy
  import PatchSoundness
  import PatchTheorems

  // ---- the prefix test ----------------------------------------------------------

  predicate ScopeWithin(cls: Classes, proposed: string, allowed: string) {
    || proposed == allowed
    || Matches(cls, proposed, allowed)
    || (Literal(allowed) != "" && StartsWith(Literal(proposed), Literal(allowed)))
  }

  predicate ScopesOverlap(cls: Classes, first: string, second: string) {
    ScopeWithin(cls, first, second) || ScopeWithin(cls, second, first)
  }

  ghost predicate Included(cls: Classes, p: string, q: string) {
    forall path :: Matches(cls, path, p) ==> Matches(cls, path, q)
  }

  ghost predicate Disjoint(cls: Classes, p: string, q: string) {
    forall path :: !(Matches(cls, path, p) && Matches(cls, path, q))
  }

  /** Trailing stars right after the literal, or no literal at all. */
  predicate Widening(allowed: string) {
    Literal(allowed) == "" || (Literal(allowed) != allowed && AllStars(allowed[|Literal(allowed)|..]))
  }

  /** A leading literal, or nothing but stars. */
  predicate Anchored(forbidden: string) {
    Literal(forbidden) != "" || AllStars(forbidden)
  }

  /** No star, or nothing but stars. */
  predicate Closed(forbidden: string) {
    '*' !in forbidden || AllStars(forbidden)
  }

  // ---- when the test implies inclusion -------------------------------------------

  lemma PrefixOfPrefix(s: string, p: string, q: string)
    requires StartsWith(s, p) && StartsWith(p, q)
    ensures StartsWith(s, q)
  {
    assert s[..|q|] == s[..|p|][..|q|];
  }

  lemma LiteralPlain(pattern: string)
    requires StarOnly(pattern)
    ensures Plain(Literal(pattern))
  {
    LiteralIsPrefix(pattern);
    assert forall i :: 0 <= i < |Literal(pattern)| ==> Literal(pattern)[i] == pattern[i];
  }

  /** A scope within an allowed pattern that begins with a literal begins with that literal. */
  lemma WithinStarts(cls: Classes, proposed: string, allowed: string)
    requires StarOnly(allowed) && ScopeWithin(cls, proposed, allowed)
    ensures StartsWith(proposed, Literal(allowed))
  {
    hide Matches, StarMatches, Literal;
    if proposed == allowed {
      LiteralIsPrefix(allowed);
    } else if Matches(cls, proposed, allowed) {
      StarOnlyMatches(cls, proposed, allowed);
      MatchStartsWithLiteral(proposed, allowed);
    } else {
      LiteralIsPrefix(proposed);
      PrefixOfPrefix(proposed, Literal(proposed), Literal(allowed));
    }
  }

  lemma WithinIncluded(cls: Classes, proposed: string, allowed: string)
    requires StarOnly(allowed) && Literal(allowed) != "" && Widening(allowed)
    requires ScopeWithin(cls, proposed, allowed)
    ensures Included(cls, proposed, allowed)
  {
    hide Matches, StarMatches, Literal, ScopeWithin, StarOnly;
    WithinStarts(cls, proposed, allowed);
    LiteralPlain(allowed);
    forall path | Matches(cls, path, proposed) ensures Matches(cls, path, allowed) {
      MatchStartsPlain(cls, path, proposed, Literal(allowed));
      WideningMatches(path, allowed);
      StarOnlyMatches(cls, path, allowed);
    }
  }

  /** Among star-only patterns the allowed one may also start with a star. */
  lemma StarWithinIncluded(cls: Classes, proposed: string, allowed: string)
    requires StarOnly(proposed) && StarOnly(allowed) && Widening(allowed) && ScopeWithin(cls, proposed, allowed)
    ensures Included(cls, proposed, allowed)
  {
    hide Matches, StarMatches, Literal, StarOnly;
    if Literal(allowed) != "" {
      WithinIncluded(cls, proposed, allowed);
    } else if proposed != allowed {
      StarOnlyMatches(cls, proposed, allowed);
      forall path | Matches(cls, path, proposed) ensures Matches(cls, path, allowed) {
        StarOnlyMatches(cls, path, proposed);
        MatchedPatternIncluded(path, proposed, allowed);
        StarOnlyMatches(cls, path, allowed);
      }
    }
  }

  /** What a pattern that is not widening lets through by its prefix alone. */
  function Intruder(allowed: string): (string, string) {
    if Literal(allowed) == allowed then (allowed + "*", allowed + "x")
    else (Literal(allowed) + "*", Literal(allowed))
  }

  lemma IntruderEscapes(allowed: string)
    requires !Widening(allowed)
    ensures var (proposed, path) := Intruder(allowed);
      && StartsWith(Literal(proposed), Literal(allowed))
      && StarMatches(path, proposed) && !StarMatches(path, allowed)
  {
    var (proposed, path) := Intruder(allowed);
    var lit := Literal(allowed);
    LiteralIsPrefix(allowed);
    LiteralOfExtended(lit);
    assert lit[..|lit|] == lit;
    assert AllStars(proposed[|lit|..]);
    assert StartsWith(path, lit);
    WideningMatches(path, proposed);
    if lit == allowed {
      LiteralMatchesItself(allowed);
    } else {
      LiteralsSplit(allowed);
      LiteralsMatch(allowed[|lit|..]);
      if StarMatches(path, allowed) { MatchNeedsLiterals(path, allowed); }
    }
  }

  lemma IntruderIncluded(cls: Classes, allowed: string)
    requires StarOnly(allowed) && !Widening(allowed)
    ensures var (proposed, _) := Intruder(allowed);
      StarOnly(proposed) && ScopeWithin(cls, proposed, allowed) && !Included(cls, proposed, allowed)
  {
    var (proposed, path) := Intruder(allowed);
    IntruderEscapes(allowed);
    LiteralPlain(allowed);
    hide Matches, StarMatches, Literal;
    StarOnlyMatches(cls, path, proposed);
    StarOnlyMatches(cls, path, allowed);
  }

  /** Against an allowed pattern that begins with a literal the prefix test implies language
      inclusion for every proposed glob, question marks and classes included, exactly when the
      pattern is that literal with stars behind it. */
  lemma ScopeWithinSound(cls: Classes, allowed: string)
    requires StarOnly(allowed) && Literal(allowed) != ""
    ensures (forall proposed :: ScopeWithin(cls, proposed, allowed) ==> Included(cls, proposed, allowed))
            <==> Widening(allowed)
  {
    hide Matches, Literal, ScopeWithin, StarOnly;
    if Widening(allowed) {
      forall proposed | ScopeWithin(cls, proposed, allowed) ensures Included(cls, proposed, allowed) {
        WithinIncluded(cls, proposed, allowed);
      }
    } else {
      IntruderIncluded(cls, allowed);
      assert !(forall proposed :: ScopeWithin(cls, proposed, allowed) ==> Included(cls, proposed, allowed));
    }
  }

  /** Among star-only patterns the same holds, and patterns without a literal are right too. */
  lemma StarScopeWithinSound(cls: Classes, allowed: string)
    requires StarOnly(allowed)
    ensures (forall proposed :: StarOnly(proposed) && ScopeWithin(cls, proposed, allowed) ==>
               Included(cls, proposed, allowed))
            <==> Widening(allowed)
  {
    hide Matches, Literal, ScopeWithin, StarOnly;
    if Widening(allowed) {
      forall proposed | StarOnly(proposed) && ScopeWithin(cls, proposed, allowed)
        ensures Included(cls, proposed, allowed)
      {
        StarWithinIncluded(cls, proposed, allowed);
      }
    } else {
      IntruderIncluded(cls, allowed);
    }
  }

  /** The test refuses no scope it should take: a glob without classes that is included in the
      allowed pattern is within it, and every pattern is within itself. */
  lemma ScopeWithinComplete(cls: Classes, proposed: string, allowed: string)
    requires proposed == allowed || ('[' !in proposed && Included(cls, proposed, allowed))
    ensures ScopeWithin(cls, proposed, allowed)
  {
    if proposed != allowed { MatchesItself(cls, proposed); }
  }

  /** Against a widening pattern the prefix test is language inclusion. */
  lemma ScopeWithinExactly(cls: Classes, proposed: string, allowed: string)
    requires '[' !in proposed && StarOnly(allowed) && Widening(allowed)
    requires Literal(allowed) != "" || StarOnly(proposed)
    ensures ScopeWithin(cls, proposed, allowed) <==> Included(cls, proposed, allowed)
  {
    hide Matches, Literal, ScopeWithin, StarOnly, Widening;
    if Included(cls, proposed, allowed) {
      ScopeWithinComplete(cls, proposed, allowed);
    } else if ScopeWithin(cls, proposed, allowed) {
      if Literal(allowed) != "" {
        WithinIncluded(cls, proposed, allowed);
      } else {
        StarWithinIncluded(cls, proposed, allowed);
      }
    }
  }

  // ---- when the test keeps scopes apart --------------------------------------------

  lemma Comparable(s: string, p: string, q: string)
    requires StartsWith(s, p) && StartsWith(s, q)
    ensures StartsWith(p, q) || StartsWith(q, p)
  {
    if |p| <= |q| {
      assert q[..|p|] == s[..|q|][..|p|] == p;
    } else {
      assert p[..|q|] == s[..|p|][..|q|] == q;
    }
  }

  lemma NoOverlapDisjoint(cls: Classes, proposed: string, forbidden: string)
    requires StarOnly(proposed) && StarOnly(forbidden) && Literal(proposed) != "" && Anchored(forbidden)
    requires !ScopesOverlap(cls, proposed, forbidden)
    ensures Disjoint(cls, proposed, forbidden)
  {
    hide Matches, StarMatches, Literal, StarOnly;
    forall path ensures !(Matches(cls, path, proposed) && Matches(cls, path, forbidden)) {
      if Matches(cls, path, proposed) && Matches(cls, path, forbidden) {
        StarOnlyMatches(cls, path, proposed);
        StarOnlyMatches(cls, path, forbidden);
        MatchStartsWithLiteral(path, proposed);
        MatchStartsWithLiteral(path, forbidden);
        if Literal(forbidden) == "" {
          SomethingAsked(path, forbidden);
          StarsOverlap(cls, proposed, forbidden);
        } else {
          Comparable(path, Literal(proposed), Literal(forbidden));
        }
      }
    }
  }

  /** Nothing but stars overlaps with everything. */
  lemma StarsOverlap(cls: Classes, proposed: string, forbidden: string)
    requires AllStars(forbidden) && StarOnly(forbidden) && forbidden != ""
    ensures ScopesOverlap(cls, proposed, forbidden)
  {
    hide Matches, Literal;
    StarsMatchAll(proposed, forbidden);
    StarOnlyMatches(cls, proposed, forbidden);
  }

  lemma SomethingAsked(path: string, pattern: string)
    requires StarMatches(path, pattern) && path != ""
    ensures pattern != ""
  {
  }

  lemma NotPrefix(s: string, p: string, k: nat)
    requires k < |s| && k < |p| && s[k] != p[k]
    ensures !StartsWith(s, p)
  {
    assert |p| <= |s| ==> s[..|p|][k] == s[k];
  }

  /** A scope and a path that a floating forbidden pattern fails to keep apart. */
  function Evader(forbidden: string): (r: (string, string))
    requires Literals(forbidden) != ""
  {
    var d := if Literals(forbidden)[0] == 'a' then "b" else "a";
    (d + "*", d + Literals(forbidden))
  }

  lemma EvaderSlipsThrough(forbidden: string)
    requires !Anchored(forbidden)
    ensures Literals(forbidden) != ""
    ensures var (proposed, path) := Evader(forbidden);
      && Literal(proposed) != "" && StarOnly(proposed)
      && proposed != forbidden && !StarMatches(proposed, forbidden) && !StarMatches(forbidden, proposed)
      && Literal(forbidden) == "" && StarMatches(path, proposed) && StarMatches(path, forbidden)
  {
    LiteralsMatch(forbidden);
    var (proposed, path) := Evader(forbidden);
    var d := proposed[..1];
    assert proposed == d + "*" && '*' !in d;
    LiteralOfExtended(d);
    assert AllStars(proposed[1..]);
    assert StartsWith(path, d);
    WideningMatches(path, proposed);
    assert forbidden[0] == '*' && path[1..] == Literals(forbidden);
    var first := Literals(forbidden)[0];
    assert first in Literals(forbidden) && first !in proposed;
    if StarMatches(proposed, forbidden) { MatchNeedsLiterals(proposed, forbidden); }
  }

  lemma EvaderEvades(cls: Classes, forbidden: string)
    requires StarOnly(forbidden) && !Anchored(forbidden)
    ensures Literals(forbidden) != ""
    ensures var (proposed, _) := Evader(forbidden);
      && StarOnly(proposed) && Literal(proposed) != ""
      && !ScopesOverlap(cls, proposed, forbidden) && !Disjoint(cls, proposed, forbidden)
  {
    EvaderSlipsThrough(forbidden);
    var (proposed, path) := Evader(forbidden);
    hide Matches, StarMatches, StarOnly, Literals;
    StarOnlyMatches(cls, proposed, forbidden);
    StarOnlyMatches(cls, forbidden, proposed);
    StarOnlyMatches(cls, path, proposed);
    StarOnlyMatches(cls, path, forbidden);
  }

  /** Against a forbidden pattern the overlap test keeps every literally anchored star-only scope
      disjoint exactly when the pattern is itself anchored. */
  lemma ScopesOverlapSound(cls: Classes, forbidden: string)
    requires StarOnly(forbidden)
    ensures (forall proposed ::
               StarOnly(proposed) && Literal(proposed) != "" && !ScopesOverlap(cls, proposed, forbidden) ==>
                 Disjoint(cls, proposed, forbidden))
       <==> Anchored(forbidden)
  {
    hide Matches, Literal, ScopesOverlap, StarOnly;
    if Anchored(forbidden) {
      forall proposed | StarOnly(proposed) && Literal(proposed) != "" && !ScopesOverlap(cls, proposed, forbidden)
        ensures Disjoint(cls, proposed, forbidden)
      {
        NoOverlapDisjoint(cls, proposed, forbidden);
      }
    } else {
      EvaderEvades(cls, forbidden);
      var (proposed, path) := Evader(forbidden);
      assert !Disjoint(cls, proposed, forbidden);
    }
  }

  /** A closed forbidden pattern is kept apart from every glob. */
  lemma ClosedDisjoint(cls: Classes, proposed: string, forbidden: string)
    requires StarOnly(forbidden) && Closed(forbidden) && !ScopesOverlap(cls, proposed, forbidden)
    ensures Disjoint(cls, proposed, forbidden)
  {
    hide Matches, StarMatches, Literal;
    if '*' in forbidden {
      StarsOverlap(cls, proposed, forbidden);
    } else {
      forall path ensures !(Matches(cls, path, proposed) && Matches(cls, path, forbidden)) {
        StarOnlyMatches(cls, path, forbidden);
        LiteralMatchesItself(forbidden);
      }
    }
  }

  /** The characters a forbidden pattern asks for, with a question mark for the last one of its
      literal front. */
  function Disguise(forbidden: string): string
    requires Literals(forbidden) != ""
  {
    LiteralsStart(forbidden);
    Literals(forbidden)[(if Literal(forbidden) == "" then 0 else |Literal(forbidden)| - 1) := '?']
  }

  lemma DisguiseEvades(cls: Classes, forbidden: string)
    requires StarOnly(forbidden) && !Closed(forbidden)
    ensures Literals(forbidden) != ""
    ensures var proposed := Disguise(forbidden);
      !ScopesOverlap(cls, proposed, forbidden) && !Disjoint(cls, proposed, forbidden)
  {
    LiteralsMatch(forbidden);
    LiteralsStart(forbidden);
    var text, proposed := Literals(forbidden), Disguise(forbidden);
    DisguiseBasics(forbidden);
    hide Matches, StarMatches, Literals, Disguise, Tokens;
    SinglesMatch(cls, text, proposed);
    SinglesMatch(cls, forbidden, proposed);
    StarOnlyMatches(cls, proposed, forbidden);
    StarOnlyMatches(cls, text, forbidden);
    NoStarLiteral(proposed);
  }

  lemma {:induction false} NoStarLiteral(s: string)
    requires '*' !in s
    ensures Literal(s) == s
  {
    if s != "" {
      assert s[0] in s && forall c :: c in s[1..] ==> c in s;
      NoStarLiteral(s[1..]);
      assert s == [s[0]] + s[1..];
    }
  }

  lemma DisguiseBasics(forbidden: string)
    requires StarOnly(forbidden) && !Closed(forbidden)
    ensures Literals(forbidden) != ""
    ensures var proposed := Disguise(forbidden);
      && '*' !in proposed && '[' !in proposed && 0 < |proposed| < |forbidden|
      && !StarMatches(proposed, forbidden) && FitsEach(Literals(forbidden), proposed)
      && (Literal(forbidden) != "" ==> !StartsWith(proposed, Literal(forbidden)))
      && !StartsWith(Literal(forbidden), proposed)
  {
    LiteralsMatch(forbidden);
    LiteralsStart(forbidden);
    LiteralIsPrefix(forbidden);
    var text, lit, proposed := Literals(forbidden), Literal(forbidden), Disguise(forbidden);
    var k := if lit == "" then 0 else |lit| - 1;
    forall c | c in proposed ensures c != '*' && c != '[' {
      var i :| 0 <= i < |proposed| && proposed[i] == c;
      assert i != k ==> c == text[i] && c in text && c in forbidden;
    }
    assert proposed[k] == '?' && text[k] in text && text[k] in forbidden;
    if StarMatches(proposed, forbidden) { MatchExactly(proposed, forbidden); }
    if lit != "" {
      assert lit[k] == forbidden[k] && forbidden[k] in forbidden;
      NotPrefix(proposed, lit, k);
      NotPrefix(lit, proposed, k);
    }
  }

  /** Against a forbidden pattern the overlap test keeps every glob disjoint, question marks and
      classes included, exactly when the pattern has no star or nothing else. */
  lemma AnyScopesOverlapSound(cls: Classes, forbidden: string)
    requires StarOnly(forbidden)
    ensures (forall proposed :: !ScopesOverlap(cls, proposed, forbidden) ==> Disjoint(cls, proposed, forbidden))
       <==> Closed(forbidden)
  {
    hide Matches, Literal, ScopesOverlap, StarOnly, Closed, Disguise, Literals;
    if Closed(forbidden) {
      forall proposed | !ScopesOverlap(cls, proposed, forbidden) ensures Disjoint(cls, proposed, forbidden) {
        ClosedDisjoint(cls, proposed, forbidden);
      }
    } else {
      DisguiseEvades(cls, forbidden);
      var proposed := Disguise(forbidden);
      assert !Disjoint(cls, proposed, forbidden);
    }
  }

  // ---- the checks of a proposal and of its patch ---------------------------------

  /** `validate_algorithm_proposal` on change scopes. */
  predicate ScopesAccepted(cls: Classes, proposed: seq<string>, allowed: seq<string>, forbidden: seq<string>) {
    && (forall p :: 0 <= p < |proposed| ==> exists a :: 0 <= a < |allowed| && ScopeWithin(cls, proposed[p], allowed[a]))
    && (forall p, f :: 0 <= p < |proposed| && 0 <= f < |forbidden| ==> !ScopesOverlap(cls, proposed[p], forbidden[f]))
  }

  const V2_ALLOWED := [
    "src/trading/strategies/challengers/**", "src/trading/features/challengers/**",
    "src/trading/calibration/challengers/**", "src/trading/experiments/challengers/**",
    "config/strategies/challengers/**", "tests/candidates/**", "docs/research/challengers/**"]

  const V2_FORBIDDEN := [
    "src/trading/research/**", "src/trading/persistence/**", "src/trading/execution/**", "src/trading/risk/**",
    "src/trading/ledger/**", "src/trading/security/**", "src/trading/broker/**", "config/research/**",
    "tests/research/**", "migrations/**", ".github/**"]

  const V2_IMPLEMENTATION := [
    "src/trading/strategies/challengers/", "src/trading/features/challengers/", "src/trading/calibration/challengers/",
    "src/trading/experiments/challengers/", "config/strategies/challengers/"]

  predicate StartsWithAny(path: string, prefixes: seq<string>) {
    exists k :: 0 <= k < |prefixes| && StartsWith(path, prefixes[k])
  }

  function WithPrefix(paths: seq<string>, prefixes: seq<string>): (r: seq<string>)
    ensures forall p :: p in r <==> p in paths && StartsWithAny(p, prefixes)
  {
    if paths == [] then []
    else
      (if StartsWithAny(paths[0], prefixes) then [paths[0]] else []) + WithPrefix(paths[1..], prefixes)
  }

  predicate PathAllowed(cls: Classes, path: string, patterns: seq<string>, champion: seq<string>) {
    && !MatchesAny(cls, path, V2_FORBIDDEN) && !MatchesAny(cls, path, champion)
    && MatchesAny(cls, path, V2_ALLOWED) && MatchesAny(cls, path, patterns)
  }

  datatype Validation = Validation(changed: seq<string>, implementation: seq<string>, tests: seq<string>)

  ghost predicate PatchAccepted(cls: Classes, patch: string, word: char -> bool, parent: string, proposed: string,
                                patterns: seq<string>, champion: seq<string>) {
    var read := ChangedPathsV2(patch, word);
    && parent != proposed && read.Some?
    && (forall p :: p in read.value ==> PathAllowed(cls, p, patterns, champion))
    && (exists p :: p in read.value && StartsWithAny(p, V2_IMPLEMENTATION))
    && (exists p :: p in read.value && StartsWith(p, "tests/candidates/"))
  }

  /** The patch validator of the second policy, path by path. */
  method ValidateCandidatePatchV2(cls: Classes, patch: string, word: char -> bool, parent: string, proposed: string,
                                  patterns: seq<string>, champion: seq<string>) returns (r: Option<Validation>)
    ensures r.Some? <==> PatchAccepted(cls, patch, word, parent, proposed, patterns, champion)
    ensures r.Some? ==>
      && Some(r.value.changed) == ChangedPathsV2(patch, word)
      && (forall p :: p in r.value.implementation <==> p in r.value.changed && StartsWithAny(p, V2_IMPLEMENTATION))
      && (forall p :: p in r.value.tests <==> p in r.value.changed && StartsWith(p, "tests/candidates/"))
  {
    hide ChangedPathsV2, MatchesAny, StartsWith;
    if parent == proposed { return None; }
    var read := ReadChangedPathsV2(patch, word);
    if read == None { return None; }
    var paths := read.value;
    for i := 0 to |paths|
      invariant forall j :: 0 <= j < i ==> PathAllowed(cls, paths[j], patterns, champion)
    {
      var path := paths[i];
      assert path in read.value;
      if MatchesAny(cls, path, V2_FORBIDDEN) || MatchesAny(cls, path, champion) { return None; }
      if !MatchesAny(cls, path, V2_ALLOWED) || !MatchesAny(cls, path, patterns) { return None; }
    }
    var implementation := WithPrefix(paths, V2_IMPLEMENTATION);
    var tests := WithPrefix(paths, ["tests/candidates/"]);
    OnePrefix("tests/candidates/");
    if implementation == [] || tests == [] {
      assert implementation == [] ==> forall p :: p in paths ==> p !in implementation;
      return None;
    }
    assert implementation[0] in implementation && tests[0] in tests;
    return Some(Validation(paths, implementation, tests));
  }

  lemma OnePrefix(prefix: string)
    ensures forall p :: StartsWithAny(p, [prefix]) <==> StartsWith(p, prefix)
  {
    forall p ensures StartsWithAny(p, [prefix]) <==> StartsWith(p, prefix) {
      assert [prefix][0] == prefix;
    }
  }

  // ---- the bridge between the two checks -----------------------------------------

  /** The prefix test can be trusted for this pattern: a literal with stars behind it. */
  predicate Prefixing(allowed: string) {
    StarOnly(allowed) && Literal(allowed) != "" && Widening(allowed)
  }

  /** The overlap test can be trusted for this pair: both patterns use stars only and the forbidden
      one is anchored, or the forbidden one is closed. */
  predicate KeptApart(proposed: string, forbidden: string) {
    StarOnly(forbidden) && (Closed(forbidden) || (StarOnly(proposed) && Anchored(forbidden)))
  }

  /** A path in an accepted scope is in the request's allowed scope and not in its
      forbidden one. */
  lemma ScopeBridge(cls: Classes, path: string, proposed: seq<string>, allowed: seq<string>, forbidden: seq<string>)
    requires forall a :: 0 <= a < |allowed| ==> Prefixing(allowed[a])
    requires forall p, f :: 0 <= p < |proposed| && 0 <= f < |forbidden| ==> KeptApart(proposed[p], forbidden[f])
    requires ScopesAccepted(cls, proposed, allowed, forbidden) && MatchesAny(cls, path, proposed)
    ensures MatchesAny(cls, path, allowed) && !MatchesAny(cls, path, forbidden)
  {
    hide Matches, Widening, ScopeWithin, ScopesOverlap, Literal, StarOnly, Closed, Anchored;
    var p :| 0 <= p < |proposed| && Matches(cls, path, proposed[p]);
    var a :| 0 <= a < |allowed| && ScopeWithin(cls, proposed[p], allowed[a]);
    WithinIncluded(cls, proposed[p], allowed[a]);
    assert Matches(cls, path, allowed[a]);
    forall f | 0 <= f < |forbidden| ensures !Matches(cls, path, forbidden[f]) {
      assert KeptApart(proposed[p], forbidden[f]);
      if Closed(forbidden[f]) {
        ClosedDisjoint(cls, proposed[p], forbidden[f]);
      } else {
        WithinAnchored(cls, proposed[p], allowed[a]);
        NoOverlapDisjoint(cls, proposed[p], forbidden[f]);
      }
    }
  }

  lemma WithinAnchored(cls: Classes, proposed: string, allowed: string)
    requires StarOnly(allowed) && ScopeWithin(cls, proposed, allowed) && Literal(allowed) != ""
    ensures Literal(proposed) != ""
  {
    WithinStarts(cls, proposed, allowed);
    LiteralIsPrefix(allowed);
    assert proposed[..|Literal(allowed)|][0] == proposed[0];
    assert Literal(allowed)[0] in Literal(allowed);
  }

  /** A question mark in the place of a separator: the scope is accepted under any allowed pattern
      whose literal stands before it, and reaches a path of the forbidden directory. */
  lemma DisguisedScope(cls: Classes, allowed: string, dir: string, name: string)
    requires Plain(dir) && Plain(name) && Literal(allowed) != "" && StartsWith(dir, Literal(allowed))
    ensures ScopesAccepted(cls, [dir + "?" + name], [allowed], [dir + "/**"])
    ensures Matches(cls, dir + "/" + name, dir + "?" + name) && Matches(cls, dir + "/" + name, dir + "/**")
  {
    var proposed, forbidden, path := dir + "?" + name, dir + "/**", dir + "/" + name;
    DisguisedTexts(dir, name);
    NoStarLiteral(proposed);
    PrefixOfPrefix(proposed, dir, Literal(allowed)) by { assert proposed[..|dir|] == dir; }
    hide Matches, StarMatches, Literal, Tokens;
    SinglesMatch(cls, path, proposed);
    SinglesMatch(cls, forbidden, proposed);
    StarOnlyMatches(cls, path, forbidden);
    StarOnlyMatches(cls, proposed, forbidden);
    assert ScopeWithin(cls, proposed, allowed);
    assert !ScopesOverlap(cls, proposed, forbidden);
    assert [proposed][0] == proposed && [allowed][0] == allowed && [forbidden][0] == forbidden;
  }

  lemma DisguisedTexts(dir: string, name: string)
    requires Plain(dir) && Plain(name)
    ensures var proposed, forbidden, path := dir + "?" + name, dir + "/**", dir + "/" + name;
      && '*' !in proposed && '[' !in proposed && StarOnly(forbidden) && Literal(forbidden) == dir + "/"
      && FitsEach(path, proposed) && !FitsEach(forbidden, proposed)
      && StarMatches(path, forbidden) && !StarMatches(proposed, forbidden)
      && !StartsWith(proposed, Literal(forbidden)) && !StartsWith(Literal(forbidden), proposed)
  {
    var proposed, forbidden, path := dir + "?" + name, dir + "/**", dir + "/" + name;
    assert proposed[|dir|] == '?' && forbidden[|dir|] == '/' && forbidden[|dir| + 1] == '*';
    LiteralIsPrefix(forbidden);
    LiteralExtended(dir + "/", "**");
    assert forbidden == dir + "/" + "**";
    assert AllStars(forbidden[|dir| + 1..]);
    assert StartsWith(path, dir + "/") by { assert path[..|dir| + 1] == dir + "/"; }
    WideningMatches(path, forbidden);
    assert |proposed| == |forbidden| ==> proposed[|dir| + 1] == name[0] && name[0] in name;
    var lit := dir + "/";
    assert lit[|dir|] == '/';
    NotPrefix(proposed, lit, |dir|);
    NotPrefix(lit, proposed, |dir|);
    if StarMatches(proposed, forbidden) { MatchStartsWithLiteral(proposed, forbidden); }
  }

  lemma {:induction false} LiteralExtended(s: string, stars: string)
    requires '*' !in s && stars != "" && stars[0] == '*'
    ensures Literal(s + stars) == s
  {
    if s == "" {
      assert s + stars == stars;
    } else {
      assert s[0] in s && forall c :: c in s[1..] ==> c in s;
      LiteralExtended(s[1..], stars);
      assert (s + stars)[1..] == s[1..] + stars;
      assert s == [s[0]] + s[1..];
    }
  }

  /** From the trees to the request: where the proposal's scopes and the patch of the tree
      were both accepted, every changed path is a new file inside the request's allowed
      scope and outside its forbidden scope, and nothing in the base tree changed. */
  lemma AcceptedChangesStayInScope(cls: Classes, base: Tree, candidate: Tree, align: Alignment, word: char -> bool,
                                   parent: string, version: string, proposed: seq<string>, champion: seq<string>,
                                   allowed: seq<string>, forbidden: seq<string>)
    requires PatchTheorems.AddsNoReturn(align)
    requires forall a :: 0 <= a < |allowed| ==> Prefixing(allowed[a])
    requires forall p, f :: 0 <= p < |proposed| && 0 <= f < |forbidden| ==> KeptApart(proposed[p], forbidden[f])
    requires ScopesAccepted(cls, proposed, allowed, forbidden)
    requires PatchAccepted(cls, Patch(base, candidate, align), word, parent, version, proposed, champion)
    ensures forall p :: LinesAt(base, p) != LinesAt(candidate, p) ==>
      && p !in base && MatchesAny(cls, p, allowed) && !MatchesAny(cls, p, forbidden) && !MatchesAny(cls, p, champion)
      && MatchesAny(cls, p, V2_ALLOWED) && !MatchesAny(cls, p, V2_FORBIDDEN)
  {
    hide MatchesAny, ChangedPathsV2, ScopesAccepted, LinesAt, PatchSoundness.SafePath, PatchSoundness.EndsInBreak,
      Textual, Patch, Widening, Literal, KeptApart, StarOnly;
    PatchTheorems.PrintedPatchAcceptance(base, candidate, align, word);
    var paths := SortedNames(Differing(base, candidate));
    PatchTheorems.AllNew(base, candidate, paths);
    forall p | LinesAt(base, p) != LinesAt(candidate, p)
      ensures && p !in base && MatchesAny(cls, p, allowed) && !MatchesAny(cls, p, forbidden)
              && !MatchesAny(cls, p, champion)
              && MatchesAny(cls, p, V2_ALLOWED) && !MatchesAny(cls, p, V2_FORBIDDEN)
    {
      PatchTheorems.AbsentHasNoLines(base, p);
      PatchTheorems.AbsentHasNoLines(candidate, p);
      assert p in Elements(paths);
      ScopeBridge(cls, p, proposed, allowed, forbidden);
    }
  }
}
