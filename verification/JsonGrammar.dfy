/** The grammar of JSON values (RFC 8259, sections 2 to 5, with the three words for numbers that are
    not finite), and that the parser reads exactly these texts, each as the value it spells. */
module JsonGrammar {
  import opened Text
  import opened Json
  import opened JsonText
  import opened JsonTokens

  // ---- values ---------------------------------------------------------------------------------

  /** The text of one value, without blanks around it. */
  ghost predicate Spells(s: string, v: Json)
    decreases |s|, 0
  {
    match v
    case Null => s == "null"
    case Bool(b) => s == if b then "true" else "false"
    case NonFinite => s in {"NaN", "Infinity", "-Infinity"}
    case Int(_) => NumberSpelt(s, v)
    case Float(_) => NumberSpelt(s, v)
    case Str(text) => Quoted(s, text)
    case Arr(items) =>
      && |s| >= 2 && s[0] == '[' && s[|s| - 1] == ']'
      && if items == [] then Blank(s[1..|s| - 1]) else ItemsSpelt(s[1..|s| - 1], items)
    case Obj(ms) =>
      && |s| >= 2 && s[0] == '{' && s[|s| - 1] == '}'
      && exists pairs :: ms == FromPairs(pairs) && PairsSpelt(s[1..|s| - 1], pairs)
  }

  /** Values with one comma between any two, and blanks where they like. */
  ghost predicate ItemsSpelt(s: string, items: seq<Json>)
    requires items != []
    decreases |s|, 2
  {
    exists i, j, k :: ItemAt(s, items, i, j, k)
  }

  ghost predicate ItemAt(s: string, items: seq<Json>, i: nat, j: nat, k: nat)
    requires items != []
    decreases |s|, 1
  {
    && i <= j <= k <= |s| && Blank(s[..i]) && Spells(s[i..j], items[0]) && Blank(s[j..k])
    && if |items| == 1 then k == |s| else k < |s| && s[k] == ',' && ItemsSpelt(s[k + 1..], items[1..])
  }

  /** Members likewise; a repeated key keeps its first place and its last value. */
  ghost predicate PairsSpelt(s: string, pairs: seq<Member>)
    decreases |s|, 2
  {
    if pairs == [] then Blank(s) else exists h, i, j, k, l, m :: PairAt(s, pairs, h, i, j, k, l, m)
  }

  ghost predicate PairAt(s: string, pairs: seq<Member>, h: nat, i: nat, j: nat, k: nat, l: nat, m: nat)
    requires pairs != []
    decreases |s|, 1
  {
    && h <= i <= j < k <= l <= m <= |s| && Blank(s[..h]) && Quoted(s[h..i], pairs[0].key) && Blank(s[i..j])
    && s[j] == ':' && Blank(s[j + 1..k]) && Spells(s[k..l], pairs[0].value) && Blank(s[l..m])
    && if |pairs| == 1 then m == |s|
       else m < |s| && s[m] == ',' && pairs[1..] != [] && PairsSpelt(s[m + 1..], pairs[1..])
  }

  // ---- reading what is spelt --------------------------------------------------------------------

  lemma NumberFirst(s: string, v: Json)
    requires NumberSpelt(s, v)
    ensures s != "" && (s[0] == '-' || IsDigit(s[0]))
  {
    NumberRead(s, v, "");
  }

  lemma SpellsFirst(s: string, v: Json)
    requires Spells(s, v)
    ensures s != "" && !IsSpace(s[0]) && s[0] != ']' && s[0] != '}'
  {
    hide NumberSpelt, ItemsSpelt, PairsSpelt, CharsText;
    if v.Int? || v.Float? { NumberFirst(s, v); }
  }

  lemma WordRead(s: string, rest: string)
    requires s in {"null", "true", "false"}
    ensures ParseValue(s + rest) == Done(if s == "null" then Null else Bool(s == "true"), rest)
  {
    var t := s + rest;
    assert t[..|s|] == s && t[|s|..] == rest && t[0] == s[0];
    if s != "null" { NotPrefix(t, "null"); }
    if s == "false" { NotPrefix(t, "true"); }
  }

  lemma NotPrefix(t: string, w: string)
    requires t != "" && w != "" && t[0] != w[0]
    ensures !StartsWith(t, w)
  {
    assert |w| <= |t| ==> t[..|w|][0] == t[0];
  }

  lemma NoWords(t: string)
    requires t != "" && t[0] !in {'n', 't', 'f'}
    ensures !StartsWith(t, "null") && !StartsWith(t, "true") && !StartsWith(t, "false")
  {
    NotPrefix(t, "null");
    NotPrefix(t, "true");
    NotPrefix(t, "false");
  }

  lemma NoNumber(t: string)
    requires t != "" && !IsDigit(t[0]) && (t[0] == '-' ==> |t| > 1 && !IsDigit(t[1]))
    ensures ParseNumber(t).Fail?
  {
    var u := if t[0] == '-' then t[1..] else t;
    assert TakeDigits(u).0 == "";
  }

  lemma WordFront(w: string, rest: string)
    requires |w| > 1
    ensures var t := w + rest;
      StartsWith(t, w) && t[|w|..] == rest && t != "" && t[0] == w[0] && |t| > 1 && t[1] == w[1]
  {
    assert (w + rest)[..|w|] == w;
  }

  lemma NonFiniteRead(s: string, rest: string)
    requires s in {"NaN", "Infinity", "-Infinity"}
    ensures ParseValue(s + rest) == Done(NonFinite, rest)
  {
    hide StartsWith, ParseNumber, ParseItems, ParseMembers, ParseChars, SkipSpace, FromPairs, IsDigit;
    var t := s + rest;
    WordFront(s, rest);
    NoWords(t);
    NoNumber(t) by { LettersNoDigits(); }
    if s != "NaN" { NotPrefix(t, "NaN"); }
    if s == "-Infinity" { NotPrefix(t, "Infinity"); }
  }

  lemma LettersNoDigits()
    ensures !IsDigit('N') && !IsDigit('I') && !IsDigit('-') && !IsDigit('a') && !IsDigit('n')
  {
  }

  lemma NumberValue(t: string, v: Json, rest: string)
    requires t != "" && (t[0] == '-' || IsDigit(t[0])) && ParseNumber(t) == Done(v, rest)
    ensures ParseValue(t) == Done(v, rest)
  {
    hide ParseNumber, StartsWith, ParseItems, ParseMembers, ParseChars, SkipSpace, FromPairs;
    NoWords(t);
  }

  lemma QuotedRead(s: string, text: string, rest: string)
    requires Quoted(s, text)
    ensures ParseValue(s + rest) == Done(Str(text), rest) && (s + rest)[0] == '"'
    ensures ParseChars((s + rest)[1..]) == Done(text, rest)
  {
    hide ParseChars, CharsText, ParseItems, ParseMembers, ParseNumber, SkipSpace, FromPairs, StartsWith;
    var body, t := s[1..|s| - 1], s + rest;
    CharsRead(body, text, rest);
    assert s == "\"" + body + "\"";
    assert t[0] == '"' && t[1..] == body + ("\"" + rest);
  }

  /** Behind blanks and punctuation. */
  lemma BlankStops(a: string, tail: string)
    requires Blank(a) && tail != "" && tail[0] in {',', ']', '}'}
    ensures Stops(a + tail) && SkipSpace(a + tail) == tail
  {
    SkipBlank(a, tail);
    assert a + tail != "" && (a + tail)[0] == if a == "" then tail[0] else a[0];
  }

  lemma ItemStep(u: string, v: Json, p: string, tail: string, more: seq<Json>, rest: string)
    requires ParseValue(u) == Done(v, p) && SkipSpace(p) == tail && tail != ""
    requires if more == [] then tail[0] == ']' && tail[1..] == rest
             else tail[0] == ',' && ParseItems(SkipSpace(tail[1..])) == Done(more, rest)
    ensures ParseItems(u) == Done([v] + more, rest)
  {
    hide ParseValue, SkipSpace;
    assert more == [] ==> [v] + more == [v];
  }

  lemma {:induction false} ItemsRead(s: string, items: seq<Json>, rest: string)
    requires items != [] && ItemsSpelt(s, items)
    ensures var u := SkipSpace(s + ("]" + rest)); !Head(u, ']') && ParseItems(u) == Done(items, rest)
    decreases |s|, 2
  {
    hide Spells, ItemsSpelt, ParseItems, ParseValue, SkipSpace;
    var i, j, k := ItemPlaces(s, items);
    var word, pad, tail := s[i..j], s[j..k], s[k..] + ("]" + rest);
    assert s + ("]" + rest) == s[..i] + (word + (pad + tail));
    SpellsFirst(word, items[0]);
    SkipBlank(s[..i], word + (pad + tail));
    BlankStops(pad, tail);
    ValueRead(word, items[0], pad + tail);
    var more := items[1..];
    if more == [] {
      assert tail == "]" + rest && tail[1..] == rest;
    } else {
      ItemsRead(s[k + 1..], more, rest);
      assert tail[1..] == s[k + 1..] + ("]" + rest);
    }
    ItemStep(word + (pad + tail), items[0], pad + tail, tail, more, rest);
    assert items == [items[0]] + more;
  }

  lemma ItemPlaces(s: string, items: seq<Json>) returns (i: nat, j: nat, k: nat)
    requires items != [] && ItemsSpelt(s, items)
    ensures ItemAt(s, items, i, j, k)
  {
    i, j, k :| ItemAt(s, items, i, j, k);
  }

  lemma {:induction false} ValueRead(s: string, v: Json, rest: string)
    requires Spells(s, v) && Stops(rest)
    ensures ParseValue(s + rest) == Done(v, rest)
    decreases |s|, 0
  {
    hide Spells, ItemsSpelt, PairsSpelt, NumberSpelt, ParseValue, ParseItems, ParseMembers, ParseNumber;
    match v
    case Null => WordOnly(s, v); WordRead(s, rest);
    case Bool(b) => WordOnly(s, v); WordRead(s, rest);
    case NonFinite => WordOnly(s, v); NonFiniteRead(s, rest);
    case Int(_) => NumberOnly(s, v); NumberRead(s, v, rest); NumberValue(s + rest, v, rest);
    case Float(_) => NumberOnly(s, v); NumberRead(s, v, rest); NumberValue(s + rest, v, rest);
    case Str(text) => WordOnly(s, v); QuotedRead(s, text, rest);
    case Arr(items) => ArrayRead(s, items, rest);
    case Obj(ms) => ObjectRead(s, ms, rest);
  }

  lemma WordOnly(s: string, v: Json)
    requires Spells(s, v)
    ensures v.Null? ==> s == "null"
    ensures v.Bool? ==> s == if v.b then "true" else "false"
    ensures v.NonFinite? ==> s in {"NaN", "Infinity", "-Infinity"}
    ensures v.Str? ==> Quoted(s, v.s)
  {
  }

  lemma NumberOnly(s: string, v: Json)
    requires Spells(s, v) && (v.Int? || v.Float?)
    ensures NumberSpelt(s, v)
  {
  }

  lemma {:induction false} ArrayRead(s: string, items: seq<Json>, rest: string)
    requires Spells(s, Arr(items))
    ensures ParseValue(s + rest) == Done(Arr(items), rest)
    decreases |s|, 0, 0
  {
    var inner := s[1..|s| - 1];
    assert s == "[" + inner + "]" && (s + rest)[1..] == inner + ("]" + rest);
    if items == [] {
      SkipBlank(inner, "]" + rest);
      assert ("]" + rest)[1..] == rest;
    } else {
      ItemsRead(inner, items, rest);
      hide ParseItems, SkipSpace, ItemsSpelt;
    }
  }

  lemma {:induction false} ObjectRead(s: string, ms: seq<Member>, rest: string)
    requires Spells(s, Obj(ms))
    ensures ParseValue(s + rest) == Done(Obj(ms), rest)
    decreases |s|, 0, 0
  {
    var inner := s[1..|s| - 1];
    var pairs :| ms == FromPairs(pairs) && PairsSpelt(inner, pairs);
    assert s == "{" + inner + "}" && (s + rest)[1..] == inner + ("}" + rest);
    if pairs == [] {
      SkipBlank(inner, "}" + rest);
      assert ("}" + rest)[1..] == rest && ms == [];
    } else {
      PairsRead(inner, pairs, rest);
      hide ParseMembers, SkipSpace, PairsSpelt, FromPairs;
    }
  }

  lemma PairPlaces(s: string, pairs: seq<Member>) returns (h: nat, i: nat, j: nat, k: nat, l: nat, m: nat)
    requires pairs != [] && PairsSpelt(s, pairs)
    ensures PairAt(s, pairs, h, i, j, k, l, m)
  {
    h, i, j, k, l, m :| PairAt(s, pairs, h, i, j, k, l, m);
  }

  lemma PairStep(u: string, key: string, p: string, v: Json, r: string, more: seq<Member>, rest: string)
    requires Head(u, '"') && ParseChars(u[1..]) == Done(key, p) && Head(SkipSpace(p), ':')
    requires ParseValue(SkipSpace(SkipSpace(p)[1..])) == Done(v, r) && SkipSpace(r) != ""
    requires if more == [] then SkipSpace(r)[0] == '}' && SkipSpace(r)[1..] == rest
             else SkipSpace(r)[0] == ',' && ParseMembers(SkipSpace(SkipSpace(r)[1..])) == Done(more, rest)
    ensures ParseMembers(u) == Done([Member(key, v)] + more, rest)
  {
    hide ParseValue, SkipSpace, ParseChars;
    assert more == [] ==> [Member(key, v)] + more == [Member(key, v)];
  }

  lemma Cut(s: string, i: nat, j: nat, rest: string)
    requires i <= j <= |s|
    ensures s[i..] + rest == s[i..j] + (s[j..] + rest)
  {
    assert s[i..] == s[i..j] + s[j..];
  }

  lemma PairText(s: string, h: nat, i: nat, j: nat, k: nat, l: nat, m: nat, rest: string)
    requires h <= i <= j < k <= l <= m <= |s| && s[j] == ':'
    ensures s + rest
         == s[..h] + (s[h..i] + (s[i..j] + (":" + (s[j + 1..k] + (s[k..l] + (s[l..m] + (s[m..] + rest)))))))
  {
    Cut(s, 0, h, rest);
    Cut(s, h, i, rest);
    Cut(s, i, j, rest);
    Cut(s, j, j + 1, rest);
    Cut(s, j + 1, k, rest);
    Cut(s, k, l, rest);
    Cut(s, l, m, rest);
    assert s[0..] == s && s[0..h] == s[..h] && s[j..j + 1] == ":";
  }

  lemma {:induction false} PairsRead(s: string, pairs: seq<Member>, rest: string)
    requires pairs != [] && PairsSpelt(s, pairs)
    ensures var u := SkipSpace(s + ("}" + rest)); !Head(u, '}') && ParseMembers(u) == Done(pairs, rest)
    decreases |s|, 2
  {
    hide Spells, PairsSpelt, ParseMembers, ParseValue, SkipSpace, Quoted, ParseChars;
    var h, i, j, k, l, m := PairPlaces(s, pairs);
    var name, gap, word, pad, tail := s[h..i], s[i..j], s[k..l], s[l..m], s[m..] + ("}" + rest);
    var q := s[j + 1..k] + (word + (pad + tail));
    var u := name + (gap + (":" + q));
    PairText(s, h, i, j, k, l, m, "}" + rest);
    QuotedRead(name, pairs[0].key, gap + (":" + q));
    SkipBlank(s[..h], u);
    SkipBlank(gap, ":" + q);
    SpellsFirst(word, pairs[0].value);
    SkipBlank(s[j + 1..k], word + (pad + tail));
    BlankStops(pad, tail);
    ValueRead(word, pairs[0].value, pad + tail);
    var more := pairs[1..];
    if more == [] {
      assert tail == "}" + rest && tail[1..] == rest;
    } else {
      PairsRead(s[m + 1..], more, rest);
      assert tail[1..] == s[m + 1..] + ("}" + rest);
    }
    assert (":" + q)[1..] == q;
    PairStep(u, pairs[0].key, gap + (":" + q), pairs[0].value, pad + tail, more, rest);
    assert pairs == [pairs[0]] + more;
  }

  // ---- spelling what is read ----------------------------------------------------------------------

  lemma BlankFront(s: string, n: nat, m: nat)
    requires n <= |s| && Blank(s[..n]) && m <= |s[n..]| && Blank(s[n..][..m])
    ensures Blank(s[..n + m])
  {
    assert s[..n + m] == s[..n] + s[n..][..m];
  }

  lemma Shifted(s: string, n: nat, i: nat, j: nat)
    requires i <= j && n + j <= |s|
    ensures s[n..][i..j] == s[n + i..n + j]
  {
  }

  /** Blanks in front of a list belong to it. */
  lemma BlankItems(s: string, n: nat, items: seq<Json>)
    requires n <= |s| && Blank(s[..n]) && items != [] && ItemsSpelt(s[n..], items)
    ensures ItemsSpelt(s, items)
  {
    hide ItemsSpelt, Spells, Blank;
    var t := s[n..];
    var i, j, k := ItemPlaces(t, items);
    BlankFront(s, n, i);
    Shifted(s, n, i, j);
    Shifted(s, n, j, k);
    if k < |t| { assert t[k + 1..] == s[n + k + 1..]; }
    assert ItemAt(s, items, n + i, n + j, n + k);
    ItemsAre(s, items, n + i, n + j, n + k);
  }

  lemma ItemsAre(s: string, items: seq<Json>, i: nat, j: nat, k: nat)
    requires items != [] && ItemAt(s, items, i, j, k)
    ensures ItemsSpelt(s, items)
  {
  }

  lemma BlankPairs(s: string, n: nat, pairs: seq<Member>)
    requires n <= |s| && Blank(s[..n]) && pairs != [] && PairsSpelt(s[n..], pairs)
    ensures PairsSpelt(s, pairs)
  {
    hide PairsSpelt, Spells, Blank, Quoted;
    var t := s[n..];
    var h, i, j, k, l, m := PairPlaces(t, pairs);
    BlankFront(s, n, h);
    Shifted(s, n, h, i);
    Shifted(s, n, i, j);
    Shifted(s, n, j + 1, k);
    Shifted(s, n, k, l);
    Shifted(s, n, l, m);
    if m < |t| { assert t[m + 1..] == s[n + m + 1..]; }
    assert PairAt(s, pairs, n + h, n + i, n + j, n + k, n + l, n + m);
    PairsAre(s, pairs, n + h, n + i, n + j, n + k, n + l, n + m);
  }

  lemma PairsAre(s: string, pairs: seq<Member>, h: nat, i: nat, j: nat, k: nat, l: nat, m: nat)
    requires pairs != [] && PairAt(s, pairs, h, i, j, k, l, m)
    ensures PairsSpelt(s, pairs)
  {
  }

  lemma OneItem(t: string, v: Json, j: nat)
    requires j <= |t| && Spells(t[..j], v) && Blank(t[j..])
    ensures ItemsSpelt(t, [v])
  {
    hide Spells;
    assert t[..0] == "" && t[0..j] == t[..j] && t[j..|t|] == t[j..];
    assert ItemAt(t, [v], 0, j, |t|);
  }

  lemma ItemsGrow(t: string, v: Json, j: nat, k: nat, more: seq<Json>)
    requires j <= k < |t| && Spells(t[..j], v) && Blank(t[j..k]) && t[k] == ','
    requires more != [] && ItemsSpelt(t[k + 1..], more)
    ensures ItemsSpelt(t, [v] + more)
  {
    hide Spells, ItemsSpelt;
    var items := [v] + more;
    assert items[1..] == more && t[0..j] == t[..j] && t[..0] == "";
    assert ItemAt(t, items, 0, j, k);
    ItemsAre(t, items, 0, j, k);
  }

  /** How a list that is read goes on behind its first value. */
  lemma ItemsCases(s: string)
    requires ParseItems(s).Done?
    ensures ParseValue(s).Done?
    ensures var next, v, r := SkipSpace(ParseValue(s).rest), ParseValue(s).value, ParseItems(s);
      && (Head(next, ']') || Head(next, ','))
      && (Head(next, ']') ==> r == Done([v], next[1..]))
      && (!Head(next, ']') ==>
            var more := ParseItems(SkipSpace(next[1..])); more.Done? && r == Done([v] + more.value, more.rest))
  {
    hide ParseValue, SkipSpace;
  }

  lemma Offsets(s: string, j: nat, b: nat)
    requires j + b <= |s|
    ensures s[j..][b..] == s[j + b..] && s[j..][..b] == s[j..j + b]
  {
  }

  lemma BlanksAt(s: string, j: nat) returns (k: nat)
    requires j <= |s|
    ensures j <= k <= |s| && SkipSpace(s[j..]) == s[k..] && Blank(s[j..k])
  {
    hide SkipSpace, Blank;
    var b := BlanksOf(s[j..]);
    Offsets(s, j, b);
    k := j + b;
  }

  lemma {:induction false} ValueAt(s: string, k: nat) returns (l: nat)
    requires k <= |s| && ParseValue(s[k..]).Done?
    ensures k <= l <= |s| && ParseValue(s[k..]).rest == s[l..] && Spells(s[k..l], ParseValue(s[k..]).value)
    decreases |s| - k, 1, 1
  {
    hide ParseValue, Spells;
    var d := ValueWritten(s[k..]);
    Offsets(s, k, d);
    l := k + d;
  }

  lemma Punctuation(s: string, k: nat)
    requires k < |s|
    ensures s[k..][1..] == s[k + 1..] && s[k..][0] == s[k]
  {
  }

  lemma ItemsLast(s: string, v: Json, j: nat, k: nat)
    requires j <= k <= |s| && Spells(s[..j], v) && Blank(s[j..k])
    ensures ItemsSpelt(s[..k], [v])
  {
    hide Spells, ItemsSpelt;
    assert s[..k][..j] == s[..j] && s[..k][j..] == s[j..k];
    OneItem(s[..k], v, j);
  }

  lemma ItemsMore(s: string, v: Json, j: nat, k: nat, c: nat, n: nat, more: seq<Json>)
    requires j <= k < c <= n <= |s| && Spells(s[..j], v) && Blank(s[j..k]) && s[k] == ','
    requires Blank(s[k + 1..c]) && more != [] && ItemsSpelt(s[c..n], more)
    ensures ItemsSpelt(s[..n], [v] + more)
  {
    hide Spells, ItemsSpelt, Blank;
    var t, w := s[..n], s[k + 1..n];
    assert w[..c - k - 1] == s[k + 1..c] && w[c - k - 1..] == s[c..n];
    BlankItems(w, c - k - 1, more);
    assert t[..j] == s[..j] && t[j..k] == s[j..k] && t[k + 1..] == w;
    ItemsGrow(t, v, j, k, more);
  }

  lemma {:induction false} ItemsAtEnd(s: string, c: nat) returns (n: nat)
    requires c <= |s| && ParseItems(s[c..]).Done?
    ensures c <= n < |s| && s[n] == ']' && ParseItems(s[c..]).rest == s[n + 1..] && ParseItems(s[c..]).value != []
    ensures ItemsSpelt(s[c..n], ParseItems(s[c..]).value)
    decreases |s| - c, 2, 1
  {
    hide ParseItems, ItemsSpelt;
    var m := ItemsWritten(s[c..]);
    Offsets(s, c, m);
    Offsets(s, c, m + 1);
    n := c + m;
  }

  lemma {:induction false} ItemsWritten(s: string) returns (n: nat)
    requires ParseItems(s).Done?
    ensures n < |s| && s[n] == ']' && ParseItems(s).rest == s[n + 1..] && ParseItems(s).value != []
    ensures ItemsSpelt(s[..n], ParseItems(s).value)
    decreases |s|, 2, 0
  {
    hide ParseValue, ParseItems, SkipSpace, Spells, ItemsSpelt, Blank;
    ItemsCases(s);
    var v := ParseValue(s).value;
    var j := ValueWritten(s);
    var k := BlanksAt(s, j);
    Punctuation(s, k);
    if s[k] == ']' {
      n := k;
      ItemsLast(s, v, j, k);
    } else {
      var c := BlanksAt(s, k + 1);
      n := ItemsAtEnd(s, c);
      ItemsMore(s, v, j, k, c, n, ParseItems(s[c..]).value);
    }
  }

  lemma OnePair(t: string, m: Member, i: nat, j: nat, k: nat, l: nat)
    requires i <= j < k <= l <= |t| && Quoted(t[..i], m.key) && Blank(t[i..j]) && t[j] == ':'
    requires Blank(t[j + 1..k]) && Spells(t[k..l], m.value) && Blank(t[l..])
    ensures PairsSpelt(t, [m])
  {
    hide Spells, Quoted;
    assert t[..0] == "" && t[0..i] == t[..i] && t[l..|t|] == t[l..];
    assert PairAt(t, [m], 0, i, j, k, l, |t|);
  }

  lemma PairsGrow(t: string, m: Member, i: nat, j: nat, k: nat, l: nat, e: nat, more: seq<Member>)
    requires i <= j < k <= l <= e < |t| && Quoted(t[..i], m.key) && Blank(t[i..j]) && t[j] == ':'
    requires Blank(t[j + 1..k]) && Spells(t[k..l], m.value) && Blank(t[l..e]) && t[e] == ','
    requires more != [] && PairsSpelt(t[e + 1..], more)
    ensures PairsSpelt(t, [m] + more)
  {
    hide Spells, PairsSpelt, Quoted;
    var pairs := [m] + more;
    assert pairs[1..] == more && t[0..i] == t[..i] && t[..0] == "";
    assert PairAt(t, pairs, 0, i, j, k, l, e);
    PairsAre(t, pairs, 0, i, j, k, l, e);
  }

  lemma PairsCases(s: string)
    requires ParseMembers(s).Done?
    ensures Head(s, '"') && ParseChars(s[1..]).Done? && Head(SkipSpace(ParseChars(s[1..]).rest), ':')
    ensures var u := SkipSpace(SkipSpace(ParseChars(s[1..]).rest)[1..]);
      && ParseValue(u).Done?
      && var next, m, r := SkipSpace(ParseValue(u).rest), Member(ParseChars(s[1..]).value, ParseValue(u).value),
                           ParseMembers(s);
        && (Head(next, '}') || Head(next, ','))
        && (Head(next, '}') ==> r == Done([m], next[1..]))
        && (!Head(next, '}') ==>
              var more := ParseMembers(SkipSpace(next[1..])); more.Done? && r == Done([m] + more.value, more.rest))
  {
    hide ParseValue, SkipSpace, ParseChars;
  }

  lemma QuotedWritten(s: string) returns (n: nat)
    requires Head(s, '"') && ParseChars(s[1..]).Done?
    ensures 2 <= n <= |s| && ParseChars(s[1..]).rest == s[n..] && Quoted(s[..n], ParseChars(s[1..]).value)
  {
    hide ParseChars, CharsText;
    var m := CharsWritten(s[1..]);
    n := m + 2;
    assert s[1..][m + 1..] == s[n..] && s[..n][1..n - 1] == s[1..][..m];
  }

  lemma PairsLast(s: string, m: Member, i: nat, j: nat, k: nat, l: nat, e: nat)
    requires i <= j < k <= l <= e <= |s| && Quoted(s[..i], m.key) && Blank(s[i..j]) && s[j] == ':'
    requires Blank(s[j + 1..k]) && Spells(s[k..l], m.value) && Blank(s[l..e])
    ensures PairsSpelt(s[..e], [m])
  {
    hide Spells, PairsSpelt, Quoted, Blank;
    PairPieces(s, e, i, j, k, l, e);
    OnePair(s[..e], m, i, j, k, l);
  }

  lemma PairsMore(s: string, m: Member, i: nat, j: nat, k: nat, l: nat, e: nat, c: nat, n: nat, more: seq<Member>)
    requires i <= j < k <= l <= e < c <= n <= |s|
    requires Quoted(s[..i], m.key) && Blank(s[i..j]) && s[j] == ':'
    requires Blank(s[j + 1..k]) && Spells(s[k..l], m.value) && Blank(s[l..e]) && s[e] == ','
    requires Blank(s[e + 1..c]) && more != [] && PairsSpelt(s[c..n], more)
    ensures PairsSpelt(s[..n], [m] + more)
  {
    hide Spells, PairsSpelt, Quoted, Blank;
    var w := s[e + 1..n];
    assert w[..c - e - 1] == s[e + 1..c] && w[c - e - 1..] == s[c..n];
    BlankPairs(w, c - e - 1, more);
    PairPieces(s, n, i, j, k, l, e);
    assert s[..n][e + 1..] == w;
    PairsGrow(s[..n], m, i, j, k, l, e, more);
  }

  /** The places of the first member that is read. */
  lemma {:induction false} PairWritten(s: string) returns (i: nat, j: nat, k: nat, l: nat, e: nat)
    requires ParseMembers(s).Done?
    ensures Head(s, '"') && ParseChars(s[1..]).Done?
    ensures i <= j < k <= l <= e < |s| && Quoted(s[..i], ParseChars(s[1..]).value) && Blank(s[i..j]) && s[j] == ':'
    ensures SkipSpace(SkipSpace(ParseChars(s[1..]).rest)[1..]) == s[k..] && ParseValue(s[k..]).Done?
    ensures Blank(s[j + 1..k]) && Spells(s[k..l], ParseValue(s[k..]).value) && Blank(s[l..e])
    ensures SkipSpace(ParseValue(s[k..]).rest) == s[e..]
    decreases |s|, 1, 2
  {
    hide ParseValue, ParseMembers, ParseChars, SkipSpace, Spells, Quoted, Blank;
    PairsCases(s);
    i := QuotedWritten(s);
    j := BlanksAt(s, i);
    Punctuation(s, j);
    k := BlanksAt(s, j + 1);
    l := ValueAt(s, k);
    e := BlanksAt(s, l);
  }

  lemma {:induction false} PairsAtEnd(s: string, c: nat) returns (n: nat)
    requires c <= |s| && ParseMembers(s[c..]).Done?
    ensures c <= n < |s| && s[n] == '}' && ParseMembers(s[c..]).rest == s[n + 1..] && ParseMembers(s[c..]).value != []
    ensures PairsSpelt(s[c..n], ParseMembers(s[c..]).value)
    decreases |s| - c, 2, 1
  {
    hide ParseMembers, PairsSpelt;
    var m := PairsWritten(s[c..]);
    Offsets(s, c, m);
    Offsets(s, c, m + 1);
    n := c + m;
  }

  lemma {:induction false} PairsWritten(s: string) returns (n: nat)
    requires ParseMembers(s).Done?
    ensures n < |s| && s[n] == '}' && ParseMembers(s).rest == s[n + 1..] && ParseMembers(s).value != []
    ensures PairsSpelt(s[..n], ParseMembers(s).value)
    decreases |s|, 2, 0
  {
    hide ParseValue, ParseMembers, ParseChars, SkipSpace, Spells, PairsSpelt, Quoted, Blank;
    PairsCases(s);
    var i, j, k, l, e := PairWritten(s);
    var m := Member(ParseChars(s[1..]).value, ParseValue(s[k..]).value);
    Punctuation(s, e);
    if s[e] == '}' {
      n := e;
      PairsLast(s, m, i, j, k, l, e);
    } else {
      var c := BlanksAt(s, e + 1);
      n := PairsAtEnd(s, c);
      PairsMore(s, m, i, j, k, l, e, c, n, ParseMembers(s[c..]).value);
    }
  }

  lemma PairPieces(s: string, n: nat, i: nat, j: nat, k: nat, l: nat, e: nat)
    requires i <= j < k <= l <= e <= n <= |s|
    ensures var t := s[..n];
      && t[..i] == s[..i] && t[i..j] == s[i..j] && t[j] == s[j] && t[j + 1..k] == s[j + 1..k] && t[k..l] == s[k..l]
      && t[l..e] == s[l..e] && (e == n ==> t[l..] == s[l..e]) && (e < n ==> t[e] == s[e])
  {
  }

  predicate WordAt(s: string, w: string) {
    |w| <= |s| && StartsWith(s, w) && w in {"null", "true", "false", "NaN", "Infinity", "-Infinity"}
  }

  function WordValue(w: string): Json {
    if w == "null" then Null else if w == "true" then Bool(true) else if w == "false" then Bool(false) else NonFinite
  }

  lemma WordSpelt(s: string, w: string)
    requires WordAt(s, w)
    ensures |w| <= |s| && Spells(s[..|w|], WordValue(w))
  {
  }

  lemma WordIsAt(s: string, w: string)
    requires StartsWith(s, w) && w in {"null", "true", "false", "NaN", "Infinity", "-Infinity"}
    ensures WordAt(s, w)
  {
  }

  lemma WordCases(s: string) returns (w: string)
    requires ParseValue(s).Done? && s != "" && s[0] !in {'"', '[', '{'} && ParseValue(s) != ParseNumber(s)
    ensures WordAt(s, w) && ParseValue(s) == Done(WordValue(w), s[|w|..])
  {
    hide ParseItems, ParseMembers, ParseNumber, SkipSpace, FromPairs, ParseChars, StartsWith;
    w := if StartsWith(s, "null") then "null" else if StartsWith(s, "true") then "true"
         else if StartsWith(s, "false") then "false" else if StartsWith(s, "NaN") then "NaN"
         else if StartsWith(s, "Infinity") then "Infinity" else "-Infinity";
    WordIsAt(s, w);
  }

  /** What the first character of a value that is read says about it. */
  lemma ValueCases(s: string)
    requires ParseValue(s).Done?
    ensures s != ""
    ensures s[0] == '"' ==>
      ParseChars(s[1..]).Done? && ParseValue(s) == Done(Str(ParseChars(s[1..]).value), ParseChars(s[1..]).rest)
    ensures s[0] == '[' ==>
      var inner := SkipSpace(s[1..]);
      && (Head(inner, ']') ==> ParseValue(s) == Done(Arr([]), inner[1..]))
      && (!Head(inner, ']') ==>
            ParseItems(inner).Done? && ParseValue(s) == Done(Arr(ParseItems(inner).value), ParseItems(inner).rest))
    ensures s[0] == '{' ==>
      var inner := SkipSpace(s[1..]);
      && (Head(inner, '}') ==> ParseValue(s) == Done(Obj([]), inner[1..]))
      && (!Head(inner, '}') ==>
            ParseMembers(inner).Done?
            && ParseValue(s) == Done(Obj(FromPairs(ParseMembers(inner).value)), ParseMembers(inner).rest))
  {
    hide ParseChars, ParseItems, ParseMembers, ParseNumber, SkipSpace, FromPairs, StartsWith;
  }

  lemma {:induction false} ValueWritten(s: string) returns (n: nat)
    requires ParseValue(s).Done?
    ensures n <= |s| && ParseValue(s).rest == s[n..] && Spells(s[..n], ParseValue(s).value)
    decreases |s|, 1, 0
  {
    hide ParseValue, ParseChars, ParseItems, ParseMembers, ParseNumber, SkipSpace, FromPairs, StartsWith, Spells;
    ValueCases(s);
    if s[0] == '"' {
      n := QuotedWritten(s);
      StringIs(s[..n], ParseChars(s[1..]).value);
    } else if s[0] == '[' {
      n := ArrayWritten(s);
    } else if s[0] == '{' {
      n := ObjectWritten(s);
    } else if ParseValue(s) == ParseNumber(s) {
      n := NumberWritten(s);
      NumberIs(s[..n], ParseValue(s).value);
    } else {
      var w := WordCases(s);
      WordSpelt(s, w);
      n := |w|;
    }
  }

  lemma StringIs(s: string, text: string)
    requires Quoted(s, text)
    ensures Spells(s, Str(text))
  {
  }

  lemma NumberIs(s: string, v: Json)
    requires NumberSpelt(s, v)
    ensures Spells(s, v)
  {
  }

  lemma ArrayIs(s: string, items: seq<Json>)
    requires |s| >= 2 && s[0] == '[' && s[|s| - 1] == ']'
    requires if items == [] then Blank(s[1..|s| - 1]) else ItemsSpelt(s[1..|s| - 1], items)
    ensures Spells(s, Arr(items))
  {
  }

  lemma ObjectIs(s: string, pairs: seq<Member>)
    requires |s| >= 2 && s[0] == '{' && s[|s| - 1] == '}' && PairsSpelt(s[1..|s| - 1], pairs)
    ensures Spells(s, Obj(FromPairs(pairs)))
  {
  }

  lemma EmptyObjectIs(s: string)
    requires |s| >= 2 && s[0] == '{' && s[|s| - 1] == '}' && Blank(s[1..|s| - 1])
    ensures Spells(s, Obj([]))
  {
    assert FromPairs([]) == [];
    ObjectIs(s, []);
  }

  lemma Inner(s: string, b: nat, e: nat)
    requires 1 <= b <= e < |s|
    ensures var inner := s[1..e]; s[..e + 1][1..e] == inner && inner[..b - 1] == s[1..b] && inner[b - 1..] == s[b..e]
  {
  }

  lemma {:induction false} ArrayWritten(s: string) returns (n: nat)
    requires ParseValue(s).Done? && s[0] == '['
    ensures n <= |s| && ParseValue(s).rest == s[n..] && Spells(s[..n], ParseValue(s).value)
    decreases |s|, 0
  {
    hide ParseValue, ParseItems, SkipSpace, Spells, ItemsSpelt, Blank;
    ValueCases(s);
    var b := BlanksAt(s, 1);
    if Head(s[b..], ']') {
      Punctuation(s, b);
      n := b + 1;
      assert s[..n][1..n - 1] == s[1..b];
      ArrayIs(s[..n], []);
    } else {
      var e := ItemsAtEnd(s, b);
      n := e + 1;
      var inner := s[1..e];
      Inner(s, b, e);
      BlankItems(inner, b - 1, ParseItems(s[b..]).value);
      ArrayIs(s[..n], ParseItems(s[b..]).value);
    }
  }

  lemma {:induction false} ObjectWritten(s: string) returns (n: nat)
    requires ParseValue(s).Done? && s[0] == '{'
    ensures n <= |s| && ParseValue(s).rest == s[n..] && Spells(s[..n], ParseValue(s).value)
    decreases |s|, 0
  {
    hide ParseValue, ParseMembers, SkipSpace, Spells, Blank, FromPairs, PairsSpelt;
    ValueCases(s);
    var b := BlanksAt(s, 1);
    if Head(s[b..], '}') {
      Punctuation(s, b);
      n := b + 1;
      assert s[..n][1..n - 1] == s[1..b];
      EmptyObjectIs(s[..n]);
    } else {
      var e := PairsAtEnd(s, b);
      n := e + 1;
      var inner := s[1..e];
      Inner(s, b, e);
      BlankPairs(inner, b - 1, ParseMembers(s[b..]).value);
      ObjectIs(s[..n], ParseMembers(s[b..]).value);
    }
  }

  // ---- the theorem --------------------------------------------------------------------------------

  ghost predicate TextAt(s: string, v: Json, i: nat, j: nat) {
    i <= j <= |s| && Blank(s[..i]) && Spells(s[i..j], v) && Blank(s[j..])
  }

  /** The parser reads a text as a value exactly when the text, blanks around it aside, spells it. */
  lemma LoadsExactly(s: string, v: Json)
    ensures Loads(s) == Some(v) <==> exists i, j :: TextAt(s, v, i, j)
  {
    hide ParseValue, SkipSpace, Spells;
    if exists i, j :: TextAt(s, v, i, j) {
      var i, j :| TextAt(s, v, i, j);
      LoadsRead(s, v, i, j);
    }
    if Loads(s) == Some(v) {
      assert s[0..] == s;
      var i := BlanksAt(s, 0);
      var j := ValueAt(s, i);
      var k := BlanksAt(s, j);
      assert s[0..i] == s[..i] && s[j..k] == s[j..];
      assert TextAt(s, v, i, j);
    }
  }

  lemma LoadsRead(s: string, v: Json, i: nat, j: nat)
    requires TextAt(s, v, i, j)
    ensures Loads(s) == Some(v)
  {
    hide ParseValue, SkipSpace, Spells;
    var word, rest := s[i..j], s[j..];
    assert s == s[..i] + (word + rest);
    SpellsFirst(word, v);
    SkipBlank(s[..i], word + rest);
    ValueRead(word, v, rest);
    SkipBlank(rest, "");
    assert rest + "" == rest;
  }

  // ---- repeated keys --------------------------------------------------------------------------------

  /** The keys stand in the order in which the pairs first name them. */
  ghost predicate FirstPlaces(ms: seq<Member>, pairs: seq<Member>) {
    forall i, j :: 0 <= i < j < |ms| ==> IndexOf(pairs, ms[i].key) < IndexOf(pairs, ms[j].key)
  }

  ghost predicate LastOfKey(pairs: seq<Member>, k: nat) {
    k < |pairs| && forall j :: k < j < |pairs| ==> pairs[j].key != pairs[k].key
  }

  lemma PlaceGrows(pairs: seq<Member>, m: Member, key: string)
    ensures HasKey(pairs, key) ==> IndexOf(pairs + [m], key) == IndexOf(pairs, key) < |pairs|
    ensures !HasKey(pairs, key) && m.key == key ==> IndexOf(pairs + [m], key) == |pairs|
  {
    var all, i, j := pairs + [m], IndexOf(pairs + [m], key), IndexOf(pairs, key);
    if HasKey(pairs, key) {
      assert all[j].key == key;
      assert i < |pairs| ==> pairs[i].key == key;
    } else if m.key == key {
      assert all[|pairs|].key == key;
    }
  }

  lemma PairAssigned(ms: seq<Member>, pairs: seq<Member>, m: Member)
    requires UniqueKeys(ms) && FirstPlaces(ms, pairs) && forall key :: HasKey(ms, key) <==> HasKey(pairs, key)
    ensures var r := Assign(ms, m.key, m.value);
      UniqueKeys(r) && FirstPlaces(r, pairs + [m]) && forall key :: HasKey(r, key) <==> HasKey(pairs + [m], key)
  {
    var r, all := Assign(ms, m.key, m.value), pairs + [m];
    AssignUnique(ms, m.key, m.value);
    forall i | 0 <= i < |r| ensures r[i].key == if i < |ms| then ms[i].key else m.key {
      assert Keys(r)[i] == r[i].key;
      assert i < |ms| ==> Keys(ms)[i] == ms[i].key;
    }
    forall i | 0 <= i < |ms| ensures IndexOf(all, ms[i].key) == IndexOf(pairs, ms[i].key) < |pairs| {
      assert HasKey(ms, ms[i].key);
      PlaceGrows(pairs, m, ms[i].key);
    }
    if !HasKey(ms, m.key) { PlaceGrows(pairs, m, m.key); }
    hide IndexOf;
    forall key ensures HasKey(r, key) <==> HasKey(all, key) {
      SameKeys(ms, r, pairs, m, key);
    }
  }

  lemma SameKeys(ms: seq<Member>, r: seq<Member>, pairs: seq<Member>, m: Member, key: string)
    requires r == Assign(ms, m.key, m.value) && (HasKey(ms, key) <==> HasKey(pairs, key))
    ensures HasKey(r, key) <==> HasKey(pairs + [m], key)
  {
    FindAssign(ms, m.key, m.value, key);
    var all := pairs + [m];
    assert all[|pairs|] == m && forall i :: 0 <= i < |pairs| ==> all[i] == pairs[i];
    FindIffKey(ms, key);
    FindIffKey(r, key);
    hide Assign, Find;
  }

  lemma FindIffKey(ms: seq<Member>, key: string)
    ensures Find(ms, key).Some? <==> HasKey(ms, key)
  {
  }

  lemma LastGrows(ms: seq<Member>, init: seq<Member>, m: Member, k: nat)
    requires LastOfKey(init + [m], k)
    requires LastOfKey(init, k) ==> Find(ms, init[k].key) == Some(init[k].value)
    ensures var pairs := init + [m];
      Find(Assign(ms, m.key, m.value), pairs[k].key) == Some(pairs[k].value)
  {
    var pairs := init + [m];
    FindAssign(ms, m.key, m.value, pairs[k].key);
    hide Assign, Find;
    if k < |init| {
      assert forall j :: 0 <= j < |init| ==> init[j] == pairs[j];
      assert pairs[|init|] == m;
    }
  }

  ghost predicate LastValues(ms: seq<Member>, pairs: seq<Member>) {
    forall k: nat :: LastOfKey(pairs, k) ==> Find(ms, pairs[k].key) == Some(pairs[k].value)
  }

  lemma LastValuesGrow(ms: seq<Member>, init: seq<Member>, m: Member)
    requires LastValues(ms, init)
    ensures LastValues(Assign(ms, m.key, m.value), init + [m])
  {
    hide Assign, Find;
    var pairs := init + [m];
    forall k: nat | LastOfKey(pairs, k)
      ensures Find(Assign(ms, m.key, m.value), pairs[k].key) == Some(pairs[k].value)
    {
      LastGrows(ms, init, m, k);
    }
  }

  /** Of pairs that repeat keys every key stays once, where it was named first, with the value it was
      given last. */
  lemma {:induction false} PairsKept(pairs: seq<Member>)
    ensures UniqueKeys(FromPairs(pairs)) && FirstPlaces(FromPairs(pairs), pairs) && LastValues(FromPairs(pairs), pairs)
    ensures forall key :: HasKey(FromPairs(pairs), key) <==> HasKey(pairs, key)
  {
    hide UniqueKeys, FirstPlaces, LastValues, HasKey, Assign;
    if pairs == [] {
      NothingKept();
      assert FromPairs(pairs) == [];
    } else {
      var n := |pairs| - 1;
      var init, m := pairs[..n], pairs[n];
      PairsKept(init);
      assert pairs == init + [m];
      PairAssigned(FromPairs(init), init, m);
      LastValuesGrow(FromPairs(init), init, m);
    }
  }

  lemma NothingKept()
    ensures UniqueKeys([]) && FirstPlaces([], []) && LastValues([], [])
  {
  }
}
