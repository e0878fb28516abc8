/** Blanks, strings and numbers of JSON texts (RFC 8259, sections 2, 6 and 7), and that the parser
    reads just these at the front of a text. */
module JsonTokens {
  import opened Text
  import opened Json
  import opened JsonText

  predicate Blank(s: string) { forall i :: 0 <= i < |s| ==> s[i] in {' ', '\t', '\n', '\r'} }

  lemma {:induction false} SkipBlank(a: string, s: string)
    requires Blank(a) && (s == "" || !IsSpace(s[0]))
    ensures SkipSpace(a + s) == s
  {
    if a == "" {
      assert a + s == s;
    } else {
      assert (a + s)[1..] == a[1..] + s;
      SkipBlank(a[1..], s);
    }
  }

  /** How many blanks a text begins with. */
  lemma {:induction false} BlanksOf(s: string) returns (n: nat)
    ensures n <= |s| && SkipSpace(s) == s[n..] && Blank(s[..n])
    ensures n < |s| ==> !IsSpace(s[n])
  {
    n := 0;
    if s != "" && IsSpace(s[0]) {
      n := BlanksOf(s[1..]);
      assert s[1..][n..] == s[n + 1..] && s[..n + 1] == [s[0]] + s[1..][..n];
      n := n + 1;
    }
  }

  // ---- strings --------------------------------------------------------------------------------

  predicate HexDigit(h: char, d: nat) {
    d < 16 && (h == "0123456789abcdef"[d] || h == "0123456789ABCDEF"[d])
  }

  /** Six characters for the number that their four digits give. */
  predicate CodeText(s: string, n: nat, a: nat, b: nat, d: nat, e: nat) {
    && |s| == 6 && s[0] == '\\' && s[1] == 'u'
    && HexDigit(s[2], a) && HexDigit(s[3], b) && HexDigit(s[4], d) && HexDigit(s[5], e)
    && n == 4096 * a + 256 * b + 16 * d + e
  }

  ghost predicate Code(s: string, n: nat) { exists a, b, d, e :: CodeText(s, n, a, b, d, e) }

  /** A character beyond the first plane is written as its two halves. */
  ghost predicate Halves(s: string, c: char, high: nat, low: nat) {
    && |s| == 12 && Code(s[..6], high) && Code(s[6..], low)
    && 0xD800 <= high < 0xDC00 <= low < 0xE000
    && c as int == 0x10000 + (high - 0xD800) * 0x400 + (low - 0xDC00)
  }

  /** A character that is no quote, no backslash and no control character stands for itself. */
  predicate PlainText(s: string, c: char) { s == [c] && c != '"' && c != '\\' && ' ' <= c }

  /** Eight letters behind a backslash stand for a character each. */
  predicate ShortText(s: string, c: char) {
    && |s| == 2 && s[0] == '\\'
    && (match s[1]
        case '"' => c == '"'
        case '\\' => c == '\\'
        case '/' => c == '/'
        case 'n' => c == '\n'
        case 'r' => c == '\r'
        case 't' => c == '\t'
        case 'b' => c == '\U{8}'
        case 'f' => c == '\U{c}'
        case _ => false)
  }

  ghost predicate CharText(s: string, c: char) {
    PlainText(s, c) || ShortText(s, c) || Code(s, c as int) || exists high, low :: Halves(s, c, high, low)
  }

  ghost predicate CharsText(s: string, text: string)
    decreases |text|
  {
    if text == "" then s == ""
    else exists k :: 0 <= k <= |s| && CharText(s[..k], text[0]) && CharsText(s[k..], text[1..])
  }

  ghost predicate Quoted(s: string, text: string) {
    |s| >= 2 && s[0] == '"' && s[|s| - 1] == '"' && CharsText(s[1..|s| - 1], text)
  }

  lemma HexExactly(h: char, d: nat)
    ensures HexValue(h) == Some(d) <==> HexDigit(h, d)
  {
    if d < 16 { HexDigitAt(d); }
    if HexValue(h) == Some(d) {
      assert d < 16;
      if d < 10 { assert h == '0' + d as char; }
    }
  }

  lemma HexDigitAt(d: nat)
    requires d < 16
    ensures "0123456789abcdef"[d] == if d < 10 then '0' + d as char else 'a' + (d - 10) as char
    ensures "0123456789ABCDEF"[d] == if d < 10 then '0' + d as char else 'A' + (d - 10) as char
  {
  }

  lemma FourDigits(u: string, s: string)
    requires |u| >= 4 && s == "\\u" + u[..4]
    ensures forall i, d: nat :: 0 <= i < 4 ==> (HexValue(u[i]) == Some(d) <==> HexDigit(s[i + 2], d))
  {
    forall i, d: nat | 0 <= i < 4 ensures HexValue(u[i]) == Some(d) <==> HexDigit(s[i + 2], d) {
      HexExactly(u[i], d);
    }
  }

  /** Four digits are read as the number that they give. */
  lemma CodeExactly(u: string, n: nat)
    requires |u| >= 4
    ensures HexCode(u) == Some(n) <==> Code("\\u" + u[..4], n)
  {
    hide HexValue, HexDigit;
    var s := "\\u" + u[..4];
    FourDigits(u, s);
    if HexCode(u) == Some(n) {
      var a, b, d, e := HexValue(u[0]).value, HexValue(u[1]).value, HexValue(u[2]).value, HexValue(u[3]).value;
      assert CodeText(s, n, a, b, d, e);
    }
    if Code(s, n) {
      var a: nat, b: nat, d: nat, e: nat :| CodeText(s, n, a, b, d, e);
      assert HexValue(u[0]) == Some(a) && HexValue(u[1]) == Some(b);
      assert HexValue(u[2]) == Some(d) && HexValue(u[3]) == Some(e);
    }
  }

  lemma CodeShape(s: string, n: nat)
    requires Code(s, n)
    ensures |s| == 6 && s[0] == '\\' && s[1] == 'u' && s == "\\u" + s[2..]
  {
  }

  lemma CodeRead(s: string, n: nat, rest: string)
    requires Code(s, n)
    ensures |s| == 6 && s[0] == '\\' && s[1] == 'u' && HexCode(s[2..] + rest) == Some(n)
  {
    CodeShape(s, n);
    var u := s[2..] + rest;
    assert u[..4] == s[2..];
    CodeExactly(u, n);
    hide Code, HexCode;
  }

  lemma UnicodeRead(s: string, c: char, rest: string)
    requires Code(s, c as int)
    ensures |s| == 6 && s[1] == 'u' && ParseUnicode(s[2..] + rest) == Done(c, rest)
  {
    CodeRead(s, c as int, rest);
    hide Code, HexCode;
    assert (s[2..] + rest)[4..] == rest;
  }

  lemma TwoCodes(u: string, c: char, high: nat, low: nat)
    requires |u| >= 10 && HexCode(u) == Some(high) && HexCode(u[6..]) == Some(low) && u[4] == '\\' && u[5] == 'u'
    requires 0xD800 <= high < 0xDC00 <= low < 0xE000
    requires c as int == 0x10000 + (high - 0xD800) * 0x400 + (low - 0xDC00)
    ensures ParseUnicode(u) == Done(c, u[10..])
  {
    hide HexCode;
  }

  lemma HalvesRead(s: string, c: char, high: nat, low: nat, rest: string)
    requires Halves(s, c, high, low)
    ensures |s| == 12 && s[0] == '\\' && s[1] == 'u' && ParseUnicode(s[2..] + rest) == Done(c, rest)
  {
    hide Code, HexCode, ParseUnicode;
    CodeRead(s[..6], high, s[6..] + rest);
    CodeRead(s[6..], low, rest);
    var u := s[2..] + rest;
    assert u == s[..6][2..] + (s[6..] + rest) && u[6..] == s[6..][2..] + rest;
    assert u[10..] == rest;
    TwoCodes(u, c, high, low);
  }

  /** How long the rest of a numbered escape is. */
  lemma UnicodeWritten(s: string) returns (n: nat)
    requires |s| >= 2 && s[0] == '\\' && s[1] == 'u' && ParseUnicode(s[2..]).Done?
    ensures 0 < n <= |s| && ParseUnicode(s[2..]).rest == s[n..] && CharText(s[..n], ParseUnicode(s[2..]).value)
  {
    hide HexCode, Code;
    var u, c := s[2..], ParseUnicode(s[2..]).value;
    var code := HexCode(u).value;
    CodeExactly(u, code);
    assert "\\u" + u[..4] == s[..6];
    if code < 0xD800 || 0xE000 <= code {
      n := 6;
      assert u[4..] == s[6..];
    } else {
      n := 12;
      var low := HexCode(u[6..]).value;
      CodeExactly(u[6..], low);
      assert "\\u" + u[6..][..4] == s[..12][6..] && u[10..] == s[12..] && s[..12][..6] == s[..6];
      assert Halves(s[..12], c, code, low);
    }
  }

  lemma ShortRead(s: string, c: char, rest: string)
    requires ShortText(s, c)
    ensures ParseEscape(s[1..] + rest) == Done(c, rest)
  {
    assert s[1..] == [s[1]] && ([s[1]] + rest)[1..] == rest;
  }

  lemma LongRead(s: string, c: char, rest: string)
    requires Code(s, c as int) || exists high, low :: Halves(s, c, high, low)
    ensures s != "" && s[0] == '\\' && ParseEscape(s[1..] + rest) == Done(c, rest)
  {
    hide ParseUnicode, Halves;
    if Code(s, c as int) {
      UnicodeRead(s, c, rest);
      CodeShape(s, c as int);
    } else {
      var high, low :| Halves(s, c, high, low);
      HalvesRead(s, c, high, low, rest);
    }
    hide Code;
    assert (s[1..] + rest)[1..] == s[2..] + rest && (s[1..] + rest)[0] == 'u';
  }

  lemma CharRead(s: string, c: char, more: string, text: string, rest: string)
    requires CharText(s, c) && ParseChars(more) == Done(text, rest)
    ensures ParseChars(s + more) == Done([c] + text, rest)
  {
    hide ParseEscape, Code, Halves;
    if PlainText(s, c) {
      assert (s + more)[1..] == more;
    } else {
      if ShortText(s, c) {
        ShortRead(s, c, more);
      } else {
        LongRead(s, c, more);
      }
      hide ShortText;
      assert (s + more)[1..] == s[1..] + more;
    }
  }

  lemma NoChars(rest: string)
    ensures ParseChars("\"" + rest) == Done("", rest)
  {
    assert ("\"" + rest)[1..] == rest;
  }

  lemma {:induction false} CharsRead(s: string, text: string, rest: string)
    requires CharsText(s, text)
    ensures ParseChars(s + ("\"" + rest)) == Done(text, rest)
    decreases |text|
  {
    hide ParseChars, CharText;
    if text == "" {
      NoChars(rest);
      assert s + ("\"" + rest) == "\"" + rest;
    } else {
      var k :| 0 <= k <= |s| && CharText(s[..k], text[0]) && CharsText(s[k..], text[1..]);
      hide CharsText;
      CharsRead(s[k..], text[1..], rest);
      CharRead(s[..k], text[0], s[k..] + ("\"" + rest), text[1..], rest);
      assert s + ("\"" + rest) == s[..k] + (s[k..] + ("\"" + rest));
      assert text == [text[0]] + text[1..];
    }
  }

  lemma ShortWritten(u: string)
    requires ParseEscape(u).Done? && u[0] != 'u'
    ensures ParseEscape(u).rest == u[1..] && ShortText(['\\', u[0]], ParseEscape(u).value)
  {
    hide ParseUnicode;
  }

  /** How long the escape at the front of a text is, its backslash included. */
  lemma EscapeWritten(s: string) returns (n: nat)
    requires s != "" && s[0] == '\\' && ParseEscape(s[1..]).Done?
    ensures 0 < n <= |s| && ParseEscape(s[1..]).rest == s[n..] && CharText(s[..n], ParseEscape(s[1..]).value)
  {
    var u := s[1..];
    if u[0] == 'u' {
      assert u[1..] == s[2..];
      n := UnicodeWritten(s);
      hide ParseUnicode, CharText;
    } else {
      n := 2;
      ShortWritten(u);
      hide ParseEscape, ShortText;
      assert s[..2] == ['\\', u[0]] && u[1..] == s[2..];
    }
  }

  lemma MoreChars(s: string, k: nat, c: char, n: nat, text: string)
    requires 0 < k <= n <= |s| && CharText(s[..k], c) && CharsText(s[k..n], text)
    ensures CharsText(s[..n], [c] + text)
  {
    hide CharText;
    var all, t := s[..n], [c] + text;
    assert all[..k] == s[..k] && all[k..] == s[k..n] && t[1..] == text;
  }

  /** What the first character of a string takes of the text, unless it ends there. */
  lemma CharWritten(s: string) returns (n: nat, c: char)
    requires ParseChars(s).Done? && s[0] != '"'
    ensures 0 < n <= |s| && CharText(s[..n], c) && ParseChars(s[n..]).Done?
    ensures ParseChars(s) == Done([c] + ParseChars(s[n..]).value, ParseChars(s[n..]).rest)
  {
    if s[0] == '\\' {
      n := EscapeWritten(s);
      c := ParseEscape(s[1..]).value;
      hide ParseEscape, CharText;
    } else {
      n, c := 1, s[0];
      assert PlainText(s[..1], s[0]);
    }
  }

  lemma QuoteEnds(s: string)
    requires ParseChars(s).Done?
    ensures s != "" && CharsText(s[..0], "")
    ensures s[0] == '"' ==> ParseChars(s) == Done("", s[1..])
  {
  }

  lemma Resumed(s: string, k: nat, m: nat)
    requires k + m < |s|
    ensures s[k..][..m] == s[k..k + m] && s[k..][m + 1..] == s[k + m + 1..] && s[k..][m] == s[k + m]
  {
  }

  /** Where the string that a text begins with ends. */
  lemma {:induction false} CharsWritten(s: string) returns (n: nat)
    requires ParseChars(s).Done?
    ensures n < |s| && s[n] == '"' && ParseChars(s).rest == s[n + 1..] && CharsText(s[..n], ParseChars(s).value)
    decreases |s|
  {
    hide ParseChars, CharText, CharsText;
    QuoteEnds(s);
    if s[0] == '"' {
      n := 0;
    } else {
      var k, c := CharWritten(s);
      var m := CharsWritten(s[k..]);
      n := k + m;
      Resumed(s, k, m);
      MoreChars(s, k, c, n, ParseChars(s[k..]).value);
    }
  }

  // ---- numbers --------------------------------------------------------------------------------

  /** An integer part without a superfluous zero. */
  predicate WholeText(s: string) { s != "" && AllDigits(s) && (s[0] == '0' ==> s == "0") }

  predicate FractionText(s: string, frac: string) {
    if frac == "" then s == "" else s == "." + frac && AllDigits(frac)
  }

  predicate IsSign(sign: string) { sign == "" || sign == "+" || sign == "-" }

  predicate ExponentOf(s: string, exp: Option<int>, letter: char, sign: string, ds: string) {
    if exp.None? then s == ""
    else
      && s == [letter] + sign + ds && (letter == 'e' || letter == 'E') && IsSign(sign) && ds != "" && AllDigits(ds)
      && exp.value == Negate(sign == "-", DigitsValue(ds))
  }

  ghost predicate ExponentSpelt(s: string, exp: Option<int>) {
    exists letter, sign, ds :: ExponentOf(s, exp, letter, sign, ds)
  }

  ghost predicate NumberParts(s: string, v: Json, neg: bool, whole: string, frac: string, exp: Option<int>,
                              f: string, e: string) {
    && s == (if neg then "-" else "") + (whole + (f + e))
    && WholeText(whole) && FractionText(f, frac) && ExponentSpelt(e, exp)
    && AllDigits(frac) && v == Number(neg, whole, frac, exp)
  }

  ghost predicate NumberSpelt(s: string, v: Json) {
    exists neg, whole, frac, exp, f, e :: NumberParts(s, v, neg, whole, frac, exp, f, e)
  }

  /** Behind a value stands the end of the text, a blank or the punctuation of what it is in. */
  predicate Stops(rest: string) { rest == "" || rest[0] in {' ', '\t', '\n', '\r', ',', ']', '}'} }

  lemma SignedRead(sign: string, ds: string, rest: string)
    requires IsSign(sign) && ds != "" && AllDigits(ds) && Stops(rest)
    ensures var t := sign + (ds + rest);
      && (Head(t, '+') || Head(t, '-') <==> sign != "") && (Head(t, '-') <==> sign == "-")
      && TakeDigits(if sign != "" then t[1..] else t) == (ds, rest)
  {
    var tail := ds + rest;
    TakeDigitsAll(ds, rest);
    hide TakeDigits;
    assert tail[0] == ds[0] && IsDigit(ds[0]);
    if sign == "" { assert sign + tail == tail; } else { assert (sign + tail)[1..] == tail; }
  }

  lemma ExponentFirst(e: string, exp: Option<int>, rest: string)
    requires ExponentSpelt(e, exp) && Stops(rest)
    ensures e + rest == "" || (!IsDigit((e + rest)[0]) && (e + rest)[0] != '.')
  {
    var letter, sign, ds :| ExponentOf(e, exp, letter, sign, ds);
    hide DigitsValue, AllDigits;
    if exp.None? { assert e + rest == rest; } else { assert (e + rest)[0] == letter; }
  }

  lemma LetterRead(letter: char, sign: string, ds: string, rest: string)
    requires (letter == 'e' || letter == 'E') && IsSign(sign) && ds != "" && AllDigits(ds) && Stops(rest)
    ensures ParseExponent([letter] + (sign + (ds + rest))) == (Some(Negate(sign == "-", DigitsValue(ds))), rest)
  {
    hide TakeDigits, DigitsValue, AllDigits, Stops;
    var t := sign + (ds + rest);
    var all := [letter] + t;
    SignedRead(sign, ds, rest);
    assert all[1..] == t && all[0] == letter;
    assert sign != "" ==> all[2..] == t[1..];
  }

  lemma NoExponentRead(rest: string)
    requires Stops(rest)
    ensures ParseExponent("" + rest) == (None, rest)
  {
    assert "" + rest == rest;
  }

  lemma Regrouped(a: string, b: string, c: string, d: string)
    ensures a + b + c + d == a + (b + (c + d))
  {
  }

  lemma ExponentRead(e: string, exp: Option<int>, rest: string)
    requires ExponentSpelt(e, exp) && Stops(rest)
    ensures ParseExponent(e + rest) == (exp, rest)
  {
    hide Stops, ParseExponent, DigitsValue, AllDigits;
    var letter, sign, ds :| ExponentOf(e, exp, letter, sign, ds);
    if exp.None? {
      NoExponentRead(rest);
    } else {
      LetterRead(letter, sign, ds, rest);
      Regrouped([letter], sign, ds, rest);
    }
  }

  lemma FractionRead(f: string, frac: string, more: string)
    requires FractionText(f, frac) && (more == "" || (!IsDigit(more[0]) && more[0] != '.'))
    ensures ParseFraction(f + more) == (frac, more)
    ensures f + more == "" || !IsDigit((f + more)[0])
  {
    if frac == "" {
      assert f + more == more;
    } else {
      TakeDigitsAll(frac, more);
      assert (f + more)[1..] == frac + more;
    }
  }

  lemma WholeRead(whole: string, more: string)
    requires WholeText(whole) && (more == "" || !IsDigit(more[0]))
    ensures ParseWhole(whole + more) == (whole, more)
  {
    TakeDigitsAll(whole, more);
    if whole == "0" { assert whole[1..] + more == more; }
    hide TakeDigits;
  }

  lemma SignRead(neg: bool, u: string)
    requires u != "" && IsDigit(u[0])
    ensures ParseNumber((if neg then "-" else "") + u) == ParseUnsigned(neg, u)
  {
    if neg { assert ("-" + u)[1..] == u; } else { assert "" + u == u; }
    hide ParseUnsigned;
  }

  lemma UnsignedRead(neg: bool, whole: string, frac: string, exp: Option<int>, more: string, tail: string, rest: string)
    requires WholeText(whole) && ParseWhole(whole + more) == (whole, more) && AllDigits(frac)
    requires ParseFraction(more) == (frac, tail) && ParseExponent(tail) == (exp, rest)
    ensures ParseUnsigned(neg, whole + more) == Done(Number(neg, whole, frac, exp), rest)
  {
    hide ParseExponent, ParseFraction, ParseWhole, Number, AllDigits;
  }

  lemma NumberRead(s: string, v: Json, rest: string)
    requires NumberSpelt(s, v) && Stops(rest)
    ensures s != "" && (s[0] == '-' || IsDigit(s[0])) && ParseNumber(s + rest) == Done(v, rest)
  {
    hide ParseExponent, ParseFraction, ParseWhole, Number, ExponentSpelt, FractionText, ParseNumber, ParseUnsigned,
      Stops;
    var neg, whole, frac, exp, f, e :| NumberParts(s, v, neg, whole, frac, exp, f, e);
    ExponentRead(e, exp, rest);
    ExponentFirst(e, exp, rest);
    FractionRead(f, frac, e + rest);
    var more := f + (e + rest);
    WholeRead(whole, more);
    UnsignedRead(neg, whole, frac, exp, more, e + rest, rest);
    SignRead(neg, whole + more);
    assert s + rest == (if neg then "-" else "") + (whole + more);
  }

  // ---- and what was read ----------------------------------------------------------------------

  lemma LetterWritten(s: string) returns (from: nat, n: nat)
    requires ParseExponent(s).0.Some?
    ensures 0 < from <= n <= |s| && ParseExponent(s).1 == s[n..] && s[0] in {'e', 'E'}
    ensures from == 1 || (from == 2 && s[1] in {'+', '-'})
    ensures AllDigits(s[from..n]) && from < n
    ensures ParseExponent(s).0.value == Negate(from == 2 && s[1] == '-', DigitsValue(s[from..n]))
  {
    from := if Head(s[1..], '+') || Head(s[1..], '-') then 2 else 1;
    var (ds, rest) := TakeDigits(s[from..]);
    n := from + |ds|;
    hide TakeDigits, DigitsValue, AllDigits;
    assert s[from..][|ds|..] == rest && s[from..][..|ds|] == ds && s[from..n] == ds && s[n..] == rest;
  }

  lemma ThreePieces(s: string, from: nat, n: nat) returns (sign: string)
    requires 0 < from <= n <= |s| && (from == 1 || (from == 2 && s[1] in {'+', '-'}))
    ensures IsSign(sign) && s[..n] == [s[0]] + sign + s[from..n]
    ensures sign == "-" <==> from == 2 && s[1] == '-'
  {
    sign := if from == 2 then [s[1]] else "";
  }

  lemma ExponentWritten(s: string) returns (n: nat)
    ensures n <= |s| && ParseExponent(s).1 == s[n..] && ExponentSpelt(s[..n], ParseExponent(s).0)
  {
    var exp := ParseExponent(s).0;
    if exp.Some? {
      hide ParseExponent, DigitsValue, AllDigits;
      var from;
      from, n := LetterWritten(s);
      var sign := ThreePieces(s, from, n);
      hide IsSign;
      assert ExponentOf(s[..n], exp, s[0], sign, s[from..n]);
    } else {
      n := 0;
      assert ExponentOf(s[..n], exp, 'e', "", "");
    }
  }

  lemma FractionWritten(s: string) returns (n: nat)
    ensures n <= |s| && ParseFraction(s).1 == s[n..] && FractionText(s[..n], ParseFraction(s).0)
  {
    n := if ParseFraction(s).0 == "" then 0 else 1 + |ParseFraction(s).0|;
    if n > 0 {
      var (ds, rest) := TakeDigits(s[1..]);
      hide TakeDigits;
      assert s[1..][|ds|..] == rest && s[1..][..|ds|] == ds && s[..n] == "." + ds;
    }
  }

  lemma WholeWritten(s: string) returns (n: nat)
    requires ParseWhole(s).0 != ""
    ensures n <= |s| && s[..n] == ParseWhole(s).0 && ParseWhole(s).1 == s[n..] && WholeText(s[..n])
  {
    var (run, after) := TakeDigits(s);
    n := if Head(run, '0') then 1 else |run|;
    hide TakeDigits;
    assert s[..|run|] == run && s[|run|..] == after;
    if Head(run, '0') { assert s[1..] == run[1..] + after && s[..1] == "0"; }
  }

  lemma UnsignedWritten(neg: bool, u: string)
    returns (n: nat, whole: string, frac: string, exp: Option<int>, f: string, e: string)
    requires ParseUnsigned(neg, u).Done?
    ensures n <= |u| && ParseUnsigned(neg, u).rest == u[n..] && u[..n] == whole + (f + e)
    ensures WholeText(whole) && FractionText(f, frac) && ExponentSpelt(e, exp) && AllDigits(frac)
    ensures ParseUnsigned(neg, u).value == Number(neg, whole, frac, exp)
  {
    hide ParseWhole, ParseFraction, ParseExponent, Number, WholeText, FractionText, ExponentSpelt, AllDigits;
    whole := ParseWhole(u).0;
    var i := WholeWritten(u);
    var t := u[i..];
    frac := ParseFraction(t).0;
    var j := FractionWritten(t);
    var r := t[j..];
    exp := ParseExponent(r).0;
    var k := ExponentWritten(r);
    f, e, n := t[..j], r[..k], i + j + k;
    assert u == whole + t && t == f + r && r == e + r[k..];
    assert r[k..] == u[n..] && u[..n] == whole + (f + e);
  }

  lemma SignWritten(s: string) returns (k: nat)
    requires ParseNumber(s).Done?
    ensures k <= |s| && ParseNumber(s) == ParseUnsigned(k == 1, s[k..]) && s[..k] == if k == 1 then "-" else ""
  {
    hide ParseUnsigned;
    k := if Head(s, '-') then 1 else 0;
    assert s[0..] == s;
  }

  lemma NumberWritten(s: string) returns (n: nat)
    requires ParseNumber(s).Done?
    ensures n <= |s| && ParseNumber(s).rest == s[n..] && NumberSpelt(s[..n], ParseNumber(s).value)
  {
    hide ParseNumber, ParseUnsigned, WholeText, FractionText, ExponentSpelt, AllDigits, Number;
    var k := SignWritten(s);
    var u := s[k..];
    var m, whole, frac, exp, f, e := UnsignedWritten(k == 1, u);
    n := k + m;
    assert s[..n] == s[..k] + u[..m] && s[n..] == u[m..];
    assert NumberParts(s[..n], ParseNumber(s).value, k == 1, whole, frac, exp, f, e);
  }
}
