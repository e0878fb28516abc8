/** Reading back what the host wrote: `json.loads` undoes the compact printer,
    so canonical text determines the document. */
module JsonRoundTrip {
  import opened Text
  import opened Json
  import opened Canonical
  import opened JsonText

  /** What may follow a value inside a printed document, or end the file. */
  predicate Delimited(rest: string) {
    rest == "" || rest[0] == ',' || rest[0] == ']' || rest[0] == '}' || rest[0] == '\n'
  }

  // ---- numbers ---------------------------------------------------------

  predicate WholeDigits(ds: string) {
    AllDigits(ds) && ds != "" && (ds == "0" || ds[0] != '0')
  }

  lemma ParseWholeBack(ds: string, rest: string)
    requires WholeDigits(ds) && (rest != "" ==> !IsDigit(rest[0]))
    ensures ParseWhole(ds + rest) == (ds, rest)
  {
    TakeDigitsAll(ds, rest);
    assert ""+ rest == rest;
  }

  /** Nothing that may follow a number continues it. */
  lemma NothingFollows(rest: string)
    requires Delimited(rest)
    ensures ParseFraction(rest) == ("", rest) && ParseExponent(rest) == (None, rest)
    ensures rest != "" ==> !IsDigit(rest[0])
  {
  }

  lemma UnsignedIntBack(neg: bool, ds: string, rest: string)
    requires WholeDigits(ds) && Delimited(rest)
    ensures ParseUnsigned(neg, ds + rest) == Done(Int(Negate(neg, DigitsValue(ds))), rest)
  {
    NothingFollows(rest);
    ParseWholeBack(ds, rest);
  }

  lemma SignedBack(neg: bool, text: string, v: Json, rest: string)
    requires text != "" && text[0] != '-'
    requires ParseUnsigned(neg, text + rest) == Done(v, rest)
    ensures ParseNumber(Sign(neg) + text + rest) == Done(v, rest)
  {
    hide ParseUnsigned;
    if neg {
      assert ("-" + text + rest)[1..] == text + rest;
    } else {
      assert "" + text + rest == text + rest;
    }
  }

  lemma NatDigits(n: nat)
    ensures WholeDigits(NatText(n)) && DigitsValue(NatText(n)) == n
    ensures NatText(n)[0] != '-'
  {
    NatTextValue(n);
    if n == 0 { assert NatText(n) == "0"; }
  }

  lemma IntBack(i: int, rest: string)
    requires Delimited(rest)
    ensures ParseNumber(IntText(i) + rest) == Done(Int(i), rest)
  {
    var n := if i < 0 then -i else i;
    NatDigits(n);
    UnsignedIntBack(i < 0, NatText(n), rest);
    SignedBack(i < 0, NatText(n), Int(i), rest);
  }

  lemma FractionBack(frac: string, rest: string)
    requires AllDigits(frac) && frac != "" && (rest != "" ==> !IsDigit(rest[0]))
    ensures ParseFraction("." + frac + rest) == (frac, rest)
  {
    var tail := "." + frac + rest;
    assert tail[1..] == frac + rest;
    TakeDigitsAll(frac, rest);
  }

  lemma FixedBack(neg: bool, whole: string, frac: string, rest: string)
    requires WholeDigits(whole) && AllDigits(frac) && frac != "" && Delimited(rest)
    ensures ParseUnsigned(neg, whole + ("." + frac + rest)) == Done(Number(neg, whole, frac, None), rest)
  {
    NothingFollows(rest);
    FractionBack(frac, rest);
    ParseWholeBack(whole, "." + frac + rest);
  }

  /** The digits of an exponent, padded to two. */
  function ExponentDigits(e: int): string {
    var n := NatText(if e < 0 then -e else e);
    if |n| == 1 then Zeros(1) + n else n
  }

  lemma ExponentDigitsValue(e: int)
    ensures AllDigits(ExponentDigits(e)) && ExponentDigits(e) != ""
    ensures DigitsValue(ExponentDigits(e)) == if e < 0 then -e else e
    ensures ExponentText(e) == (if e < 0 then "-" else "+") + ExponentDigits(e)
  {
    NatTextValue(if e < 0 then -e else e);
    LeadingZeros(1, NatText(if e < 0 then -e else e));
  }

  lemma ExponentStep(s: string, ds: string, rest: string)
    requires |s| >= 2 && s[0] == 'e' && (s[1] == '+' || s[1] == '-')
    requires AllDigits(ds) && ds != "" && TakeDigits(s[2..]) == (ds, rest)
    ensures ParseExponent(s) == (Some(Negate(s[1] == '-', DigitsValue(ds))), rest)
  {
    hide TakeDigits, DigitsValue;
    assert s[1..][0] == s[1];
  }

  lemma ExponentShape(neg: bool, ds: string, rest: string)
    requires AllDigits(ds) && ds != "" && Delimited(rest)
    ensures ParseExponent("e" + ((if neg then "-" else "+") + ds) + rest) == (Some(Negate(neg, DigitsValue(ds))), rest)
  {
    NothingFollows(rest);
    hide ParseExponent, DigitsValue, Delimited, TakeDigits;
    TakeDigitsAll(ds, rest);
    var mark := if neg then "-" else "+";
    ExponentParts(mark, ds, rest);
    ExponentStep("e" + (mark + ds) + rest, ds, rest);
  }

  lemma ExponentParts(mark: string, ds: string, rest: string)
    requires |mark| == 1
    ensures var s := "e" + (mark + ds) + rest; |s| >= 2 && s[0] == 'e' && s[1] == mark[0] && s[2..] == ds + rest
  {
  }

  lemma ExponentBack(e: int, rest: string)
    requires Delimited(rest)
    ensures ParseExponent("e" + ExponentText(e) + rest) == (Some(e), rest)
  {
    ExponentDigitsValue(e);
    ExponentShape(e < 0, ExponentDigits(e), rest);
  }

  lemma ScientificBack(neg: bool, whole: string, frac: string, tail: string, e: int, rest: string)
    requires WholeDigits(whole) && AllDigits(frac)
    requires tail != "" && tail[0] == 'e' && ParseExponent(tail) == (Some(e), rest)
    ensures ParseUnsigned(neg, whole + ((if frac == "" then "" else "." + frac) + tail))
            == Done(Number(neg, whole, frac, Some(e)), rest)
  {
    if frac == "" {
      assert "" + tail == tail;
      ParseWholeBack(whole, tail);
    } else {
      FractionBack(frac, tail);
      ParseWholeBack(whole, "." + frac + tail);
    }
  }

  lemma {:induction false} StripScaled(d: nat, k: nat, e: int)
    requires d % 10 != 0
    ensures Strip(d * Pow10(k), e) == (d, e + k)
  {
    if k > 0 {
      var p := d * Pow10(k - 1);
      assert d * Pow10(k) == 10 * p;
      assert (10 * p) % 10 == 0 && (10 * p) / 10 == p;
      PowPositive(d, k - 1);
      StripScaled(d, k - 1, e + 1);
    }
  }

  lemma PowPositive(d: nat, k: nat)
    requires d > 0
    ensures d * Pow10(k) > 0
  {
  }

  lemma NumberScaled(neg: bool, whole: string, frac: string, exp: Option<int>, d: nat, k: nat)
    requires AllDigits(whole) && AllDigits(frac) && (frac != "" || exp.Some?)
    requires d % 10 != 0 && AllDigits(whole + frac) && DigitsValue(whole + frac) == d * Pow10(k)
    ensures Number(neg, whole, frac, exp)
            == Float(Decimal(neg, d, (if exp.Some? then exp.value else 0) - |frac| + k))
  {
    StripScaled(d, k, (if exp.Some? then exp.value else 0) - |frac|);
  }

  /** `ds` are the digits of a stripped, nonzero float. */
  predicate DigitsOf(f: Decimal, ds: string) {
    f.digits % 10 != 0 && WholeDigits(ds) && ds[0] != '0' && DigitsValue(ds) == f.digits
  }

  lemma ZeroBack(neg: bool, rest: string)
    requires Delimited(rest)
    ensures ParseUnsigned(neg, "0.0" + rest) == Done(Float(Decimal(neg, 0, 0)), rest)
  {
    assert "0.0" + rest == "0" + ("." + "0" + rest);
    FixedBack(neg, "0", "0", rest);
    LeadingZeros(2, "");
    assert Zeros(2) + "" == "0" + "0";
  }

  lemma SmallBack(f: Decimal, ds: string, z: nat, rest: string)
    requires DigitsOf(f, ds) && |ds| + f.exp + z == 0 && Delimited(rest)
    ensures ParseUnsigned(f.neg, "0." + (Zeros(z) + ds) + rest) == Done(Float(f), rest)
  {
    hide ParseUnsigned, Number, Delimited;
    var frac := Zeros(z) + ds;
    LeadingZeros(z, ds);
    LeadingZeros(1, frac);
    assert Zeros(1) == "0";
    hide DigitsValue, Zeros, WholeDigits;
    assert Zeros(1) + frac == "0" + frac;
    assert "0." + frac + rest == "0" + ("." + frac + rest);
    FixedBack(f.neg, "0", frac, rest);
    NumberScaled(f.neg, "0", frac, None, f.digits, 0);
  }

  lemma MiddleBack(f: Decimal, ds: string, point: nat, rest: string)
    requires DigitsOf(f, ds) && point == |ds| + f.exp && 0 < point < |ds| && Delimited(rest)
    ensures ParseUnsigned(f.neg, ds[..point] + "." + ds[point..] + rest) == Done(Float(f), rest)
  {
    hide ParseUnsigned, Number, DigitsValue;
    assert ds[..point] + ds[point..] == ds;
    assert ds[..point] + "." + ds[point..] + rest == ds[..point] + ("." + ds[point..] + rest);
    FixedBack(f.neg, ds[..point], ds[point..], rest);
    NumberScaled(f.neg, ds[..point], ds[point..], None, f.digits, 0);
  }

  lemma LargeBack(f: Decimal, ds: string, rest: string)
    requires DigitsOf(f, ds) && f.exp >= 0 && Delimited(rest)
    ensures ParseUnsigned(f.neg, (ds + Zeros(f.exp)) + ".0" + rest) == Done(Float(f), rest)
  {
    hide ParseUnsigned, Number, DigitsValue;
    var whole := ds + Zeros(f.exp);
    TrailingZeros(ds, f.exp);
    TrailingZeros(ds, f.exp + 1);
    assert whole + "0" == ds + Zeros(f.exp + 1);
    assert whole + ".0" + rest == whole + ("." + "0" + rest);
    FixedBack(f.neg, whole, "0", rest);
    NumberScaled(f.neg, whole, "0", None, f.digits, f.exp + 1);
  }

  lemma ExponentialBack(f: Decimal, ds: string, rest: string)
    requires DigitsOf(f, ds) && Delimited(rest)
    ensures var e := |ds| + f.exp - 1; var frac := if |ds| == 1 then "" else "." + ds[1..];
      ParseUnsigned(f.neg, [ds[0]] + frac + "e" + ExponentText(e) + rest) == Done(Float(f), rest)
  {
    hide ParseUnsigned, Number, DigitsValue, ParseExponent, ExponentText;
    var e := |ds| + f.exp - 1;
    var frac := if |ds| == 1 then "" else "." + ds[1..];
    var tail := "e" + ExponentText(e) + rest;
    ExponentBack(e, rest);
    assert [ds[0]] + ds[1..] == ds;
    assert [ds[0]] + frac + "e" + ExponentText(e) + rest == [ds[0]] + (frac + tail);
    ScientificBack(f.neg, [ds[0]], ds[1..], tail, e, rest);
    NumberScaled(f.neg, [ds[0]], ds[1..], Some(e), f.digits, 0);
  }

  lemma MagnitudeBack(f: Decimal, rest: string)
    requires Stripped(f) && Delimited(rest)
    ensures ParseUnsigned(f.neg, MagnitudeText(f.digits, f.exp) + rest) == Done(Float(f), rest)
  {
    hide ParseUnsigned, Number, DigitsValue, Delimited, ExponentText;
    var ds := NatText(f.digits);
    NatDigits(f.digits);
    NatTextValue(f.digits);
    var point := |ds| + f.exp;
    if f.digits == 0 {
      ZeroBack(f.neg, rest);
    } else if -4 < point <= 0 {
      SmallBack(f, ds, -point, rest);
    } else if 0 < point < |ds| {
      MiddleBack(f, ds, point, rest);
    } else if |ds| <= point <= 16 {
      LargeBack(f, ds, rest);
    } else {
      ExponentialBack(f, ds, rest);
    }
  }

  lemma MagnitudeStart(d: nat, e: int)
    ensures MagnitudeText(d, e) != "" && IsDigit(MagnitudeText(d, e)[0])
  {
  }

  lemma FloatBack(f: Decimal, rest: string)
    requires Stripped(f) && Delimited(rest)
    ensures ParseNumber(FloatText(f) + rest) == Done(Float(f), rest)
  {
    MagnitudeBack(f, rest);
    MagnitudeStart(f.digits, f.exp);
    SignedBack(f.neg, MagnitudeText(f.digits, f.exp), Float(f), rest);
  }

  // ---- strings ---------------------------------------------------------

  /** Reading one escaped character and then the rest. */
  function Prepend(c: char, more: Parsed<string>): Parsed<string> {
    if more.Fail? then Fail else Done([c] + more.value, more.rest)
  }

  lemma ShortEscapeBack(c: char, e: char, s: string)
    requires ParseEscape([e] + s) == Done(c, s)
    ensures ParseChars("\\" + [e] + s) == Prepend(c, ParseChars(s))
  {
    hide ParseEscape;
    assert ("\\" + [e] + s)[1..] == [e] + s;
  }

  lemma LongEscapeBack(c: char, s: string)
    requires c as int < 32
    ensures ParseChars("\\u00" + [HexDigit(c as int / 16), HexDigit(c as int % 16)] + s) == Prepend(c, ParseChars(s))
  {
    hide ParseUnicode;
    var hex := "00" + [HexDigit(c as int / 16), HexDigit(c as int % 16)];
    UnicodeBack(c, s);
    var t := "\\u00" + [HexDigit(c as int / 16), HexDigit(c as int % 16)] + s;
    assert t[1..][1..] == hex + s;
    assert t[1..][0] == 'u';
  }

  lemma EscapeBack(c: char, s: string)
    ensures ParseChars(EscapeChar(c) + s) == Prepend(c, ParseChars(s))
  {
    hide ParseChars, ParseUnicode;
    if |EscapeChar(c)| == 1 {
      PlainBack(c, s);
    } else if |EscapeChar(c)| == 2 {
      var e := EscapeChar(c)[1];
      assert EscapeChar(c) == "\\" + [e];
      assert ([e] + s)[1..] == s;
      ShortEscapeBack(c, e, s);
    } else {
      LongEscapeBack(c, s);
    }
  }

  lemma PlainBack(c: char, s: string)
    requires EscapeChar(c) == [c]
    ensures ParseChars([c] + s) == Prepend(c, ParseChars(s))
  {
    assert ([c] + s)[1..] == s;
  }

  lemma UnicodeBack(c: char, s: string)
    requires c as int < 32
    ensures ParseUnicode("00" + [HexDigit(c as int / 16), HexDigit(c as int % 16)] + s) == Done(c, s)
  {
    var t := "00" + [HexDigit(c as int / 16), HexDigit(c as int % 16)] + s;
    assert t[4..] == s;
    assert HexValue(t[2]) == Some(c as int / 16) && HexValue(t[3]) == Some(c as int % 16);
  }

  lemma {:induction false} CharsBack(s: string, rest: string)
    ensures ParseChars(EscapeText(s) + "\"" + rest) == Done(s, rest)
  {
    if s == "" {
      assert EscapeText(s) + "\"" + rest == "\"" + rest;
      assert ("\"" + rest)[1..] == rest;
    } else {
      CharsBack(s[1..], rest);
      var tail := EscapeText(s[1..]) + "\"" + rest;
      assert EscapeText(s) + "\"" + rest == EscapeChar(s[0]) + tail;
      EscapeBack(s[0], tail);
      assert [s[0]] + s[1..] == s;
    }
  }

  // ---- documents -------------------------------------------------------

  /** What the printer can write and the parser can read back exactly. */
  predicate Printable(v: Json) {
    match v
    case NonFinite => false
    case Float(f) => Stripped(f)
    case Arr(items) => forall i :: 0 <= i < |items| ==> Printable(items[i])
    case Obj(ms) => UniqueKeys(ms) && forall i :: 0 <= i < |ms| ==> Printable(ms[i].value)
    case _ => true
  }

  /** No printed value starts with a space, so the parser skips nothing before one. */
  lemma PrintStart(v: Json)
    ensures Print(v) != "" && !IsSpace(Print(v)[0]) && Print(v)[0] != ']' && Print(v)[0] != '}'
  {
    match v
    case Float(f) => MagnitudeStart(f.digits, f.exp);
    case _ =>
  }

  lemma FirstChar(s: string, word: string)
    requires s != "" && word != "" && s[0] != word[0]
    ensures !StartsWith(s, word)
  {
    assert |word| <= |s| ==> s[..|word|][0] == s[0];
  }

  lemma NumberDispatch(s: string)
    requires s != "" && (IsDigit(s[0]) || s[0] == '-') && ParseNumber(s).Done?
    ensures ParseValue(s) == ParseNumber(s)
  {
    hide ParseNumber, StartsWith;
    FirstChar(s, "null");
    FirstChar(s, "true");
    FirstChar(s, "false");
  }

  lemma KeywordBack(word: string, v: Json, rest: string)
    requires (word == "null" && v == Null) || (word == "true" && v == Bool(true))
            || (word == "false" && v == Bool(false))
    ensures ParseValue(word + rest) == Done(v, rest)
  {
    hide ParseNumber, StartsWith;
    var s := word + rest;
    assert s[0] == word[0] && s[|word|..] == rest;
    assert StartsWith(s, word) by { Prefix(word, rest); }
    if word != "null" { FirstChar(s, "null"); }
    if word != "true" { FirstChar(s, "true"); }
  }

  lemma Prefix(word: string, rest: string)
    ensures StartsWith(word + rest, word)
  {
    assert (word + rest)[..|word|] == word;
  }

  lemma IntValueBack(i: int, rest: string)
    requires Delimited(rest)
    ensures ParseValue(IntText(i) + rest) == Done(Int(i), rest)
  {
    hide ParseNumber, ParseValue;
    IntBack(i, rest);
    NumberDispatch(IntText(i) + rest);
  }

  lemma FloatValueBack(f: Decimal, rest: string)
    requires Stripped(f) && Delimited(rest)
    ensures ParseValue(FloatText(f) + rest) == Done(Float(f), rest)
  {
    hide ParseNumber, ParseValue;
    FloatBack(f, rest);
    MagnitudeStart(f.digits, f.exp);
    NumberDispatch(FloatText(f) + rest);
  }

  lemma StringValueBack(t: string, rest: string)
    ensures ParseValue(StringText(t) + rest) == Done(Str(t), rest)
  {
    hide ParseChars, EscapeText;
    CharsBack(t, rest);
    assert (StringText(t) + rest)[1..] == EscapeText(t) + "\"" + rest;
  }

  lemma NoSpace(text: string, rest: string)
    requires text != "" && !IsSpace(text[0])
    ensures SkipSpace(text + rest) == text + rest && (text + rest)[0] == text[0]
  {
  }

  lemma ItemsStart(items: seq<Json>)
    requires items != []
    ensures PrintItems(items) != "" && !IsSpace(PrintItems(items)[0]) && PrintItems(items)[0] != ']'
  {
    PrintStart(items[0]);
  }

  /** `json.loads` undoes the printer, whatever closes or follows the value. */
  lemma {:induction false} ValueBack(v: Json, rest: string)
    requires Printable(v) && Delimited(rest)
    ensures ParseValue(Print(v) + rest) == Done(v, rest)
    decreases v, 2
  {
    hide ParseValue, IntText, FloatText, StringText, PrintItems, PrintMembers;
    match v
    case Null => KeywordBack("null", v, rest);
    case Bool(b) => KeywordBack(if b then "true" else "false", v, rest);
    case Int(i) => IntValueBack(i, rest);
    case Float(f) => FloatValueBack(f, rest);
    case Str(t) => StringValueBack(t, rest);
    case Arr(items) => ArrayBack(items, rest);
    case Obj(ms) => ObjectBack(ms, rest);
  }

  lemma {:induction false} ArrayBack(items: seq<Json>, rest: string)
    requires forall i :: 0 <= i < |items| ==> Printable(items[i])
    ensures ParseValue(Print(Arr(items)) + rest) == Done(Arr(items), rest)
    decreases items, 3
  {
    hide ParseItems, PrintItems;
    var s := Print(Arr(items)) + rest;
    if items == [] {
      assert s[1..] == "]" + rest && ("]" + rest)[1..] == rest;
    } else {
      var inner := PrintItems(items) + ("]" + rest);
      assert s[1..] == inner;
      ItemsStart(items);
      NoSpace(PrintItems(items), "]" + rest);
      ItemsBack(items, rest);
    }
  }

  lemma ObjectOpens(s: string, inner: string, pairs: seq<Member>, rest: string)
    requires s != "" && s[0] == '{' && SkipSpace(s[1..]) == inner && !Head(inner, '}')
    requires ParseMembers(inner) == Done(pairs, rest)
    ensures ParseValue(s) == Done(Obj(FromPairs(pairs)), rest)
  {
    hide ParseMembers, FromPairs, SkipSpace;
  }

  lemma EmptyObject(rest: string)
    ensures ParseValue("{}" + rest) == Done(Obj([]), rest)
  {
    var s := "{}" + rest;
    assert s[1..] == "}" + rest && ("}" + rest)[1..] == rest;
    NoSpace("}", rest);
  }

  lemma ObjectText(ms: seq<Member>, rest: string)
    requires ms != []
    ensures var s, inner := Print(Obj(ms)) + rest, PrintMembers(ms) + ("}" + rest);
      s != "" && s[0] == '{' && s[1..] == inner && inner != "" && inner[0] == '"'
  {
    MembersStart(ms);
    hide PrintMembers;
  }

  lemma {:induction false} ObjectBack(ms: seq<Member>, rest: string)
    requires UniqueKeys(ms) && forall i :: 0 <= i < |ms| ==> Printable(ms[i].value)
    ensures ParseValue(Print(Obj(ms)) + rest) == Done(Obj(ms), rest)
    decreases ms, 3
  {
    if ms == [] {
      EmptyObject(rest);
    } else {
      hide ParseValue, ParseMembers, UniqueKeys, Print, PrintMembers, FromPairs;
      ObjectText(ms, rest);
      MembersStart(ms);
      NoSpace(PrintMembers(ms), "}" + rest);
      MembersBack(ms, rest);
      PairsAreMembers(ms);
      ObjectOpens(Print(Obj(ms)) + rest, PrintMembers(ms) + ("}" + rest), ms, rest);
    }
  }

  lemma {:induction false} ItemsBack(items: seq<Json>, rest: string)
    requires items != [] && forall i :: 0 <= i < |items| ==> Printable(items[i])
    ensures ParseItems(PrintItems(items) + ("]" + rest)) == Done(items, rest)
    decreases items, 1
  {
    hide ParseValue, Print;
    if |items| == 1 {
      ValueBack(items[0], "]" + rest);
      NoSpace("]", rest);
      assert ("]" + rest)[1..] == rest;
      assert items == [items[0]];
    } else {
      var more := PrintItems(items[1..]) + ("]" + rest);
      assert PrintItems(items) + ("]" + rest) == Print(items[0]) + ("," + more);
      ValueBack(items[0], "," + more);
      NoSpace(",", more);
      assert ("," + more)[1..] == more;
      ItemsStart(items[1..]);
      NoSpace(PrintItems(items[1..]), "]" + rest);
      ItemsBack(items[1..], rest);
      assert items == [items[0]] + items[1..];
    }
  }

  /** The text begins with one member, and goes on with `after`. */
  predicate Begins(s: string, m: Member, after: string) {
    Head(s, '"')
    && var k := ParseChars(s[1..]);
      && k.Done? && k.value == m.key && Head(SkipSpace(k.rest), ':')
      && ParseValue(SkipSpace(SkipSpace(k.rest)[1..])) == Done(m.value, after)
  }

  /** One key, its colon and its value. */
  lemma MemberBack(m: Member, after: string)
    requires ParseValue(Print(m.value) + after) == Done(m.value, after)
    ensures Begins(MemberText(m) + after, m, after)
  {
    hide ParseValue, Print, ParseChars, EscapeText;
    var value := Print(m.value) + after;
    var s := MemberText(m) + after;
    CharsBack(m.key, ":" + value);
    Regroup(EscapeText(m.key), Print(m.value), after);
    NoSpace(":", value);
    assert (":" + value)[1..] == value;
    PrintStart(m.value);
    NoSpace(Print(m.value), after);
  }

  lemma LastMember(s: string, m: Member, rest: string)
    requires Begins(s, m, "}" + rest)
    ensures ParseMembers(s) == Done([m], rest)
  {
    hide ParseValue, ParseChars;
    NoSpace("}", rest);
    assert ("}" + rest)[1..] == rest;
  }

  lemma MoreMembers(s: string, m: Member, inner: string, ms: seq<Member>, rest: string)
    requires Begins(s, m, "," + inner) && SkipSpace(inner) == inner && ParseMembers(inner) == Done(ms, rest)
    ensures ParseMembers(s) == Done([m] + ms, rest)
  {
    hide ParseValue, ParseChars;
    NoSpace(",", inner);
    assert ("," + inner)[1..] == inner;
  }

  lemma MembersText(ms: seq<Member>, end: string)
    requires ms != []
    ensures PrintMembers(ms) + end
         == MemberText(ms[0]) + (if |ms| == 1 then end else "," + (PrintMembers(ms[1..]) + end))
  {
    hide MemberText;
  }

  lemma Regroup(key: string, value: string, after: string)
    ensures ("\"" + key + "\"" + ":" + value + after)[1..] == key + "\"" + (":" + (value + after))
  {
  }

  lemma {:induction false} MembersBack(ms: seq<Member>, rest: string)
    requires ms != [] && forall i :: 0 <= i < |ms| ==> Printable(ms[i].value)
    ensures ParseMembers(PrintMembers(ms) + ("}" + rest)) == Done(ms, rest)
    decreases ms, 1
  {
    hide ParseValue, Print, ParseMembers, PrintMembers, MemberText, SkipSpace, Begins;
    var m, end := ms[0], "}" + rest;
    MembersText(ms, end);
    if |ms| == 1 {
      ValueBack(m.value, end);
      MemberBack(m, end);
      LastMember(MemberText(m) + end, m, rest);
      assert ms == [m];
    } else {
      var more := PrintMembers(ms[1..]) + end;
      ValueBack(m.value, "," + more);
      MemberBack(m, "," + more);
      MembersStart(ms[1..]);
      NoSpace(PrintMembers(ms[1..]), end);
      MembersBack(ms[1..], rest);
      MoreMembers(MemberText(m) + ("," + more), m, more, ms[1..], rest);
      assert ms == [m] + ms[1..];
    }
  }

  lemma MembersStart(ms: seq<Member>)
    requires ms != []
    ensures PrintMembers(ms) != "" && PrintMembers(ms)[0] == '"'
  {
  }

  lemma {:induction false} PairsAreMembers(ms: seq<Member>)
    requires UniqueKeys(ms)
    ensures FromPairs(ms) == ms
  {
    if ms != [] {
      var n := |ms| - 1;
      PairsAreMembers(ms[..n]);
      assert ms == ms[..n] + [ms[n]];
      assert IndexOf(ms[..n], ms[n].key) == n;
    }
  }

  lemma {:induction false} CanonicalPrintable(v: Json)
    requires InCanonicalForm(v) && Finite(v)
    ensures Printable(v)
  {
    match v
    case Arr(items) =>
      forall i | 0 <= i < |items| ensures Printable(items[i]) { CanonicalPrintable(items[i]); }
    case Obj(ms) =>
      AscendingKeysUnique(ms);
      forall i | 0 <= i < |ms| ensures Printable(ms[i].value) { CanonicalPrintable(ms[i].value); }
    case _ =>
  }

  lemma {:induction false} CanonicalFinite(v: Json)
    ensures Finite(CanonicalValue(v)) <==> Finite(v)
  {
    match v
    case Arr(items) =>
      forall i | 0 <= i < |items| ensures Finite(CanonicalItems(items)[i]) <==> Finite(items[i]) {
        ItemsAt(items, i);
        CanonicalFinite(items[i]);
      }
    case Obj(ms) =>
      var cs := CanonicalMembers(ms);
      forall i | 0 <= i < |ms| ensures Finite(cs[i].value) <==> Finite(ms[i].value) {
        MembersAt(ms, i);
        CanonicalFinite(ms[i].value);
      }
      SortFinite(cs);
    case _ =>
  }

  lemma SortFinite(cs: seq<Member>)
    ensures Finite(Obj(SortMembers(cs))) <==> Finite(Obj(cs))
  {
    SortKeepsMembers(cs);
    var sorted := SortMembers(cs);
    if Finite(Obj(cs)) {
      forall i | 0 <= i < |sorted| ensures Finite(sorted[i].value) { assert sorted[i] in cs; }
    }
    if Finite(Obj(sorted)) {
      forall i | 0 <= i < |cs| ensures Finite(cs[i].value) { assert cs[i] in sorted; }
    }
  }

  /** Loading the stored file of a document (canonical text and a newline) gives its canonical value. */
  lemma StoreLoad(v: Json)
    requires Proper(v) && Finite(v)
    ensures Loads(CanonicalText(v).value + "\n") == Some(CanonicalValue(v))
  {
    var c := CanonicalValue(v);
    CanonicalIsCanonical(v);
    CanonicalFinite(v);
    CanonicalPrintable(c);
    ValueBack(c, "\n");
    PrintStart(c);
    assert SkipSpace("\n") == "";
  }

  /** Writing, loading and printing again gives the same text, so rehashing gives the same hash. */
  lemma StoreLoadRehash(v: Json)
    requires Proper(v) && Finite(v)
    ensures Loads(CanonicalText(v).value + "\n").Some?
    ensures CanonicalText(Loads(CanonicalText(v).value + "\n").value) == CanonicalText(v)
  {
    StoreLoad(v);
    CanonicalIdempotent(v);
    CanonicalFinite(v);
  }

  /** Canonical text is injective up to key order and twelve-digit rounding, and ignores both. */
  lemma CanonicalTextEquality(v: Json, w: Json)
    requires Proper(v) && Proper(w) && Finite(v) && Finite(w)
    ensures CanonicalText(v) == CanonicalText(w) <==> SameDocument(v, w)
  {
    StoreLoad(v);
    StoreLoad(w);
    CanonicalEquality(v, w);
  }
}
