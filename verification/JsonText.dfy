/** The compact JSON text the host writes, the parser that reads it back, and
    the round trip between them (RFC 8259, sections 2 to 7). */
module JsonText {
  import opened Text
  import opened Json
  import opened Canonical

  // ---- digits ----------------------------------------------------------

  predicate IsDigit(c: char) { '0' <= c <= '9' }

  predicate AllDigits(s: string) {
    forall i :: 0 <= i < |s| ==> IsDigit(s[i])
  }

  function DigitChar(d: nat): (c: char)
    requires d < 10
    ensures IsDigit(c) && c as int - '0' as int == d
  {
    ('0' as int + d) as char
  }

  function NatText(n: nat): (s: string)
    ensures AllDigits(s) && s != ""
  {
    if n < 10 then [DigitChar(n)] else NatText(n / 10) + [DigitChar(n % 10)]
  }

  function DigitsValue(s: string): nat
    requires AllDigits(s)
  {
    if s == "" then 0
    else 10 * DigitsValue(s[..|s| - 1]) + (s[|s| - 1] as int - '0' as int)
  }

  lemma {:induction false} NatTextValue(n: nat)
    ensures DigitsValue(NatText(n)) == n
    ensures n > 0 ==> NatText(n)[0] != '0'
    ensures n < 10 <==> |NatText(n)| == 1
  {
    if n >= 10 {
      NatTextValue(n / 10);
      var s := NatText(n);
      assert s[..|s| - 1] == NatText(n / 10);
    }
  }

  function Zeros(n: nat): (s: string)
    ensures |s| == n && forall i :: 0 <= i < n ==> s[i] == '0'
  {
    seq(n, i => '0')
  }

  /** One digit more at the end. */
  lemma DigitAppended(s: string, c: char)
    requires AllDigits(s) && IsDigit(c)
    ensures AllDigits(s + [c]) && DigitsValue(s + [c]) == 10 * DigitsValue(s) + (c as int - '0' as int)
  {
    assert (s + [c])[..|s|] == s;
  }

  lemma ZerosStep(s: string, n: nat)
    requires n > 0
    ensures s + Zeros(n) == (s + Zeros(n - 1)) + ['0']
  {
  }

  lemma {:induction false} TrailingZeros(s: string, n: nat)
    requires AllDigits(s)
    ensures AllDigits(s + Zeros(n)) && DigitsValue(s + Zeros(n)) == DigitsValue(s) * Pow10(n)
  {
    hide DigitsValue, AllDigits;
    if n == 0 {
      assert s + Zeros(0) == s;
    } else {
      TrailingZeros(s, n - 1);
      DigitAppended(s + Zeros(n - 1), '0');
      ZerosStep(s, n);
      TenTimes(DigitsValue(s), n);
    }
  }

  lemma TenTimes(v: nat, n: nat)
    requires n > 0
    ensures 10 * (v * Pow10(n - 1)) == v * Pow10(n)
  {
  }

  lemma {:induction false} LeadingZeros(n: nat, s: string)
    requires AllDigits(s)
    ensures AllDigits(Zeros(n) + s) && DigitsValue(Zeros(n) + s) == DigitsValue(s)
    decreases n + |s|
  {
    var t := Zeros(n) + s;
    if s == "" {
      assert t == "" + Zeros(n);
      TrailingZeros("", n);
    } else {
      LeadingZeros(n, s[..|s| - 1]);
      assert t[..|t| - 1] == Zeros(n) + s[..|s| - 1];
    }
  }

  /** The longest digit prefix and what follows it. */
  function TakeDigits(s: string): (r: (string, string))
    ensures AllDigits(r.0) && s == r.0 + r.1
    ensures r.1 != "" ==> !IsDigit(r.1[0])
  {
    if s != "" && IsDigit(s[0]) then
      var (ds, rest) := TakeDigits(s[1..]);
      ([s[0]] + ds, rest)
    else ("", s)
  }

  lemma {:induction false} TakeDigitsAll(ds: string, rest: string)
    requires AllDigits(ds) && (rest != "" ==> !IsDigit(rest[0]))
    ensures TakeDigits(ds + rest) == (ds, rest)
  {
    if ds == "" {
      assert ds + rest == rest;
    } else {
      TakeDigitsAll(ds[1..], rest);
      assert (ds + rest)[1..] == ds[1..] + rest;
      assert ds == [ds[0]] + ds[1..];
    }
  }

  // ---- printing --------------------------------------------------------

  function Sign(neg: bool): string { if neg then "-" else "" }

  function IntText(i: int): string {
    Sign(i < 0) + NatText(if i < 0 then -i else i)
  }

  /** `repr` of a float: fixed notation while the decimal point lies within
      sixteen places, otherwise scientific with a two-digit exponent. */
  function FloatText(f: Decimal): string {
    Sign(f.neg) + MagnitudeText(f.digits, f.exp)
  }

  function MagnitudeText(digits: nat, exp: int): string {
    var ds := NatText(digits);
    var point := |ds| + exp;
    if digits == 0 then "0.0"
    else if -4 < point <= 0 then "0." + (Zeros(-point) + ds)
    else if 0 < point < |ds| then ds[..point] + "." + ds[point..]
    else if |ds| <= point <= 16 then (ds + Zeros(point - |ds|)) + ".0"
    else [ds[0]] + (if |ds| == 1 then "" else "." + ds[1..]) + "e" + ExponentText(point - 1)
  }

  function ExponentText(e: int): string {
    var n := NatText(if e < 0 then -e else e);
    (if e < 0 then "-" else "+") + (if |n| == 1 then Zeros(1) + n else n)
  }

  function HexDigit(d: nat): char
    requires d < 16
  {
    if d < 10 then ('0' as int + d) as char else ('a' as int + (d - 10)) as char
  }

  function EscapeChar(c: char): string {
    if c == '"' then "\\\""
    else if c == '\\' then "\\\\"
    else if c == '\n' then "\\n"
    else if c == '\r' then "\\r"
    else if c == '\t' then "\\t"
    else if c as int == 8 then "\\b"
    else if c as int == 12 then "\\f"
    else if c as int < 32 then "\\u00" + [HexDigit(c as int / 16), HexDigit(c as int % 16)]
    else [c]
  }

  function EscapeText(s: string): string {
    if s == "" then "" else EscapeChar(s[0]) + EscapeText(s[1..])
  }

  function StringText(s: string): string { "\"" + EscapeText(s) + "\"" }

  function Print(v: Json): string {
    match v
    case Null => "null"
    case Bool(b) => if b then "true" else "false"
    case Int(i) => IntText(i)
    case Float(f) => FloatText(f)
    case NonFinite => "NaN"
    case Str(s) => StringText(s)
    case Arr(items) => if items == [] then "[]" else "[" + PrintItems(items) + "]"
    case Obj(ms) => if ms == [] then "{}" else "{" + PrintMembers(ms) + "}"
  }

  function PrintItems(items: seq<Json>): string
    requires items != []
  {
    if |items| == 1 then Print(items[0]) else Print(items[0]) + "," + PrintItems(items[1..])
  }

  function PrintMembers(ms: seq<Member>): string
    requires ms != []
  {
    if |ms| == 1 then MemberText(ms[0]) else MemberText(ms[0]) + "," + PrintMembers(ms[1..])
  }

  function MemberText(m: Member): string { StringText(m.key) + ":" + Print(m.value) }

  predicate Finite(v: Json) {
    match v
    case NonFinite => false
    case Arr(items) => forall i :: 0 <= i < |items| ==> Finite(items[i])
    case Obj(ms) => forall i :: 0 <= i < |ms| ==> Finite(ms[i].value)
    case _ => true
  }

  /** `canonical_json_bytes`, before UTF-8 encoding; a non-finite float anywhere is refused. */
  function CanonicalText(v: Json): Option<string> {
    if Finite(v) then Some(Print(CanonicalValue(v))) else None
  }

  // ---- parsing ---------------------------------------------------------

  datatype Parsed<+T> = Fail | Done(value: T, rest: string)

  predicate IsSpace(c: char) { c == ' ' || c == '\t' || c == '\n' || c == '\r' }

  function SkipSpace(s: string): (r: string)
    ensures |r| <= |s|
  {
    if s != "" && IsSpace(s[0]) then SkipSpace(s[1..]) else s
  }

  predicate Head(s: string, c: char) { s != "" && s[0] == c }

  function HexValue(c: char): (r: Option<nat>)
    ensures r.Some? ==> r.value < 16
  {
    if '0' <= c <= '9' then Some(c as int - '0' as int)
    else if 'a' <= c <= 'f' then Some(c as int - 'a' as int + 10)
    else if 'A' <= c <= 'F' then Some(c as int - 'A' as int + 10)
    else None
  }

  /** The number that the first four characters give. */
  function HexCode(s: string): (r: Option<nat>)
    requires |s| >= 4
    ensures r.Some? ==> r.value < 0x10000
  {
    var (a, b, c, d) := (HexValue(s[0]), HexValue(s[1]), HexValue(s[2]), HexValue(s[3]));
    if a.None? || b.None? || c.None? || d.None? then None
    else Some(((a.value * 16 + b.value) * 16 + c.value) * 16 + d.value)
  }

  /** A code point, or the two halves of one beyond the first plane. */
  function ParseUnicode(s: string): Parsed<char> {
    if |s| < 4 || HexCode(s).None? then Fail
    else
      var code := HexCode(s).value;
      if code < 0xD800 || 0xE000 <= code then Done(code as char, s[4..])
      else if 0xDC00 <= code || |s| < 10 || s[4] != '\\' || s[5] != 'u' then Fail
      else
        match HexCode(s[6..])
        case Some(low) =>
          if 0xDC00 <= low < 0xE000 then Done((0x10000 + (code - 0xD800) * 0x400 + (low - 0xDC00)) as char, s[10..])
          else Fail
        case None => Fail
  }

  /** One escape sequence, after its backslash. */
  function ParseEscape(s: string): (r: Parsed<char>)
    ensures r.Done? ==> |r.rest| < |s|
  {
    if s == "" then Fail
    else if s[0] == '"' || s[0] == '\\' || s[0] == '/' then Done(s[0], s[1..])
    else if s[0] == 'n' then Done('\n', s[1..])
    else if s[0] == 'r' then Done('\r', s[1..])
    else if s[0] == 't' then Done('\t', s[1..])
    else if s[0] == 'b' then Done(8 as char, s[1..])
    else if s[0] == 'f' then Done(12 as char, s[1..])
    else if s[0] == 'u' then ParseUnicode(s[1..])
    else Fail
  }

  /** The characters of a string, after its opening quote. */
  function ParseChars(s: string): (r: Parsed<string>)
    ensures r.Done? ==> |r.rest| < |s|
    decreases |s|
  {
    if s == "" then Fail
    else if s[0] == '"' then Done("", s[1..])
    else if s[0] == '\\' then
      var e := ParseEscape(s[1..]);
      if e.Fail? then Fail
      else
        var more := ParseChars(e.rest);
        if more.Fail? then Fail else Done([e.value] + more.value, more.rest)
    else if s[0] as int < 32 then Fail
    else
      var more := ParseChars(s[1..]);
      if more.Fail? then Fail else Done([s[0]] + more.value, more.rest)
  }

  /** The fraction of a number: its digits, and what follows. */
  function ParseFraction(s: string): (r: (string, string))
    ensures AllDigits(r.0) && |r.1| <= |s|
  {
    if !Head(s, '.') then ("", s)
    else var (ds, rest) := TakeDigits(s[1..]); if ds == "" then ("", s) else (ds, rest)
  }

  function ParseExponent(s: string): (r: (Option<int>, string))
    ensures |r.1| <= |s|
  {
    if !Head(s, 'e') && !Head(s, 'E') then (None, s)
    else
      var signed := Head(s[1..], '+') || Head(s[1..], '-');
      var (ds, rest) := TakeDigits(if signed then s[2..] else s[1..]);
      if ds == "" then (None, s) else (Some(Negate(Head(s[1..], '-'), DigitsValue(ds))), rest)
  }

  function Negate(neg: bool, n: int): int { if neg then -n else n }

  /** `int(text)` without fraction and exponent, `float(text)` with either. */
  function Number(neg: bool, whole: string, frac: string, exp: Option<int>): Json
    requires AllDigits(whole) && AllDigits(frac)
  {
    if frac == "" && exp.None? then Int(Negate(neg, DigitsValue(whole)))
    else
      var (d, e) := Strip(DigitsValue(whole + frac), (if exp.Some? then exp.value else 0) - |frac|);
      Float(Decimal(neg, d, e))
  }

  /** The integer part: a lone zero, or digits that do not start with one. */
  function ParseWhole(s: string): (r: (string, string))
    ensures AllDigits(r.0) && (r.0 != "" ==> |r.1| < |s|)
  {
    var (run, after) := TakeDigits(s);
    if Head(run, '0') then ("0", run[1..] + after) else (run, after)
  }

  function ParseUnsigned(neg: bool, s: string): (r: Parsed<Json>)
    ensures r.Done? ==> |r.rest| < |s|
  {
    var (whole, tail) := ParseWhole(s);
    if whole == "" then Fail
    else
      var (frac, tail1) := ParseFraction(tail);
      var (exp, tail2) := ParseExponent(tail1);
      Done(Number(neg, whole, frac, exp), tail2)
  }

  function ParseNumber(s: string): (r: Parsed<Json>)
    ensures r.Done? ==> |r.rest| < |s|
  {
    if Head(s, '-') then ParseUnsigned(true, s[1..]) else ParseUnsigned(false, s)
  }

  function ParseValue(s: string): (r: Parsed<Json>)
    ensures r.Done? ==> |r.rest| < |s|
    decreases |s|, 1
  {
    if s == "" then Fail
    else if s[0] == '"' then
      var p := ParseChars(s[1..]);
      if p.Fail? then Fail else Done(Str(p.value), p.rest)
    else if s[0] == '{' then
      var inner := SkipSpace(s[1..]);
      if Head(inner, '}') then Done(Obj([]), inner[1..])
      else
        var p := ParseMembers(inner);
        if p.Fail? then Fail else Done(Obj(FromPairs(p.value)), p.rest)
    else if s[0] == '[' then
      var inner := SkipSpace(s[1..]);
      if Head(inner, ']') then Done(Arr([]), inner[1..])
      else
        var p := ParseItems(inner);
        if p.Fail? then Fail else Done(Arr(p.value), p.rest)
    else if StartsWith(s, "null") then Done(Null, s[4..])
    else if StartsWith(s, "true") then Done(Bool(true), s[4..])
    else if StartsWith(s, "false") then Done(Bool(false), s[5..])
    else if ParseNumber(s).Done? then ParseNumber(s)
    else if StartsWith(s, "NaN") then Done(NonFinite, s[3..])
    else if StartsWith(s, "Infinity") then Done(NonFinite, s[8..])
    else if StartsWith(s, "-Infinity") then Done(NonFinite, s[9..])
    else Fail
  }

  function ParseItems(s: string): (r: Parsed<seq<Json>>)
    ensures r.Done? ==> |r.rest| < |s|
    decreases |s|, 2
  {
    var p := ParseValue(s);
    if p.Fail? then Fail
    else
      var next := SkipSpace(p.rest);
      if Head(next, ']') then Done([p.value], next[1..])
      else if Head(next, ',') then
        var more := ParseItems(SkipSpace(next[1..]));
        if more.Fail? then Fail else Done([p.value] + more.value, more.rest)
      else Fail
  }

  function ParseMembers(s: string): (r: Parsed<seq<Member>>)
    ensures r.Done? ==> |r.rest| < |s|
    decreases |s|, 2
  {
    if !Head(s, '"') then Fail
    else
      var k := ParseChars(s[1..]);
      if k.Fail? || !Head(SkipSpace(k.rest), ':') then Fail
      else
        var p := ParseValue(SkipSpace(SkipSpace(k.rest)[1..]));
        if p.Fail? then Fail
        else
          var next := SkipSpace(p.rest);
          if Head(next, '}') then Done([Member(k.value, p.value)], next[1..])
          else if Head(next, ',') then
            var more := ParseMembers(SkipSpace(next[1..]));
            if more.Fail? then Fail else Done([Member(k.value, p.value)] + more.value, more.rest)
          else Fail
  }

  /** `dict(pairs)`: a repeated key keeps its first place and its last value. */
  function FromPairs(pairs: seq<Member>): seq<Member> {
    if pairs == [] then []
    else
      var n := |pairs| - 1;
      Assign(FromPairs(pairs[..n]), pairs[n].key, pairs[n].value)
  }

  /** `json.loads`. */
  function Loads(s: string): Option<Json> {
    var p := ParseValue(SkipSpace(s));
    if p.Done? && SkipSpace(p.rest) == "" then Some(p.value) else None
  }
}
