/** The one text the host writes for every value: what the parser's round trip leaves open. */
module JsonLayout {
  import opened Text
  import opened Json
  import opened Canonical
  import opened JsonText

  // ---- strings ------------------------------------------------------------------------------

  /** Every character stands for itself, but for the quote, the backslash and the control
      characters: five of those have a letter, the others four hexadecimal digits in lower case. */
  lemma EscapedExactly(c: char)
    ensures EscapeText([c]) ==
      match c
      case '"' => "\\\""
      case '\\' => "\\\\"
      case '\U{8}' => "\\b"
      case '\t' => "\\t"
      case '\n' => "\\n"
      case '\U{c}' => "\\f"
      case '\r' => "\\r"
      case _ =>
        if c as int >= 0x20 then [c]
        else "\\u00" + [if c as int < 16 then '0' else '1'] + ["0123456789abcdef"[c as int % 16]]
  {
    assert [c][1..] == "";
    assert EscapeText([c]) == EscapeChar(c) + EscapeText("") == EscapeChar(c);
    if c as int < 32 {
      assert HexDigit(c as int % 16) == "0123456789abcdef"[c as int % 16];
    }
  }

  /** A text is escaped character by character. */
  lemma {:induction false} EscapedEach(a: string, b: string)
    ensures EscapeText(a + b) == EscapeText(a) + EscapeText(b)
  {
    if a == "" {
      assert a + b == b;
    } else {
      assert (a + b)[1..] == a[1..] + b;
      EscapedEach(a[1..], b);
    }
  }

  // ---- lists and objects ---------------------------------------------------------------------

  /** The texts with one comma between any two. */
  function Commas(texts: seq<string>): string {
    if texts == [] then ""
    else if |texts| == 1 then texts[0]
    else Commas(texts[..|texts| - 1]) + "," + texts[|texts| - 1]
  }

  lemma {:induction false} CommasFirst(texts: seq<string>)
    requires |texts| > 1
    ensures Commas(texts) == texts[0] + "," + Commas(texts[1..])
  {
    var n := |texts| - 1;
    if n == 1 {
      assert texts[..1] == [texts[0]] && texts[1..] == [texts[1]];
    } else {
      CommasFirst(texts[..n]);
      assert texts[..n][1..] == texts[1..][..n - 1];
      assert texts[0] + "," + (Commas(texts[1..][..n - 1]) + "," + texts[n])
          == texts[0] + "," + Commas(texts[1..][..n - 1]) + "," + texts[n];
    }
  }

  lemma {:induction false} ItemsText(items: seq<Json>, texts: seq<string>)
    requires items != [] && |texts| == |items| && forall i :: 0 <= i < |items| ==> texts[i] == Print(items[i])
    ensures PrintItems(items) == Commas(texts)
  {
    hide Print;
    if |items| > 1 {
      ItemsText(items[1..], texts[1..]);
      CommasFirst(texts);
    }
  }

  lemma {:induction false} MembersText(ms: seq<Member>, texts: seq<string>)
    requires ms != [] && |texts| == |ms| && forall i :: 0 <= i < |ms| ==> texts[i] == MemberText(ms[i])
    ensures PrintMembers(ms) == Commas(texts)
  {
    hide MemberText;
    if |ms| > 1 {
      MembersText(ms[1..], texts[1..]);
      CommasFirst(texts);
    }
  }

  /** Every value is written without a blank outside its strings: the three words, an array as its
      items, an object as its keys and values in order. */
  lemma Layout(v: Json, texts: seq<string>)
    requires v.Arr? ==> |texts| == |v.items| && forall i :: 0 <= i < |texts| ==> texts[i] == Print(v.items[i])
    requires v.Obj? ==> |texts| == |v.members| && forall i :: 0 <= i < |texts| ==>
      texts[i] == "\"" + EscapeText(v.members[i].key) + "\"" + ":" + Print(v.members[i].value)
    ensures match v
            case Null => Print(v) == "null"
            case Bool(b) => Print(v) == if b then "true" else "false"
            case Str(s) => Print(v) == "\"" + EscapeText(s) + "\""
            case Arr(_) => Print(v) == "[" + Commas(texts) + "]"
            case Obj(_) => Print(v) == "{" + Commas(texts) + "}"
            case _ => true
  {
    match v
    case Arr(items) => if items != [] { ItemsText(items, texts); }
    case Obj(ms) => if ms != [] { MembersText(ms, texts); }
    case _ =>
  }

  // ---- numbers --------------------------------------------------------------------------------

  /** Digits without a superfluous zero in front. */
  predicate Plain(ds: string) { AllDigits(ds) && ds != "" && (|ds| > 1 ==> ds[0] != '0') }

  lemma NatPlain(n: nat)
    ensures Plain(NatText(n)) && DigitsValue(NatText(n)) == n
  {
    NatTextValue(n);
  }

  /** An integer is its sign and its plain digits. */
  lemma IntLayout(i: int)
    ensures var ds := if i < 0 then IntText(i)[1..] else IntText(i);
      && (i < 0 ==> IntText(i)[0] == '-')
      && Plain(ds) && DigitsValue(ds) == if i < 0 then -i else i
  {
    var n := if i < 0 then -i else i;
    NatPlain(n);
    hide NatText;
    assert i < 0 ==> IntText(i) == "-" + NatText(n) && IntText(i)[1..] == NatText(n);
    assert i >= 0 ==> IntText(i) == NatText(n);
  }

  lemma {:induction false} DigitCount(d: nat)
    requires d > 0
    ensures Pow10(|NatText(d)| - 1) <= d < Pow10(|NatText(d)|)
  {
    if d >= 10 { DigitCount(d / 10); }
  }

  lemma {:induction false} PowerOrder(a: nat, b: nat)
    ensures a <= b <==> Pow10(a) <= Pow10(b)
  {
    if a < b { PowerGrows(a, b); }
    if b < a { PowerGrows(b, a); }
  }

  /** The value digits * 10^exp lies from a ten-thousandth up to, but below, ten to the sixteenth. */
  predicate Moderate(digits: nat, exp: int) {
    if exp >= 0 then digits * Pow10(exp) < Pow10(16)
    else Pow10(-exp) <= digits * Pow10(4) && digits < Pow10(16) * Pow10(-exp)
  }

  lemma ProductBelow(a: nat, b: nat, c: nat)
    requires a < b && c > 0
    ensures a * c < b * c
  {
  }

  lemma ProductUpTo(a: nat, b: nat, c: nat)
    requires a <= b
    ensures a * c <= b * c
  {
  }

  /** Where the decimal point stands decides the size of the value. */
  lemma PointOf(digits: nat, exp: int)
    requires digits > 0
    ensures Moderate(digits, exp) <==> -4 < |NatText(digits)| + exp <= 16
  {
    var n := |NatText(digits)|;
    DigitCount(digits);
    hide NatText;
    if exp >= 0 { LargePoint(digits, n, exp); } else { SmallPoint(digits, n, -exp); }
  }

  lemma LargePoint(digits: nat, n: nat, exp: nat)
    requires n > 0 && Pow10(n - 1) <= digits < Pow10(n)
    ensures digits * Pow10(exp) < Pow10(16) <==> n + exp <= 16
  {
    hide Pow10;
    ProductBelow(digits, Pow10(n), Pow10(exp));
    ProductUpTo(Pow10(n - 1), digits, Pow10(exp));
    PowerSum(n, exp);
    PowerSum(n - 1, exp);
    PowerOrder(n + exp, 16);
    PowerOrder(16, n - 1 + exp);
  }

  lemma SmallPoint(digits: nat, n: nat, places: nat)
    requires n > 0 && Pow10(n - 1) <= digits < Pow10(n)
    ensures Pow10(places) <= digits * Pow10(4) <==> places < n + 4
    ensures digits < Pow10(16) * Pow10(places) <==> n <= 16 + places
  {
    hide Pow10;
    PowerSum(16, places);
    PowerOrder(n, 16 + places);
    PowerOrder(16 + places, n - 1);
    ProductBelow(digits, Pow10(n), Pow10(4));
    ProductUpTo(Pow10(n - 1), digits, Pow10(4));
    PowerSum(n, 4);
    PowerSum(n - 1, 4);
    PowerOrder(places, n + 3);
    PowerOrder(n + 4, places);
  }

  /** No superfluous zero at the end. */
  predicate Ended(frac: string) { frac == "0" || (AllDigits(frac) && frac != "" && frac[|frac| - 1] != '0') }

  lemma LastDigit(d: nat)
    requires d > 0 && d % 10 != 0
    ensures var s := NatText(d); s[|s| - 1] != '0'
  {
  }

  /** Fixed notation has digits on both sides of its point. */
  predicate FixedText(text: string, whole: string, frac: string) {
    text == whole + "." + frac && Plain(whole) && Ended(frac)
  }

  /** Scientific notation has one digit before its point, if it has one, a sign on its exponent and
      at least two digits in it. */
  predicate ScientificText(text: string, whole: string, frac: string, sign: char, exponent: string) {
    && text == whole + (if frac == "" then "" else "." + frac) + "e" + [sign] + exponent
    && Plain(whole) && |whole| == 1 && (frac == "" || (Ended(frac) && frac != "0"))
    && sign in {'+', '-'} && AllDigits(exponent) && |exponent| >= 2 && (|exponent| > 2 ==> exponent[0] != '0')
  }

  /** The digits of a stripped float. */
  predicate Significant(ds: string) { Plain(ds) && ds[|ds| - 1] != '0' }

  lemma SmallText(ds: string, n: nat)
    requires Significant(ds)
    ensures FixedText("0." + (Zeros(n) + ds), "0", Zeros(n) + ds)
  {
    var frac := Zeros(n) + ds;
    assert "0." + frac == "0" + "." + frac && frac[|frac| - 1] == ds[|ds| - 1];
  }

  lemma MiddleText(ds: string, point: nat)
    requires Significant(ds) && 0 < point < |ds|
    ensures FixedText(ds[..point] + "." + ds[point..], ds[..point], ds[point..])
  {
  }

  lemma LargeText(ds: string, n: nat)
    requires Significant(ds)
    ensures FixedText((ds + Zeros(n)) + ".0", ds + Zeros(n), "0")
  {
    var whole := ds + Zeros(n);
    assert whole + ".0" == whole + "." + "0";
    assert |ds| == 1 ==> ds[0] != '0';
  }

  lemma ExponentLayout(e: int) returns (sign: char, exponent: string)
    ensures ExponentText(e) == [sign] + exponent && sign == if e < 0 then '-' else '+'
    ensures AllDigits(exponent) && |exponent| >= 2 && (|exponent| > 2 ==> exponent[0] != '0')
    ensures DigitsValue(exponent) == if e < 0 then -e else e
  {
    var n := if e < 0 then -e else e;
    NatPlain(n);
    LeadingZeros(1, NatText(n));
    hide NatText;
    sign := if e < 0 then '-' else '+';
    exponent := if |NatText(n)| == 1 then Zeros(1) + NatText(n) else NatText(n);
  }

  lemma ScientificJoined(ds: string, e: int, sign: char, exponent: string)
    requires Significant(ds) && ExponentText(e) == [sign] + exponent
    requires sign in {'+', '-'} && AllDigits(exponent) && |exponent| >= 2 && (|exponent| > 2 ==> exponent[0] != '0')
    ensures ScientificText([ds[0]] + (if |ds| == 1 then "" else "." + ds[1..]) + "e" + ExponentText(e),
                           [ds[0]], ds[1..], sign, exponent)
  {
    hide ExponentText;
    var front := [ds[0]] + (if |ds| == 1 then "" else "." + ds[1..]) + "e";
    assert front + ([sign] + exponent) == front + [sign] + exponent;
    assert |ds| == 1 <==> ds[1..] == "";
  }

  lemma FixedLayout(digits: nat, exp: int) returns (whole: string, frac: string)
    requires Significant(NatText(digits)) && -4 < |NatText(digits)| + exp <= 16 && digits > 0
    ensures FixedText(MagnitudeText(digits, exp), whole, frac)
  {
    hide NatText, FixedText, Significant;
    var ds := NatText(digits);
    var point := |ds| + exp;
    if point <= 0 {
      whole, frac := "0", Zeros(-point) + ds;
      SmallText(ds, -point);
    } else if point < |ds| {
      whole, frac := ds[..point], ds[point..];
      MiddleText(ds, point);
    } else {
      whole, frac := ds + Zeros(point - |ds|), "0";
      LargeText(ds, point - |ds|);
    }
  }

  lemma ScientificLayout(digits: nat, exp: int) returns (whole: string, frac: string, sign: char, exponent: string)
    requires Significant(NatText(digits)) && !(-4 < |NatText(digits)| + exp <= 16) && digits > 0
    requires |NatText(digits)| <= 17
    ensures ScientificText(MagnitudeText(digits, exp), whole, frac, sign, exponent)
  {
    hide NatText, ScientificText, ExponentText;
    var ds := NatText(digits);
    whole, frac := [ds[0]], ds[1..];
    sign, exponent := ExponentLayout(|ds| + exp - 1);
    ScientificJoined(ds, |ds| + exp - 1, sign, exponent);
  }

  /** A stripped float of at most seventeen digits, as many as a binary float ever needs, is written
      in fixed notation exactly when its value lies from a ten-thousandth up to ten to the
      sixteenth, with no zero more than the notation needs. */
  lemma FloatLayout(digits: nat, exp: int) returns (whole: string, frac: string, sign: char, exponent: string)
    requires 0 < digits < Pow10(17) && digits % 10 != 0
    ensures var text := MagnitudeText(digits, exp);
      if Moderate(digits, exp) then FixedText(text, whole, frac)
      else ScientificText(text, whole, frac, sign, exponent)
  {
    hide NatText, Moderate, FixedText, ScientificText, MagnitudeText;
    PointOf(digits, exp);
    NatPlain(digits);
    LastDigit(digits);
    DigitCount(digits);
    PowerOrder(17, |NatText(digits)| - 1);
    whole, frac, sign, exponent := "", "", '+', "";
    if Moderate(digits, exp) {
      whole, frac := FixedLayout(digits, exp);
    } else {
      whole, frac, sign, exponent := ScientificLayout(digits, exp);
    }
  }
}
