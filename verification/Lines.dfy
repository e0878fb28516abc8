/** Text as files hold it and as `splitlines` cuts it. */
module Lines {

  /** The characters `str.splitlines` ends a line at, carriage return aside. */
  predicate IsBreak(c: char) {
    c == '\n' || c as int in {0x0b, 0x0c, 0x1c, 0x1d, 0x1e, 0x85, 0x2028, 0x2029}
  }

  predicate NoReturn(s: string) { forall i :: 0 <= i < |s| ==> s[i] != '\r' }

  predicate NoBreak(s: string) { forall i :: 0 <= i < |s| ==> !IsBreak(s[i]) }

  /** `read_text`: every kind of line end arrives as a newline. */
  function ReadText(raw: string): (r: string)
    ensures NoReturn(r)
  {
    if raw == "" then ""
    else if raw[0] == '\r' then
      "\n" + ReadText(if |raw| > 1 && raw[1] == '\n' then raw[2..] else raw[1..])
    else [raw[0]] + ReadText(raw[1..])
  }

  lemma {:induction false} ReadTextKeeps(s: string)
    requires NoReturn(s)
    ensures ReadText(s) == s
  {
    if s != "" {
      ReadTextKeeps(s[1..]);
      assert s == [s[0]] + s[1..];
    }
  }

  /** `replace("\r\n", "\n")`. */
  function Unix(s: string): string {
    if |s| < 2 then s
    else if s[0] == '\r' && s[1] == '\n' then "\n" + Unix(s[2..])
    else [s[0]] + Unix(s[1..])
  }

  lemma {:induction false} UnixKeeps(s: string)
    requires NoReturn(s)
    ensures Unix(s) == s
  {
    if |s| >= 2 {
      UnixKeeps(s[1..]);
      assert s == [s[0]] + s[1..];
    }
  }

  /** Text without a pair of carriage return and newline stays as it is. */
  lemma {:induction false} UnixKeepsLone(s: string)
    requires forall i :: 0 <= i < |s| - 1 ==> s[i] != '\r' || s[i + 1] != '\n'
    ensures Unix(s) == s
  {
    if |s| >= 2 {
      var t := s[1..];
      forall i | 0 <= i < |t| - 1 ensures t[i] != '\r' || t[i + 1] != '\n' {
        assert t[i] == s[i + 1] && t[i + 1] == s[i + 2];
      }
      UnixKeepsLone(t);
      assert s == [s[0]] + t;
    }
  }

  /** Every pair of carriage return and newline becomes a newline, wherever it stands. */
  lemma {:induction false} UnixPair(a: string, b: string)
    ensures Unix(a + "\r\n" + b) == Unix(a) + "\n" + Unix(b)
    decreases |a|
  {
    hide Unix;
    var rest := "\r\n" + b;
    if |a| < 2 {
      UnixShort(a);
      assert "" + "\r\n" + b == rest;
      UnixFront(rest, 2, b);
      if a != "" {
        assert a + "\r\n" + b == a + rest && (a + rest)[1..] == rest;
        UnixFront(a + rest, 1, rest);
      }
    } else {
      var n := if a[0] == '\r' && a[1] == '\n' then 2 else 1;
      var x, t := a[..n], a[n..];
      assert a + "\r\n" + b == x + (t + "\r\n" + b);
      UnixPair(t, b);
      UnixFront(a, n, t);
      SameFront(x, t, rest);
      assert t + rest == t + "\r\n" + b;
      UnixFront(x + (t + rest), n, t + rest);
    }
  }

  lemma UnixShort(s: string)
    requires |s| < 2
    ensures Unix(s) == s
  {
  }

  lemma UnixFront(s: string, n: nat, t: string)
    requires 0 < n <= |s| && |s| >= 2 && s[n..] == t && n == if s[0] == '\r' && s[1] == '\n' then 2 else 1
    ensures Unix(s) == (if n == 2 then "\n" else [s[0]]) + Unix(t)
  {
  }

  lemma SameFront(x: string, t: string, more: string)
    requires x != ""
    ensures var s := x + (t + more);
      s[0] == x[0] && s[|x|..] == t + more && (|x + t| > 1 ==> s[1] == (x + t)[1])
  {
  }

  lemma ReadPair(t: string)
    ensures ReadText("\r\n" + t) == "\n" + ReadText(t)
  {
    assert ("\r\n" + t)[2..] == t;
  }

  /** What one character reads as when no two-character line end begins with it. */
  lemma ReadChar(c: char, t: string)
    requires t == "" || c != '\r' || t[0] != '\n'
    ensures ReadText([c] + t) == [if c == '\r' then '\n' else c] + ReadText(t)
  {
    assert ([c] + t)[1..] == t;
  }

  lemma ReadCharJoins(c: char, t: string, y: string)
    requires ReadText(t + y) == ReadText(t) + ReadText(y)
    requires t == "" || c != '\r' || t[0] != '\n'
    requires c != '\r' || t != "" || y == "" || y[0] != '\n'
    ensures ReadText(([c] + t) + y) == ReadText([c] + t) + ReadText(y)
  {
    hide ReadText;
    ReadChar(c, t);
    ReadChar(c, t + y);
    assert ([c] + t) + y == [c] + (t + y);
  }

  lemma ReadPairJoins(t: string, y: string)
    requires ReadText(t + y) == ReadText(t) + ReadText(y)
    ensures ReadText(("\r\n" + t) + y) == ReadText("\r\n" + t) + ReadText(y)
  {
    hide ReadText;
    ReadPair(t);
    ReadPair(t + y);
    assert ("\r\n" + t) + y == "\r\n" + (t + y);
  }

  lemma {:induction false} ReadTextJoin(x: string, y: string)
    requires x == "" || x[|x| - 1] != '\r' || y == "" || y[0] != '\n'
    ensures ReadText(x + y) == ReadText(x) + ReadText(y)
    decreases |x|
  {
    if x == "" {
      assert x + y == y && ReadText(x) == "";
    } else {
      hide ReadText;
      if |x| > 1 && x[0] == '\r' && x[1] == '\n' {
        ReadTextJoin(x[2..], y);
        ReadPairJoins(x[2..], y);
        assert x == "\r\n" + x[2..];
      } else {
        ReadTextJoin(x[1..], y);
        assert x == [x[0]] + x[1..];
        ReadCharJoins(x[0], x[1..], y);
      }
    }
  }

  /** Every kind of line end is read as a newline, wherever it stands. */
  lemma ReadTextEnd(a: string, end: string, b: string)
    requires end in {"\n", "\r", "\r\n"} && (a != "" ==> a[|a| - 1] != '\r')
    requires end == "\r" && b != "" ==> b[0] != '\n'
    ensures ReadText(a + end + b) == ReadText(a) + "\n" + ReadText(b)
  {
    hide ReadText;
    ReadTextJoin(a, end + b);
    assert a + end + b == a + (end + b);
    if end == "\r\n" { ReadPair(b); } else { ReadChar(end[0], b); }
  }

  lemma NothingRead()
    ensures ReadText("") == ""
  {
  }

  /** The first line with its end, and what follows; the text holds no carriage return. */
  function TakeLine(s: string): (r: (string, string))
    ensures s == r.0 + r.1
    ensures s != "" ==> r.0 != ""
  {
    if s == "" then ("", "")
    else if IsBreak(s[0]) then ([s[0]], s[1..])
    else var (line, rest) := TakeLine(s[1..]); ([s[0]] + line, rest)
  }

  /** `splitlines(keepends=True)`. */
  function SplitKeep(s: string): seq<string>
    decreases |s|
  {
    if s == "" then [] else var (line, rest) := TakeLine(s); [line] + SplitKeep(rest)
  }

  function Chomp(line: string): string {
    if line != "" && IsBreak(line[|line| - 1]) then line[..|line| - 1] else line
  }

  function Chomped(lines: seq<string>): (r: seq<string>)
    ensures |r| == |lines| && forall i :: 0 <= i < |lines| ==> r[i] == Chomp(lines[i])
  {
    seq(|lines|, i requires 0 <= i < |lines| => Chomp(lines[i]))
  }

  /** `splitlines()`. */
  function SplitLines(s: string): seq<string> { Chomped(SplitKeep(s)) }

  predicate Ended(line: string) { line != "" && IsBreak(line[|line| - 1]) }

  /** One line: text without breaks, then possibly its end. */
  predicate IsLine(line: string) {
    line != "" && NoBreak(line[..|line| - 1])
  }

  /** A split text: every line but the last is ended. */
  predicate Split(lines: seq<string>) {
    && (forall i :: 0 <= i < |lines| ==> IsLine(lines[i]))
    && (forall i :: 0 <= i < |lines| - 1 ==> Ended(lines[i]))
  }

  lemma {:induction false} TakeLineShape(s: string)
    requires s != ""
    ensures IsLine(TakeLine(s).0) && (TakeLine(s).1 != "" ==> Ended(TakeLine(s).0))
  {
    if !IsBreak(s[0]) && |s| > 1 {
      TakeLineShape(s[1..]);
      var line := TakeLine(s[1..]).0;
      var whole := [s[0]] + line;
      assert whole[..|whole| - 1] == [s[0]] + line[..|line| - 1];
    }
  }

  lemma {:induction false} SplitKeepShape(s: string)
    ensures Split(SplitKeep(s)) && (s != "" ==> SplitKeep(s) != [])
    decreases |s|
  {
    if s != "" {
      TakeLineShape(s);
      SplitKeepShape(TakeLine(s).1);
    }
  }

  /** An ended line in front of a text is its first line. */
  lemma {:induction false} TakeEndedLine(line: string, rest: string)
    requires IsLine(line) && Ended(line)
    ensures TakeLine(line + rest).0 == line && TakeLine(line + rest).1 == rest
  {
    if |line| == 1 {
      assert (line + rest)[1..] == rest;
    } else {
      var tail := line[1..];
      assert line[..|line| - 1][0] == line[0];
      assert tail[..|tail| - 1] == line[..|line| - 1][1..];
      assert tail[|tail| - 1] == line[|line| - 1];
      TakeEndedLine(tail, rest);
      assert (line + rest)[1..] == tail + rest;
      assert line == [line[0]] + tail;
      assert (line + rest)[0] == line[0];
      assert !IsBreak(line[0]);
      assert TakeLine(line + rest).0 == [line[0]] + tail;
      assert TakeLine(line + rest).1 == rest;
    }
  }

  /** One step of cutting off the first line. */
  lemma TakeLineStep(c: char, s: string)
    requires !IsBreak(c)
    ensures TakeLine([c] + s).0 == [c] + TakeLine(s).0 && TakeLine([c] + s).1 == TakeLine(s).1
  {
    assert ([c] + s)[1..] == s;
  }

  /** An unended line runs into the first line of what follows. */
  lemma {:induction false} TakeOpenLine(line: string, rest: string)
    requires NoBreak(line)
    ensures TakeLine(line + rest).0 == line + TakeLine(rest).0 && TakeLine(line + rest).1 == TakeLine(rest).1
  {
    if line == "" {
      assert line + rest == rest;
    } else {
      var c, tail := line[0], line[1..];
      TakeOpenLine(tail, rest);
      hide TakeLine;
      TakeLineStep(c, tail + rest);
      assert line + rest == [c] + (tail + rest);
      assert line + TakeLine(rest).0 == [c] + (tail + TakeLine(rest).0);
    }
  }

  lemma SplitEndedLine(line: string, rest: string)
    requires IsLine(line) && Ended(line)
    ensures SplitKeep(line + rest) == [line] + SplitKeep(rest)
  {
    TakeEndedLine(line, rest);
  }

  lemma SplitOpenLine(line: string)
    requires NoBreak(line) && line != ""
    ensures SplitKeep(line) == [line]
  {
    TakeOpenLine(line, "");
    assert line + "" == line;
  }

  function Concat(parts: seq<string>): string {
    if parts == [] then "" else parts[0] + Concat(parts[1..])
  }

  lemma {:induction false} ConcatSnoc(parts: seq<string>, last: string)
    ensures Concat(parts + [last]) == Concat(parts) + last
  {
    if parts == [] {
      assert [] + [last] == [last] && [last][1..] == [];
      assert last + "" == last;
    } else {
      ConcatSnoc(parts[1..], last);
      assert (parts + [last])[1..] == parts[1..] + [last];
    }
  }

  /** Ended lines in front of a text are its first lines. */
  lemma {:induction false} SplitEndedLines(lines: seq<string>, rest: string)
    requires forall i :: 0 <= i < |lines| ==> IsLine(lines[i]) && Ended(lines[i])
    ensures SplitKeep(Concat(lines) + rest) == lines + SplitKeep(rest)
  {
    if lines == [] {
      assert Concat(lines) + rest == rest;
    } else {
      SplitEndedLines(lines[1..], rest);
      assert Concat(lines) + rest == lines[0] + (Concat(lines[1..]) + rest);
      SplitEndedLine(lines[0], Concat(lines[1..]) + rest);
      assert lines == [lines[0]] + lines[1..];
    }
  }

  /** Between two letters exactly nine characters, the carriage return aside, end a line: newline,
      vertical tab, form feed, the three separators, next line, and the line and paragraph
      separators. */
  lemma BreaksExactly(c: char)
    ensures SplitLines(['a', c, 'b']) == ["a", "b"]
      <==> c in {'\n', '\U{b}', '\U{c}', '\U{1c}', '\U{1d}', '\U{1e}', '\U{85}', '\U{2028}', '\U{2029}'}
  {
    var s := ['a', c, 'b'];
    if IsBreak(c) {
      var line := ['a', c];
      assert line[..1] == ['a'] && s == line + "b";
      SplitEndedLine(line, "b");
      SplitOpenLine("b");
      assert Chomp(line) == "a" && Chomp("b") == "b";
    } else {
      SplitOpenLine(s);
    }
  }
}
