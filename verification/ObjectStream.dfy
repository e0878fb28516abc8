/** Cutting the output of a batch of object reads back into the objects. */
module ObjectStream {
  import opened Text
  import opened JsonText

  newtype Byte = b: int | 0 <= b < 256

  datatype Blob = Blob(id: string, content: seq<Byte>)

  datatype Record = Record(id: string, kind: string, content: seq<Byte>)

  /** How decimal text is read as a number; more texts than plain digits may be numbers. */
  type Reading = string -> Option<int>

  ghost predicate ReadsDigits(number: Reading) {
    forall n: nat :: number(NatText(n)) == Some(n)
  }

  // ---- indexing as the host language does it ---------------------------------------------

  /** A slice bound: negative ones count from the end, all are clamped. */
  function Clamp(i: int, n: nat): (r: nat)
    ensures r <= n
  {
    if i < 0 then (if n + i < 0 then 0 else n + i) else if i > n then n else i
  }

  function Slice(data: seq<Byte>, from: int, to: int): seq<Byte> {
    var a, b := Clamp(from, |data|), Clamp(to, |data|);
    if a <= b then data[a..b] else []
  }

  function NewlineFrom(data: seq<Byte>, i: nat): (r: int)
    requires i <= |data|
    ensures r == -1 || (i <= r < |data| && data[r] == 10)
    ensures forall j :: i <= j < (if r == -1 then |data| else r) ==> data[j] != 10
    decreases |data| - i
  {
    if i == |data| then -1 else if data[i] == 10 then i else NewlineFrom(data, i + 1)
  }

  /** `data.find(b"\n", offset)`. */
  function FindNewline(data: seq<Byte>, offset: int): (r: int)
    ensures -1 <= r < |data|
  {
    if offset > |data| then -1 else NewlineFrom(data, Clamp(offset, |data|))
  }

  /** Decoding as ASCII with replacement. */
  function Decode(bytes: seq<Byte>): (r: string)
    ensures |r| == |bytes|
  {
    seq(|bytes|, i requires 0 <= i < |bytes| => if bytes[i] < 128 then bytes[i] as int as char else 0xfffd as char)
  }

  /** `split(" ")`. */
  function Words(s: string): (r: seq<string>)
    ensures r != []
  {
    if s == "" then [""]
    else
      var rest := Words(s[1..]);
      if s[0] == ' ' then [""] + rest else [[s[0]] + rest[0]] + rest[1..]
  }

  // ---- the loop ------------------------------------------------------------------------

  datatype Header = Bad | Good(contentStart: int, size: int)

  /** The header at an offset, if it announces the expected object. */
  function HeaderAt(data: seq<Byte>, offset: int, id: string, number: Reading): Header {
    var end := FindNewline(data, offset);
    if end < 0 then Bad
    else
      var words := Words(Decode(Slice(data, offset, end)));
      if |words| != 3 || words[0] != id then Bad
      else match number(words[2]) case None => Bad case Some(size) => Good(end + 1, size)
  }

  /** The objects cut from an offset on, and whether the stream was in order. */
  function Scan(data: seq<Byte>, offset: int, ids: seq<string>, number: Reading): (seq<Blob>, bool)
    decreases |ids|
  {
    if ids == [] then ([], true)
    else
      match HeaderAt(data, offset, ids[0], number)
      case Bad => ([], false)
      case Good(start, size) =>
        var (blobs, ok) := Scan(data, start + size + 1, ids[1..], number);
        ([Blob(ids[0], Slice(data, start, start + size))] + blobs, ok)
  }

  method ScanStream(data: seq<Byte>, ids: seq<string>, number: Reading) returns (blobs: seq<Blob>, ok: bool)
    ensures blobs == Scan(data, 0, ids, number).0 && ok == Scan(data, 0, ids, number).1
  {
    hide HeaderAt, Slice;
    blobs, ok := [], true;
    var offset := 0;
    assert ids[0..] == ids && [] + Scan(data, 0, ids, number).0 == Scan(data, 0, ids, number).0;
    for i := 0 to |ids|
      invariant ok
      invariant blobs + Scan(data, offset, ids[i..], number).0 == Scan(data, 0, ids, number).0
      invariant Scan(data, offset, ids[i..], number).1 == Scan(data, 0, ids, number).1
    {
      assert ids[i..][1..] == ids[i + 1..];
      var header := HeaderAt(data, offset, ids[i], number);
      if header.Bad? {
        assert blobs + [] == blobs;
        return blobs, false;
      }
      var blob := Blob(ids[i], Slice(data, header.contentStart, header.contentStart + header.size));
      var next := header.contentStart + header.size + 1;
      assert blobs + ([blob] + Scan(data, next, ids[i + 1..], number).0)
          == blobs + [blob] + Scan(data, next, ids[i + 1..], number).0;
      blobs := blobs + [blob];
      offset := next;
    }
    assert blobs + [] == blobs;
  }

  // ---- printing a stream ------------------------------------------------------------------

  predicate Ascii(s: string) { forall i :: 0 <= i < |s| ==> s[i] as int < 128 && s[i] != ' ' && s[i] != '\n' }

  predicate ByteText(s: string) { forall i :: 0 <= i < |s| ==> s[i] as int < 128 }

  function Encode(s: string): (r: seq<Byte>)
    requires ByteText(s)
    ensures |r| == |s|
  {
    seq(|s|, i requires 0 <= i < |s| => s[i] as int as Byte)
  }

  function HeaderText(r: Record): (s: string)
    requires Ascii(r.id) && Ascii(r.kind)
    ensures ByteText(s) && '\n' !in s
  {
    r.id + " " + r.kind + " " + NatText(|r.content|)
  }

  predicate Plain(records: seq<Record>) {
    forall i :: 0 <= i < |records| ==> Ascii(records[i].id) && Ascii(records[i].kind)
  }

  function Stream(records: seq<Record>): seq<Byte>
    requires Plain(records)
  {
    if records == [] then []
    else Encode(HeaderText(records[0])) + [10] + records[0].content + [10] + Stream(records[1..])
  }

  function Ids(records: seq<Record>): seq<string> {
    if records == [] then [] else [records[0].id] + Ids(records[1..])
  }

  function Blobs(records: seq<Record>): seq<Blob> {
    if records == [] then [] else [Blob(records[0].id, records[0].content)] + Blobs(records[1..])
  }

  // ---- recovering it ------------------------------------------------------------------------

  lemma {:induction false} WordsFirst(w: string, rest: string)
    requires ' ' !in w
    ensures Words(w + " " + rest) == [w] + Words(rest)
  {
    var s := w + " " + rest;
    if w == "" {
      assert s[1..] == rest;
    } else {
      assert w[0] in w && forall c :: c in w[1..] ==> c in w;
      WordsFirst(w[1..], rest);
      assert s[1..] == w[1..] + " " + rest;
      assert w == [w[0]] + w[1..];
    }
  }

  lemma {:induction false} WordsLast(w: string)
    requires ' ' !in w
    ensures Words(w) == [w]
  {
    if w != "" {
      assert w[0] in w && forall c :: c in w[1..] ==> c in w;
      WordsLast(w[1..]);
      assert w == [w[0]] + w[1..];
    }
  }

  lemma HeaderWords(r: Record)
    requires Ascii(r.id) && Ascii(r.kind)
    ensures Words(HeaderText(r)) == [r.id, r.kind, NatText(|r.content|)]
  {
    var size := NatText(|r.content|);
    assert forall i :: 0 <= i < |size| ==> IsDigit(size[i]);
    hide NatText, Words;
    WordsLast(size);
    WordsFirst(r.kind, size);
    WordsFirst(r.id, r.kind + " " + size);
    assert HeaderText(r) == r.id + " " + (r.kind + " " + size);
  }

  lemma DecodeEncode(s: string)
    requires ByteText(s)
    ensures Decode(Encode(s)) == s
  {
    assert forall i :: 0 <= i < |s| ==> Encode(s)[i] as int == s[i] as int;
  }

  lemma EncodeNoNewline(s: string)
    requires ByteText(s) && '\n' !in s
    ensures forall i :: 0 <= i < |s| ==> Encode(s)[i] != 10
  {
    assert forall i :: 0 <= i < |s| ==> s[i] in s && Encode(s)[i] as int == s[i] as int;
  }

  /** The first newline after a stretch without any. */
  lemma NewlineAfter(data: seq<Byte>, offset: nat, head: seq<Byte>, rest: seq<Byte>)
    requires offset <= |data| && data[offset..] == head + [10] + rest
    requires forall i :: 0 <= i < |head| ==> head[i] != 10
    ensures FindNewline(data, offset) == offset + |head| && Slice(data, offset, offset + |head|) == head
  {
    var end := offset + |head|;
    assert forall i :: 0 <= i < |data| - offset ==> data[offset..][i] == data[offset + i];
    assert data[end] == data[offset..][|head|] == 10;
    assert forall j :: offset <= j < end ==> data[j] == data[offset..][j - offset] == head[j - offset];
    assert data[offset..end] == data[offset..][..|head|] == head;
  }

  /** The header of a record that stands at an offset is read as it was written. */
  lemma HeaderBack(data: seq<Byte>, offset: nat, r: Record, rest: seq<Byte>, number: Reading)
    requires ReadsDigits(number) && Ascii(r.id) && Ascii(r.kind)
    requires offset <= |data| && data[offset..] == Encode(HeaderText(r)) + [10] + rest
    ensures HeaderAt(data, offset, r.id, number) == Good(offset + |HeaderText(r)| + 1, |r.content|)
  {
    hide HeaderText, Encode, FindNewline, Slice, Decode, Words;
    EncodeNoNewline(HeaderText(r));
    NewlineAfter(data, offset, Encode(HeaderText(r)), rest);
    DecodeEncode(HeaderText(r));
    HeaderWords(r);
    assert number(NatText(|r.content|)) == Some(|r.content|);
  }

  lemma SliceAt(data: seq<Byte>, start: nat, content: seq<Byte>, rest: seq<Byte>)
    requires start <= |data| && data[start..] == content + rest
    ensures start + |content| <= |data| && Slice(data, start, start + |content|) == content
    ensures data[start + |content|..] == rest
  {
    assert |data| - start == |content| + |rest|;
    assert data[start..start + |content|] == data[start..][..|content|];
    assert data[start + |content|..] == data[start..][|content|..];
  }

  /** A whole record at an offset: its header, its content and where the next one begins. */
  lemma RecordBack(data: seq<Byte>, offset: nat, r: Record, rest: seq<Byte>, number: Reading)
    requires ReadsDigits(number) && Ascii(r.id) && Ascii(r.kind)
    requires offset <= |data| && data[offset..] == Encode(HeaderText(r)) + [10] + r.content + [10] + rest
    ensures var start := offset + |HeaderText(r)| + 1;
      && HeaderAt(data, offset, r.id, number) == Good(start, |r.content|)
      && start + |r.content| + 1 <= |data|
      && Slice(data, start, start + |r.content|) == r.content
      && data[start + |r.content| + 1..] == rest
  {
    hide HeaderText, Encode, HeaderAt, Slice, ReadsDigits;
    var head := Encode(HeaderText(r));
    assert head + [10] + r.content + [10] + rest == head + [10] + (r.content + [10] + rest);
    HeaderBack(data, offset, r, r.content + [10] + rest, number);
    Layout(data, offset, head + [10], r.content, rest);
  }

  lemma Layout(data: seq<Byte>, offset: nat, front: seq<Byte>, content: seq<Byte>, rest: seq<Byte>)
    requires offset <= |data| && data[offset..] == front + content + [10] + rest
    ensures var start := offset + |front|;
      && start + |content| + 1 <= |data|
      && Slice(data, start, start + |content|) == content
      && data[start + |content| + 1..] == rest
  {
    hide Slice;
    assert data[offset..] == front + (content + ([10] + rest));
    SliceAt(data, offset, front, content + ([10] + rest));
    SliceAt(data, offset + |front|, content, [10] + rest);
    SliceAt(data, offset + |front| + |content|, [10], rest);
  }

  /** On any stream of records in the requested order the loop returns each content exactly,
      whatever bytes it holds, and meets no error. */
  lemma {:induction false} StreamRecovered(data: seq<Byte>, offset: nat, records: seq<Record>, number: Reading)
    requires ReadsDigits(number) && Plain(records)
    requires offset <= |data| && data[offset..] == Stream(records)
    ensures Scan(data, offset, Ids(records), number).0 == Blobs(records) && Scan(data, offset, Ids(records), number).1
    decreases |records|
  {
    hide HeaderText, Encode, Scan, ReadsDigits, Ascii;
    if records == [] {
      NothingScanned(data, offset, number);
    } else {
      var r, rest := records[0], records[1..];
      PlainTail(records);
      ScanStep(data, offset, r, Stream(rest), Ids(rest), number);
      StreamRecovered(data, offset + |HeaderText(r)| + 1 + |r.content| + 1, rest, number);
    }
  }

  lemma NothingScanned(data: seq<Byte>, offset: int, number: Reading)
    ensures Scan(data, offset, [], number).0 == [] && Scan(data, offset, [], number).1
  {
  }

  lemma PlainTail(records: seq<Record>)
    requires Plain(records) && records != []
    ensures Plain(records[1..]) && Ascii(records[0].id) && Ascii(records[0].kind)
  {
    assert forall i :: 0 <= i < |records[1..]| ==> records[1..][i] == records[i + 1];
  }

  lemma ScanStep(data: seq<Byte>, offset: nat, r: Record, rest: seq<Byte>, ids: seq<string>, number: Reading)
    requires ReadsDigits(number) && Ascii(r.id) && Ascii(r.kind)
    requires offset <= |data| && data[offset..] == Encode(HeaderText(r)) + [10] + r.content + [10] + rest
    ensures var next := offset + |HeaderText(r)| + 1 + |r.content| + 1;
      && next <= |data| && data[next..] == rest
      && Scan(data, offset, [r.id] + ids, number).0 == [Blob(r.id, r.content)] + Scan(data, next, ids, number).0
      && Scan(data, offset, [r.id] + ids, number).1 == Scan(data, next, ids, number).1
  {
    hide HeaderText, Encode, HeaderAt, Slice, ReadsDigits, Scan;
    RecordBack(data, offset, r, rest, number);
    ScanOne(data, offset, r.id, ids, number);
  }

  lemma ScanOne(data: seq<Byte>, offset: int, id: string, ids: seq<string>, number: Reading)
    requires HeaderAt(data, offset, id, number).Good?
    ensures var h := HeaderAt(data, offset, id, number);
      var later := Scan(data, h.contentStart + h.size + 1, ids, number);
      && Scan(data, offset, [id] + ids, number).0
         == [Blob(id, Slice(data, h.contentStart, h.contentStart + h.size))] + later.0
      && Scan(data, offset, [id] + ids, number).1 == later.1
  {
    hide HeaderAt, Slice;
    assert ([id] + ids)[1..] == ids;
  }

  lemma ScanRecoversStream(records: seq<Record>, number: Reading)
    requires ReadsDigits(number) && Plain(records)
    ensures Scan(Stream(records), 0, Ids(records), number).0 == Blobs(records)
    ensures Scan(Stream(records), 0, Ids(records), number).1
  {
    assert Stream(records)[0..] == Stream(records);
    StreamRecovered(Stream(records), 0, records, number);
  }

  // ---- a cut anywhere ------------------------------------------------------------------------

  /** Where the last header line ends. */
  function LastHeader(records: seq<Record>): (k: nat)
    requires Plain(records) && records != []
    ensures k >= |HeaderText(records[0])| + 1
    ensures |records| > 1 ==> k > |HeaderText(records[0])| + 1 + |records[0].content| + 1
  {
    var head := |HeaderText(records[0])| + 1;
    if |records| == 1 then head
    else
      PlainTail(records);
      head + |records[0].content| + 1 + LastHeader(records[1..])
  }

  /** The records with the last content cut to `kept` bytes. */
  function Cut(records: seq<Record>, kept: nat): (r: seq<Record>)
    requires records != []
    ensures |r| == |records|
  {
    var last := records[|records| - 1];
    records[|records| - 1 := last.(content := last.content[..if kept < |last.content| then kept else |last.content|])]
  }

  lemma {:induction false} BlobCount(records: seq<Record>)
    ensures |Blobs(records)| == |records| && |Ids(records)| == |records|
    ensures forall i :: 0 <= i < |records| ==> Blobs(records)[i] == Blob(records[i].id, records[i].content)
  {
    if records != [] { BlobCount(records[1..]); }
  }

  lemma CutBlobs(records: seq<Record>, kept: nat)
    requires records != []
    ensures Blobs(Cut(records, kept)) == Blobs(records) <==> kept >= |records[|records| - 1].content|
  {
    hide Blobs;
    var n := |records| - 1;
    BlobCount(records);
    BlobCount(Cut(records, kept));
    if kept >= |records[n].content| {
      assert records[n].content[..|records[n].content|] == records[n].content;
    } else {
      assert Blobs(Cut(records, kept))[n] != Blobs(records)[n];
    }
  }

  lemma CutTail(records: seq<Record>, kept: nat)
    requires |records| > 1
    ensures Blobs(Cut(records, kept)) == [Blob(records[0].id, records[0].content)] + Blobs(Cut(records[1..], kept))
  {
    var all := Cut(records, kept);
    assert all[1..] == Cut(records[1..], kept);
  }

  lemma NoNewline(data: seq<Byte>, offset: nat, id: string, number: Reading)
    requires forall i :: offset <= i < |data| ==> data[i] != 10
    ensures HeaderAt(data, offset, id, number).Bad?
  {
    var end := FindNewline(data, offset);
  }

  /** The stream is cut before the header line of its first record is complete. */
  lemma HeaderCut(data: seq<Byte>, offset: nat, r: Record, rest: seq<Byte>, j: nat, number: Reading)
    requires Ascii(r.id) && Ascii(r.kind) && j <= |HeaderText(r)|
    requires offset <= |data| && data[offset..] == (Encode(HeaderText(r)) + rest)[..j]
    ensures HeaderAt(data, offset, r.id, number).Bad?
  {
    hide HeaderText, HeaderAt, Encode;
    EncodeNoNewline(HeaderText(r));
    forall i | offset <= i < |data| ensures data[i] != 10 {
      assert data[i] == data[offset..][i - offset] == Encode(HeaderText(r))[i - offset];
    }
    NoNewline(data, offset, r.id, number);
  }

  /** The stream is cut inside or right after a content: what the slice returns. */
  lemma ContentCut(data: seq<Byte>, start: nat, content: seq<Byte>, rest: seq<Byte>, j: nat)
    requires j <= |content + rest| && start <= |data| && data[start..] == (content + rest)[..j]
    ensures Slice(data, start, start + |content|) == content[..if j < |content| then j else |content|]
    ensures |data| == start + j
  {
    if j < |content| {
      assert data[start..start + j] == data[start..] == content[..j];
    } else {
      assert content[..|content|] == content;
      assert data[start..start + |content|] == data[start..][..|content|] == content;
    }
  }

  lemma StreamParts(records: seq<Record>)
    requires Plain(records) && records != [] && Plain(records[1..])
    ensures var r := records[0];
      Stream(records) == Encode(HeaderText(r)) + [10] + (r.content + ([10] + Stream(records[1..])))
  {
    hide HeaderText, Encode;
  }

  lemma LaterHeader(records: seq<Record>)
    requires Plain(records) && |records| > 1 && Plain(records[1..])
    ensures LastHeader(records) == |HeaderText(records[0])| + 1 + |records[0].content| + 1 + LastHeader(records[1..])
  {
    hide HeaderText;
  }

  lemma NothingLeft(data: seq<Byte>, offset: nat, records: seq<Record>, number: Reading)
    requires offset >= |data| && records != []
    ensures Scan(data, offset, Ids(records), number) == ([], false)
  {
    hide HeaderAt;
    assert HeaderAt(data, offset, records[0].id, number).Bad? by { PastEnd(data, offset, records[0].id, number); }
    ScanBad(data, offset, records[0].id, Ids(records[1..]), number);
  }

  lemma PastEnd(data: seq<Byte>, offset: nat, id: string, number: Reading)
    requires offset >= |data|
    ensures HeaderAt(data, offset, id, number).Bad?
  {
    var end := FindNewline(data, offset);
  }

  /** Read from an offset at which the first `j` bytes of a stream stand. */
  lemma {:induction false} CutScanned(data: seq<Byte>, offset: nat, records: seq<Record>, j: nat, number: Reading)
    requires ReadsDigits(number) && Plain(records) && records != [] && j <= |Stream(records)|
    requires offset <= |data| && data[offset..] == Stream(records)[..j]
    ensures var scan := Scan(data, offset, Ids(records), number); var last := LastHeader(records);
      && (scan.1 <==> j >= last)
      && (scan.1 ==> scan.0 == Blobs(Cut(records, j - last)))
      && (!scan.1 ==> |scan.0| < |records|)
    decreases |records|
  {
    hide HeaderText, Encode, Scan, ReadsDigits, Ascii, HeaderAt, Slice, Stream, Cut, Blobs, LastHeader;
    var r, tail := records[0], records[1..];
    PlainTail(records);
    StreamParts(records);
    var head, rest := Encode(HeaderText(r)), [10] + Stream(tail);
    if j <= |head| {
      assert Stream(records) == head + ([10] + (r.content + rest));
      HeaderCut(data, offset, r, [10] + (r.content + rest), j, number);
      ScanBad(data, offset, r.id, Ids(tail), number);
    } else {
      var m := j - |head| - 1;
      CutAfter(data, offset, head + [10], r.content + rest, j);
      HeaderBack(data, offset, r, (r.content + rest)[..m], number);
      var start := offset + |head| + 1;
      ContentCut(data, start, r.content, rest, m);
      ScanOne(data, offset, r.id, Ids(tail), number);
      if tail == [] {
        NothingScanned(data, start + |r.content| + 1, number);
        OneCut(records, m);
      } else {
        var next := start + |r.content| + 1;
        LaterHeader(records);
        if m > |r.content| {
          assert r.content + rest == (r.content + [10]) + Stream(tail);
          CutAfter(data, start, r.content + [10], Stream(tail), m);
          CutScanned(data, next, tail, m - |r.content| - 1, number);
          assert r.content[..|r.content|] == r.content;
          if m - |r.content| - 1 >= LastHeader(tail) { CutTail(records, m - |r.content| - 1 - LastHeader(tail)); }
        } else {
          NothingLeft(data, next, tail, number);
        }
      }
    }
  }

  lemma ScanBad(data: seq<Byte>, offset: int, id: string, ids: seq<string>, number: Reading)
    requires HeaderAt(data, offset, id, number).Bad?
    ensures Scan(data, offset, [id] + ids, number) == ([], false)
  {
    hide HeaderAt;
  }

  lemma CutAfter(data: seq<Byte>, offset: nat, front: seq<Byte>, rest: seq<Byte>, j: nat)
    requires |front| <= j <= |front + rest| && offset <= |data| && data[offset..] == (front + rest)[..j]
    ensures offset + |front| <= |data| && data[offset + |front|..] == rest[..j - |front|]
    ensures data[offset..] == front + rest[..j - |front|]
  {
    assert (front + rest)[..j] == front + rest[..j - |front|];
    assert data[offset + |front|..] == data[offset..][|front|..];
  }

  lemma OneCut(records: seq<Record>, m: nat)
    requires |records| == 1 && Plain(records)
    ensures LastHeader(records) == |HeaderText(records[0])| + 1
    ensures var r := records[0];
      Blobs(Cut(records, m)) == [Blob(r.id, r.content[..if m < |r.content| then m else |r.content|])]
  {
    hide HeaderText;
    assert Cut(records, m)[1..] == [];
  }

  /** A stream cut anywhere is taken to be in order exactly when the cut comes after the last
      header line; what is returned then is complete exactly when the last content is. */
  lemma TruncationExactly(records: seq<Record>, k: nat, number: Reading)
    requires ReadsDigits(number) && Plain(records) && records != [] && k <= |Stream(records)|
    ensures var scan := Scan(Stream(records)[..k], 0, Ids(records), number); var last := LastHeader(records);
      && (scan.1 <==> k >= last)
      && (scan.1 ==> scan.0 == Blobs(Cut(records, k - last)))
      && (scan.0 == Blobs(records) <==> k >= last + |records[|records| - 1].content|)
  {
    hide Scan, Stream, LastHeader, Blobs, Cut;
    var data := Stream(records)[..k];
    assert data[0..] == data;
    CutScanned(data, 0, records, k, number);
    BlobCount(records);
    if k >= LastHeader(records) { CutBlobs(records, k - LastHeader(records)); }
  }

  // ---- a header that does not fit ---------------------------------------------------------------

  /** The line names this object, any kind, and a size that is a number. */
  ghost predicate Announces(line: string, id: string, number: Reading) {
    exists kind, size :: AnnouncesAs(line, id, kind, size) && number(size).Some?
  }

  predicate AnnouncesAs(line: string, id: string, kind: string, size: string) {
    ' ' !in id && ' ' !in kind && ' ' !in size && line == id + " " + kind + " " + size
  }

  /** The words of a line, joined by single blanks, are the line, and none holds a blank. */
  lemma {:induction false} WordsJoin(s: string)
    ensures forall k :: 0 <= k < |Words(s)| ==> ' ' !in Words(s)[k]
    ensures |Words(s)| == 3 ==> s == Words(s)[0] + " " + Words(s)[1] + " " + Words(s)[2]
    ensures |Words(s)| == 2 ==> s == Words(s)[0] + " " + Words(s)[1]
    ensures |Words(s)| == 1 ==> s == Words(s)[0]
  {
    if s != "" {
      var rest := Words(s[1..]);
      WordsJoin(s[1..]);
      assert s == [s[0]] + s[1..];
      if s[0] == ' ' {
        assert " " == "" + " ";
        assert |rest| == 2 ==> " " + (rest[0] + " " + rest[1]) == "" + " " + rest[0] + " " + rest[1];
      } else if |rest| == 3 {
        assert [s[0]] + (rest[0] + " " + rest[1] + " " + rest[2]) == [s[0]] + rest[0] + " " + rest[1] + " " + rest[2];
      }
    }
  }

  lemma AnnouncedWords(line: string, id: string, number: Reading)
    ensures Announces(line, id, number)
      <==> |Words(line)| == 3 && Words(line)[0] == id && number(Words(line)[2]).Some?
  {
    WordsJoin(line);
    hide Words;
    if kind, size :| AnnouncesAs(line, id, kind, size) && number(size).Some? {
      WordsLast(size);
      WordsFirst(kind, size);
      WordsFirst(id, kind + " " + size);
      assert line == id + " " + (kind + " " + size);
    }
    if |Words(line)| == 3 && Words(line)[0] == id && number(Words(line)[2]).Some? {
      assert AnnouncesAs(line, id, Words(line)[1], Words(line)[2]);
    }
  }

  /** What follows whole records is scanned as if it stood alone. */
  lemma {:induction false} StreamThen(data: seq<Byte>, offset: nat, records: seq<Record>, rest: seq<Byte>,
                                      ids: seq<string>, number: Reading)
    requires ReadsDigits(number) && Plain(records)
    requires offset <= |data| && data[offset..] == Stream(records) + rest
    ensures var next := offset + |Stream(records)|; var later := Scan(data, next, ids, number);
      && next <= |data| && data[next..] == rest
      && Scan(data, offset, Ids(records) + ids, number).0 == Blobs(records) + later.0
      && Scan(data, offset, Ids(records) + ids, number).1 == later.1
    decreases |records|
  {
    hide HeaderText, Encode, Scan, ReadsDigits, Ascii, Plain, Stream, Ids, Blobs;
    RecordFirst(records);
    if records == [] {
      assert [] + rest == rest && [] + ids == ids;
      assert [] + Scan(data, offset, ids, number).0 == Scan(data, offset, ids, number).0;
    } else {
      var r, tail := records[0], records[1..];
      PlainTail(records);
      var head := Encode(HeaderText(r)) + [10] + r.content + [10];
      assert Stream(records) + rest == head + (Stream(tail) + rest);
      ScanStep(data, offset, r, Stream(tail) + rest, Ids(tail) + ids, number);
      StreamThen(data, offset + |head|, tail, rest, ids, number);
      assert Ids(records) + ids == [r.id] + (Ids(tail) + ids);
      var later := Scan(data, offset + |head| + |Stream(tail)|, ids, number);
      assert [Blob(r.id, r.content)] + (Blobs(tail) + later.0) == Blobs(records) + later.0;
    }
  }

  lemma RecordFirst(records: seq<Record>)
    requires Plain(records)
    ensures records == [] ==> Stream(records) == [] && Ids(records) == [] && Blobs(records) == []
    ensures records != [] ==>
      var r, tail := records[0], records[1..];
      && Plain(tail) && Ascii(r.id) && Ascii(r.kind)
      && Stream(records) == Encode(HeaderText(r)) + [10] + r.content + [10] + Stream(tail)
      && Ids(records) == [r.id] + Ids(tail) && Blobs(records) == [Blob(r.id, r.content)] + Blobs(tail)
  {
    hide HeaderText, Encode;
    if records != [] { PlainTail(records); }
  }

  lemma LineRead(data: seq<Byte>, offset: nat, line: seq<Byte>, rest: seq<Byte>, id: string, number: Reading)
    requires offset <= |data| && data[offset..] == line + [10] + rest && 10 !in line
    ensures HeaderAt(data, offset, id, number).Good? <==> Announces(Decode(line), id, number)
  {
    hide FindNewline, Slice, Decode, Words, Announces;
    NewlineAfter(data, offset, line, rest);
    AnnouncedWords(Decode(line), id, number);
  }

  /** Behind whole records, a line that does not announce the requested object ends the scan with
      an error and nothing but the contents before it; a line that does is scanned on. */
  lemma OddHeaderStops(records: seq<Record>, line: seq<Byte>, rest: seq<Byte>, id: string, more: seq<string>,
                       number: Reading)
    requires ReadsDigits(number) && Plain(records) && 10 !in line
    ensures var scan := Scan(Stream(records) + (line + [10] + rest), 0, Ids(records) + ([id] + more), number);
      if Announces(Decode(line), id, number) then |scan.0| > |records| && scan.0[|records|].id == id
      else scan == (Blobs(records), false)
  {
    hide Scan, Stream, Decode, Announces, HeaderAt, Slice;
    var data := Stream(records) + (line + [10] + rest);
    assert data[0..] == data;
    StreamThen(data, 0, records, line + [10] + rest, [id] + more, number);
    BlobCount(records);
    var next := |Stream(records)|;
    LineRead(data, next, line, rest, id, number);
    if Announces(Decode(line), id, number) {
      ScanOne(data, next, id, more, number);
    } else {
      ScanBad(data, next, id, more, number);
      assert Blobs(records) + [] == Blobs(records);
    }
  }

  // ---- slices ------------------------------------------------------------------------------------

  /** Bounds from the front or, where something stands behind, from the end cut out the same bytes. */
  lemma SliceFromEnd(front: seq<Byte>, middle: seq<Byte>, back: seq<Byte>)
    requires back != []
    ensures var data := front + middle + back;
      && Slice(data, |front|, |front| + |middle|) == middle
      && Slice(data, |front|, -|back|) == middle
      && Slice(data, -|middle + back|, -|back|) == middle
  {
    var data := front + middle + back;
    assert data[|front|..|front| + |middle|] == middle;
  }

  /** Bounds beyond either end are taken to be that end, and a bound before its start cuts nothing. */
  lemma SliceClamped(data: seq<Byte>, from: int, to: int)
    ensures to >= |data| ==> Slice(data, from, to) == Slice(data, from, |data|)
    ensures from <= -|data| ==> Slice(data, from, to) == Slice(data, 0, to)
    ensures Slice(data, 0, |data|) == data
    ensures 0 <= to <= from ==> Slice(data, from, to) == []
  {
  }
}
