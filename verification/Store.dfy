/** Write-once JSON files, and what is loaded back from them. */
module Store {
  import opened Text
  import opened Lines
  import opened Json
  import opened Canonical
  import opened JsonText
  import opened JsonRoundTrip

  datatype Status = Written | Refused | Failed

  type Files = map<string, string>

  /** `load_json_object`: text mode reading, then one JSON object. */
  function Loaded(files: Files, path: string): Option<seq<Member>> {
    if path !in files then None
    else
      match Loads(ReadText(files[path]))
      case Some(Obj(ms)) => Some(ms)
      case _ => None
  }

  /** The text is what writing the object leaves behind. */
  ghost predicate Holds(text: string, ms: seq<Member>) {
    Proper(Obj(ms)) && Finite(Obj(ms)) && text == CanonicalText(Obj(ms)).value + "\n"
  }

  class Directory {
    var files: Files

    /** Creates a file once; a document that has no canonical text and a path that is taken are
        refused, and a failing write leaves nothing behind. */
    method WriteJsonExclusive(path: string, value: Json, fails: bool) returns (status: Status)
      modifies this
      ensures status == if !Finite(value) || path in old(files) then Refused else if fails then Failed else Written
      ensures files == if status.Written? then old(files)[path := CanonicalText(value).value + "\n"] else old(files)
    {
      var text := CanonicalText(value);
      if text == None { return Refused; }
      if path in files { return Refused; }
      files := files[path := ""];
      if fails {
        files := files - {path};
        assert files == old(files);
        return Failed;
      }
      files := files[path := text.value + "\n"];
      return Written;
    }

    /** A missing file is refused, and so is one that holds no object; a file this directory wrote
        for a finite object loads as that object's canonical form. */
    method LoadJsonObject(path: string) returns (r: Option<seq<Member>>)
      ensures r == Loaded(files, path)
      ensures path !in files ==> r == None
      ensures forall ms :: path in files && Holds(files[path], ms) ==>
        r.Some? && Obj(r.value) == CanonicalValue(Obj(ms)) && SameDocument(Obj(r.value), Obj(ms))
    {
      hide Loads, ReadText, CanonicalValue, SameDocument;
      if path !in files { return None; }
      var value := Loads(ReadText(files[path]));
      forall ms | Holds(files[path], ms)
        ensures var loaded := Loaded(files, path);
          && loaded.Some? && Obj(loaded.value) == CanonicalValue(Obj(ms))
          && SameDocument(Obj(loaded.value), Obj(ms))
      {
        HeldIsLoaded(files, path, ms);
      }
      return if value.Some? && value.value.Obj? then Some(value.value.members) else None;
    }
  }

  // ---- canonical text survives text mode ---------------------------------------------------

  lemma {:induction false} EscapedNoReturn(s: string)
    ensures NoReturn(EscapeText(s))
  {
    if s != "" { EscapedNoReturn(s[1..]); }
  }

  lemma DigitsNoReturn(s: string)
    requires AllDigits(s)
    ensures NoReturn(s)
  {
    assert forall i :: 0 <= i < |s| ==> IsDigit(s[i]);
  }

  lemma JoinNoReturn(a: string, b: string)
    requires NoReturn(a) && NoReturn(b)
    ensures NoReturn(a + b)
  {
  }

  lemma ExponentNoReturn(e: int)
    ensures NoReturn(ExponentText(e))
  {
    DigitsNoReturn(NatText(if e < 0 then -e else e));
    hide NatText;
  }

  lemma PartNoReturn(s: string, i: nat)
    requires NoReturn(s) && i <= |s|
    ensures NoReturn(s[..i]) && NoReturn(s[i..])
  {
  }

  lemma ZerosNoReturn(n: nat)
    ensures NoReturn(Zeros(n))
  {
  }

  lemma MagnitudeNoReturn(digits: nat, exp: int)
    ensures NoReturn(MagnitudeText(digits, exp))
  {
    var ds := NatText(digits);
    var point := |ds| + exp;
    DigitsNoReturn(ds);
    hide NatText, ExponentText, Zeros;
    if digits == 0 {
    } else if -4 < point <= 0 {
      ZerosNoReturn(-point);
    } else if 0 < point < |ds| {
      PartNoReturn(ds, point);
    } else if |ds| <= point <= 16 {
      ZerosNoReturn(point - |ds|);
    } else {
      PartNoReturn(ds, 1);
      assert ds[..1] == [ds[0]];
      ExponentNoReturn(point - 1);
      var fraction := if |ds| == 1 then "" else "." + ds[1..];
      JoinNoReturn([ds[0]] + fraction, "e");
    }
  }

  lemma FloatNoReturn(f: Decimal)
    ensures NoReturn(FloatText(f))
  {
    hide MagnitudeText;
    MagnitudeNoReturn(f.digits, f.exp);
  }

  lemma {:induction false} PrintNoReturn(v: Json)
    ensures NoReturn(Print(v))
    decreases v, 2
  {
    match v
    case Int(i) =>
      DigitsNoReturn(NatText(if i < 0 then -i else i));
      hide NatText;
    case Float(f) => FloatNoReturn(f);
    case Str(s) => EscapedNoReturn(s);
    case Arr(items) => if items != [] { ItemsNoReturn(items); }
    case Obj(ms) => if ms != [] { MembersNoReturn(ms); }
    case _ =>
  }

  lemma {:induction false} ItemsNoReturn(items: seq<Json>)
    requires items != []
    ensures NoReturn(PrintItems(items))
    decreases items, 1
  {
    PrintNoReturn(items[0]);
    if |items| > 1 { ItemsNoReturn(items[1..]); }
    hide Print;
  }

  lemma {:induction false} MembersNoReturn(ms: seq<Member>)
    requires ms != []
    ensures NoReturn(PrintMembers(ms))
    decreases ms, 1
  {
    MemberNoReturn(ms[0]);
    if |ms| > 1 { MembersNoReturn(ms[1..]); }
    hide MemberText;
  }

  lemma {:induction false} MemberNoReturn(m: Member)
    ensures NoReturn(MemberText(m))
    decreases m, 0
  {
    EscapedNoReturn(m.key);
    PrintNoReturn(m.value);
    hide Print, EscapeText;
  }

  /** What was written is loaded in canonical form: hashing it again hashes the same text, and
      writing the loaded document elsewhere writes the same file. */
  lemma WrittenIsLoaded(files: Files, path: string, ms: seq<Member>)
    requires Proper(Obj(ms)) && Finite(Obj(ms))
    ensures var r := Loaded(files[path := CanonicalText(Obj(ms)).value + "\n"], path);
      && r.Some? && Obj(r.value) == CanonicalValue(Obj(ms))
      && CanonicalText(Obj(r.value)) == CanonicalText(Obj(ms)) && SameDocument(Obj(r.value), Obj(ms))
  {
    var text := CanonicalText(Obj(ms)).value;
    PrintNoReturn(CanonicalValue(Obj(ms)));
    JoinNoReturn(text, "\n");
    ReadTextKeeps(text + "\n");
    StoreLoad(Obj(ms));
    StoreLoadRehash(Obj(ms));
    CanonicalObject(ms);
    CanonicalFinite(Obj(ms));
    hide CanonicalText, Loads, Print, CanonicalValue, ReadText, SameDocument;
    CanonicalTextEquality(CanonicalValue(Obj(ms)), Obj(ms));
  }

  lemma HeldIsLoaded(files: Files, path: string, ms: seq<Member>)
    requires path in files && Holds(files[path], ms)
    ensures var r := Loaded(files, path);
      r.Some? && Obj(r.value) == CanonicalValue(Obj(ms)) && SameDocument(Obj(r.value), Obj(ms))
  {
    hide Loaded, CanonicalValue, SameDocument;
    WrittenIsLoaded(files, path, ms);
    assert files[path := CanonicalText(Obj(ms)).value + "\n"] == files;
  }

  lemma CanonicalObject(ms: seq<Member>)
    requires Proper(Obj(ms))
    ensures CanonicalValue(Obj(ms)).Obj? && Proper(CanonicalValue(Obj(ms)))
  {
    CanonicalIsCanonical(Obj(ms));
    CanonicalProper(CanonicalValue(Obj(ms)));
  }

  lemma {:induction false} CanonicalProper(v: Json)
    requires InCanonicalForm(v)
    ensures Proper(v)
  {
    match v
    case Arr(items) =>
      forall i | 0 <= i < |items| ensures Proper(items[i]) { CanonicalProper(items[i]); }
    case Obj(ms) =>
      AscendingKeysUnique(ms);
      forall i | 0 <= i < |ms| ensures Proper(ms[i].value) { CanonicalProper(ms[i].value); }
    case _ =>
  }
}
