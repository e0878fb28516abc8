/** JSON documents as the host holds them: Python dictionaries keep their
    insertion order and have distinct keys. */
module Json {
  import opened Text

  /** A finite float, as the decimal number (-1)^neg * digits * 10^exp.  Every
      finite binary float is such a number; negative zero keeps its sign. */
  datatype Decimal = Decimal(neg: bool, digits: nat, exp: int)

  datatype Json =
    | Null
    | Bool(b: bool)
    | Int(i: int)
    | Float(f: Decimal)
    | NonFinite
    | Str(s: string)
    | Arr(items: seq<Json>)
    | Obj(members: seq<Member>)

  datatype Member = Member(key: string, value: Json)

  function Keys(ms: seq<Member>): (keys: seq<string>)
    ensures |keys| == |ms| && forall i :: 0 <= i < |ms| ==> keys[i] == ms[i].key
  {
    seq(|ms|, i requires 0 <= i < |ms| => ms[i].key)
  }

  predicate HasKey(ms: seq<Member>, key: string) {
    exists i :: 0 <= i < |ms| && ms[i].key == key
  }

  predicate UniqueKeys(ms: seq<Member>) {
    forall i, j :: 0 <= i < j < |ms| ==> ms[i].key != ms[j].key
  }

  /** The place of a key, or the number of members when it is absent. */
  function IndexOf(ms: seq<Member>, key: string): (r: nat)
    ensures r <= |ms|
    ensures r < |ms| ==> ms[r].key == key
    ensures forall j :: 0 <= j < r ==> ms[j].key != key
  {
    if ms == [] then 0
    else if ms[0].key == key then 0
    else
      assert forall j :: 0 < j < |ms| ==> ms[j] == ms[1..][j - 1];
      1 + IndexOf(ms[1..], key)
  }

  /** `document.get(key)`. */
  function Find(ms: seq<Member>, key: string): Option<Json> {
    var i := IndexOf(ms, key);
    if i < |ms| then Some(ms[i].value) else None
  }

  lemma FindAt(ms: seq<Member>, i: nat)
    requires UniqueKeys(ms) && i < |ms|
    ensures Find(ms, ms[i].key) == Some(ms[i].value)
  {
  }

  /** `document[key] = value`: an existing key keeps its place. */
  function Assign(ms: seq<Member>, key: string, value: Json): seq<Member> {
    var i := IndexOf(ms, key);
    if i < |ms| then ms[i := Member(key, value)] else ms + [Member(key, value)]
  }

  /** `{k: v for k, v in document.items() if k != key}`. */
  function Without(ms: seq<Member>, key: string): seq<Member> {
    var i := IndexOf(ms, key);
    if i < |ms| then ms[..i] + ms[i + 1..] else ms
  }

  lemma AssignUnique(ms: seq<Member>, key: string, value: Json)
    requires UniqueKeys(ms)
    ensures UniqueKeys(Assign(ms, key, value))
    ensures HasKey(ms, key) ==> Keys(Assign(ms, key, value)) == Keys(ms)
    ensures !HasKey(ms, key) ==> Keys(Assign(ms, key, value)) == Keys(ms) + [key]
  {
  }

  lemma FindAssign(ms: seq<Member>, key: string, value: Json, other: string)
    ensures Find(Assign(ms, key, value), other) == if other == key then Some(value) else Find(ms, other)
  {
    var r := Assign(ms, key, value);
    var i, j := IndexOf(ms, other), IndexOf(r, other);
    if i < j { assert r[i].key != other; }
  }

  lemma WithoutUnique(ms: seq<Member>, key: string)
    requires UniqueKeys(ms)
    ensures UniqueKeys(Without(ms, key)) && !HasKey(Without(ms, key), key)
  {
  }

  lemma FindWithout(ms: seq<Member>, key: string, other: string)
    requires UniqueKeys(ms)
    ensures Find(Without(ms, key), other) == if other == key then None else Find(ms, other)
  {
    var r := Without(ms, key);
    WithoutUnique(ms, key);
    var at, i, j := IndexOf(ms, key), IndexOf(ms, other), IndexOf(r, other);
    if other != key && at < |ms| {
      if i < |ms| { assert r[if i < at then i else i - 1].key == other; }
      if j < |r| { assert ms[if j < at then j else j + 1] == r[j]; }
    }
  }

  /** Every object of the document has distinct keys, as every dictionary has. */
  predicate Proper(v: Json) {
    match v
    case Arr(items) => forall i :: 0 <= i < |items| ==> Proper(items[i])
    case Obj(ms) => UniqueKeys(ms) && forall i :: 0 <= i < |ms| ==> Proper(ms[i].value)
    case _ => true
  }
}
