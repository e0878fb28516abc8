/** Number normalisation, key sorting and the meaning of canonical equality. */
module Canonical {
  import opened Text
  import opened Json

  // ---- float(format(value, ".12g")) ------------------------------------

  const LIMIT: nat := 1_000_000_000_000

  function Pow10(n: nat): (r: nat)
    ensures r > 0
  {
    if n == 0 then 1 else 10 * Pow10(n - 1)
  }

  /** The leading twelve digits, and how many digits were cut. */
  function Truncate(d: nat): (r: (nat, nat)) {
    if d < LIMIT then (d, 0) else var (q, c) := Truncate(d / 10); (q, c + 1)
  }

  lemma {:induction false} TruncateBounds(d: nat)
    ensures var (q, c) := Truncate(d); q < LIMIT && q * Pow10(c) <= d < (q + 1) * Pow10(c)
    ensures var (q, c) := Truncate(d); c > 0 ==> q >= LIMIT / 10
  {
    if d >= LIMIT {
      TruncateBounds(d / 10);
      var (q, c) := Truncate(d / 10);
      assert q * Pow10(c + 1) == 10 * (q * Pow10(c)) && (q + 1) * Pow10(c + 1) == 10 * ((q + 1) * Pow10(c));
      if c == 0 { assert q == d / 10 >= LIMIT / 10; }
    }
  }

  /** Rounding to twelve digits, ties to even. */
  function RoundDigits(d: nat): (nat, nat) {
    var (q, c) := Truncate(d);
    TruncateBounds(d);
    var twice := 2 * (d - q * Pow10(c));
    if twice > Pow10(c) || (twice == Pow10(c) && q % 2 == 1) then (q + 1, c) else (q, c)
  }

  /** Trailing zeros move into the exponent; zero has exponent zero. */
  function Strip(d: nat, e: int): (nat, int) {
    if d == 0 then (0, 0) else if d % 10 == 0 then Strip(d / 10, e + 1) else (d, e)
  }

  function Round12(f: Decimal): Decimal {
    var (q, c) := RoundDigits(f.digits);
    var (d, e) := Strip(q, f.exp + c);
    Decimal(f.neg, d, e)
  }

  /** A float as the canonical form leaves it: at most twelve digits, none trailing zero. */
  predicate Stripped(f: Decimal) {
    if f.digits == 0 then f.exp == 0 else f.digits % 10 != 0
  }

  predicate Rounded(f: Decimal) {
    Stripped(f) && f.digits < LIMIT
  }

  /** The kept digits are within half a unit of the last place, and a tie goes to the even neighbour. */
  lemma RoundsToNearest(d: nat)
    ensures var (q, c) := RoundDigits(d);
      && 2 * d <= 2 * (q * Pow10(c)) + Pow10(c) && 2 * (q * Pow10(c)) <= 2 * d + Pow10(c)
      && (c > 0 && (2 * d == 2 * (q * Pow10(c)) + Pow10(c) || 2 * (q * Pow10(c)) == 2 * d + Pow10(c)) ==> q % 2 == 0)
      && (c > 0 ==> LIMIT / 10 <= q <= LIMIT)
      && (d < LIMIT ==> q == d && c == 0)
  {
    var (q, c) := Truncate(d);
    TruncateBounds(d);
    assert (q + 1) * Pow10(c) == q * Pow10(c) + Pow10(c);
  }

  lemma {:induction false} StripKeepsValue(d: nat, e: int)
    ensures var (d', e') := Strip(d, e); d > 0 ==> e' >= e && d == d' * Pow10(e' - e)
    ensures var (d', e') := Strip(d, e); Stripped(Decimal(false, d', e')) && d' <= d
    ensures d > 0 && d % 10 == 0 ==> Strip(d, e).0 < d
  {
    if d > 0 && d % 10 == 0 {
      StripKeepsValue(d / 10, e + 1);
      var (d', e') := Strip(d, e);
      assert d' * Pow10(e' - e) == 10 * (d' * Pow10(e' - e - 1));
    }
  }

  /** The number of digits cut is where the twelfth digit stands. */
  lemma TwelfthDigit(d: nat, c: nat)
    requires 100_000_000_000 * Pow10(c) <= d < 1_000_000_000_000 * Pow10(c)
    ensures Truncate(d).1 == c
  {
    TruncateBounds(d);
    var (q, cut) := Truncate(d);
    if cut < c { PowerGrows(cut, c); }
    if c < cut { PowerGrows(c, cut); }
    Scaled(q + 1, 1_000_000_000_000, Pow10(cut));
    if cut > 0 { Scaled(100_000_000_000, q, Pow10(cut)); }
  }

  lemma Scaled(a: nat, b: nat, unit: nat)
    requires a <= b
    ensures a * unit <= b * unit
  {
  }

  lemma {:induction false} PowerGrows(a: nat, b: nat)
    requires a < b
    ensures 10 * Pow10(a) <= Pow10(b)
  {
    if a + 1 < b { PowerGrows(a, b - 1); }
  }

  lemma {:induction false} PowerSum(a: nat, b: nat)
    ensures Pow10(a + b) == Pow10(a) * Pow10(b)
  {
    if b > 0 {
      PowerSum(a, b - 1);
      assert 10 * (Pow10(a) * Pow10(b - 1)) == Pow10(a) * (10 * Pow10(b - 1));
    }
  }

  /** The value of a rounded float, in units of the last place of the float it rounds. */
  function RoundedValue(f: Decimal): nat
    requires Round12(f).exp >= f.exp
  {
    Round12(f).digits * Pow10(Round12(f).exp - f.exp)
  }

  lemma Regrouped(a: nat, b: nat, c: nat)
    ensures a * b * c == a * (b * c)
  {
  }

  lemma Round12Positive(f: Decimal)
    requires f.digits > 0
    ensures RoundDigits(f.digits).0 > 0 && Round12(f).digits > 0
  {
    RoundsToNearest(f.digits);
    TruncateBounds(f.digits);
    assert Pow10(0) == 1;
    var (q, c) := RoundDigits(f.digits);
    StripKeepsValue(q, f.exp + c);
  }

  lemma Round12Digits(f: Decimal)
    requires f.digits > 0
    ensures var (q, c) := RoundDigits(f.digits);
      Round12(f).exp >= f.exp && RoundedValue(f) == q * Pow10(c) && q > 0
  {
    RoundsToNearest(f.digits);
    var (q, c) := RoundDigits(f.digits);
    Round12Positive(f);
    StripKeepsValue(q, f.exp + c);
    hide RoundDigits, Strip, Pow10;
    var (d, e) := Strip(q, f.exp + c);
    PowerSum(e - (f.exp + c), c);
    Regrouped(d, Pow10(e - (f.exp + c)), Pow10(c));
    assert e - (f.exp + c) + c == e - f.exp;
  }

  /** Rounding keeps the sign, leaves a float of at most twelve digits its value, and moves any
      other to a multiple of the unit of its twelfth digit, which stands at place `c`, that is at
      most half a unit away, and the even one of two that near. */
  lemma Round12Nearest(f: Decimal, c: nat) returns (q: nat)
    requires f.digits > 0
    ensures Round12(f).neg == f.neg && Round12(f).exp >= f.exp && Round12(f).digits > 0
    ensures f.digits < 1_000_000_000_000 ==> RoundedValue(f) == f.digits
    ensures 100_000_000_000 * Pow10(c) <= f.digits < 1_000_000_000_000 * Pow10(c) && c > 0 ==>
      var v, unit := RoundedValue(f), Pow10(c);
      && v == q * unit
      && 2 * f.digits - unit <= 2 * v <= 2 * f.digits + unit
      && (2 * v == 2 * f.digits - unit || 2 * v == 2 * f.digits + unit ==> q % 2 == 0)
  {
    Round12Digits(f);
    RoundsToNearest(f.digits);
    q := RoundDigits(f.digits).0;
    assert Pow10(0) == 1;
    if 100_000_000_000 * Pow10(c) <= f.digits < 1_000_000_000_000 * Pow10(c) && c > 0 { TwelfthDigit(f.digits, c); }
    Round12Positive(f);
    hide Strip, Pow10;
  }

  /** A zero stays the zero of its sign. */
  lemma Round12Zero(f: Decimal)
    requires f.digits == 0
    ensures Round12(f) == Decimal(f.neg, 0, 0)
  {
  }

  lemma Round12Rounded(f: Decimal)
    ensures Rounded(Round12(f))
  {
    RoundsToNearest(f.digits);
    TruncateBounds(f.digits);
    var (q, c) := RoundDigits(f.digits);
    StripKeepsValue(q, f.exp + c);
  }

  /** Rounding twice is rounding once. */
  lemma Round12Idempotent(f: Decimal)
    ensures Round12(Round12(f)) == Round12(f)
  {
    Round12Rounded(f);
    var r := Round12(f);
    assert Truncate(r.digits) == (r.digits, 0);
    assert Strip(r.digits, r.exp) == (r.digits, r.exp);
  }

  // ---- sorted keys -----------------------------------------------------

  function Insert(m: Member, ms: seq<Member>): seq<Member> {
    if ms == [] || Less(m.key, ms[0].key) then [m] + ms else [ms[0]] + Insert(m, ms[1..])
  }

  function SortMembers(ms: seq<Member>): seq<Member> {
    if ms == [] then [] else Insert(ms[0], SortMembers(ms[1..]))
  }

  lemma {:induction false} InsertMembers(m: Member, ms: seq<Member>)
    ensures forall x :: x in Insert(m, ms) <==> x == m || x in ms
    ensures |Insert(m, ms)| == |ms| + 1
  {
    if ms != [] && !Less(m.key, ms[0].key) {
      InsertMembers(m, ms[1..]);
      assert ms == [ms[0]] + ms[1..];
    }
  }

  lemma {:induction false} SortKeepsMembers(ms: seq<Member>)
    ensures forall x :: x in SortMembers(ms) <==> x in ms
    ensures |SortMembers(ms)| == |ms|
  {
    if ms != [] {
      SortKeepsMembers(ms[1..]);
      InsertMembers(ms[0], SortMembers(ms[1..]));
      assert ms == [ms[0]] + ms[1..];
    }
  }

  ghost predicate KeysAscend(ms: seq<Member>) {
    forall i, j :: 0 <= i < j < |ms| ==> Less(ms[i].key, ms[j].key)
  }

  lemma {:induction false} InsertAscends(m: Member, ms: seq<Member>)
    requires KeysAscend(ms) && !HasKey(ms, m.key)
    ensures KeysAscend(Insert(m, ms))
  {
    if ms != [] {
      LessTrichotomy(m.key, ms[0].key);
      if Less(m.key, ms[0].key) {
        forall j | 0 <= j < |ms| ensures Less(m.key, ms[j].key) {
          if j > 0 { LessTransitive(m.key, ms[0].key, ms[j].key); }
        }
      } else {
        assert forall i :: 0 <= i < |ms[1..]| ==> ms[1..][i] == ms[i + 1];
        InsertAscends(m, ms[1..]);
        InsertMembers(m, ms[1..]);
        var rest := Insert(m, ms[1..]);
        forall j | 0 <= j < |rest| ensures Less(ms[0].key, rest[j].key) {
          assert rest[j] in rest;
        }
      }
    }
  }

  lemma {:induction false} SortAscends(ms: seq<Member>)
    requires UniqueKeys(ms)
    ensures KeysAscend(SortMembers(ms))
  {
    if ms != [] {
      SortAscends(ms[1..]);
      SortKeepsMembers(ms[1..]);
      var rest := SortMembers(ms[1..]);
      forall j | 0 <= j < |rest| ensures rest[j].key != ms[0].key {
        assert rest[j] in ms[1..];
      }
      InsertAscends(ms[0], rest);
    }
  }

  lemma AscendingKeysUnique(ms: seq<Member>)
    requires KeysAscend(ms)
    ensures UniqueKeys(ms)
  {
    forall i, j | 0 <= i < j < |ms| ensures ms[i].key != ms[j].key {
      LessTrichotomy(ms[i].key, ms[j].key);
    }
  }

  lemma {:induction false} SortedIsSorted(ms: seq<Member>)
    requires KeysAscend(ms)
    ensures SortMembers(ms) == ms
  {
    if ms != [] {
      SortedIsSorted(ms[1..]);
      assert ms == [ms[0]] + ms[1..];
    }
  }

  // ---- the canonical value --------------------------------------------

  function CanonicalValue(v: Json): Json {
    match v
    case Arr(items) => Arr(CanonicalItems(items))
    case Obj(ms) => Obj(SortMembers(CanonicalMembers(ms)))
    case Float(f) => Float(Round12(f))
    case _ => v
  }

  function CanonicalItems(items: seq<Json>): (r: seq<Json>)
    ensures |r| == |items|
  {
    if items == [] then [] else [CanonicalValue(items[0])] + CanonicalItems(items[1..])
  }

  function CanonicalMembers(ms: seq<Member>): (r: seq<Member>)
    ensures |r| == |ms|
  {
    if ms == [] then []
    else [Member(ms[0].key, CanonicalValue(ms[0].value))] + CanonicalMembers(ms[1..])
  }

  lemma {:induction false} ItemsAt(items: seq<Json>, i: nat)
    requires i < |items|
    ensures CanonicalItems(items)[i] == CanonicalValue(items[i])
  {
    if i > 0 { ItemsAt(items[1..], i - 1); }
  }

  lemma {:induction false} MembersAt(ms: seq<Member>, i: nat)
    requires i < |ms|
    ensures CanonicalMembers(ms)[i] == Member(ms[i].key, CanonicalValue(ms[i].value))
  {
    if i > 0 { MembersAt(ms[1..], i - 1); }
  }

  lemma CanonicalKeys(ms: seq<Member>)
    ensures Keys(CanonicalMembers(ms)) == Keys(ms)
    ensures UniqueKeys(ms) ==> UniqueKeys(CanonicalMembers(ms))
  {
    forall i | 0 <= i < |ms| ensures CanonicalMembers(ms)[i].key == ms[i].key { MembersAt(ms, i); }
  }

  /** A fixed point of canonicalisation: rounded floats, ascending keys, all the way down. */
  ghost predicate InCanonicalForm(v: Json) {
    match v
    case Float(f) => Rounded(f)
    case Arr(items) => forall i :: 0 <= i < |items| ==> InCanonicalForm(items[i])
    case Obj(ms) => KeysAscend(ms) && forall i :: 0 <= i < |ms| ==> InCanonicalForm(ms[i].value)
    case _ => true
  }

  lemma {:induction false} CanonicalIsCanonical(v: Json)
    requires Proper(v)
    ensures InCanonicalForm(CanonicalValue(v))
  {
    match v
    case Float(f) => Round12Rounded(f);
    case Arr(items) =>
      forall i | 0 <= i < |items| ensures InCanonicalForm(CanonicalItems(items)[i]) {
        ItemsAt(items, i);
        CanonicalIsCanonical(items[i]);
      }
    case Obj(ms) =>
      var cs := CanonicalMembers(ms);
      CanonicalKeys(ms);
      SortAscends(cs);
      SortKeepsMembers(cs);
      forall i | 0 <= i < |ms| ensures InCanonicalForm(cs[i].value) {
        MembersAt(ms, i);
        CanonicalIsCanonical(ms[i].value);
      }
      forall m | m in SortMembers(cs) ensures InCanonicalForm(m.value) {
        assert m in cs;
      }
    case _ =>
  }

  /** Canonicalisation leaves a canonical value alone, so it is idempotent. */
  lemma {:induction false} CanonicalFixed(v: Json)
    requires InCanonicalForm(v)
    ensures CanonicalValue(v) == v
  {
    match v
    case Float(f) =>
      assert Strip(f.digits, f.exp) == (f.digits, f.exp);
    case Arr(items) =>
      forall i | 0 <= i < |items| ensures CanonicalItems(items)[i] == items[i] {
        ItemsAt(items, i);
        CanonicalFixed(items[i]);
      }
    case Obj(ms) =>
      forall i | 0 <= i < |ms| ensures CanonicalMembers(ms)[i] == ms[i] {
        MembersAt(ms, i);
        CanonicalFixed(ms[i].value);
      }
      assert CanonicalMembers(ms) == ms;
      SortedIsSorted(ms);
    case _ =>
  }

  /** Canonicalising twice is canonicalising once. */
  lemma CanonicalIdempotent(v: Json)
    requires Proper(v)
    ensures CanonicalValue(CanonicalValue(v)) == CanonicalValue(v)
  {
    CanonicalIsCanonical(v);
    CanonicalFixed(CanonicalValue(v));
  }

  // ---- what canonical equality means ----------------------------------

  /** The same document up to the order of object keys and twelve-digit rounding. */
  ghost predicate SameDocument(v: Json, w: Json) {
    match v
    case Float(f) => w.Float? && Round12(f) == Round12(w.f)
    case Arr(items) =>
      && w.Arr? && |items| == |w.items|
      && forall i :: 0 <= i < |items| ==> SameDocument(items[i], w.items[i])
    case Obj(ms) =>
      && w.Obj? && Elements(Keys(ms)) == Elements(Keys(w.members))
      && forall i, j :: 0 <= i < |ms| && 0 <= j < |w.members| && ms[i].key == w.members[j].key
                        ==> SameDocument(ms[i].value, w.members[j].value)
    case _ => v == w
  }

  /** Two documents have one canonical value exactly when they are the same document. */
  lemma {:induction false} CanonicalEquality(v: Json, w: Json)
    requires Proper(v) && Proper(w)
    ensures CanonicalValue(v) == CanonicalValue(w) <==> SameDocument(v, w)
  {
    match v
    case Arr(items) =>
      if w.Arr? { ItemsEquality(items, w.items); }
    case Obj(ms) =>
      if w.Obj? {
        forall i, j | 0 <= i < |ms| && 0 <= j < |w.members|
          ensures CanonicalValue(ms[i].value) == CanonicalValue(w.members[j].value)
                  <==> SameDocument(ms[i].value, w.members[j].value)
        {
          CanonicalEquality(ms[i].value, w.members[j].value);
        }
        MembersEquality(ms, w.members);
      }
    case _ =>
  }

  lemma {:induction false} ItemsEquality(a: seq<Json>, b: seq<Json>)
    requires forall i :: 0 <= i < |a| ==> Proper(a[i])
    requires forall i :: 0 <= i < |b| ==> Proper(b[i])
    ensures CanonicalItems(a) == CanonicalItems(b) <==> SameDocument(Arr(a), Arr(b))
    decreases a
  {
    if |a| == |b| {
      forall i | 0 <= i < |a|
        ensures CanonicalItems(a)[i] == CanonicalItems(b)[i] <==> SameDocument(a[i], b[i])
      {
        ItemsAt(a, i);
        ItemsAt(b, i);
        CanonicalEquality(a[i], b[i]);
      }
    }
  }

  lemma MembersEquality(ms: seq<Member>, ns: seq<Member>)
    requires UniqueKeys(ms) && UniqueKeys(ns)
    requires forall i, j :: 0 <= i < |ms| && 0 <= j < |ns| ==>
      (CanonicalValue(ms[i].value) == CanonicalValue(ns[j].value) <==> SameDocument(ms[i].value, ns[j].value))
    ensures SortMembers(CanonicalMembers(ms)) == SortMembers(CanonicalMembers(ns)) <==> SameDocument(Obj(ms), Obj(ns))
  {
    if SortMembers(CanonicalMembers(ms)) == SortMembers(CanonicalMembers(ns)) {
      EqualSortsKeys(ms, ns);
      EqualSortsKeys(ns, ms);
      forall i, j | 0 <= i < |ms| && 0 <= j < |ns| && ms[i].key == ns[j].key
        ensures SameDocument(ms[i].value, ns[j].value)
      {
        EqualSortsValue(ms, ns, i, j);
      }
    }
    if SameDocument(Obj(ms), Obj(ns)) {
      SameSortsEqual(ms, ns);
    }
  }

  lemma SortedLookup(ms: seq<Member>, key: string, value: Json)
    ensures Member(key, value) in SortMembers(CanonicalMembers(ms))
            <==> exists i :: 0 <= i < |ms| && ms[i].key == key && CanonicalValue(ms[i].value) == value
  {
    var cs := CanonicalMembers(ms);
    SortKeepsMembers(cs);
    forall i | 0 <= i < |ms| ensures cs[i] == Member(ms[i].key, CanonicalValue(ms[i].value)) { MembersAt(ms, i); }
  }

  lemma EqualSortsValue(ms: seq<Member>, ns: seq<Member>, i: nat, j: nat)
    requires UniqueKeys(ns) && SortMembers(CanonicalMembers(ms)) == SortMembers(CanonicalMembers(ns))
    requires i < |ms| && j < |ns| && ms[i].key == ns[j].key
    ensures CanonicalValue(ms[i].value) == CanonicalValue(ns[j].value)
  {
    var k := CounterpartOf(ms, ns, i);
    assert k == j;
  }

  lemma CounterpartOf(ms: seq<Member>, ns: seq<Member>, i: nat) returns (j: nat)
    requires SortMembers(CanonicalMembers(ms)) == SortMembers(CanonicalMembers(ns))
    requires i < |ms|
    ensures j < |ns| && ns[j].key == ms[i].key && CanonicalValue(ns[j].value) == CanonicalValue(ms[i].value)
  {
    SortedLookup(ms, ms[i].key, CanonicalValue(ms[i].value));
    SortedLookup(ns, ms[i].key, CanonicalValue(ms[i].value));
    j :| 0 <= j < |ns| && ns[j].key == ms[i].key && CanonicalValue(ns[j].value) == CanonicalValue(ms[i].value);
  }

  lemma EqualSortsKeys(ms: seq<Member>, ns: seq<Member>)
    requires SortMembers(CanonicalMembers(ms)) == SortMembers(CanonicalMembers(ns))
    ensures Elements(Keys(ms)) <= Elements(Keys(ns))
  {
    forall k | k in Elements(Keys(ms)) ensures k in Elements(Keys(ns)) {
      var i :| 0 <= i < |Keys(ms)| && Keys(ms)[i] == k;
      var j := CounterpartOf(ms, ns, i);
      assert Keys(ns)[j] == k;
    }
  }

  lemma SameSortsEqual(ms: seq<Member>, ns: seq<Member>)
    requires UniqueKeys(ms) && UniqueKeys(ns)
    requires Elements(Keys(ms)) == Elements(Keys(ns))
    requires forall i, j :: 0 <= i < |ms| && 0 <= j < |ns| && ms[i].key == ns[j].key
              ==> CanonicalValue(ms[i].value) == CanonicalValue(ns[j].value)
    ensures SortMembers(CanonicalMembers(ms)) == SortMembers(CanonicalMembers(ns))
  {
    var a, b := SortMembers(CanonicalMembers(ms)), SortMembers(CanonicalMembers(ns));
    CanonicalKeys(ms);
    CanonicalKeys(ns);
    SortAscends(CanonicalMembers(ms));
    SortAscends(CanonicalMembers(ns));
    SortSubset(ms, ns);
    SortSubset(ns, ms);
    AscendingMembersUnique(a, b);
  }

  lemma SortSubset(ms: seq<Member>, ns: seq<Member>)
    requires Elements(Keys(ms)) == Elements(Keys(ns))
    requires forall i, j :: 0 <= i < |ms| && 0 <= j < |ns| && ms[i].key == ns[j].key
              ==> CanonicalValue(ms[i].value) == CanonicalValue(ns[j].value)
    ensures forall m :: m in SortMembers(CanonicalMembers(ms)) ==> m in SortMembers(CanonicalMembers(ns))
  {
    forall m | m in SortMembers(CanonicalMembers(ms)) ensures m in SortMembers(CanonicalMembers(ns)) {
      SortedLookup(ms, m.key, m.value);
      SortedLookup(ns, m.key, m.value);
      var i :| 0 <= i < |ms| && ms[i].key == m.key && CanonicalValue(ms[i].value) == m.value;
      assert Keys(ms)[i] in Elements(Keys(ms));
      assert m.key in Keys(ns);
      var j :| 0 <= j < |ns| && Keys(ns)[j] == m.key;
      assert ns[j].key == m.key;
    }
  }

  lemma {:induction false} AscendingMembersUnique(a: seq<Member>, b: seq<Member>)
    requires KeysAscend(a) && KeysAscend(b)
    requires forall m :: m in a <==> m in b
    ensures a == b
  {
    assert a != [] ==> a[0] in b;
    assert b != [] ==> b[0] in a;
    if a != [] && b != [] {
      LessTrichotomy(a[0].key, b[0].key);
      AscendingTail(a);
      AscendingTail(b);
      assert a[0] == b[0];
      AscendingMembersUnique(a[1..], b[1..]);
      assert a == [a[0]] + a[1..] && b == [b[0]] + b[1..];
    }
  }

  lemma AscendingTail(a: seq<Member>)
    requires KeysAscend(a) && a != []
    ensures forall m :: m in a[1..] <==> m in a && m != a[0]
  {
    LessTrichotomy(a[0].key, a[0].key);
    assert a == [a[0]] + a[1..];
    forall m | m in a[1..] ensures m != a[0] {
      var i :| 0 <= i < |a[1..]| && a[1..][i] == m;
      assert a[i + 1] == m;
    }
  }
}
