/** Sealing a decision with the host's time and hashes, and verifying the seal. */
module Sealing {
  import opened Text
  import opened Json
  import opened Canonical
  import opened JsonText
  import JsonRoundTrip
  import SchemaCompiler

  /** The host: its hash, its reading and writing of timestamps, and the decision checks that
      look at neither the clock nor the hashes (schema, bindings, scopes, evidence). */
  datatype Host = Host(hash: string -> string, instant: string -> Option<int>, render: int -> string,
                       accepts: seq<Member> -> bool)

  /** A rendered instant reads back, and is never the placeholder. */
  ghost predicate Sound(host: Host) {
    && (forall t :: host.instant(host.render(t)) == Some(t))
    && (forall t :: host.render(t) != SchemaCompiler.TIME_SENTINEL)
  }

  ghost predicate InjectiveHash(host: Host) {
    forall a, b :: host.hash(a) == host.hash(b) ==> a == b
  }

  /** When the request was created and when it expires. */
  datatype Window = Window(created: int, expires: int)

  const TIME_FIELDS := ["request_expires_at", "created_at"]

  // ---- contract hashes -----------------------------------------------------------------

  function CanonicalTime(host: Host, v: Json): Option<Json> {
    if !v.Str? then None
    else match host.instant(v.s) case None => None case Some(t) => Some(Str(host.render(t)))
  }

  function WithTimes(host: Host, ms: seq<Member>, fields: seq<string>): Option<seq<Member>>
    decreases |fields|
  {
    if fields == [] then Some(ms)
    else
      match Find(ms, fields[0])
      case None => WithTimes(host, ms, fields[1..])
      case Some(v) =>
        match CanonicalTime(host, v)
        case None => None
        case Some(t) => WithTimes(host, Assign(ms, fields[0], t), fields[1..])
  }

  /** What is hashed: the document without the hash field, its timestamps in canonical form. */
  function Payload(host: Host, doc: seq<Member>, exclude: string, fields: seq<string>): Option<seq<Member>> {
    WithTimes(host, Without(doc, exclude), fields)
  }

  function ContractHash(host: Host, doc: seq<Member>, exclude: string, fields: seq<string>): Option<string> {
    match Payload(host, doc, exclude, fields)
    case None => None
    case Some(payload) =>
      match CanonicalText(Obj(payload))
      case None => None
      case Some(text) => Some(host.hash(text))
  }

  // ---- verifying and sealing -----------------------------------------------------------

  predicate ProposalSealed(host: Host, proposal: Json) {
    match proposal
    case Null => true
    case Obj(p) =>
      var h := ContractHash(host, p, "proposal_hash", []);
      h.Some? && Find(p, "proposal_hash") == Some(Str(h.value))
    case _ => false
  }

  predicate SealHolds(host: Host, doc: seq<Member>) {
    var h := ContractHash(host, doc, "output_hash", TIME_FIELDS);
    && h.Some? && Find(doc, "output_hash") == Some(Str(h.value))
    && match Find(doc, "proposal") case None => true case Some(p) => ProposalSealed(host, p)
  }

  predicate CreatedWithin(host: Host, doc: seq<Member>, from: int, to: int) {
    match Find(doc, "created_at")
    case Some(Str(s)) => (match host.instant(s) case None => false case Some(t) => from <= t <= to)
    case _ => false
  }

  /** `validate_research_decision`. */
  predicate Valid(host: Host, doc: seq<Member>, w: Window, now: int) {
    && host.accepts(doc) && now < w.expires
    && CreatedWithin(host, doc, w.created, now)
    && SealHolds(host, doc)
  }

  /** The proposal with its hash, or `None` where the host refuses it. */
  function SealedProposal(host: Host, proposal: Json): Option<Json> {
    if !proposal.Obj? || Find(proposal.members, "proposal_hash") != Some(Str(SchemaCompiler.HASH_SENTINEL)) then None
    else
      match ContractHash(host, proposal.members, "proposal_hash", [])
      case None => None
      case Some(h) => Some(Obj(Assign(proposal.members, "proposal_hash", Str(h))))
  }

  function WithProposal(host: Host, doc: seq<Member>): Option<seq<Member>> {
    match Find(doc, "proposal")
    case None => Some(doc)
    case Some(Null) => Some(doc)
    case Some(p) =>
      match SealedProposal(host, p)
      case None => None
      case Some(sealed) => Some(Assign(doc, "proposal", sealed))
  }

  /** The sealed document, before it is validated. */
  function Sealed(host: Host, doc: seq<Member>, at: int): Option<seq<Member>> {
    match WithProposal(host, doc)
    case None => None
    case Some(proposed) =>
      var stamped := Assign(proposed, "created_at", Str(host.render(at)));
      match ContractHash(host, stamped, "output_hash", TIME_FIELDS)
      case None => None
      case Some(h) => Some(Assign(stamped, "output_hash", Str(h)))
  }

  predicate Unsealed(doc: seq<Member>) {
    Find(doc, "created_at") == Some(Str(SchemaCompiler.TIME_SENTINEL))
  }

  function Finalized(host: Host, doc: seq<Member>, w: Window, at: int): Option<seq<Member>> {
    if !Unsealed(doc) then if Valid(host, doc, w, at) then Some(doc) else None
    else if Find(doc, "output_hash") != Some(Str(SchemaCompiler.HASH_SENTINEL)) then None
    else
      match Sealed(host, doc, at)
      case None => None
      case Some(sealed) => if Valid(host, sealed, w, at) then Some(sealed) else None
  }

  /** Every object the host indexes has distinct keys. */
  ghost predicate DistinctFields(doc: seq<Member>) {
    UniqueKeys(doc) && forall p :: Find(doc, "proposal") == Some(Obj(p)) ==> UniqueKeys(p)
  }

  /** The proposal carries the hash of the canonical text of its other fields. */
  ghost predicate ProposalBearsHash(host: Host, doc: seq<Member>) {
    match Find(doc, "proposal")
    case Some(Obj(p)) =>
      var text := CanonicalText(Obj(Without(p, "proposal_hash")));
      text.Some? && Find(p, "proposal_hash") == Some(Str(host.hash(text.value)))
    case other => other == None || other == Some(Null)
  }

  /** The three fields that the host fills in. */
  const HOST_FIELDS := {"proposal", "created_at", "output_hash"}

  /** `finalize_commander_output`: a copy of the document is completed field by field. What is
      returned verifies. A document that is sealed already is returned as it is or refused; one
      that is not gets the instant of receipt and keeps its other fields, and is refused exactly
      when a placeholder is missing, a field cannot be hashed, the other checks refuse it or the
      receipt lies outside the request's window. */
  method FinalizeCommanderOutput(host: Host, doc: seq<Member>, w: Window, at: int) returns (r: Option<seq<Member>>)
    ensures r == Finalized(host, doc, w, at)
    ensures r.Some? ==> Valid(host, r.value, w, at)
    ensures r.Some? ==> ProposalBearsHash(host, r.value)
    ensures r.Some? ==> host.accepts(r.value) && at < w.expires
    ensures r.Some? ==> exists s, t :: Find(r.value, "created_at") == Some(Str(s)) && host.instant(s) == Some(t)
                                       && w.created <= t <= at
    ensures !Unsealed(doc) ==> r == if Valid(host, doc, w, at) then Some(doc) else None
    ensures Unsealed(doc) && r.Some? ==>
      && Find(r.value, "created_at") == Some(Str(host.render(at)))
      && forall key :: key !in HOST_FIELDS ==> Find(r.value, key) == Find(doc, key)
    ensures Sound(host) && DistinctFields(doc) && Unsealed(doc) ==>
      (r.Some? <==>
        && Find(doc, "output_hash") == Some(Str(SchemaCompiler.HASH_SENTINEL)) && Sealed(host, doc, at).Some?
        && host.accepts(Sealed(host, doc, at).value) && w.created <= at < w.expires)
  {
    hide ContractHash, Valid, Find, Assign, DistinctFields, Sound, ProposalBearsHash;
    FinalizedMeans(host, doc, w, at);
    if Finalized(host, doc, w, at).Some? { FinalizedBears(host, doc, w, at); }
    if Find(doc, "created_at") != Some(Str(SchemaCompiler.TIME_SENTINEL)) {
      return if Valid(host, doc, w, at) then Some(doc) else None;
    }
    if Find(doc, "output_hash") != Some(Str(SchemaCompiler.HASH_SENTINEL)) { return None; }
    var output := doc;
    var proposal := Find(output, "proposal");
    if proposal.Some? && !proposal.value.Null? {
      if !proposal.value.Obj? { return None; }
      var p := proposal.value.members;
      if Find(p, "proposal_hash") != Some(Str(SchemaCompiler.HASH_SENTINEL)) { return None; }
      var hash := ContractHash(host, p, "proposal_hash", []);
      if hash == None { return None; }
      p := Assign(p, "proposal_hash", Str(hash.value));
      output := Assign(output, "proposal", Obj(p));
    }
    output := Assign(output, "created_at", Str(host.render(at)));
    var hash := ContractHash(host, output, "output_hash", TIME_FIELDS);
    if hash == None { return None; }
    output := Assign(output, "output_hash", Str(hash.value));
    return if Valid(host, output, w, at) then Some(output) else None;
  }

  lemma FinalizedBears(host: Host, doc: seq<Member>, w: Window, at: int)
    requires Finalized(host, doc, w, at).Some?
    ensures var r := Finalized(host, doc, w, at).value;
      && ProposalBearsHash(host, r) && host.accepts(r) && at < w.expires
      && exists s, t :: Find(r, "created_at") == Some(Str(s)) && host.instant(s) == Some(t) && w.created <= t <= at
  {
    hide CanonicalText, Find, Without, Sealed;
  }

  // ---- a sealed document verifies --------------------------------------------------------

  lemma WithoutAssigned(ms: seq<Member>, key: string, value: Json)
    requires UniqueKeys(ms)
    ensures Without(Assign(ms, key, value), key) == Without(ms, key)
  {
    var i := IndexOf(ms, key);
    var r := Assign(ms, key, value);
    assert IndexOf(r, key) == i by {
      if i == |ms| { assert r[i].key == key; }
    }
  }

  lemma SealedProposalHolds(host: Host, proposal: Json)
    requires proposal.Obj? ==> UniqueKeys(proposal.members)
    requires SealedProposal(host, proposal).Some?
    ensures ProposalSealed(host, SealedProposal(host, proposal).value)
  {
    var p := proposal.members;
    var h := ContractHash(host, p, "proposal_hash", []).value;
    WithoutAssigned(p, "proposal_hash", Str(h));
    FindAssign(p, "proposal_hash", Str(h), "proposal_hash");
  }

  lemma WithProposalHolds(host: Host, doc: seq<Member>)
    requires UniqueKeys(doc) && WithProposal(host, doc).Some?
    requires forall p :: Find(doc, "proposal") == Some(Obj(p)) ==> UniqueKeys(p)
    ensures var proposed := WithProposal(host, doc).value;
      && UniqueKeys(proposed)
      && (match Find(proposed, "proposal") case None => true case Some(p) => ProposalSealed(host, p))
      && (forall key :: key != "proposal" ==> Find(proposed, key) == Find(doc, key))
  {
    hide ProposalSealed;
    match Find(doc, "proposal") {
      case None =>
      case Some(p) =>
        if p.Null? {
          NullSealed(host);
        } else {
          SealedProposalHolds(host, p);
          var sealed := SealedProposal(host, p).value;
          AssignUnique(doc, "proposal", sealed);
          forall key
            ensures Find(Assign(doc, "proposal", sealed), key)
                 == if key == "proposal" then Some(sealed) else Find(doc, key)
          {
            FindAssign(doc, "proposal", sealed, key);
          }
        }
    }
  }

  lemma NullSealed(host: Host)
    ensures ProposalSealed(host, Null)
  {
  }

  /** Sealing computes hashes that its own verification accepts, stamps the given instant, and
      touches no other field. */
  lemma SealedHolds(host: Host, doc: seq<Member>, at: int)
    requires Sound(host) && UniqueKeys(doc) && Sealed(host, doc, at).Some?
    requires forall p :: Find(doc, "proposal") == Some(Obj(p)) ==> UniqueKeys(p)
    ensures var sealed := Sealed(host, doc, at).value;
      && SealHolds(host, sealed) && !Unsealed(sealed)
      && Find(sealed, "created_at") == Some(Str(host.render(at)))
      && forall key :: key !in {"proposal", "created_at", "output_hash"} ==> Find(sealed, key) == Find(doc, key)
  {
    hide ContractHash, ProposalSealed, WithProposal, Find, Assign;
    WithProposalHolds(host, doc);
    var proposed, stamp := WithProposal(host, doc).value, Str(host.render(at));
    var stamped := Assign(proposed, "created_at", stamp);
    AssignUnique(proposed, "created_at", stamp);
    var h := Str(ContractHash(host, stamped, "output_hash", TIME_FIELDS).value);
    StampedFields(proposed, stamp, h);
    WithoutAssigned(stamped, "output_hash", h);
    SameHash(host, Assign(stamped, "output_hash", h), stamped, "output_hash", TIME_FIELDS);
  }

  lemma StampedFields(proposed: seq<Member>, stamp: Json, h: Json)
    ensures var sealed := Assign(Assign(proposed, "created_at", stamp), "output_hash", h);
      forall key :: Find(sealed, key)
        == if key == "output_hash" then Some(h) else if key == "created_at" then Some(stamp) else Find(proposed, key)
  {
    var stamped := Assign(proposed, "created_at", stamp);
    forall key
      ensures Find(Assign(stamped, "output_hash", h), key)
        == if key == "output_hash" then Some(h) else if key == "created_at" then Some(stamp) else Find(proposed, key)
    {
      hide Find, Assign;
      FindAssign(proposed, "created_at", stamp, key);
      FindAssign(stamped, "output_hash", h, key);
    }
  }

  lemma SameHash(host: Host, a: seq<Member>, b: seq<Member>, exclude: string, fields: seq<string>)
    requires Without(a, exclude) == Without(b, exclude)
    ensures ContractHash(host, a, exclude, fields) == ContractHash(host, b, exclude, fields)
  {
  }

  /** Finalising an unsealed decision succeeds exactly when its fields can be hashed, the other
      checks accept the sealed document and the receipt lies in the request's window; a later
      finalisation before expiry returns the sealed decision unchanged. */
  lemma FinalizeSealsOnce(host: Host, doc: seq<Member>, w: Window, at: int, later: int)
    requires Sound(host) && UniqueKeys(doc) && Unsealed(doc)
    requires forall p :: Find(doc, "proposal") == Some(Obj(p)) ==> UniqueKeys(p)
    requires Find(doc, "output_hash") == Some(Str(SchemaCompiler.HASH_SENTINEL))
    ensures var sealed := Sealed(host, doc, at);
      && Finalized(host, doc, w, at)
         == (if sealed.Some? && host.accepts(sealed.value) && w.created <= at < w.expires then sealed else None)
      && (Finalized(host, doc, w, at).Some? && at <= later < w.expires ==>
            Finalized(host, sealed.value, w, later) == sealed)
  {
    hide Find, Assign, SealHolds, Sealed;
    if Sealed(host, doc, at).Some? {
      SealedHolds(host, doc, at);
      assert host.instant(host.render(at)) == Some(at);
    }
  }

  lemma SealedFields(host: Host, doc: seq<Member>, at: int)
    requires Sealed(host, doc, at).Some?
    ensures var sealed := Sealed(host, doc, at).value;
      && Find(sealed, "created_at") == Some(Str(host.render(at)))
      && forall key :: key !in HOST_FIELDS ==> Find(sealed, key) == Find(doc, key)
  {
    hide ContractHash, Find, Assign, SealedProposal;
    var proposed := WithProposal(host, doc).value;
    var stamped := Assign(proposed, "created_at", Str(host.render(at)));
    StampedFields(proposed, Str(host.render(at)), Str(ContractHash(host, stamped, "output_hash", TIME_FIELDS).value));
    forall key | key != "proposal" ensures Find(proposed, key) == Find(doc, key) {
      if proposed != doc { FindAssign(doc, "proposal", SealedProposal(host, Find(doc, "proposal").value).value, key); }
    }
  }

  /** What finalising means to the caller. */
  lemma FinalizedMeans(host: Host, doc: seq<Member>, w: Window, at: int)
    ensures var r := Finalized(host, doc, w, at);
      && (Unsealed(doc) && r.Some? ==>
            && Find(r.value, "created_at") == Some(Str(host.render(at)))
            && forall key :: key !in HOST_FIELDS ==> Find(r.value, key) == Find(doc, key))
      && (Sound(host) && DistinctFields(doc) && Unsealed(doc) ==>
            (r.Some? <==>
              && Find(doc, "output_hash") == Some(Str(SchemaCompiler.HASH_SENTINEL)) && Sealed(host, doc, at).Some?
              && host.accepts(Sealed(host, doc, at).value) && w.created <= at < w.expires))
  {
    hide Find, Assign, Sealed, Valid, Sound;
    if Unsealed(doc) && Find(doc, "output_hash") == Some(Str(SchemaCompiler.HASH_SENTINEL)) {
      if Sealed(host, doc, at).Some? { SealedFields(host, doc, at); }
      if Sound(host) && DistinctFields(doc) { FinalizeSealsOnce(host, doc, w, at, at); }
    }
  }

  // ---- the hash binds every other field ----------------------------------------------------

  ghost predicate SameField(a: Option<Json>, b: Option<Json>) {
    match (a, b)
    case (None, None) => true
    case (Some(v), Some(w)) => SameDocument(v, w)
    case _ => false
  }

  /** A field as it is hashed. */
  function TimedField(host: Host, ms: seq<Member>, fields: seq<string>, key: string): Option<Json> {
    if key in fields && Find(ms, key).Some? then CanonicalTime(host, Find(ms, key).value) else Find(ms, key)
  }

  lemma {:induction false} WithTimesUnique(host: Host, ms: seq<Member>, fields: seq<string>)
    requires UniqueKeys(ms) && WithTimes(host, ms, fields).Some?
    requires forall i, j :: 0 <= i < j < |fields| ==> fields[i] != fields[j]
    ensures UniqueKeys(WithTimes(host, ms, fields).value)
    ensures forall key :: Find(WithTimes(host, ms, fields).value, key) == TimedField(host, ms, fields, key)
    decreases |fields|
  {
    if fields != [] {
      var rest := fields[1..];
      assert forall i :: 0 <= i < |rest| ==> rest[i] == fields[i + 1];
      assert forall key :: key in fields <==> key == fields[0] || key in rest;
      match Find(ms, fields[0]) {
        case None => WithTimesUnique(host, ms, rest);
        case Some(v) =>
          hide Find, Assign, CanonicalTime;
          var t := CanonicalTime(host, v).value;
          AssignUnique(ms, fields[0], t);
          WithTimesUnique(host, Assign(ms, fields[0], t), rest);
          forall key
            ensures Find(Assign(ms, fields[0], t), key) == if key == fields[0] then Some(t) else Find(ms, key)
          {
            FindAssign(ms, fields[0], t, key);
          }
      }
    }
  }

  lemma SameObjectFields(a: seq<Member>, b: seq<Member>, key: string)
    requires UniqueKeys(a) && UniqueKeys(b) && SameDocument(Obj(a), Obj(b))
    ensures SameField(Find(a, key), Find(b, key))
  {
    var i, j := IndexOf(a, key), IndexOf(b, key);
    assert i < |a| ==> Keys(a)[i] in Elements(Keys(b));
    assert j < |b| ==> Keys(b)[j] in Elements(Keys(a));
    if i < |a| {
      var k :| 0 <= k < |Keys(b)| && Keys(b)[k] == key;
    }
    if j < |b| {
      var k :| 0 <= k < |Keys(a)| && Keys(a)[k] == key;
    }
  }

  lemma PayloadProper(host: Host, doc: seq<Member>)
    requires Proper(Obj(doc)) && Payload(host, doc, "output_hash", TIME_FIELDS).Some?
    ensures Proper(Obj(Payload(host, doc, "output_hash", TIME_FIELDS).value))
  {
    var bare := Without(doc, "output_hash");
    WithoutUnique(doc, "output_hash");
    assert Proper(Obj(bare)) by {
      forall i | 0 <= i < |bare| ensures Proper(bare[i].value) {
        assert bare[i] in doc;
      }
    }
    TimesProper(host, bare, TIME_FIELDS);
  }

  lemma {:induction false} TimesProper(host: Host, ms: seq<Member>, fields: seq<string>)
    requires Proper(Obj(ms)) && WithTimes(host, ms, fields).Some?
    ensures Proper(Obj(WithTimes(host, ms, fields).value))
    decreases |fields|
  {
    if fields != [] {
      match Find(ms, fields[0]) {
        case None => TimesProper(host, ms, fields[1..]);
        case Some(v) =>
          var t := CanonicalTime(host, v).value;
          AssignUnique(ms, fields[0], t);
          var more := Assign(ms, fields[0], t);
          assert Proper(Obj(more)) by {
            forall i | 0 <= i < |more| ensures Proper(more[i].value) { }
          }
          TimesProper(host, more, fields[1..]);
      }
    }
  }

  /** Two valid decisions with one output hash agree on every other field: on the two timestamps
      as instants where renderings read back, elsewhere up to key order and number normalisation. */
  lemma HashBindsDecision(host: Host, a: seq<Member>, b: seq<Member>, key: string)
    requires InjectiveHash(host) && Proper(Obj(a)) && Proper(Obj(b)) && SealHolds(host, a) && SealHolds(host, b)
    requires Find(a, "output_hash") == Find(b, "output_hash")
    ensures key !in TIME_FIELDS ==> SameField(Find(a, key), Find(b, key))
    ensures key in TIME_FIELDS ==>
      (Find(a, key).Some? <==> Find(b, key).Some?)
      && (Find(a, key).Some? ==> CanonicalTime(host, Find(a, key).value) == CanonicalTime(host, Find(b, key).value))
      && (Find(a, key).Some? && Sound(host) ==>
            && Find(a, key).value.Str? && Find(b, key).value.Str?
            && host.instant(Find(a, key).value.s) == host.instant(Find(b, key).value.s) != None)
  {
    hide SealHolds, CanonicalText, Find, Payload, CanonicalTime, Proper, Finite, SameDocument, SameField, InjectiveHash;
    if key == "output_hash" {
      SameHashField(host, a, b);
    } else {
      var pa := SealPayload(host, a, key);
      var pb := SealPayload(host, b, key);
      EqualHashes(host, pa, pb);
      SameObjectFields(pa, pb, key);
      if key in TIME_FIELDS {
        TimesAreStrings(host, a, key);
        TimesAreStrings(host, b, key);
        SameStrings(Find(pa, key), Find(pb, key));
        if Find(a, key).Some? && Sound(host) {
          SameInstants(host, Find(a, key).value, Find(b, key).value);
        }
      }
    }
  }

  /** A rendering determines its instant. */
  lemma SameInstants(host: Host, v: Json, w: Json)
    requires Sound(host) && CanonicalTime(host, v).Some? && CanonicalTime(host, v) == CanonicalTime(host, w)
    ensures v.Str? && w.Str? && host.instant(v.s) == host.instant(w.s) != None
  {
    var t, u := host.instant(v.s).value, host.instant(w.s).value;
    assert host.instant(host.render(t)) == Some(t) && host.instant(host.render(u)) == Some(u);
  }

  lemma SameHashField(host: Host, a: seq<Member>, b: seq<Member>)
    requires SealHolds(host, a) && Find(a, "output_hash") == Find(b, "output_hash")
    ensures SameField(Find(a, "output_hash"), Find(b, "output_hash"))
  {
  }

  lemma EqualHashes(host: Host, a: seq<Member>, b: seq<Member>)
    requires InjectiveHash(host) && Proper(Obj(a)) && Proper(Obj(b)) && Finite(Obj(a)) && Finite(Obj(b))
    requires host.hash(CanonicalText(Obj(a)).value) == host.hash(CanonicalText(Obj(b)).value)
    ensures SameDocument(Obj(a), Obj(b))
  {
    JsonRoundTrip.CanonicalTextEquality(Obj(a), Obj(b));
    hide SameDocument, CanonicalValue, Print, Proper;
  }

  lemma SameStrings(v: Option<Json>, w: Option<Json>)
    requires SameField(v, w) && (v.Some? ==> v.value.Str?)
    ensures v == w
  {
  }

  lemma SealPayload(host: Host, doc: seq<Member>, key: string) returns (payload: seq<Member>)
    requires Proper(Obj(doc)) && SealHolds(host, doc) && key != "output_hash"
    ensures Payload(host, doc, "output_hash", TIME_FIELDS) == Some(payload)
    ensures UniqueKeys(payload) && Proper(Obj(payload)) && Finite(Obj(payload))
    ensures Find(doc, "output_hash") == Some(Str(host.hash(CanonicalText(Obj(payload)).value)))
    ensures Find(payload, key) == TimedField(host, doc, TIME_FIELDS, key)
  {
    payload := Payload(host, doc, "output_hash", TIME_FIELDS).value;
    PayloadProper(host, doc);
    WithoutUnique(doc, "output_hash");
    FindWithout(doc, "output_hash", key);
    WithTimesUnique(host, Without(doc, "output_hash"), TIME_FIELDS);
  }

  lemma TimesAreStrings(host: Host, doc: seq<Member>, key: string)
    requires Proper(Obj(doc)) && SealHolds(host, doc) && key in TIME_FIELDS
    ensures Find(doc, key).Some? ==>
      CanonicalTime(host, Find(doc, key).value).Some? && CanonicalTime(host, Find(doc, key).value).value.Str?
  {
    var payload := SealPayload(host, doc, key);
    FindWithout(doc, "output_hash", key);
    if Find(doc, key).Some? { TimesParse(host, Without(doc, "output_hash"), TIME_FIELDS, key); }
  }

  lemma {:induction false} TimesParse(host: Host, ms: seq<Member>, fields: seq<string>, key: string)
    requires WithTimes(host, ms, fields).Some? && key in fields && Find(ms, key).Some?
    requires forall i, j :: 0 <= i < j < |fields| ==> fields[i] != fields[j]
    ensures CanonicalTime(host, Find(ms, key).value).Some?
    decreases |fields|
  {
    var rest := fields[1..];
    assert forall i :: 0 <= i < |rest| ==> rest[i] == fields[i + 1];
    if key != fields[0] {
      match Find(ms, fields[0]) {
        case None => TimesParse(host, ms, rest, key);
        case Some(v) =>
          var t := CanonicalTime(host, v).value;
          FindAssign(ms, fields[0], t, key);
          TimesParse(host, Assign(ms, fields[0], t), rest, key);
      }
    }
  }

  // ---- the hashes of what is returned ------------------------------------------------------

  lemma AssignProper(ms: seq<Member>, key: string, value: Json)
    requires Proper(Obj(ms)) && Proper(value)
    ensures Proper(Obj(Assign(ms, key, value)))
  {
    AssignUnique(ms, key, value);
  }

  lemma FoundProper(ms: seq<Member>, key: string)
    requires Proper(Obj(ms)) && Find(ms, key).Some?
    ensures Proper(Find(ms, key).value)
  {
  }

  lemma FinalizedProper(host: Host, doc: seq<Member>, w: Window, at: int)
    requires Proper(Obj(doc)) && Finalized(host, doc, w, at).Some?
    ensures Proper(Obj(Finalized(host, doc, w, at).value))
  {
    hide Proper, Assign, Find, ContractHash, Valid;
    if Unsealed(doc) {
      var proposed := WithProposal(host, doc).value;
      if proposed != doc {
        var p := Find(doc, "proposal").value;
        FoundProper(doc, "proposal");
        var h := ContractHash(host, p.members, "proposal_hash", []).value;
        StringProper(h);
        AssignProper(p.members, "proposal_hash", Str(h));
        AssignProper(doc, "proposal", SealedProposal(host, p).value);
      }
      StringProper(host.render(at));
      AssignProper(proposed, "created_at", Str(host.render(at)));
      var stamped := Assign(proposed, "created_at", Str(host.render(at)));
      var h := ContractHash(host, stamped, "output_hash", TIME_FIELDS).value;
      StringProper(h);
      AssignProper(stamped, "output_hash", Str(h));
    }
  }

  lemma StringProper(text: string)
    ensures Proper(Str(text))
  {
  }

  /** The field of a decision that its hash is computed from: timestamps as their instants are
      rendered, and the hash itself left out. */
  function HashedField(host: Host, doc: seq<Member>, key: string): Option<Json> {
    match Find(doc, key)
    case None => None
    case Some(v) =>
      if key == "output_hash" then None
      else if key == "created_at" || key == "request_expires_at" then
        if v.Str? && host.instant(v.s).Some? then Some(Str(host.render(host.instant(v.s).value))) else None
      else Some(v)
  }

  /** Every decision that is returned carries the hash of the canonical text of its other fields,
      timestamps rendered, and so does its proposal, if it has one. */
  lemma ReturnedBearsHashes(host: Host, doc: seq<Member>, w: Window, at: int) returns (payload: seq<Member>)
    requires Proper(Obj(doc)) && Finalized(host, doc, w, at).Some?
    ensures var r := Finalized(host, doc, w, at).value;
      && ProposalBearsHash(host, r)
      && UniqueKeys(payload) && (forall key :: Find(payload, key) == HashedField(host, r, key))
      && CanonicalText(Obj(payload)).Some?
      && Find(r, "output_hash") == Some(Str(host.hash(CanonicalText(Obj(payload)).value)))
  {
    var r := Finalized(host, doc, w, at).value;
    FinalizedProper(host, doc, w, at);
    FinalizedBears(host, doc, w, at);
    hide Find, Finalized, CanonicalText, Payload, TimedField, HashedField, Proper, ProposalBearsHash;
    payload := SealPayload(host, r, "created_at");
    forall key ensures Find(payload, key) == HashedField(host, r, key) { PayloadField(host, r, payload, key); }
  }

  lemma PayloadField(host: Host, doc: seq<Member>, payload: seq<Member>, key: string)
    requires Proper(Obj(doc)) && SealHolds(host, doc)
    requires Payload(host, doc, "output_hash", TIME_FIELDS) == Some(payload)
    ensures Find(payload, key) == HashedField(host, doc, key)
  {
    hide SealHolds, Proper, CanonicalText, Find, Without, WithTimes, UniqueKeys;
    ProperUnique(doc);
    WithoutUnique(doc, "output_hash");
    FindWithout(doc, "output_hash", key);
    WithTimesUnique(host, Without(doc, "output_hash"), TIME_FIELDS);
  }

  lemma ProperUnique(doc: seq<Member>)
    requires Proper(Obj(doc))
    ensures UniqueKeys(doc)
  {
  }

  /** Two returned decisions whose proposals bear one hash have proposals that agree on every other
      field, up to key order and number normalisation. */
  lemma HashBindsProposal(host: Host, a: seq<Member>, b: seq<Member>, p: seq<Member>, q: seq<Member>, key: string)
    requires InjectiveHash(host) && ProposalBearsHash(host, a) && ProposalBearsHash(host, b)
    requires Find(a, "proposal") == Some(Obj(p)) && Find(b, "proposal") == Some(Obj(q))
    requires Proper(Obj(p)) && Proper(Obj(q)) && Find(p, "proposal_hash") == Find(q, "proposal_hash")
    requires key != "proposal_hash"
    ensures SameField(Find(p, key), Find(q, key))
  {
    var u, v := Without(p, "proposal_hash"), Without(q, "proposal_hash");
    WithoutProper(p, "proposal_hash");
    WithoutProper(q, "proposal_hash");
    ProperUnique(p);
    ProperUnique(q);
    ProperUnique(u);
    ProperUnique(v);
    FindWithout(p, "proposal_hash", key);
    FindWithout(q, "proposal_hash", key);
    hide Find, Without, Proper, SameDocument, SameField, CanonicalText, UniqueKeys, InjectiveHash;
    TextFinite(u);
    TextFinite(v);
    EqualHashes(host, u, v);
    SameObjectFields(u, v, key);
  }

  lemma TextFinite(ms: seq<Member>)
    requires CanonicalText(Obj(ms)).Some?
    ensures Finite(Obj(ms))
  {
    hide Print, Canonical.CanonicalValue, Finite;
  }

  lemma WithoutProper(ms: seq<Member>, key: string)
    requires Proper(Obj(ms))
    ensures Proper(Obj(Without(ms, key)))
  {
    var bare := Without(ms, key);
    WithoutUnique(ms, key);
    forall i | 0 <= i < |bare| ensures Proper(bare[i].value) { assert bare[i] in ms; }
  }
}
