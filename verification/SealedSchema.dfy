/** From the schema the model writes against to the schema the archive demands: a decision the
    compiled schema accepts is, once sealed, a document the authoritative schema accepts. */
module SealedSchema {
  import opened Text
  import opened Json
  import opened SchemaMeaning
  import opened SchemaCompiler
  import opened SchemaRefinement
  import SchemaWalk
  import opened Sealing

  /** The values that sealing a document at an instant puts in. */
  function SealValues(host: Host, doc: seq<Member>, at: int): HostValues
    requires Sealed(host, doc, at).Some?
  {
    var stamped := Assign(WithProposal(host, doc).value, "created_at", Str(host.render(at)));
    var proposal := Find(doc, "proposal");
    HostValues(host.render(at), ContractHash(host, stamped, "output_hash", TIME_FIELDS).value,
               if proposal.Some? && proposal.value.Obj? then
                 ContractHash(host, proposal.value.members, "proposal_hash", []).value
               else "")
  }

  lemma FilledProposal(values: HostValues, p: seq<Member>)
    requires UniqueKeys(p) && Find(p, "proposal_hash") == Some(Str(HASH_SENTINEL))
    ensures Fill(values, Proposal, Obj(p)) == Obj(Assign(p, "proposal_hash", Str(values.proposalHash)))
  {
    var filled, updated := FillMembers(values, Proposal, p), Assign(p, "proposal_hash", Str(values.proposalHash));
    forall i | 0 <= i < |p| ensures filled[i] == updated[i] {
      FillAt(values, Proposal, p, i);
    }
    assert filled == updated;
  }

  /** The one field of a decision that filling changes, by its key. */
  function FilledField(values: HostValues, key: string, value: Json): Json {
    if key == "created_at" && value == Str(TIME_SENTINEL) then Str(values.stamp)
    else if key == "output_hash" && value == Str(HASH_SENTINEL) then Str(values.outputHash)
    else if key == "proposal" then Fill(values, Proposal, value)
    else value
  }

  lemma FilledDecision(values: HostValues, doc: seq<Member>, i: nat)
    requires i < |doc|
    ensures FillMembers(values, Whole, doc)[i] == Member(doc[i].key, FilledField(values, doc[i].key, doc[i].value))
  {
    FillAt(values, Whole, doc, i);
  }

  lemma AssignAt(ms: seq<Member>, key: string, value: Json, i: nat)
    requires UniqueKeys(ms) && i < |ms| && HasKey(ms, key)
    ensures |Assign(ms, key, value)| == |ms| && UniqueKeys(Assign(ms, key, value))
    ensures Assign(ms, key, value)[i] == if ms[i].key == key then Member(key, value) else ms[i]
  {
    AssignUnique(ms, key, value);
  }

  lemma HasFound(ms: seq<Member>, key: string)
    ensures HasKey(ms, key) <==> Find(ms, key).Some?
  {
  }

  /** Sealing a decision with placeholders is filling in the host's values. */
  lemma SealingFills(host: Host, doc: seq<Member>, at: int)
    requires UniqueKeys(doc) && Unsealed(doc) && Find(doc, "output_hash") == Some(Str(HASH_SENTINEL))
    requires forall p :: Find(doc, "proposal") == Some(Obj(p)) ==> UniqueKeys(p)
    requires Sealed(host, doc, at).Some?
    ensures Obj(Sealed(host, doc, at).value) == Fill(SealValues(host, doc, at), Whole, Obj(doc))
  {
    hide ContractHash, WithProposal, Assign, FillMembers, Find;
    var values := SealValues(host, doc, at);
    var sealed, filled := Sealed(host, doc, at).value, FillMembers(values, Whole, doc);
    var proposed := WithProposal(host, doc).value;
    var stamped := Assign(proposed, "created_at", Str(host.render(at)));
    ProposedAt(host, doc, at);
    HasFound(doc, "created_at");
    HasFound(doc, "output_hash");
    assert Keys(proposed) == Keys(doc);
    KeysHave(doc, proposed, "created_at");
    AssignUnique(proposed, "created_at", Str(host.render(at)));
    KeysHave(doc, stamped, "output_hash");
    assert sealed == Assign(stamped, "output_hash", Str(values.outputHash));
    forall i | 0 <= i < |doc| ensures |sealed| == |doc| && sealed[i] == filled[i] {
      FilledDecision(values, doc, i);
      AssignAt(proposed, "created_at", Str(host.render(at)), i);
      AssignAt(stamped, "output_hash", Str(values.outputHash), i);
      assert doc[i].key == Keys(doc)[i] == Keys(proposed)[i] == proposed[i].key;
      FindAt(doc, i);
    }
    AssignUnique(stamped, "output_hash", Str(values.outputHash));
    assert |sealed| == |Keys(sealed)| == |doc|;
    assert sealed == filled;
  }

  lemma KeysHave(a: seq<Member>, b: seq<Member>, key: string)
    requires Keys(a) == Keys(b) && HasKey(a, key)
    ensures HasKey(b, key)
  {
    var i :| 0 <= i < |a| && a[i].key == key;
    assert Keys(a)[i] == Keys(b)[i] == b[i].key;
  }

  lemma ProposedAt(host: Host, doc: seq<Member>, at: int)
    requires UniqueKeys(doc) && Sealed(host, doc, at).Some?
    requires forall p :: Find(doc, "proposal") == Some(Obj(p)) ==> UniqueKeys(p)
    ensures var proposed := WithProposal(host, doc).value;
      && UniqueKeys(proposed) && Keys(proposed) == Keys(doc)
      && forall i :: 0 <= i < |doc| ==>
           proposed[i] == if doc[i].key == "proposal" then
                            Member(doc[i].key, Fill(SealValues(host, doc, at), Proposal, doc[i].value))
                          else doc[i]
  {
    var proposed, values := WithProposal(host, doc).value, SealValues(host, doc, at);
    HasFound(doc, "proposal");
    match Find(doc, "proposal") {
      case None =>
        assert forall i :: 0 <= i < |doc| ==> doc[i].key != "proposal";
      case Some(p) =>
        if p.Obj? {
          FilledProposal(values, p.members);
          AssignUnique(doc, "proposal", SealedProposal(host, p).value);
        }
        forall i | 0 <= i < |doc|
          ensures proposed[i] == if doc[i].key == "proposal" then
                    Member(doc[i].key, Fill(values, Proposal, doc[i].value))
                                 else doc[i]
        {
          FindAt(doc, i);
          if p.Obj? { AssignAt(doc, "proposal", SealedProposal(host, p).value, i); }
        }
    }
  }

  /** The schema given to the model, the seal and the authoritative schema fit together. */
  lemma SealedDecisionConforms(env: Env, approved: set<string>, name: string, depth: nat, root0: seq<Member>,
                               depth0: nat, host: Host, doc: seq<Member>, at: int)
    requires var r := StructuredOutputSchema(env.files, approved, name, depth);
      r.Ok? && Accepts(env, root0, r.value, Obj(doc), depth0)
    requires UniqueKeys(doc) && Unsealed(doc) && Find(doc, "output_hash") == Some(Str(HASH_SENTINEL))
    requires forall p :: Find(doc, "proposal") == Some(Obj(p)) ==> UniqueKeys(p)
    requires Sealed(host, doc, at).Some?
    requires Supported(env, SealValues(host, doc, at), env.files[name], Obj(env.files[name]), [], Whole, depth)
    requires env.unique ==> ArraysDistinct(Obj(Sealed(host, doc, at).value))
    ensures Accepts(env, env.files[name], Obj(env.files[name]), Obj(Sealed(host, doc, at).value), depth)
  {
    hide StructuredOutputSchema, Supported, Accepts, ArraysDistinct, Sealed, SealValues, Fill, Unsealed;
    SealingFills(host, doc, at);
    SchemaWalk.StructuredOutputNarrows(env, SealValues(host, doc, at), approved, name, Whole, depth, Obj(doc),
                                       root0, depth0);
  }
}
