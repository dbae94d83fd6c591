/**
 What the structs are read from: for each, exactly the JSON that reads as a given
 value, by wire name. Absent and null are alike for optional members; members no
 field models are kept.
 */
module EvidenceReading {
  import opened Wrappers
  import opened Json
  import opened Recording
  import opened Evidence
  import opened EvidenceJson
  import opened EvidenceReread

  // --- Members -------------------------------------------------------------------------

  predicate SpellsOptStr(o: Option<Json>, s: Option<string>) {
    if s.None? then o.None? || o == Some(Null) else o == Some(Str(s.value))
  }

  predicate SpellsOptU64(o: Option<Json>, n: Option<u64>) {
    if n.None? then o.None? || o == Some(Null) else o == Some(Int(n.value))
  }

  predicate SpellsStrs(v: Json, ss: seq<string>) {
    v.Arr? && |v.items| == |ss| && forall i :: 0 <= i < |ss| ==> v.items[i] == Str(ss[i])
  }

  predicate SpellsOptStrs(o: Option<Json>, ss: Option<seq<string>>) {
    if ss.None? then o.None? || o == Some(Null) else o.Some? && SpellsStrs(o.value, ss.value)
  }

  lemma StrReads(m: Members, k: string, s: string)
    ensures ReadStr(m, k) == Some(s) <==> Lookup(m, k) == Some(Str(s))
  {
  }

  lemma BoolReads(m: Members, k: string, b: bool)
    ensures ReadBool(m, k) == Some(b) <==> Lookup(m, k) == Some(Bool(b))
  {
  }

  lemma U64Reads(m: Members, k: string, n: u64)
    ensures ReadU64(m, k) == Some(n) <==> Lookup(m, k) == Some(Int(n))
  {
  }

  lemma OptStrReads(m: Members, k: string, s: Option<string>)
    ensures ReadOptStr(m, k) == Some(s) <==> SpellsOptStr(Lookup(m, k), s)
  {
  }

  lemma OptU64Reads(m: Members, k: string, n: Option<u64>)
    ensures ReadOptU64(m, k) == Some(n) <==> SpellsOptU64(Lookup(m, k), n)
  {
  }

  lemma StrsSpelled(v: Json, ss: seq<string>)
    ensures SpellsStrs(v, ss) <==> v == Strs(ss)
  {
    if SpellsStrs(v, ss) {
      assert v.items == Strs(ss).items;
    }
  }

  lemma OptStrsReads(m: Members, k: string, ss: Option<seq<string>>)
    ensures ReadOptStrs(m, k) == Some(ss) <==> SpellsOptStrs(Lookup(m, k), ss)
  {
    hide SpellsStrs, Strs;
    if ss.Some? {
      StrsSpelled(Or(m, k, Some(Null)).value, ss.value);
      IsStrsWhenSpelled(Or(m, k, Some(Null)).value, ss.value);
    }
    var o := ReadOptStrs(m, k);
    if o.Some? && o.value.Some? && ss.Some? {
      StrsInjective(o.value.value, ss.value);
    }
  }

  lemma IsStrsWhenSpelled(v: Json, ss: seq<string>)
    ensures v == Strs(ss) ==> IsStrs(v)
  {
  }

  /** The mode's name, or an object with that one key and a null. */
  predicate SpellsMode(v: Json, mode: RecordingMode) {
    var name := match mode case Validation => "validation" case Delta => "delta" case Full => "full";
    v == Str(name) || v == Obj(map[name := Null])
  }

  lemma ModeReads(v: Json, mode: RecordingMode)
    ensures ReadMode(v) == Some(mode) <==> SpellsMode(v, mode)
  {
    assert "validation"[0] != "delta"[0] && "validation"[0] != "full"[0] && "delta"[0] != "full"[0];
    assert "validation" in map["validation" := Null];
    assert "delta" in map["delta" := Null];
    assert "full" in map["full" := Null];
  }

  // --- Envelopes and legacy signatures ---------------------------------------------------

  /** A struct without a catch-all: an object with its members among others, or an array of its fields. */
  predicate SpellsDsseSignature(v: Json, s: DsseSignature) {
    || (v.Obj? && Lookup(v.members, "keyid") == Some(Str(s.keyid)) && Lookup(v.members, "sig") == Some(Str(s.sig)))
    || v == Arr([Str(s.keyid), Str(s.sig)])
  }

  predicate SpellsDsseSignatures(v: Json, sigs: seq<DsseSignature>) {
    v.Arr? && |v.items| == |sigs| && forall i :: 0 <= i < |sigs| ==> SpellsDsseSignature(v.items[i], sigs[i])
  }

  predicate SpellsEnvelope(v: Json, e: DsseEnvelope) {
    || (&& v.Obj? && Lookup(v.members, "payloadType") == Some(Str(e.payloadType))
        && Lookup(v.members, "payload") == Some(Str(e.payload))
        && "signatures" in v.members && SpellsDsseSignatures(v.members["signatures"], e.signatures))
    || (&& v.Arr? && |v.items| == 3 && v.items[0] == Str(e.payloadType) && v.items[1] == Str(e.payload)
        && SpellsDsseSignatures(v.items[2], e.signatures))
  }

  predicate SpellsAepSignature(v: Json, s: AepSignature) {
    || (&& v.Obj? && Lookup(v.members, "alg") == Some(Str(s.alg))
        && Lookup(v.members, "key_id") == Some(Str(s.keyId)) && Lookup(v.members, "sig") == Some(Str(s.sig)))
    || v == Arr([Str(s.alg), Str(s.keyId), Str(s.sig)])
  }

  lemma DsseSignatureReads(v: Json, s: DsseSignature)
    ensures ReadDsseSignature(v) == Some(s) <==> SpellsDsseSignature(v, s)
  {
    if v.Arr? && |v.items| == 2 {
      assert v.items == [v.items[0], v.items[1]];
    }
  }

  lemma {:induction false} DsseSignaturesReadExactly(items: seq<Json>, sigs: seq<DsseSignature>)
    ensures ReadDsseSignatures(items) == Some(sigs) <==> SpellsDsseSignatures(Arr(items), sigs)
  {
    hide ReadDsseSignature, SpellsDsseSignature;
    if items != [] && sigs != [] {
      DsseSignatureReads(items[0], sigs[0]);
      DsseSignaturesReadExactly(items[1..], sigs[1..]);
      assert sigs == [sigs[0]] + sigs[1..];
      assert forall i :: 0 < i < |items| ==> items[i] == items[1..][i - 1];
      assert forall i :: 0 < i < |sigs| ==> sigs[i] == sigs[1..][i - 1];
      assert forall i :: 0 <= i < |sigs[1..]| ==> sigs[1..][i] == sigs[i + 1];
    }
  }

  lemma EnvelopeReadsExactly(v: Json, e: DsseEnvelope)
    ensures ReadEnvelope(v) == Some(e) <==> SpellsEnvelope(v, e)
  {
    hide ReadDsseSignatures, SpellsDsseSignatures;
    if v.Obj? && "signatures" in v.members && v.members["signatures"].Arr? {
      DsseSignaturesReadExactly(v.members["signatures"].items, e.signatures);
    } else if v.Arr? && |v.items| == 3 && v.items[2].Arr? {
      DsseSignaturesReadExactly(v.items[2].items, e.signatures);
    }
    SignaturesAreAnArray(e.signatures);
  }

  lemma SignaturesAreAnArray(sigs: seq<DsseSignature>)
    ensures forall v :: SpellsDsseSignatures(v, sigs) ==> v.Arr?
  {
  }

  lemma AepSignatureReadsExactly(v: Json, s: AepSignature)
    ensures ReadAepSignature(v) == Some(s) <==> SpellsAepSignature(v, s)
  {
    if v.Arr? && |v.items| == 3 {
      assert v.items == [v.items[0], v.items[1], v.items[2]];
    }
  }

  predicate SpellsOptEnvelope(o: Option<Json>, e: Option<DsseEnvelope>) {
    if e.None? then o.None? || o == Some(Null) else o.Some? && SpellsEnvelope(o.value, e.value)
  }

  predicate SpellsOptAepSignature(o: Option<Json>, s: Option<AepSignature>) {
    if s.None? then o.None? || o == Some(Null) else o.Some? && SpellsAepSignature(o.value, s.value)
  }

  lemma OptEnvelopeReads(m: Members, k: string, e: Option<DsseEnvelope>)
    ensures ReadOptEnvelope(m, k) == Some(e) <==> SpellsOptEnvelope(Lookup(m, k), e)
  {
    hide ReadEnvelope, SpellsDsseSignatures;
    if k in m && e.Some? {
      EnvelopeReadsExactly(m[k], e.value);
    }
  }

  lemma OptAepSignatureReads(m: Members, k: string, s: Option<AepSignature>)
    ensures ReadOptAepSignature(m, k) == Some(s) <==> SpellsOptAepSignature(Lookup(m, k), s)
  {
    hide ReadAepSignature;
    if k in m && s.Some? {
      AepSignatureReadsExactly(m[k], s.value);
    }
  }

  // --- Decisions --------------------------------------------------------------------------

  predicate SpellsDecision(m: Members, d: CapabilityDecision) {
    && Lookup(m, "capability") == Some(Str(d.capability))
    && Lookup(m, "subject") == Some(Str(d.subject))
    && Lookup(m, "resource") == Some(Str(d.resource))
    && Lookup(m, "decision") == Some(Str(d.decision))
    && SpellsOptStr(Lookup(m, "reason_code"), d.reasonCode)
    && SpellsOptStr(Lookup(m, "deny_reason_class"), d.denyReasonClass)
    && d.extra == m - DECISION_NAMES
  }

  lemma DecisionReadsExactly(m: Members, d: CapabilityDecision)
    ensures ReadDecision(m) == Some(d) <==> SpellsDecision(m, d)
  {
    hide DecisionField.Name, ReadStr, ReadOptStr, SpellsOptStr;
    DecisionWireNames();
    StrReads(m, "capability", d.capability);
    StrReads(m, "subject", d.subject);
    StrReads(m, "resource", d.resource);
    StrReads(m, "decision", d.decision);
    OptStrReads(m, "reason_code", d.reasonCode);
    OptStrReads(m, "deny_reason_class", d.denyReasonClass);
  }

  predicate SpellsOptDecision(o: Option<Json>, d: Option<CapabilityDecision>) {
    if d.None? then o.None? || o == Some(Null) else o.Some? && o.value.Obj? && SpellsDecision(o.value.members, d.value)
  }

  lemma OptDecisionReads(m: Members, k: string, d: Option<CapabilityDecision>)
    ensures ReadOptDecision(m, k) == Some(d) <==> SpellsOptDecision(Lookup(m, k), d)
  {
    hide ReadDecision, SpellsDecision;
    if k in m && m[k].Obj? && d.Some? {
      DecisionReadsExactly(m[k].members, d.value);
    }
  }

  // --- Actions ---------------------------------------------------------------------------

  predicate SpellsAction(m: Members, a: ActionEvidence) {
    && Lookup(m, "action_id") == Some(Str(a.actionId))
    && Lookup(m, "tool_name") == Some(Str(a.toolName))
    && Lookup(m, "state_changing") == Some(Bool(a.stateChanging))
    && SpellsOptStr(Lookup(m, "precondition_digest"), a.preconditionDigest)
    && SpellsOptStr(Lookup(m, "result_digest"), a.resultDigest)
    && Lookup(m, "timestamp_ms") == Some(Int(a.timestampMs))
    && SpellsOptStr(Lookup(m, "parent_action_id"), a.parentActionId)
    && SpellsOptStr(Lookup(m, "causal_chain_id"), a.causalChainId)
    && "recording_mode" in m && SpellsMode(m["recording_mode"], a.recordingMode)
    && SpellsOptDecision(Lookup(m, "capability_decision"), a.capabilityDecision)
    && SpellsOptStr(Lookup(m, "mcp_header_risk"), a.mcpHeaderRisk)
    && SpellsOptStr(Lookup(m, "side_effect_class"), a.sideEffectClass)
    && a.extra == m - ACTION_NAMES
  }

  lemma ActionReadsExactly(m: Members, a: ActionEvidence)
    ensures ReadAction(m) == Some(a) <==> SpellsAction(m, a)
  {
    hide ActionField.Name, ReadStr, ReadBool, ReadU64, ReadOptStr, ReadMode, ReadOptDecision,
         SpellsOptStr, SpellsMode, SpellsOptDecision;
    ActionWireNames();
    StrReads(m, "action_id", a.actionId);
    StrReads(m, "tool_name", a.toolName);
    BoolReads(m, "state_changing", a.stateChanging);
    OptStrReads(m, "precondition_digest", a.preconditionDigest);
    OptStrReads(m, "result_digest", a.resultDigest);
    U64Reads(m, "timestamp_ms", a.timestampMs);
    OptStrReads(m, "parent_action_id", a.parentActionId);
    OptStrReads(m, "causal_chain_id", a.causalChainId);
    if "recording_mode" in m {
      ModeReads(m["recording_mode"], a.recordingMode);
    }
    OptDecisionReads(m, "capability_decision", a.capabilityDecision);
    OptStrReads(m, "mcp_header_risk", a.mcpHeaderRisk);
    OptStrReads(m, "side_effect_class", a.sideEffectClass);
  }

  ghost predicate SpellsActions(o: Option<Json>, actions: seq<ActionEvidence>) {
    && o.Some? && o.value.Arr? && |o.value.items| == |actions|
    && forall i :: 0 <= i < |actions| ==> o.value.items[i].Obj? && SpellsAction(o.value.items[i].members, actions[i])
  }

  lemma ActionsReadExactly(m: Members, k: string, actions: seq<ActionEvidence>)
    ensures k in m && m[k].Arr? && ReadActions(m[k].items) == Some(actions) <==> SpellsActions(Lookup(m, k), actions)
  {
    hide ReadAction, SpellsAction;
    if k in m && m[k].Arr? {
      var items := m[k].items;
      forall i | 0 <= i < |items| && i < |actions| && items[i].Obj?
        ensures ReadAction(items[i].members) == Some(actions[i]) <==> SpellsAction(items[i].members, actions[i])
      {
        ActionReadsExactly(items[i].members, actions[i]);
      }
      if SpellsActions(Some(m[k]), actions) {
        assert ReadActions(items).Some?;
        assert ReadActions(items).value == actions;
      }
    }
  }

  // --- Records ---------------------------------------------------------------------------

  predicate SpellsIdentity(m: Members, r: AepRecord) {
    && Lookup(m, "schema_version") == Some(Str(r.schemaVersion))
    && Lookup(m, "run_id") == Some(Str(r.runId))
    && SpellsOptStr(Lookup(m, "trace_id"), r.traceId)
    && SpellsOptStr(Lookup(m, "session_id"), r.sessionId)
    && SpellsOptEnvelope(Lookup(m, "dsse_envelope"), r.dsseEnvelope)
    && SpellsOptStr(Lookup(m, "user_id"), r.userId)
    && SpellsOptStr(Lookup(m, "authorized_by"), r.authorizedBy)
    && SpellsOptStr(Lookup(m, "authority_origin"), r.authorityOrigin)
    && SpellsOptStr(Lookup(m, "identity_source"), r.identitySource)
  }

  ghost predicate SpellsRun(m: Members, r: AepRecord) {
    && SpellsOptStr(Lookup(m, "attribution_backing"), r.attributionBacking)
    && SpellsOptStr(Lookup(m, "run_attribution_backing_floor"), r.runAttributionBackingFloor)
    && SpellsOptStrs(Lookup(m, "run_attribution_backing_observed"), r.runAttributionBackingObserved)
    && SpellsOptU64(Lookup(m, "authorization_evidence_count"), r.authorizationEvidenceCount)
    && SpellsOptStr(Lookup(m, "run_side_effect_class_max"), r.runSideEffectClassMax)
    && SpellsOptStr(Lookup(m, "recording_mode"), r.recordingMode)
    && SpellsActions(Lookup(m, "actions"), r.actions)
    && Lookup(m, "created_at_ms") == Some(Int(r.createdAtMs))
    && SpellsOptAepSignature(Lookup(m, "signature"), r.signature)
  }

  /** The object spells the record: every field by its wire name, the other members in the catch-all. */
  ghost predicate SpellsRecord(m: Members, r: AepRecord) {
    SpellsIdentity(m, r) && SpellsRun(m, r) && r.extra == m - RECORD_NAMES
  }

  /** The fields read from the first half of the members. */
  ghost predicate IdentityRead(m: Members, r: AepRecord) {
    && ReadStr(m, SchemaVersion.Name()) == Some(r.schemaVersion)
    && ReadStr(m, RunId.Name()) == Some(r.runId)
    && ReadOptStr(m, TraceId.Name()) == Some(r.traceId)
    && ReadOptStr(m, SessionId.Name()) == Some(r.sessionId)
    && ReadOptEnvelope(m, Envelope.Name()) == Some(r.dsseEnvelope)
    && ReadOptStr(m, UserId.Name()) == Some(r.userId)
    && ReadOptStr(m, AuthorizedBy.Name()) == Some(r.authorizedBy)
    && ReadOptStr(m, AuthorityOrigin.Name()) == Some(r.authorityOrigin)
    && ReadOptStr(m, IdentitySource.Name()) == Some(r.identitySource)
  }

  ghost predicate RunRead(m: Members, r: AepRecord) {
    && ReadOptStr(m, AttributionBacking.Name()) == Some(r.attributionBacking)
    && ReadOptStr(m, BackingFloor.Name()) == Some(r.runAttributionBackingFloor)
    && ReadOptStrs(m, BackingObserved.Name()) == Some(r.runAttributionBackingObserved)
    && ReadOptU64(m, EvidenceCount.Name()) == Some(r.authorizationEvidenceCount)
    && ReadOptStr(m, EffectClassMax.Name()) == Some(r.runSideEffectClassMax)
    && ReadOptStr(m, RunMode.Name()) == Some(r.recordingMode)
    && Actions.Name() in m && m[Actions.Name()].Arr? && ReadActions(m[Actions.Name()].items) == Some(r.actions)
    && ReadU64(m, CreatedAtMs.Name()) == Some(r.createdAtMs)
    && ReadOptAepSignature(m, LegacySignature.Name()) == Some(r.signature)
  }

  lemma BuildsFromFields(m: Members, r: AepRecord)
    ensures ReadRecord(m) == Some(r) <==> IdentityRead(m, r) && RunRead(m, r) && r.extra == m - RECORD_NAMES
  {
    hide RecordField.Name, ReadStr, ReadU64, ReadOptStr, ReadOptStrs, ReadOptU64, ReadOptEnvelope,
         ReadOptAepSignature, ReadActions;
  }

  lemma IdentityReads(m: Members, r: AepRecord)
    ensures IdentityRead(m, r) <==> SpellsIdentity(m, r)
  {
    hide RecordField.Name, ReadStr, ReadOptStr, ReadOptEnvelope, SpellsOptStr, SpellsOptEnvelope;
    RecordWireNames();
    SigningWireNames();
    StrReads(m, "schema_version", r.schemaVersion);
    StrReads(m, "run_id", r.runId);
    OptStrReads(m, "trace_id", r.traceId);
    OptStrReads(m, "session_id", r.sessionId);
    OptEnvelopeReads(m, "dsse_envelope", r.dsseEnvelope);
    OptStrReads(m, "user_id", r.userId);
    OptStrReads(m, "authorized_by", r.authorizedBy);
    OptStrReads(m, "authority_origin", r.authorityOrigin);
    OptStrReads(m, "identity_source", r.identitySource);
  }

  lemma RunReads(m: Members, r: AepRecord)
    ensures RunRead(m, r) <==> SpellsRun(m, r)
  {
    hide RecordField.Name, ReadU64, ReadOptStr, ReadOptStrs, ReadOptU64, ReadOptAepSignature, ReadActions,
         SpellsOptStr, SpellsOptStrs, SpellsOptU64, SpellsOptAepSignature, SpellsActions;
    BackingWireNames();
    RunWireNames();
    SigningWireNames();
    OptStrReads(m, "attribution_backing", r.attributionBacking);
    OptStrReads(m, "run_attribution_backing_floor", r.runAttributionBackingFloor);
    OptStrsReads(m, "run_attribution_backing_observed", r.runAttributionBackingObserved);
    OptU64Reads(m, "authorization_evidence_count", r.authorizationEvidenceCount);
    OptStrReads(m, "run_side_effect_class_max", r.runSideEffectClassMax);
    OptStrReads(m, "recording_mode", r.recordingMode);
    ActionsReadExactly(m, "actions", r.actions);
    U64Reads(m, "created_at_ms", r.createdAtMs);
    OptAepSignatureReads(m, "signature", r.signature);
  }

  /** A record is read from exactly the objects that spell it. */
  lemma RecordReadsExactly(m: Members, r: AepRecord)
    ensures ReadRecord(m) == Some(r) <==> SpellsRecord(m, r)
  {
    hide ReadRecord, IdentityRead, RunRead, SpellsIdentity, SpellsRun;
    BuildsFromFields(m, r);
    IdentityReads(m, r);
    RunReads(m, r);
  }
}
