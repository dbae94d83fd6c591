/** Writing the evidence structs as JSON values and reading them back, as the serde derives do. */
module EvidenceJson {
  import opened Wrappers
  import opened Json
  import opened Recording
  import opened Evidence

  // --- Writing -------------------------------------------------------------------

  function OptStr(o: Option<string>): Option<Json> { if o.Some? then Some(Str(o.value)) else None }

  function Strs(ss: seq<string>): Json { Arr(seq(|ss|, i requires 0 <= i < |ss| => Str(ss[i]))) }

  function DecisionValue(d: CapabilityDecision, f: DecisionField): Option<Json> {
    match f
    case Capability => Some(Str(d.capability))
    case Subject => Some(Str(d.subject))
    case Resource => Some(Str(d.resource))
    case Decision => Some(Str(d.decision))
    case ReasonCode => OptStr(d.reasonCode)
    case DenyReasonClass => OptStr(d.denyReasonClass)
  }

  lemma DecisionNamesInjective()
    ensures forall f: DecisionField, g: DecisionField | f.Name() == g.Name() :: f == g
  {
    forall f: DecisionField, g: DecisionField | f.Name() == g.Name()
      ensures f == g
    {
      DecisionNamesDiffer(f, g);
    }
  }

  function DecisionFields(d: CapabilityDecision): Members {
    DecisionNamesInjective();
    map f | f in DecisionField.All() && DecisionValue(d, f).Some? :: f.Name() := DecisionValue(d, f).value
  }

  function WriteDecision(d: CapabilityDecision): Members { DecisionFields(d) + d.extra }

  function ActionValue(a: ActionEvidence, f: ActionField): Option<Json> {
    match f
    case ActionId => Some(Str(a.actionId))
    case ToolName => Some(Str(a.toolName))
    case StateChanging => Some(Bool(a.stateChanging))
    case PreconditionDigest => OptStr(a.preconditionDigest)
    case ResultDigest => OptStr(a.resultDigest)
    case TimestampMs => Some(Int(a.timestampMs))
    case ParentActionId => OptStr(a.parentActionId)
    case CausalChainId => OptStr(a.causalChainId)
    case Mode => Some(Str(a.recordingMode.AsStr()))
    case CapabilityOutcome =>
      if a.capabilityDecision.Some? then Some(Obj(WriteDecision(a.capabilityDecision.value))) else None
    case McpHeaderRisk => OptStr(a.mcpHeaderRisk)
    case EffectClass => OptStr(a.sideEffectClass)
  }

  lemma ActionNamesInjective()
    ensures forall f: ActionField, g: ActionField | f.Name() == g.Name() :: f == g
  {
    forall f: ActionField, g: ActionField | f.Name() == g.Name()
      ensures f == g
    {
      ActionNamesDiffer(f, g);
    }
  }

  function ActionFields(a: ActionEvidence): Members {
    ActionNamesInjective();
    map f | f in ActionField.All() && ActionValue(a, f).Some? :: f.Name() := ActionValue(a, f).value
  }

  function WriteAction(a: ActionEvidence): Members { ActionFields(a) + a.extra }

  function WriteActions(actions: seq<ActionEvidence>): Json {
    Arr(seq(|actions|, i requires 0 <= i < |actions| => Obj(WriteAction(actions[i]))))
  }

  function DsseSignatureJson(s: DsseSignature): Json { Obj(map["keyid" := Str(s.keyid), "sig" := Str(s.sig)]) }

  function DsseSignaturesJson(sigs: seq<DsseSignature>): seq<Json> {
    seq(|sigs|, i requires 0 <= i < |sigs| => DsseSignatureJson(sigs[i]))
  }

  function EnvelopeJson(e: DsseEnvelope): Json {
    Obj(map["payloadType" := Str(e.payloadType),
            "payload" := Str(e.payload),
            "signatures" := Arr(DsseSignaturesJson(e.signatures))])
  }

  function AepSignatureJson(s: AepSignature): Json {
    Obj(map["alg" := Str(s.alg), "key_id" := Str(s.keyId), "sig" := Str(s.sig)])
  }

  function RecordValue(r: AepRecord, f: RecordField): Option<Json> {
    match f
    case SchemaVersion => Some(Str(r.schemaVersion))
    case RunId => Some(Str(r.runId))
    case TraceId => OptStr(r.traceId)
    case SessionId => OptStr(r.sessionId)
    case Envelope => if r.dsseEnvelope.Some? then Some(EnvelopeJson(r.dsseEnvelope.value)) else None
    case UserId => OptStr(r.userId)
    case AuthorizedBy => OptStr(r.authorizedBy)
    case AuthorityOrigin => OptStr(r.authorityOrigin)
    case IdentitySource => OptStr(r.identitySource)
    case AttributionBacking => OptStr(r.attributionBacking)
    case BackingFloor => OptStr(r.runAttributionBackingFloor)
    case BackingObserved =>
      if r.runAttributionBackingObserved.Some? then Some(Strs(r.runAttributionBackingObserved.value)) else None
    case EvidenceCount =>
      if r.authorizationEvidenceCount.Some? then Some(Int(r.authorizationEvidenceCount.value)) else None
    case EffectClassMax => OptStr(r.runSideEffectClassMax)
    case RunMode => OptStr(r.recordingMode)
    case Actions => Some(WriteActions(r.actions))
    case CreatedAtMs => Some(Int(r.createdAtMs))
    case LegacySignature => if r.signature.Some? then Some(AepSignatureJson(r.signature.value)) else None
  }

  lemma RecordNamesInjective()
    ensures forall f: RecordField, g: RecordField | f.Name() == g.Name() :: f == g
  {
    forall f: RecordField, g: RecordField | f.Name() == g.Name()
      ensures f == g
    {
      RecordNamesDiffer(f, g);
    }
  }

  function RecordFields(r: AepRecord): Members {
    RecordNamesInjective();
    map f | f in RecordField.All() && RecordValue(r, f).Some? :: f.Name() := RecordValue(r, f).value
  }

  /** `serde_json::to_value(record)`: the catch-all members come last and win. */
  function WriteRecord(r: AepRecord): Members { RecordFields(r) + r.extra }

  // --- Reading -------------------------------------------------------------------

  function ReadStr(m: Members, k: string): (r: Option<string>)
    ensures r.Some? <==> k in m && m[k].Str?
    ensures r.Some? ==> Lookup(m, k) == Some(Str(r.value))
  {
    if k in m && m[k].Str? then Some(m[k].s) else None
  }

  function ReadBool(m: Members, k: string): (r: Option<bool>)
    ensures r.Some? <==> k in m && m[k].Bool?
    ensures r.Some? ==> Lookup(m, k) == Some(Bool(r.value))
  {
    if k in m && m[k].Bool? then Some(m[k].b) else None
  }

  predicate IsU64(v: Json) { v.Int? && 0 <= v.n }

  function ReadU64(m: Members, k: string): (r: Option<u64>)
    ensures r.Some? <==> k in m && IsU64(m[k])
    ensures r.Some? ==> Lookup(m, k) == Some(Int(r.value))
  {
    if k in m && IsU64(m[k]) then Some(m[k].n) else None
  }

  /** An absent or null member reads as `None`. */
  predicate AbsentOrNull(m: Members, k: string) { k !in m || m[k] == Null }

  function ReadOptStr(m: Members, k: string): (r: Option<Option<string>>)
    ensures r.Some? <==> AbsentOrNull(m, k) || m[k].Str?
    ensures r.Some? ==> OptStr(r.value) == if AbsentOrNull(m, k) then None else Some(m[k])
  {
    if AbsentOrNull(m, k) then Some(None)
    else if m[k].Str? then Some(Some(m[k].s))
    else None
  }

  function ReadOptU64(m: Members, k: string): (r: Option<Option<u64>>)
    ensures r.Some? <==> AbsentOrNull(m, k) || IsU64(m[k])
    ensures r.Some? ==> r.value == if AbsentOrNull(m, k) then None else Some(m[k].n)
  {
    if AbsentOrNull(m, k) then Some(None)
    else if IsU64(m[k]) then Some(Some(m[k].n))
    else None
  }

  predicate IsStrs(v: Json) { v.Arr? && forall i :: 0 <= i < |v.items| ==> v.items[i].Str? }

  function ReadOptStrs(m: Members, k: string): (r: Option<Option<seq<string>>>)
    ensures r.Some? <==> AbsentOrNull(m, k) || IsStrs(m[k])
    ensures r.Some? ==> (r.value.None? <==> AbsentOrNull(m, k))
    ensures r.Some? && r.value.Some? ==> Strs(r.value.value) == m[k]
  {
    if AbsentOrNull(m, k) then Some(None)
    else if IsStrs(m[k]) then
      var items := m[k].items;
      var ss := seq(|items|, i requires 0 <= i < |items| => items[i].s);
      assert Strs(ss).items == items;
      Some(Some(ss))
    else None
  }

  /** A unit variant: its name, or an object with that one key and a null. */
  function ReadMode(v: Json): (r: Option<RecordingMode>)
    ensures r.Some? && v.Str? ==> v == Str(r.value.AsStr())
  {
    match v
    case Str(s) => ModeFromStr(s)
    case Obj(m) =>
      if m == map["validation" := Null] then Some(Validation)
      else if m == map["delta" := Null] then Some(Delta)
      else if m == map["full" := Null] then Some(Full)
      else None
    case _ => None
  }

  function ReadDecision(m: Members): Option<CapabilityDecision>
  {
    var capability :- ReadStr(m, Capability.Name());
    var subject :- ReadStr(m, Subject.Name());
    var resource :- ReadStr(m, Resource.Name());
    var decision :- ReadStr(m, Decision.Name());
    var reasonCode :- ReadOptStr(m, ReasonCode.Name());
    var denyReasonClass :- ReadOptStr(m, DenyReasonClass.Name());
    Some(CapabilityDecision(capability, subject, resource, decision, reasonCode, denyReasonClass, m - DECISION_NAMES))
  }

  function ReadOptDecision(m: Members, k: string): Option<Option<CapabilityDecision>>
  {
    if AbsentOrNull(m, k) then Some(None)
    else if !m[k].Obj? then None
    else
      var d :- ReadDecision(m[k].members);
      Some(Some(d))
  }

  predicate ActionReadable(m: Members)
  {
    && ReadStr(m, ActionId.Name()).Some?
    && ReadStr(m, ToolName.Name()).Some?
    && ReadBool(m, StateChanging.Name()).Some?
    && ReadOptStr(m, PreconditionDigest.Name()).Some?
    && ReadOptStr(m, ResultDigest.Name()).Some?
    && ReadU64(m, TimestampMs.Name()).Some?
    && ReadOptStr(m, ParentActionId.Name()).Some?
    && ReadOptStr(m, CausalChainId.Name()).Some?
    && Mode.Name() in m && ReadMode(m[Mode.Name()]).Some?
    && ReadOptDecision(m, CapabilityOutcome.Name()).Some?
    && ReadOptStr(m, McpHeaderRisk.Name()).Some?
    && ReadOptStr(m, EffectClass.Name()).Some?
  }

  function BuildAction(m: Members): ActionEvidence
    requires ActionReadable(m)
  {
    ActionEvidence(
      ReadStr(m, ActionId.Name()).value,
      ReadStr(m, ToolName.Name()).value,
      ReadBool(m, StateChanging.Name()).value,
      ReadOptStr(m, PreconditionDigest.Name()).value,
      ReadOptStr(m, ResultDigest.Name()).value,
      ReadU64(m, TimestampMs.Name()).value,
      ReadOptStr(m, ParentActionId.Name()).value,
      ReadOptStr(m, CausalChainId.Name()).value,
      ReadMode(m[Mode.Name()]).value,
      ReadOptDecision(m, CapabilityOutcome.Name()).value,
      ReadOptStr(m, McpHeaderRisk.Name()).value,
      ReadOptStr(m, EffectClass.Name()).value,
      m - ACTION_NAMES)
  }

  function ReadAction(m: Members): Option<ActionEvidence>
  {
    if ActionReadable(m) then Some(BuildAction(m)) else None
  }

  function ReadActions(items: seq<Json>): (r: Option<seq<ActionEvidence>>)
    ensures r.Some? ==> |r.value| == |items|
    ensures r.Some? <==> forall i :: 0 <= i < |items| ==> items[i].Obj? && ReadAction(items[i].members).Some?
    ensures r.Some? ==> forall i :: 0 <= i < |items| ==> ReadAction(items[i].members) == Some(r.value[i])
  {
    if items == [] then Some([])
    else if !items[0].Obj? then None
    else
      var head :- ReadAction(items[0].members);
      assert forall i :: 0 <= i < |items[1..]| ==> items[1..][i] == items[i + 1];
      assert forall i :: 0 < i < |items| ==> items[i] == items[1..][i - 1];
      var tail :- ReadActions(items[1..]);
      Some([head] + tail)
  }

  /** Structs without a catch-all drop unknown members, and also read from an array of their fields. */
  function ReadDsseSignature(v: Json): Option<DsseSignature>
  {
    match v
    case Obj(m) =>
      var keyid :- ReadStr(m, "keyid");
      var sig :- ReadStr(m, "sig");
      Some(DsseSignature(keyid, sig))
    case Arr(items) =>
      if |items| == 2 && items[0].Str? && items[1].Str? then Some(DsseSignature(items[0].s, items[1].s)) else None
    case _ => None
  }

  function ReadDsseSignatures(items: seq<Json>): Option<seq<DsseSignature>>
  {
    if items == [] then Some([])
    else
      var head :- ReadDsseSignature(items[0]);
      var tail :- ReadDsseSignatures(items[1..]);
      Some([head] + tail)
  }

  function ReadEnvelopeFields(payloadType: Json, payload: Json, signatures: Json): Option<DsseEnvelope>
  {
    if payloadType.Str? && payload.Str? && signatures.Arr? then
      var sigs :- ReadDsseSignatures(signatures.items);
      Some(DsseEnvelope(payloadType.s, payload.s, sigs))
    else None
  }

  function ReadEnvelope(v: Json): Option<DsseEnvelope>
  {
    match v
    case Obj(m) =>
      var payloadType :- Lookup(m, "payloadType");
      var payload :- Lookup(m, "payload");
      var signatures :- Lookup(m, "signatures");
      ReadEnvelopeFields(payloadType, payload, signatures)
    case Arr(items) =>
      if |items| == 3 then ReadEnvelopeFields(items[0], items[1], items[2]) else None
    case _ => None
  }

  function ReadOptEnvelope(m: Members, k: string): Option<Option<DsseEnvelope>>
  {
    if AbsentOrNull(m, k) then Some(None)
    else
      var e :- ReadEnvelope(m[k]);
      Some(Some(e))
  }

  function ReadAepSignature(v: Json): Option<AepSignature>
  {
    match v
    case Obj(m) =>
      var alg :- ReadStr(m, "alg");
      var keyId :- ReadStr(m, "key_id");
      var sig :- ReadStr(m, "sig");
      Some(AepSignature(alg, keyId, sig))
    case Arr(items) =>
      if |items| == 3 && items[0].Str? && items[1].Str? && items[2].Str? then
        Some(AepSignature(items[0].s, items[1].s, items[2].s))
      else None
    case _ => None
  }

  function ReadOptAepSignature(m: Members, k: string): Option<Option<AepSignature>>
  {
    if AbsentOrNull(m, k) then Some(None)
    else
      var s :- ReadAepSignature(m[k]);
      Some(Some(s))
  }

  predicate IdentityReadable(m: Members)
  {
    && ReadStr(m, SchemaVersion.Name()).Some?
    && ReadStr(m, RunId.Name()).Some?
    && ReadOptStr(m, TraceId.Name()).Some?
    && ReadOptStr(m, SessionId.Name()).Some?
    && ReadOptEnvelope(m, Envelope.Name()).Some?
    && ReadOptStr(m, UserId.Name()).Some?
    && ReadOptStr(m, AuthorizedBy.Name()).Some?
    && ReadOptStr(m, AuthorityOrigin.Name()).Some?
    && ReadOptStr(m, IdentitySource.Name()).Some?
  }

  predicate RunReadable(m: Members)
  {
    && ReadOptStr(m, AttributionBacking.Name()).Some?
    && ReadOptStr(m, BackingFloor.Name()).Some?
    && ReadOptStrs(m, BackingObserved.Name()).Some?
    && ReadOptU64(m, EvidenceCount.Name()).Some?
    && ReadOptStr(m, EffectClassMax.Name()).Some?
    && ReadOptStr(m, RunMode.Name()).Some?
    && Actions.Name() in m && m[Actions.Name()].Arr? && ReadActions(m[Actions.Name()].items).Some?
    && ReadU64(m, CreatedAtMs.Name()).Some?
    && ReadOptAepSignature(m, LegacySignature.Name()).Some?
  }

  predicate RecordReadable(m: Members) { IdentityReadable(m) && RunReadable(m) }

  function BuildRecord(m: Members): AepRecord
    requires RecordReadable(m)
  {
    AepRecord(
      ReadStr(m, SchemaVersion.Name()).value,
      ReadStr(m, RunId.Name()).value,
      ReadOptStr(m, TraceId.Name()).value,
      ReadOptStr(m, SessionId.Name()).value,
      ReadOptEnvelope(m, Envelope.Name()).value,
      ReadOptStr(m, UserId.Name()).value,
      ReadOptStr(m, AuthorizedBy.Name()).value,
      ReadOptStr(m, AuthorityOrigin.Name()).value,
      ReadOptStr(m, IdentitySource.Name()).value,
      ReadOptStr(m, AttributionBacking.Name()).value,
      ReadOptStr(m, BackingFloor.Name()).value,
      ReadOptStrs(m, BackingObserved.Name()).value,
      ReadOptU64(m, EvidenceCount.Name()).value,
      ReadOptStr(m, EffectClassMax.Name()).value,
      ReadOptStr(m, RunMode.Name()).value,
      ReadActions(m[Actions.Name()].items).value,
      ReadU64(m, CreatedAtMs.Name()).value,
      ReadOptAepSignature(m, LegacySignature.Name()).value,
      m - RECORD_NAMES)
  }

  /** `serde_json::from_value::<AepRecord>`: members that no field models land in `extra`. */
  function ReadRecord(m: Members): Option<AepRecord>
  {
    if RecordReadable(m) then Some(BuildRecord(m)) else None
  }
}
