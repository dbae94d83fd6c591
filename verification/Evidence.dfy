/**
 The evidence structs and their JSON form: optional fields are omitted when
 absent, and every struct that carries a catch-all `extra` map flattens it into
 its own object, after the modelled fields.
 */
module Evidence {
  import opened Wrappers
  import opened Json
  import opened Recording

  type Members = map<string, Json>

  datatype CapabilityDecision = CapabilityDecision(
    capability: string,
    subject: string,
    resource: string,
    decision: string,
    reasonCode: Option<string>,
    denyReasonClass: Option<string>,
    extra: Members)

  datatype ActionEvidence = ActionEvidence(
    actionId: string,
    toolName: string,
    stateChanging: bool,
    preconditionDigest: Option<string>,
    resultDigest: Option<string>,
    timestampMs: u64,
    parentActionId: Option<string>,
    causalChainId: Option<string>,
    recordingMode: RecordingMode,
    capabilityDecision: Option<CapabilityDecision>,
    mcpHeaderRisk: Option<string>,
    sideEffectClass: Option<string>,
    extra: Members)

  datatype AepSignature = AepSignature(alg: string, keyId: string, sig: string)

  datatype DsseSignature = DsseSignature(keyid: string, sig: string)

  datatype DsseEnvelope = DsseEnvelope(payloadType: string, payload: string, signatures: seq<DsseSignature>)

  datatype AepRecord = AepRecord(
    schemaVersion: string,
    runId: string,
    traceId: Option<string>,
    sessionId: Option<string>,
    dsseEnvelope: Option<DsseEnvelope>,
    userId: Option<string>,
    authorizedBy: Option<string>,
    authorityOrigin: Option<string>,
    identitySource: Option<string>,
    attributionBacking: Option<string>,
    runAttributionBackingFloor: Option<string>,
    runAttributionBackingObserved: Option<seq<string>>,
    authorizationEvidenceCount: Option<u64>,
    runSideEffectClassMax: Option<string>,
    recordingMode: Option<string>,
    actions: seq<ActionEvidence>,
    createdAtMs: u64,
    signature: Option<AepSignature>,
    extra: Members)

  const AEP_SCHEMA_VERSION := "aep/v0.5"

  /** The record with its signing fields cleared. */
  function Strip(r: AepRecord): AepRecord { r.(signature := None, dsseEnvelope := None) }

  // --- Modelled field names --------------------------------------------------------

  datatype DecisionField = Capability | Subject | Resource | Decision | ReasonCode | DenyReasonClass {
    /** Every modelled field of the struct. */
    static function All(): (s: set<DecisionField>)
      ensures forall f: DecisionField :: f in s
    {
      set f: DecisionField | f.Name() != ""
    }

    function Name(): string {
      match this
      case Capability => "capability"
      case Subject => "subject"
      case Resource => "resource"
      case Decision => "decision"
      case ReasonCode => "reason_code"
      case DenyReasonClass => "deny_reason_class"
    }
  }

  datatype ActionField =
    | ActionId | ToolName | StateChanging | PreconditionDigest | ResultDigest | TimestampMs | ParentActionId
    | CausalChainId | Mode | CapabilityOutcome | McpHeaderRisk | EffectClass
  {
    /** Every modelled field of the struct. */
    static function All(): (s: set<ActionField>)
      ensures forall f: ActionField :: f in s
    {
      set f: ActionField | f.Name() != ""
    }

    function Name(): string {
      match this
      case ActionId => "action_id"
      case ToolName => "tool_name"
      case StateChanging => "state_changing"
      case PreconditionDigest => "precondition_digest"
      case ResultDigest => "result_digest"
      case TimestampMs => "timestamp_ms"
      case ParentActionId => "parent_action_id"
      case CausalChainId => "causal_chain_id"
      case Mode => "recording_mode"
      case CapabilityOutcome => "capability_decision"
      case McpHeaderRisk => "mcp_header_risk"
      case EffectClass => "side_effect_class"
    }
  }

  datatype RecordField =
    | SchemaVersion | RunId | TraceId | SessionId | Envelope | UserId | AuthorizedBy | AuthorityOrigin
    | IdentitySource | AttributionBacking | BackingFloor | BackingObserved | EvidenceCount
    | EffectClassMax | RunMode | Actions | CreatedAtMs | LegacySignature
  {
    /** Every modelled field of the struct. */
    static function All(): (s: set<RecordField>)
      ensures forall f: RecordField :: f in s
    {
      set f: RecordField | f.Name() != ""
    }

    function Name(): string {
      match this
      case SchemaVersion => "schema_version"
      case RunId => "run_id"
      case TraceId => "trace_id"
      case SessionId => "session_id"
      case Envelope => "dsse_envelope"
      case UserId => "user_id"
      case AuthorizedBy => "authorized_by"
      case AuthorityOrigin => "authority_origin"
      case IdentitySource => "identity_source"
      case AttributionBacking => "attribution_backing"
      case BackingFloor => "run_attribution_backing_floor"
      case BackingObserved => "run_attribution_backing_observed"
      case EvidenceCount => "authorization_evidence_count"
      case EffectClassMax => "run_side_effect_class_max"
      case RunMode => "recording_mode"
      case Actions => "actions"
      case CreatedAtMs => "created_at_ms"
      case LegacySignature => "signature"
    }
  }

  const DECISION_NAMES: set<string> := set f | f in DecisionField.All() :: f.Name()
  const ACTION_NAMES: set<string> := set f | f in ActionField.All() :: f.Name()
  const RECORD_NAMES: set<string> := set f | f in RecordField.All() :: f.Name()

  /** Length and first character: enough to tell apart the names within one struct. */
  function Tag(name: string): int { |name| * 128 + if name == "" then 0 else name[0] as int }

  lemma DecisionNamesDiffer(f: DecisionField, g: DecisionField)
    ensures f.Name() == g.Name() <==> f == g
  {
    assert f.Name() == g.Name() ==> Tag(f.Name()) == Tag(g.Name());
  }

  function ActionTag(f: ActionField): int {
    match f
    case ActionId => 9 * 128 + 97
    case ToolName => 9 * 128 + 116
    case StateChanging => 14 * 128 + 115
    case PreconditionDigest => 19 * 128 + 112
    case ResultDigest => 13 * 128 + 114
    case TimestampMs => 12 * 128 + 116
    case ParentActionId => 16 * 128 + 112
    case CausalChainId => 15 * 128 + 99
    case Mode => 14 * 128 + 114
    case CapabilityOutcome => 19 * 128 + 99
    case McpHeaderRisk => 15 * 128 + 109
    case EffectClass => 17 * 128 + 115
  }

  lemma ActionNameTag(f: ActionField)
    ensures Tag(f.Name()) == ActionTag(f)
  {
  }

  lemma ActionNamesDiffer(f: ActionField, g: ActionField)
    ensures f.Name() == g.Name() <==> f == g
  {
    hide Tag, ActionField.Name;
    ActionNameTag(f);
    ActionNameTag(g);
  }

  function RecordTag(f: RecordField): int {
    match f
    case SchemaVersion => 14 * 128 + 115
    case RunId => 6 * 128 + 114
    case TraceId => 8 * 128 + 116
    case SessionId => 10 * 128 + 115
    case Envelope => 13 * 128 + 100
    case UserId => 7 * 128 + 117
    case AuthorizedBy => 13 * 128 + 97
    case AuthorityOrigin => 16 * 128 + 97
    case IdentitySource => 15 * 128 + 105
    case AttributionBacking => 19 * 128 + 97
    case BackingFloor => 29 * 128 + 114
    case BackingObserved => 32 * 128 + 114
    case EvidenceCount => 28 * 128 + 97
    case EffectClassMax => 25 * 128 + 114
    case RunMode => 14 * 128 + 114
    case Actions => 7 * 128 + 97
    case CreatedAtMs => 13 * 128 + 99
    case LegacySignature => 9 * 128 + 115
  }

  lemma RecordNameTag(f: RecordField)
    ensures Tag(f.Name()) == RecordTag(f)
  {
  }

  lemma RecordNamesDiffer(f: RecordField, g: RecordField)
    ensures f.Name() == g.Name() <==> f == g
  {
    hide Tag, RecordField.Name;
    RecordNameTag(f);
    RecordNameTag(g);
  }
}
