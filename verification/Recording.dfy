/** Recording modes, side-effect classes and the policy that maps risk to a mode. */
module Recording {
  import opened Wrappers

  datatype RecordingMode = Validation | Delta | Full {
    /** Validation < Delta < Full. */
    function Rank(): nat {
      match this
      case Validation => 0
      case Delta => 1
      case Full => 2
    }

    /** The snake_case wire form. */
    function AsStr(): string {
      match this
      case Validation => "validation"
      case Delta => "delta"
      case Full => "full"
    }
  }

  function ModeFromStr(s: string): (r: Option<RecordingMode>)
    ensures r.Some? ==> r.value.AsStr() == s
  {
    if s == "validation" then Some(Validation)
    else if s == "delta" then Some(Delta)
    else if s == "full" then Some(Full)
    else None
  }

  lemma ModeTextReads(mode: RecordingMode)
    ensures ModeFromStr(mode.AsStr()) == Some(mode)
  {
  }

  datatype SideEffectClass = Read | MutateLocal | MutateExternal | NetworkEgress | Unknown {
    /** The canonical hyphenated form. */
    function CanonicalStr(): string {
      match this
      case Read => "read"
      case MutateLocal => "mutate-local"
      case MutateExternal => "mutate-external"
      case NetworkEgress => "network-egress"
      case Unknown => "unknown"
    }
  }

  type u32 = n: int | 0 <= n < 0x1_0000_0000

  datatype RiskContext = RiskContext(
    wasVetted: bool,
    hasConsentAnomaly: bool,
    taintChainLength: u32,
    sideEffectClass: SideEffectClass)

  datatype RecordingPolicy = RecordingPolicy(mode: RecordingMode, reason: string)

  /** `compile_recording_policy`: the first rule that matches decides. */
  function CompileRecordingPolicy(ctx: RiskContext): RecordingPolicy
  {
    if ctx.wasVetted then RecordingPolicy(Full, "tool flagged by vetting")
    else if ctx.hasConsentAnomaly then RecordingPolicy(Full, "consent anomaly recorded")
    else if ctx.taintChainLength > 0 && ctx.sideEffectClass != Read then
      RecordingPolicy(Full, "tainted input reaching state-changing call")
    else if ctx.sideEffectClass == Unknown then RecordingPolicy(Full, "unknown side-effect class")
    else if ctx.sideEffectClass == MutateExternal || ctx.sideEffectClass == NetworkEgress then
      RecordingPolicy(Full, "external mutation")
    else if ctx.sideEffectClass == MutateLocal then RecordingPolicy(Delta, "local mutation, low risk")
    else RecordingPolicy(Validation, "read-only, no anomaly")
  }
}
