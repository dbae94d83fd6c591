/** The bounded evidence buffer and the classification of a request. */
module Recorder {
  import opened Wrappers
  import opened Recording
  import opened Evidence

  const DEFAULT_EVIDENCE_BUFFER_CAPACITY: nat := 1024

  // --- EvidenceBuffer as a value ---------------------------------------------------------

  datatype Buffer = Buffer(entries: seq<ActionEvidence>, capacity: nat, droppedTotal: u64)

  function EmptyBuffer(capacity: nat): Buffer { Buffer([], capacity, 0) }

  /** Adding one to a `u64`. */
  function Increment(n: u64): u64 { (n + 1) % 0x1_0000_0000_0000_0000 }

  /** The oldest entry, when the buffer has no room for another. */
  function Evicted(b: Buffer): Option<ActionEvidence> {
    if |b.entries| >= b.capacity && b.entries != [] then Some(b.entries[0]) else None
  }

  function Pushed(b: Buffer, e: ActionEvidence): Buffer {
    if Evicted(b).Some? then b.(entries := b.entries[1..] + [e], droppedTotal := Increment(b.droppedTotal))
    else b.(entries := b.entries + [e])
  }

  function Drained(b: Buffer): Buffer { b.(entries := []) }

  class EvidenceBuffer {
    var entries: seq<ActionEvidence>
    const capacity: nat
    var droppedTotal: u64

    function Value(): Buffer
      reads this
    {
      Buffer(entries, capacity, droppedTotal)
    }

    ghost predicate Valid()
      reads this
    {
      0 < capacity && |entries| <= capacity
    }

    /** The original panics on a capacity of zero. */
    constructor (capacity: nat)
      requires capacity > 0
      ensures Valid() && Value() == EmptyBuffer(capacity)
    {
      this.entries := [];
      this.capacity := capacity;
      this.droppedTotal := 0;
    }

    constructor WithDefaults()
      ensures Valid() && Value() == EmptyBuffer(1024)
    {
      this.entries := [];
      this.capacity := DEFAULT_EVIDENCE_BUFFER_CAPACITY;
      this.droppedTotal := 0;
    }

    method Push(evidence: ActionEvidence) returns (evicted: Option<ActionEvidence>)
      requires Valid()
      modifies this
      ensures Valid() && Value() == Pushed(old(Value()), evidence) && evicted == Evicted(old(Value()))
      ensures (if evicted.Some? then [evicted.value] else []) + entries == old(entries) + [evidence]
    {
      evicted := None;
      if |entries| >= capacity {
        evicted := Some(entries[0]);
        entries := entries[1..];
      }
      if evicted.Some? {
        droppedTotal := Increment(droppedTotal);
      }
      entries := entries + [evidence];
    }

    method Drain() returns (drained: seq<ActionEvidence>)
      requires Valid()
      modifies this
      ensures Valid() && Value() == Drained(old(Value())) && drained == old(entries)
    {
      drained := entries;
      entries := [];
    }
  }

  // --- Every run of pushes and drains ------------------------------------------------------

  datatype BufferOp = Push(evidence: ActionEvidence) | Drain

  /** A buffer with the history of what left it: evicted or drained, in time order. */
  datatype Ledger = Ledger(buffer: Buffer, left: seq<ActionEvidence>, evicted: nat, drained: nat)

  function Step(l: Ledger, op: BufferOp): Ledger {
    match op
    case Push(e) =>
      if Evicted(l.buffer).Some? then
        Ledger(Pushed(l.buffer, e), l.left + [Evicted(l.buffer).value], l.evicted + 1, l.drained)
      else l.(buffer := Pushed(l.buffer, e))
    case Drain =>
      Ledger(Drained(l.buffer), l.left + l.buffer.entries, l.evicted, l.drained + |l.buffer.entries|)
  }

  function Run(capacity: nat, ops: seq<BufferOp>): Ledger {
    if ops == [] then Ledger(EmptyBuffer(capacity), [], 0, 0)
    else Step(Run(capacity, ops[..|ops| - 1]), ops[|ops| - 1])
  }

  function Pushes(ops: seq<BufferOp>): seq<ActionEvidence> {
    if ops == [] then []
    else Pushes(ops[..|ops| - 1]) + if ops[|ops| - 1].Push? then [ops[|ops| - 1].evidence] else []
  }

  ghost predicate Balanced(l: Ledger, pushed: seq<ActionEvidence>) {
    && l.left + l.buffer.entries == pushed
    && |pushed| == l.evicted + l.drained + |l.buffer.entries|
    && |l.buffer.entries| <= l.buffer.capacity
    && l.buffer.droppedTotal == l.evicted % 0x1_0000_0000_0000_0000
  }

  lemma IncrementCounts(n: nat)
    ensures Increment(n % 0x1_0000_0000_0000_0000) == (n + 1) % 0x1_0000_0000_0000_0000
  {
  }

  lemma PushBalances(l: Ledger, pushed: seq<ActionEvidence>, e: ActionEvidence)
    requires Balanced(l, pushed) && l.buffer.capacity > 0
    ensures Balanced(Step(l, Push(e)), pushed + [e])
  {
    hide Increment;
    var entries := l.buffer.entries;
    if Evicted(l.buffer).Some? {
      IncrementCounts(l.evicted);
      assert entries == [entries[0]] + entries[1..];
    }
  }

  /**
   Nothing is lost without account: what left, followed by what is held, is what
   was pushed, in order; the counts add up; the bound holds; and `droppedTotal`
   counts the evictions, as far as 64 bits count.
   */
  lemma {:induction false} BufferConserves(capacity: nat, ops: seq<BufferOp>)
    requires capacity > 0
    ensures var l := Run(capacity, ops);
            && l.left + l.buffer.entries == Pushes(ops)
            && |Pushes(ops)| == l.evicted + l.drained + |l.buffer.entries|
            && |l.buffer.entries| <= l.buffer.capacity == capacity
            && l.buffer.droppedTotal == l.evicted % 0x1_0000_0000_0000_0000
  {
    hide Increment, Evicted;
    if ops != [] {
      var before, op := ops[..|ops| - 1], ops[|ops| - 1];
      BufferConserves(capacity, before);
      assert Balanced(Run(capacity, before), Pushes(before));
      if op.Push? {
        PushBalances(Run(capacity, before), Pushes(before), op.evidence);
      }
      assert Balanced(Run(capacity, ops), Pushes(ops));
    }
  }

  /** Nothing is evicted before the buffer is full: without drains exactly the oldest overflow is lost. */
  lemma {:induction false} EvictsOnlyOverflow(capacity: nat, ops: seq<BufferOp>)
    requires capacity > 0 && forall i :: 0 <= i < |ops| ==> ops[i].Push?
    ensures var l, pushed := Run(capacity, ops), Pushes(ops);
            && |pushed| == |ops|
            && l.evicted == (if |ops| > capacity then |ops| - capacity else 0)
            && l.buffer.entries == pushed[l.evicted..]
  {
    if ops != [] {
      EvictsOnlyOverflow(capacity, ops[..|ops| - 1]);
      BufferConserves(capacity, ops);
      BufferConserves(capacity, ops[..|ops| - 1]);
    }
    var l := Run(capacity, ops);
    BufferConserves(capacity, ops);
    NoDrains(capacity, ops);
    assert l.left + l.buffer.entries == Pushes(ops);
  }

  lemma {:induction false} NoDrains(capacity: nat, ops: seq<BufferOp>)
    requires forall i :: 0 <= i < |ops| ==> ops[i].Push?
    ensures Run(capacity, ops).drained == 0 && |Run(capacity, ops).left| == Run(capacity, ops).evicted
  {
    if ops != [] {
      NoDrains(capacity, ops[..|ops| - 1]);
    }
  }

  // --- Side-effect classification --------------------------------------------------------

  predicate Contains(s: string, part: string) {
    exists i :: 0 <= i <= |s| && part <= s[i..]
  }

  lemma ContainsExactly(s: string, part: string)
    ensures Contains(s, part) <==> exists before, after :: s == before + part + after
  {
    if i :| 0 <= i <= |s| && part <= s[i..] {
      assert s == s[..i] + part + s[i + |part|..];
    }
    if before, after :| s == before + part + after {
      assert s[|before|..] == part + after;
    }
  }

  /** What the HTTP method and path say. `uppercase` is `str::to_uppercase`. */
  function HttpClass(uppercase: string -> string, httpMethod: string, path: string): SideEffectClass {
    var m := uppercase(httpMethod);
    if m == "GET" || m == "HEAD" || m == "OPTIONS" then Read
    else if m == "POST" || m == "PUT" || m == "PATCH" || m == "DELETE" then
      if Contains(path, "/network/") || Contains(path, "/webhook") then NetworkEgress else MutateExternal
    else Unknown
  }

  /** What the client-controlled MCP-Method header says. */
  function McpClass(operation: string): SideEffectClass {
    if operation == "tools/call" then MutateExternal
    else if
      || operation == "tools/list" || operation == "resources/list" || operation == "resources/read"
      || operation == "prompts/list" || operation == "prompts/get" || operation == "completion/complete"
    then Read
    else Unknown
  }

  function SeverityRank(c: SideEffectClass): nat {
    match c
    case Read => 0
    case Unknown => 1
    case MutateLocal => 2
    case MutateExternal => 3
    case NetworkEgress => 4
  }

  function MaxSeverity(a: SideEffectClass, b: SideEffectClass): SideEffectClass {
    if SeverityRank(b) > SeverityRank(a) then b else a
  }

  /** `infer_side_effect_class_with_mcp`. */
  function InferSideEffectClass(
    uppercase: string -> string, httpMethod: string, path: string, mcpMethod: Option<string>): SideEffectClass
  {
    var http := HttpClass(uppercase, httpMethod, path);
    if mcpMethod.None? then http else MaxSeverity(http, McpClass(mcpMethod.value))
  }

  function MaxRecordingMode(a: RecordingMode, b: RecordingMode): RecordingMode {
    if b.Rank() > a.Rank() then b else a
  }

  datatype McpHeaderRiskKind = CredentialLeak | HighEntropyValue | PiiLeak {
    function AsStr(): string {
      match this
      case CredentialLeak => "credential_leak"
      case HighEntropyValue => "high_entropy_value"
      case PiiLeak => "pii_leak"
    }
  }

  function BuildEvidence(
    actionId: string, toolName: string, risk: RiskContext, timestampMs: u64,
    preconditionDigest: Option<string>, mcpHeaderRisk: Option<McpHeaderRiskKind>): ActionEvidence
  {
    ActionEvidence(
      actionId,
      toolName,
      risk.sideEffectClass != Read,
      preconditionDigest,
      None,
      timestampMs,
      None,
      None,
      CompileRecordingPolicy(risk).mode,
      None,
      if mcpHeaderRisk.Some? then Some(mcpHeaderRisk.value.AsStr()) else None,
      Some(risk.sideEffectClass.CanonicalStr()),
      map[])
  }

  // --- Recording never de-escalates ----------------------------------------------------

  /** The risk context the filter builds. */
  function PlainRisk(c: SideEffectClass): RiskContext { RiskContext(false, false, 0, c) }

  function PolicyMode(c: SideEffectClass): RecordingMode { CompileRecordingPolicy(PlainRisk(c)).mode }

  /**
   Recording mode is not monotone in severity: the exact pairs of classes on
   which the more severe one is recorded less fully.
   */
  lemma PolicyDropsExactlyAtMutateLocal(a: SideEffectClass, b: SideEffectClass)
    ensures SeverityRank(a) <= SeverityRank(b) && PolicyMode(a).Rank() > PolicyMode(b).Rank() <==>
            a == Unknown && b == MutateLocal
  {
  }

  /** Which requests are recorded as what, across both layers. */
  lemma ClassifiedExactly(uppercase: string -> string, httpMethod: string, path: string, mcpMethod: Option<string>)
    ensures var c := InferSideEffectClass(uppercase, httpMethod, path, mcpMethod);
            var safe := uppercase(httpMethod) in ["GET", "HEAD", "OPTIONS"];
            var mutating := uppercase(httpMethod) in ["POST", "PUT", "PATCH", "DELETE"];
            var outbound := Contains(path, "/network/") || Contains(path, "/webhook");
            && (c == Read <==> safe && (mcpMethod.None? || McpClass(mcpMethod.value) == Read))
            && (c == NetworkEgress <==> mutating && outbound)
            && (c == MutateExternal <==>
                (mutating && !outbound) || (!mutating && mcpMethod == Some("tools/call")))
  {
    hide Contains;
  }

  /** No request is ever classified as a local mutation. */
  lemma NeverMutateLocal(uppercase: string -> string, httpMethod: string, path: string, mcpMethod: Option<string>)
    ensures InferSideEffectClass(uppercase, httpMethod, path, mcpMethod) != MutateLocal
  {
  }

  /** When the policy records fully, as a difference, or only validates. */
  lemma PolicyExactly(ctx: RiskContext)
    ensures var mode := CompileRecordingPolicy(ctx).mode;
            var flagged := ctx.wasVetted || ctx.hasConsentAnomaly;
            && (mode == Validation <==> !flagged && ctx.sideEffectClass == Read)
            && (mode == Delta <==> !flagged && ctx.taintChainLength == 0 && ctx.sideEffectClass == MutateLocal)
  {
  }

  /** The reason given is that of the first rule that matches. */
  lemma ReasonExactly(ctx: RiskContext)
    ensures var reason := CompileRecordingPolicy(ctx).reason;
            var tainted := ctx.taintChainLength > 0 && ctx.sideEffectClass != Read;
            && (reason == "tool flagged by vetting" <==> ctx.wasVetted)
            && (reason == "consent anomaly recorded" <==> !ctx.wasVetted && ctx.hasConsentAnomaly)
            && (!ctx.wasVetted && !ctx.hasConsentAnomaly ==>
                  && (reason == "tainted input reaching state-changing call" <==> tainted)
                  && (reason == "unknown side-effect class" <==> !tainted && ctx.sideEffectClass == Unknown)
                  && (reason == "external mutation" <==>
                      !tainted && ctx.sideEffectClass in [MutateExternal, NetworkEgress])
                  && (reason == "local mutation, low risk" <==> !tainted && ctx.sideEffectClass == MutateLocal)
                  && (reason == "read-only, no anomaly" <==> ctx.sideEffectClass == Read))
  {
  }

  /** What evidence built for a risk says of it, in wire texts; what is not known yet is absent. */
  lemma EvidenceStatesRisk(
    actionId: string, toolName: string, risk: RiskContext, timestampMs: u64,
    preconditionDigest: Option<string>, mcpHeaderRisk: Option<McpHeaderRiskKind>)
    ensures var e := BuildEvidence(actionId, toolName, risk, timestampMs, preconditionDigest, mcpHeaderRisk);
            var flagged := risk.wasVetted || risk.hasConsentAnomaly;
            && e.actionId == actionId && e.toolName == toolName && e.timestampMs == timestampMs
            && e.preconditionDigest == preconditionDigest && e.resultDigest.None?
            && e.parentActionId.None? && e.causalChainId.None? && e.capabilityDecision.None? && e.extra == map[]
            && (e.sideEffectClass == Some("read") <==> risk.sideEffectClass == Read)
            && (e.sideEffectClass == Some("mutate-local") <==> risk.sideEffectClass == MutateLocal)
            && (e.sideEffectClass == Some("mutate-external") <==> risk.sideEffectClass == MutateExternal)
            && (e.sideEffectClass == Some("network-egress") <==> risk.sideEffectClass == NetworkEgress)
            && (e.sideEffectClass == Some("unknown") <==> risk.sideEffectClass == Unknown)
            && (e.stateChanging <==> e.sideEffectClass != Some("read"))
            && (e.recordingMode == Validation <==> !flagged && !e.stateChanging)
            && (e.recordingMode == Delta <==>
                !flagged && risk.taintChainLength == 0 && e.sideEffectClass == Some("mutate-local"))
  {
    hide CompileRecordingPolicy, McpHeaderRiskKind.AsStr;
    PolicyExactly(risk);
  }

  /** The mode the filter records under an operator's default. */
  function RecordedMode(
    uppercase: string -> string, httpMethod: string, path: string, mcpMethod: Option<string>,
    defaultMode: RecordingMode): RecordingMode
  {
    MaxRecordingMode(PolicyMode(InferSideEffectClass(uppercase, httpMethod, path, mcpMethod)), defaultMode)
  }

  /** The recorded mode is never below the operator's default, nor below what it would be without the MCP header. */
  lemma RecordingNeverDeescalates(
    uppercase: string -> string, httpMethod: string, path: string, mcpMethod: Option<string>,
    defaultMode: RecordingMode)
    ensures var mode := RecordedMode(uppercase, httpMethod, path, mcpMethod, defaultMode);
            && mode.Rank() >= defaultMode.Rank()
            && mode.Rank() >= RecordedMode(uppercase, httpMethod, path, None, defaultMode).Rank()
            && mode.Rank() >= PolicyMode(InferSideEffectClass(uppercase, httpMethod, path, None)).Rank()
            && (mode == defaultMode || mode == PolicyMode(InferSideEffectClass(uppercase, httpMethod, path, mcpMethod)))
  {
    hide HttpClass, McpClass;
    NeverMutateLocal(uppercase, httpMethod, path, mcpMethod);
    PolicyDropsExactlyAtMutateLocal(
      InferSideEffectClass(uppercase, httpMethod, path, None),
      InferSideEffectClass(uppercase, httpMethod, path, mcpMethod));
  }
}
