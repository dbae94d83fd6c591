/** The HTTP filter as a step machine, and what holds of a gateway after any run of its callbacks. */
module Filter {
  import opened Wrappers
  import opened Unicode
  import opened Decimal
  import opened Json
  import opened JsonReader
  import opened Recording
  import opened Evidence
  import opened EvidenceJson
  import opened EvidenceRoundTrip
  import opened EvidenceReread
  import opened Rollup
  import opened Recorder
  import opened Crypto
  import opened Dsse
  import opened DsseProofs
  import opened Emitter

  datatype PluginConfig = PluginConfig(
    defaultMode: RecordingMode, traceIdHeader: string, agentIdHeader: string, maxEvidenceBuffer: nat)

  type Headers = map<string, string>

  /** Library calls the filter makes: upper-casing and the header-leak classifier. */
  datatype Host = Host(
    uppercase: string -> string,
    classifyMcpHeaders: (Option<string>, Option<string>) -> Option<McpHeaderRiskKind>)

  function Header(headers: Headers, name: string): Option<string> {
    if name in headers then Some(headers[name]) else None
  }

  function OrElse(o: Option<string>, p: Option<string>): Option<string> { if o.Some? then o else p }

  function OrDefault(o: Option<string>): string { if o.Some? then o.value else "" }

  // --- EvidenceFilter --------------------------------------------------------------------

  datatype FilterState = FilterState(
    contextId: u32,
    config: PluginConfig,
    buffer: Buffer,
    httpMethod: string,
    path: string,
    traceId: Option<string>,
    agentId: Option<string>,
    mcpMethod: Option<string>,
    mcpName: Option<string>)

  function NewFilter(contextId: u32, config: PluginConfig): FilterState {
    FilterState(contextId, config, EmptyBuffer(config.maxEvidenceBuffer), "", "", None, None, None, None)
  }

  function AfterRequest(f: FilterState, headers: Headers): FilterState {
    f.(httpMethod := OrDefault(Header(headers, ":method")),
       path := OrDefault(Header(headers, ":path")),
       traceId := Header(headers, f.config.traceIdHeader),
       agentId := Header(headers, f.config.agentIdHeader),
       mcpMethod := OrElse(Header(headers, "x-mcp-method"), Header(headers, "mcp-method")),
       mcpName := OrElse(Header(headers, "mcp-name"), Header(headers, "x-mcp-name")))
  }

  /** The evidence a response is recorded with. */
  function Captured(host: Host, f: FilterState, nowMs: u64): ActionEvidence {
    var evidence := BuildEvidence(
      "ctx-" + DecimalText(f.contextId),
      f.httpMethod + " " + f.path,
      PlainRisk(InferSideEffectClass(host.uppercase, f.httpMethod, f.path, f.mcpMethod)),
      nowMs,
      None,
      host.classifyMcpHeaders(f.mcpMethod, f.mcpName));
    evidence.(recordingMode := MaxRecordingMode(evidence.recordingMode, f.config.defaultMode))
  }

  function AfterResponse(host: Host, f: FilterState, nowMs: u64): FilterState {
    f.(buffer := Pushed(f.buffer, Captured(host, f, nowMs)))
  }

  datatype Counters = Counters(validation: nat, delta: nat, full: nat) {
    function Bump(mode: RecordingMode): Counters {
      match mode
      case Validation => this.(validation := validation + 1)
      case Delta => this.(delta := delta + 1)
      case Full => this.(full := full + 1)
    }

    function Of(mode: RecordingMode): nat {
      match mode
      case Validation => validation
      case Delta => delta
      case Full => full
    }
  }

  /** The counters the host keeps by recording mode, one set per virtual machine. */
  class EvidenceMetrics {
    ghost var counters: Counters

    constructor ()
      ensures counters == Counters(0, 0, 0)
    {
      counters := Counters(0, 0, 0);
    }
  }

  class EvidenceFilter {
    const contextId: u32
    const config: PluginConfig
    const evidenceBuffer: EvidenceBuffer
    const metrics: EvidenceMetrics
    var httpMethod: string
    var path: string
    var traceId: Option<string>
    var agentId: Option<string>
    var mcpMethod: Option<string>
    var mcpName: Option<string>

    function State(): FilterState
      reads this, evidenceBuffer
    {
      FilterState(contextId, config, evidenceBuffer.Value(), httpMethod, path, traceId, agentId, mcpMethod, mcpName)
    }

    ghost predicate Valid()
      reads this, evidenceBuffer
    {
      evidenceBuffer.Valid() && evidenceBuffer.capacity == config.maxEvidenceBuffer
    }

    /** A configuration with an empty buffer never gets this far: the plugin refuses it. */
    constructor (contextId: u32, config: PluginConfig, metrics: EvidenceMetrics)
      requires config.maxEvidenceBuffer > 0
      ensures Valid() && State() == NewFilter(contextId, config) && this.metrics == metrics
      ensures fresh(evidenceBuffer)
    {
      var buffer := new EvidenceBuffer(config.maxEvidenceBuffer);
      this.contextId, this.config, this.metrics := contextId, config, metrics;
      this.evidenceBuffer := buffer;
      this.httpMethod, this.path := "", "";
      this.traceId, this.agentId, this.mcpMethod, this.mcpName := None, None, None, None;
    }

    method OnHttpRequestHeaders(headers: Headers)
      requires Valid()
      modifies this
      ensures Valid() && State() == AfterRequest(old(State()), headers)
    {
      httpMethod := OrDefault(Header(headers, ":method"));
      path := OrDefault(Header(headers, ":path"));
      traceId := Header(headers, config.traceIdHeader);
      agentId := Header(headers, config.agentIdHeader);
      mcpMethod := OrElse(Header(headers, "x-mcp-method"), Header(headers, "mcp-method"));
      mcpName := OrElse(Header(headers, "mcp-name"), Header(headers, "x-mcp-name"));
    }

    /** `shown` is what the response headers carry: the recorded mode and any header risk. */
    method OnHttpResponseHeaders(host: Host, nowMs: u64) returns (shown: (string, Option<string>))
      requires Valid()
      modifies evidenceBuffer, metrics
      ensures Valid() && State() == AfterResponse(host, old(State()), nowMs)
      ensures var captured := Captured(host, old(State()), nowMs);
              && metrics.counters == old(metrics.counters).Bump(captured.recordingMode)
              && shown == (captured.recordingMode.AsStr(), captured.mcpHeaderRisk)
    {
      var sideEffectClass := InferSideEffectClass(host.uppercase, httpMethod, path, mcpMethod);
      var riskCtx := RiskContext(false, false, 0, sideEffectClass);
      var actionId := "ctx-" + DecimalText(contextId);
      var toolName := httpMethod + " " + path;
      var mcpHeaderRisk := host.classifyMcpHeaders(mcpMethod, mcpName);
      var evidence := BuildEvidence(actionId, toolName, riskCtx, nowMs, None, mcpHeaderRisk);
      evidence := evidence.(recordingMode := MaxRecordingMode(evidence.recordingMode, config.defaultMode));
      metrics.counters := metrics.counters.Bump(evidence.recordingMode);
      shown := (evidence.recordingMode.AsStr(), evidence.mcpHeaderRisk);
      var _ := evidenceBuffer.Push(evidence);
    }
  }

  // --- A gateway: any number of contexts, callbacks in any order -----------------------------

  datatype Gateway = Gateway(contexts: seq<FilterState>, counters: Counters)

  datatype Event =
    | Created(contextId: u32)
    | Requested(index: nat, headers: Headers)
    | Responded(index: nat, nowMs: u64)

  function After(host: Host, config: PluginConfig, g: Gateway, e: Event): Gateway {
    match e
    case Created(id) => g.(contexts := g.contexts + [NewFilter(id, config)])
    case Requested(i, headers) =>
      if i >= |g.contexts| then g
      else g.(contexts := g.contexts[i := AfterRequest(g.contexts[i], headers)])
    case Responded(i, nowMs) =>
      if i >= |g.contexts| then g
      else
        Gateway(
          g.contexts[i := AfterResponse(host, g.contexts[i], nowMs)],
          g.counters.Bump(Captured(host, g.contexts[i], nowMs).recordingMode))
  }

  function RunGateway(host: Host, config: PluginConfig, events: seq<Event>): Gateway {
    if events == [] then Gateway([], Counters(0, 0, 0))
    else After(host, config, RunGateway(host, config, events[..|events| - 1]), events[|events| - 1])
  }

  // --- What happened, read off the events ------------------------------------------------------

  /** The ids of the contexts, in the order they were created. */
  function CreatedIds(events: seq<Event>): seq<u32> {
    if events == [] then []
    else CreatedIds(events[..|events| - 1]) + match events[|events| - 1] case Created(id) => [id] case _ => []
  }

  /** The headers of the last request that context `i` saw. */
  function LatestHeaders(events: seq<Event>, i: nat): Headers {
    if events == [] then map[]
    else
      var before := events[..|events| - 1];
      match events[|events| - 1]
      case Requested(j, headers) => if j == i && i < |CreatedIds(before)| then headers else LatestHeaders(before, i)
      case _ => LatestHeaders(before, i)
  }

  /** The evidence for a response of context `id` to a request with these headers. */
  function EvidenceFor(host: Host, config: PluginConfig, id: u32, headers: Headers, nowMs: u64): ActionEvidence {
    Captured(host, AfterRequest(NewFilter(id, config), headers), nowMs)
  }

  /** Everything context `i` ever captured, oldest first. */
  function AllCaptured(host: Host, config: PluginConfig, events: seq<Event>, i: nat): seq<ActionEvidence> {
    if events == [] then []
    else
      var before := events[..|events| - 1];
      AllCaptured(host, config, before, i) +
      match events[|events| - 1]
      case Responded(j, nowMs) =>
        if j == i && i < |CreatedIds(before)| then
          [EvidenceFor(host, config, CreatedIds(before)[i], LatestHeaders(before, i), nowMs)]
        else []
      case _ => []
  }

  /** A buffer that got all of `pushed`: it holds the latest and has counted the others as dropped. */
  function LatestOf(capacity: nat, pushed: seq<ActionEvidence>): Buffer {
    var dropped := if |pushed| > capacity then |pushed| - capacity else 0;
    Buffer(pushed[dropped..], capacity, dropped % 0x1_0000_0000_0000_0000)
  }

  /** Context `i` as the events alone determine it. */
  function ContextOf(host: Host, config: PluginConfig, events: seq<Event>, i: nat): FilterState
    requires i < |CreatedIds(events)|
  {
    AfterRequest(NewFilter(CreatedIds(events)[i], config), LatestHeaders(events, i)).(
      buffer := LatestOf(config.maxEvidenceBuffer, AllCaptured(host, config, events, i)))
  }

  function CountMode(evidence: seq<ActionEvidence>, mode: RecordingMode): nat {
    if evidence == [] then 0
    else
      var last := |evidence| - 1;
      CountMode(evidence[..last], mode) + if evidence[last].recordingMode == mode then 1 else 0
  }

  /** How often the first `n` contexts ever captured in this mode. */
  function CapturedIn(host: Host, config: PluginConfig, events: seq<Event>, mode: RecordingMode, n: nat): nat {
    if n == 0 then 0
    else
      CapturedIn(host, config, events, mode, n - 1) + CountMode(AllCaptured(host, config, events, n - 1), mode)
  }

  // --- Every run -----------------------------------------------------------------------------

  lemma PushedIsLatest(capacity: nat, pushed: seq<ActionEvidence>, e: ActionEvidence)
    requires capacity > 0
    ensures Pushed(LatestOf(capacity, pushed), e) == LatestOf(capacity, pushed + [e])
  {
    hide Increment;
    var b := LatestOf(capacity, pushed);
    if |pushed| >= capacity {
      IncrementCounts(|pushed| - capacity);
      assert b.entries[1..] == pushed[|pushed| - capacity + 1..];
    }
  }

  /** What is captured does not depend on what the buffer holds. */
  lemma CapturedIgnoresBuffer(host: Host, f: FilterState, b: Buffer, nowMs: u64)
    ensures Captured(host, f.(buffer := b), nowMs) == Captured(host, f, nowMs)
  {
  }

  /** Nothing is captured in a context before it is created. */
  lemma {:induction false} UncreatedIsBlank(host: Host, config: PluginConfig, events: seq<Event>, i: nat)
    requires i >= |CreatedIds(events)|
    ensures LatestHeaders(events, i) == map[] && AllCaptured(host, config, events, i) == []
  {
    if events != [] {
      UncreatedIsBlank(host, config, events[..|events| - 1], i);
    }
  }

  lemma BlankContext(id: u32, config: PluginConfig)
    ensures AfterRequest(NewFilter(id, config), map[]).(buffer := LatestOf(config.maxEvidenceBuffer, []))
         == NewFilter(id, config)
  {
  }

  /** One callback, for a context whose state the earlier events determine. */
  lemma {:induction false} StepKeepsContexts(host: Host, config: PluginConfig, events: seq<Event>, i: nat)
    requires config.maxEvidenceBuffer > 0 && events != [] && i < |CreatedIds(events)|
    requires var before := events[..|events| - 1];
             var g := RunGateway(host, config, before);
             && |g.contexts| == |CreatedIds(before)|
             && (i < |g.contexts| ==> g.contexts[i] == ContextOf(host, config, before, i))
    ensures i < |RunGateway(host, config, events).contexts|
    ensures RunGateway(host, config, events).contexts[i] == ContextOf(host, config, events, i)
  {
    hide Captured, LatestOf, Pushed;
    var before, e := events[..|events| - 1], events[|events| - 1];
    var x := AllCaptured(host, config, before, i);
    if i >= |CreatedIds(before)| {
      assert e.Created? && CreatedIds(events)[i] == e.contextId;
      UncreatedIsBlank(host, config, before, i);
      BlankContext(e.contextId, config);
      assert LatestHeaders(events, i) == map[];
      assert AllCaptured(host, config, events, i) == [];
    } else if e.Responded? && e.index == i {
      var f := AfterRequest(NewFilter(CreatedIds(before)[i], config), LatestHeaders(before, i));
      CapturedIgnoresBuffer(host, f, LatestOf(config.maxEvidenceBuffer, x), e.nowMs);
      PushedIsLatest(config.maxEvidenceBuffer, x, Captured(host, f, e.nowMs));
    } else {
      assert CreatedIds(events)[i] == CreatedIds(before)[i];
      assert AllCaptured(host, config, events, i) == x;
    }
  }

  /** One callback changes one count in one context at most. */
  lemma {:induction false} StepCounts(
    host: Host, config: PluginConfig, events: seq<Event>, mode: RecordingMode, n: nat)
    requires events != []
    ensures var before := events[..|events| - 1];
            CapturedIn(host, config, events, mode, n) == CapturedIn(host, config, before, mode, n) +
              match events[|events| - 1]
              case Responded(i, nowMs) =>
                if i >= n || i >= |CreatedIds(before)| then 0
                else
                  var e := EvidenceFor(host, config, CreatedIds(before)[i], LatestHeaders(before, i), nowMs);
                  if e.recordingMode == mode then 1 else 0
              case _ => 0
  {
    hide EvidenceFor, LatestHeaders, CreatedIds, CountMode;
    if n > 0 {
      StepCounts(host, config, events, mode, n - 1);
      var before, e := events[..|events| - 1], events[|events| - 1];
      var x := AllCaptured(host, config, before, n - 1);
      if e.Responded? && e.index == n - 1 && n - 1 < |CreatedIds(before)| {
        var y := EvidenceFor(host, config, CreatedIds(before)[n - 1], LatestHeaders(before, n - 1), e.nowMs);
        assert AllCaptured(host, config, events, n - 1) == x + [y];
        CountAppends(x, y, mode);
      } else {
        assert AllCaptured(host, config, events, n - 1) == x;
      }
    }
  }

  lemma NoneCounted(mode: RecordingMode)
    ensures CountMode([], mode) == 0
  {
  }

  lemma CountAppends(xs: seq<ActionEvidence>, x: ActionEvidence, mode: RecordingMode)
    ensures CountMode(xs + [x], mode) == CountMode(xs, mode) + if x.recordingMode == mode then 1 else 0
  {
    assert (xs + [x])[..|xs|] == xs;
  }

  /**
   After any run, the events determine every context: its fields are those of
   its latest request, its buffer holds its latest captures and has counted the
   others as dropped. Each mode counter is the number of captures in that mode.
   */
  lemma {:induction false} GatewayAccounts(host: Host, config: PluginConfig, events: seq<Event>)
    requires config.maxEvidenceBuffer > 0
    ensures var g := RunGateway(host, config, events);
            && |g.contexts| == |CreatedIds(events)|
            && (forall i :: 0 <= i < |g.contexts| ==> g.contexts[i] == ContextOf(host, config, events, i))
            && forall mode: RecordingMode ::
                 g.counters.Of(mode) == CapturedIn(host, config, events, mode, |g.contexts|)
  {
    hide ContextOf, AfterRequest, AfterResponse, Captured, NewFilter;
    if events != [] {
      var before := events[..|events| - 1];
      GatewayAccounts(host, config, before);
      forall i | 0 <= i < |CreatedIds(events)|
        ensures RunGateway(host, config, events).contexts[i] == ContextOf(host, config, events, i)
      {
        StepKeepsContexts(host, config, events, i);
      }
      forall mode: RecordingMode
        ensures RunGateway(host, config, events).counters.Of(mode)
             == CapturedIn(host, config, events, mode, |CreatedIds(events)|)
      {
        CountersStep(host, config, events, mode);
      }
    }
  }

  lemma {:induction false} CountersStep(host: Host, config: PluginConfig, events: seq<Event>, mode: RecordingMode)
    requires events != []
    requires var before := events[..|events| - 1];
             var g := RunGateway(host, config, before);
             && |g.contexts| == |CreatedIds(before)|
             && (forall i :: 0 <= i < |g.contexts| ==> g.contexts[i] == ContextOf(host, config, before, i))
             && g.counters.Of(mode) == CapturedIn(host, config, before, mode, |g.contexts|)
    ensures RunGateway(host, config, events).counters.Of(mode)
         == CapturedIn(host, config, events, mode, |CreatedIds(events)|)
  {
    hide Captured, LatestOf, AllCaptured, LatestHeaders, CountMode, AfterRequest, AfterResponse, NewFilter;
    var before, e := events[..|events| - 1], events[|events| - 1];
    var n := |CreatedIds(before)|;
    match e {
      case Created(_) =>
        UncreatedIsBlank(host, config, before, n);
        NoneCounted(mode);
        StepCounts(host, config, events, mode, n + 1);
      case Requested(_, _) =>
        StepCounts(host, config, events, mode, n);
      case Responded(i, nowMs) =>
        StepCounts(host, config, events, mode, n);
        if i < n {
          var f := AfterRequest(NewFilter(CreatedIds(before)[i], config), LatestHeaders(before, i));
          CapturedIgnoresBuffer(host, f, ContextOf(host, config, before, i).buffer, nowMs);
        }
    }
  }

  // --- Held and dropped ----------------------------------------------------------------------

  /** Entries the contexts hold and entries they have dropped. */
  function HeldAndDropped(contexts: seq<FilterState>): nat {
    if contexts == [] then 0
    else
      var b := contexts[|contexts| - 1].buffer;
      HeldAndDropped(contexts[..|contexts| - 1]) + |b.entries| + b.droppedTotal
  }

  lemma {:induction false} ModesPartition(evidence: seq<ActionEvidence>)
    ensures CountMode(evidence, Validation) + CountMode(evidence, Delta) + CountMode(evidence, Full) == |evidence|
  {
    if evidence != [] {
      ModesPartition(evidence[..|evidence| - 1]);
    }
  }

  lemma LatestCovers(capacity: nat, pushed: seq<ActionEvidence>)
    requires |pushed| < 0x1_0000_0000_0000_0000
    ensures |LatestOf(capacity, pushed).entries| + LatestOf(capacity, pushed).droppedTotal == |pushed|
  {
  }

  lemma {:induction false} HeldAndDroppedIsCaptured(
    host: Host, config: PluginConfig, events: seq<Event>, contexts: seq<FilterState>)
    requires |contexts| <= |CreatedIds(events)|
    requires forall i :: 0 <= i < |contexts| ==>
                           var all := AllCaptured(host, config, events, i);
                           && contexts[i].buffer == LatestOf(config.maxEvidenceBuffer, all)
                           && |all| < 0x1_0000_0000_0000_0000
    ensures var n := |contexts|;
            HeldAndDropped(contexts) == CapturedIn(host, config, events, Validation, n)
              + CapturedIn(host, config, events, Delta, n) + CapturedIn(host, config, events, Full, n)
  {
    hide AllCaptured, CountMode, CreatedIds, LatestOf;
    if contexts != [] {
      var n := |contexts| - 1;
      LatestCovers(config.maxEvidenceBuffer, AllCaptured(host, config, events, n));
      HeldAndDroppedIsCaptured(host, config, events, contexts[..n]);
      ModesPartition(AllCaptured(host, config, events, n));
    }
  }

  /** The mode counters add up to what is held and what was dropped, while no context has captured 2^64 responses. */
  lemma CountersCoverHeldAndDropped(host: Host, config: PluginConfig, events: seq<Event>)
    requires config.maxEvidenceBuffer > 0
    requires forall i :: 0 <= i < |CreatedIds(events)| ==>
                           |AllCaptured(host, config, events, i)| < 0x1_0000_0000_0000_0000
    ensures var g := RunGateway(host, config, events);
            g.counters.validation + g.counters.delta + g.counters.full == HeldAndDropped(g.contexts)
  {
    hide RunGateway, LatestOf, AllCaptured, CapturedIn, HeldAndDropped;
    GatewayAccounts(host, config, events);
    var g := RunGateway(host, config, events);
    HeldAndDroppedIsCaptured(host, config, events, g.contexts);
    assert g.counters.validation == g.counters.Of(Validation);
    assert g.counters.delta == g.counters.Of(Delta);
    assert g.counters.full == g.counters.Of(Full);
  }

  // --- What a held entry says ------------------------------------------------------------------

  const SAFE_METHODS := ["GET", "HEAD", "OPTIONS"]
  const MUTATING_METHODS := ["POST", "PUT", "PATCH", "DELETE"]
  const MCP_READS :=
    ["tools/list", "resources/list", "resources/read", "prompts/list", "prompts/get", "completion/complete"]

  /** The context and the tool an entry names, and the risk found in its MCP headers; nothing else is filled in. */
  ghost predicate DescribesOrigin(host: Host, id: u32, headers: Headers, e: ActionEvidence) {
    var httpMethod, path := OrDefault(Header(headers, ":method")), OrDefault(Header(headers, ":path"));
    var mcpMethod := OrElse(Header(headers, "x-mcp-method"), Header(headers, "mcp-method"));
    var mcpName := OrElse(Header(headers, "mcp-name"), Header(headers, "x-mcp-name"));
    var risk := host.classifyMcpHeaders(mcpMethod, mcpName);
    && e.actionId == "ctx-" + DecimalText(id)
    && e.toolName == httpMethod + " " + path
    && (e.mcpHeaderRisk.None? <==> risk.None?)
    && (e.mcpHeaderRisk == Some("credential_leak") <==> risk == Some(CredentialLeak))
    && (e.mcpHeaderRisk == Some("high_entropy_value") <==> risk == Some(HighEntropyValue))
    && (e.mcpHeaderRisk == Some("pii_leak") <==> risk == Some(PiiLeak))
    && e.preconditionDigest.None? && e.resultDigest.None? && e.parentActionId.None? && e.causalChainId.None?
  }

  /**
   When an entry is a read, a network egress, an external mutation or unknown;
   a read is recorded in the default mode and everything else in full.
   */
  ghost predicate DescribesEffect(host: Host, config: PluginConfig, headers: Headers, e: ActionEvidence) {
    var httpMethod, path := OrDefault(Header(headers, ":method")), OrDefault(Header(headers, ":path"));
    var mcpMethod := OrElse(Header(headers, "x-mcp-method"), Header(headers, "mcp-method"));
    var mutating := host.uppercase(httpMethod) in MUTATING_METHODS;
    var outbound := Contains(path, "/network/") || Contains(path, "/webhook");
    && e.sideEffectClass in [Some("read"), Some("network-egress"), Some("mutate-external"), Some("unknown")]
    && (e.sideEffectClass == Some("read") <==>
        host.uppercase(httpMethod) in SAFE_METHODS && (mcpMethod.None? || mcpMethod.value in MCP_READS))
    && (e.sideEffectClass == Some("network-egress") <==> mutating && outbound)
    && (e.sideEffectClass == Some("mutate-external") <==>
        (mutating && !outbound) || (!mutating && mcpMethod == Some("tools/call")))
    && (e.stateChanging <==> e.sideEffectClass != Some("read"))
    && e.recordingMode == (if e.stateChanging then Full else config.defaultMode)
  }

  /** What an entry says of the request behind it. */
  ghost predicate Describes(host: Host, config: PluginConfig, id: u32, headers: Headers, e: ActionEvidence) {
    DescribesOrigin(host, id, headers, e) && DescribesEffect(host, config, headers, e)
  }

  lemma EvidenceDescribesOrigin(host: Host, config: PluginConfig, id: u32, headers: Headers, nowMs: u64)
    ensures DescribesOrigin(host, id, headers, EvidenceFor(host, config, id, headers, nowMs))
  {
    hide InferSideEffectClass, CompileRecordingPolicy, McpHeaderRiskKind.AsStr, SideEffectClass.CanonicalStr,
         DecimalText, MaxRecordingMode;
    var f := AfterRequest(NewFilter(id, config), headers);
    RiskTextsDiffer(host.classifyMcpHeaders(f.mcpMethod, f.mcpName));
  }

  lemma EvidenceDescribesEffect(host: Host, config: PluginConfig, id: u32, headers: Headers, nowMs: u64)
    ensures DescribesEffect(host, config, headers, EvidenceFor(host, config, id, headers, nowMs))
  {
    hide Contains, InferSideEffectClass, CompileRecordingPolicy, McpHeaderRiskKind.AsStr, DecimalText;
    var f := AfterRequest(NewFilter(id, config), headers);
    var cls := InferSideEffectClass(host.uppercase, f.httpMethod, f.path, f.mcpMethod);
    ClassifiedExactly(host.uppercase, f.httpMethod, f.path, f.mcpMethod);
    NeverMutateLocal(host.uppercase, f.httpMethod, f.path, f.mcpMethod);
    PolicyExactly(PlainRisk(cls));
    CanonicalTextsDiffer(cls);
  }

  lemma RiskTextsDiffer(risk: Option<McpHeaderRiskKind>)
    ensures risk.Some? ==>
              && (risk.value.AsStr() == "credential_leak" <==> risk.value == CredentialLeak)
              && (risk.value.AsStr() == "high_entropy_value" <==> risk.value == HighEntropyValue)
              && (risk.value.AsStr() == "pii_leak" <==> risk.value == PiiLeak)
  {
  }

  lemma CanonicalTextsDiffer(c: SideEffectClass)
    ensures c.CanonicalStr() == "read" <==> c == Read
    ensures c.CanonicalStr() == "network-egress" <==> c == NetworkEgress
    ensures c.CanonicalStr() == "unknown" <==> c == Unknown
    ensures c.CanonicalStr() == "mutate-external" <==> c == MutateExternal
  {
  }

  lemma {:induction false} CaptureHasResponse(
    host: Host, config: PluginConfig, events: seq<Event>, i: nat, j: nat)
    returns (k: nat, nowMs: u64)
    requires i < |CreatedIds(events)| && j < |AllCaptured(host, config, events, i)|
    ensures k < |events| && events[k] == Responded(i, nowMs)
    ensures AllCaptured(host, config, events, i)[j]
         == EvidenceFor(host, config, CreatedIds(events)[i], LatestHeaders(events[..k], i), nowMs)
  {
    hide EvidenceFor, LatestHeaders;
    var before, e := events[..|events| - 1], events[|events| - 1];
    if i >= |CreatedIds(before)| {
      UncreatedIsBlank(host, config, before, i);
    }
    if j < |AllCaptured(host, config, before, i)| {
      k, nowMs := CaptureHasResponse(host, config, before, i, j);
      assert events[..k] == before[..k];
    } else {
      k, nowMs := |events| - 1, e.nowMs;
    }
  }

  /** An entry as the filter captures them: at or above the default mode, no free-form members. */
  ghost predicate CapturedUnder(config: PluginConfig, a: ActionEvidence) {
    a.recordingMode.Rank() >= config.defaultMode.Rank() && a.extra == map[] && a.capabilityDecision.None?
  }

  lemma CapturedIsCapturedUnder(host: Host, f: FilterState, nowMs: u64)
    ensures CapturedUnder(f.config, Captured(host, f, nowMs))
    ensures Captured(host, f, nowMs).timestampMs == nowMs
  {
    hide InferSideEffectClass;
  }

  /** Every entry a context holds describes the latest request before one of its responses, at its time. */
  lemma HeldDescribesRequest(host: Host, config: PluginConfig, events: seq<Event>, i: nat, j: nat)
    requires config.maxEvidenceBuffer > 0 && i < |RunGateway(host, config, events).contexts|
    requires j < |RunGateway(host, config, events).contexts[i].buffer.entries|
    ensures var e := RunGateway(host, config, events).contexts[i].buffer.entries[j];
            && i < |CreatedIds(events)| && CapturedUnder(config, e)
            && exists k: nat ::
                 && k < |events| && events[k] == Responded(i, e.timestampMs)
                 && Describes(host, config, CreatedIds(events)[i], LatestHeaders(events[..k], i), e)
  {
    hide RunGateway, AllCaptured, DescribesOrigin, DescribesEffect, LatestHeaders;
    GatewayAccounts(host, config, events);
    var all := AllCaptured(host, config, events, i);
    var entries := RunGateway(host, config, events).contexts[i].buffer.entries;
    var at := j + |all| - |entries|;
    assert entries[j] == all[at];
    var k, nowMs := CaptureHasResponse(host, config, events, i, at);
    EvidenceDescribesOrigin(host, config, CreatedIds(events)[i], LatestHeaders(events[..k], i), nowMs);
    EvidenceDescribesEffect(host, config, CreatedIds(events)[i], LatestHeaders(events[..k], i), nowMs);
    CapturedIsCapturedUnder(
      host, AfterRequest(NewFilter(CreatedIds(events)[i], config), LatestHeaders(events[..k], i)), nowMs);
  }

  /** After any run a context remembers its id and, header by header, the latest request it saw. */
  lemma ContextRemembersRequest(host: Host, config: PluginConfig, events: seq<Event>, i: nat)
    requires config.maxEvidenceBuffer > 0 && i < |RunGateway(host, config, events).contexts|
    ensures var x, headers := RunGateway(host, config, events).contexts[i], LatestHeaders(events, i);
            && i < |CreatedIds(events)| && x.contextId == CreatedIds(events)[i] && x.config == config
            && x.httpMethod == (if ":method" in headers then headers[":method"] else "")
            && x.path == (if ":path" in headers then headers[":path"] else "")
            && (forall v :: x.traceId == Some(v) <==>
                  config.traceIdHeader in headers && headers[config.traceIdHeader] == v)
            && (forall v :: x.agentId == Some(v) <==>
                  config.agentIdHeader in headers && headers[config.agentIdHeader] == v)
            && (forall v :: x.mcpMethod == Some(v) <==>
                  if "x-mcp-method" in headers then headers["x-mcp-method"] == v
                  else "mcp-method" in headers && headers["mcp-method"] == v)
            && (forall v :: x.mcpName == Some(v) <==>
                  if "mcp-name" in headers then headers["mcp-name"] == v
                  else "x-mcp-name" in headers && headers["x-mcp-name"] == v)
            && x.buffer.capacity == config.maxEvidenceBuffer
  {
    hide RunGateway, AllCaptured;
    GatewayAccounts(host, config, events);
  }

  /** In every run, what a context holds rolls up to no less than the operator's default mode. */
  lemma StrictestAtLeastDefault(host: Host, config: PluginConfig, events: seq<Event>, i: nat)
    requires config.maxEvidenceBuffer > 0
    requires i < |RunGateway(host, config, events).contexts|
    ensures var entries := RunGateway(host, config, events).contexts[i].buffer.entries;
            entries != [] ==>
              StrictestRecordingMode(entries).Some? &&
              StrictestRecordingMode(entries).value.Rank() >= config.defaultMode.Rank()
  {
    hide RunGateway, Describes, LatestHeaders;
    var entries := RunGateway(host, config, events).contexts[i].buffer.entries;
    if entries != [] {
      StrictestIsGreatest(entries);
      HeldDescribesRequest(host, config, events, i, 0);
    }
  }

  // --- The MCP header and the roll-up -----------------------------------------------------------

  /** The headers a client sends when it leaves the MCP method out. */
  function WithoutMcpMethod(headers: Headers): Headers { headers - {"x-mcp-method", "mcp-method"} }

  /**
   Sending an MCP method lowers the class a run rolls up to exactly when it makes
   a tool call of an unknown HTTP method and nothing else in the run ranks with
   unknown.
   */
  lemma McpLowersRollupExactly(
    host: Host, config: PluginConfig, id: u32, headers: Headers, nowMs: u64,
    xs: seq<ActionEvidence>, ys: seq<ActionEvidence>)
    ensures var with := EvidenceFor(host, config, id, headers, nowMs);
            var without := EvidenceFor(host, config, id, WithoutMcpMethod(headers), nowMs);
            var lower, higher := RunSideEffectClassMax(xs + [with] + ys), RunSideEffectClassMax(xs + [without] + ys);
            && lower.Some? && higher.Some?
            && (ClassRank(lower.value) < ClassRank(higher.value) <==>
                && host.uppercase(OrDefault(Header(headers, ":method"))) !in SAFE_METHODS + MUTATING_METHODS
                && OrElse(Header(headers, "x-mcp-method"), Header(headers, "mcp-method")) == Some("tools/call")
                && RanksBelow(xs, ClassRank("unknown")) && RanksBelow(ys, ClassRank("unknown")))
  {
    hide RunSideEffectClassMax, ClassRank, RanksBelow, InferSideEffectClass, CompileRecordingPolicy;
    var with := EvidenceFor(host, config, id, headers, nowMs);
    var without := EvidenceFor(host, config, id, WithoutMcpMethod(headers), nowMs);
    ReplacementLowersRollup(xs, without, with, ys);
    McpLowersClassExactly(
      host.uppercase, OrDefault(Header(headers, ":method")), OrDefault(Header(headers, ":path")),
      OrElse(Header(headers, "x-mcp-method"), Header(headers, "mcp-method")));
  }

  lemma McpLowersClassExactly(
    uppercase: string -> string, httpMethod: string, path: string, mcpMethod: Option<string>)
    ensures var with := InferSideEffectClass(uppercase, httpMethod, path, mcpMethod);
            var without := InferSideEffectClass(uppercase, httpMethod, path, None);
            && (ClassRank(with.CanonicalStr()) < ClassRank(without.CanonicalStr()) <==>
                uppercase(httpMethod) !in SAFE_METHODS + MUTATING_METHODS && mcpMethod == Some("tools/call"))
            && (uppercase(httpMethod) !in SAFE_METHODS + MUTATING_METHODS ==> without == Unknown)
  {
    hide Contains;
    CanonicalClassRanks();
    NeverMutateLocal(uppercase, httpMethod, path, mcpMethod);
  }

  /** The case occurs: this request rolls up as an external mutation, and as unknown without its MCP header. */
  lemma McpLowersThisRollup(host: Host, config: PluginConfig, id: u32, nowMs: u64)
    requires host.uppercase("TRACE") == "TRACE"
    ensures var headers: Headers := map[":method" := "TRACE", ":path" := "/x", "mcp-method" := "tools/call"];
            && RunSideEffectClassMax([EvidenceFor(host, config, id, headers, nowMs)]) == Some("mutate-external")
            && RunSideEffectClassMax([EvidenceFor(host, config, id, WithoutMcpMethod(headers), nowMs)])
            == Some("unknown")
  {
    hide Contains, CompileRecordingPolicy;
    var headers: Headers := map[":method" := "TRACE", ":path" := "/x", "mcp-method" := "tools/call"];
    RollupOfOne(EvidenceFor(host, config, id, headers, nowMs));
    RollupOfOne(EvidenceFor(host, config, id, WithoutMcpMethod(headers), nowMs));
  }

  lemma CanonicalClassRanks()
    ensures ClassRank(Read.CanonicalStr()) == 0
    ensures ClassRank(MutateLocal.CanonicalStr()) == 1
    ensures ClassRank(MutateExternal.CanonicalStr()) == 2
    ensures ClassRank(NetworkEgress.CanonicalStr()) == 3
    ensures ClassRank(Unknown.CanonicalStr()) == 4
  {
  }

  // --- From a request to a verified record ---------------------------------------------------

  lemma CapturedActionDepth(config: PluginConfig, a: ActionEvidence)
    requires CapturedUnder(config, a)
    ensures WellFormedAction(a) && Depth(Obj(WriteAction(a))) <= 1
  {
    hide ActionField.Name, ActionFields, DepthOfMembers, SortedKeys;
    forall k | k in WriteAction(a)
      ensures Depth(WriteAction(a)[k]) < 1
    {
      var f := ActionKey(a, k);
      ActionMember(a, f);
    }
    NestedWithin(Obj(WriteAction(a)), 1);
  }

  lemma ActionKey(a: ActionEvidence, k: string) returns (f: ActionField)
    requires a.extra == map[] && k in WriteAction(a)
    ensures f.Name() == k
  {
    hide ActionField.Name, ActionFields;
    ActionLookup(a, Mode);
    assert k in ACTION_NAMES;
    f :| f.Name() == k;
  }

  lemma RecordKey(r: AepRecord, k: string) returns (f: RecordField)
    requires k in WriteRecord(r) && k !in r.extra
    ensures f.Name() == k
  {
    hide RecordField.Name, RecordFields;
    RecordLookup(r, RunMode);
    assert k in RECORD_NAMES;
    f :| f.Name() == k;
  }

  lemma AssembledDepth(
    config: PluginConfig, evidence: seq<ActionEvidence>, identity: EmitterIdentity, createdAtMs: u64)
    requires forall i :: 0 <= i < |evidence| ==> CapturedUnder(config, evidence[i])
    ensures WellFormedActions(evidence)
    ensures Depth(Predicate(Assembled(evidence, identity, createdAtMs))) <= 3
  {
    hide RecordField.Name, RecordFields, DepthOfMembers, DepthOfItems, SortedKeys,
         WriteAction, WellFormedAction, CapturedUnder;
    var r := Strip(Assembled(evidence, identity, createdAtMs));
    forall i | 0 <= i < |evidence|
      ensures WellFormedAction(evidence[i]) && Depth(Obj(WriteAction(evidence[i]))) < 2
    {
      CapturedActionDepth(config, evidence[i]);
    }
    NestedWithin(WriteActions(evidence), 2);
    forall k | k in WriteRecord(r)
      ensures Depth(WriteRecord(r)[k]) < 3
    {
      if k !in r.extra {
        var f := RecordKey(r, k);
        RecordMember(r, f);
      }
    }
    NestedWithin(Obj(WriteRecord(r)), 3);
  }

  lemma EnvelopeDepth(e: DsseEnvelope)
    ensures Depth(EnvelopeJson(e)) <= 3
  {
    hide DepthOfMembers, DepthOfItems, SortedKeys, Depth;
    forall i | 0 <= i < |e.signatures|
      ensures Depth(DsseSignatureJson(e.signatures[i])) <= 1
    {
      SignatureDepth(e.signatures[i]);
    }
    NestedWithin(Arr(DsseSignaturesJson(e.signatures)), 2);
    TextDepth(e.payloadType);
    TextDepth(e.payload);
    NestedWithin(EnvelopeJson(e), 3);
  }

  lemma SignatureDepth(s: DsseSignature)
    ensures Depth(DsseSignatureJson(s)) <= 1
  {
    hide DepthOfMembers, SortedKeys, Depth;
    TextDepth(s.keyid);
    TextDepth(s.sig);
    NestedWithin(DsseSignatureJson(s), 1);
  }

  lemma TextDepth(s: string)
    ensures Depth(Str(s)) == 0
  {
  }

  /** A shallow record stays shallow with its envelope. */
  lemma SignedDepth(r: AepRecord)
    requires WellFormedRecord(r) && r.signature.None? && Depth(Predicate(r)) <= 3
    ensures Depth(Obj(WriteRecord(r))) <= 4
  {
    hide RecordField.Name, Depth, WriteRecord, WellFormedRecord, EnvelopeJson;
    WellFormedRecordIsTyped(r);
    WellFormedMember(r, Envelope);
    WellFormedMember(r, LegacySignature);
    NestedWithin(Predicate(r), 3);
    forall k | k in WriteRecord(r)
      ensures Depth(WriteRecord(r)[k]) < 4
    {
      if k == Envelope.Name() {
        EnvelopeDepth(r.dsseEnvelope.value);
      } else {
        assert k != LegacySignature.Name();
        assert k in Unsigned(WriteRecord(r)).Keys && Unsigned(WriteRecord(r))[k] == WriteRecord(r)[k];
      }
    }
    NestedWithin(Obj(WriteRecord(r)), 4);
  }

  /** The signed record of what context `i` holds. */
  function Emitted(
    c: Suite, host: Host, config: PluginConfig, events: seq<Event>, i: nat,
    identity: EmitterIdentity, createdAtMs: u64, key: SigningKey): AepRecord
    requires i < |RunGateway(host, config, events).contexts|
  {
    Signed(
      c, Assembled(RunGateway(host, config, events).contexts[i].buffer.entries, identity, createdAtMs), key,
      identity.keyId)
  }

  /**
   End to end: whatever requests a gateway has seen, signing what one of its
   contexts holds gives a record that verifies, in memory and after being
   written as text and read back.
   */
  lemma GatewayRecordVerifies(
    c: Suite, host: Host, config: PluginConfig, events: seq<Event>, i: nat,
    identity: EmitterIdentity, createdAtMs: u64, key: SigningKey)
    requires config.maxEvidenceBuffer > 0
    requires i < |RunGateway(host, config, events).contexts|
    ensures var entries := RunGateway(host, config, events).contexts[i].buffer.entries;
            var s := Emitted(c, host, config, events, i, identity, createdAtMs, key);
            var document := Parse(Utf8(Canonical(Obj(WriteRecord(s)))));
            && s.actions == entries
            && VerifyRecordDsse(c, s, c.verifyingKey(key)) == Accepted
            && document.Some? && document.value.Obj? && ReadRecord(document.value.members).Some?
            && VerifyRecordDsse(c, ReadRecord(document.value.members).value, c.verifyingKey(key)) == Accepted
  {
    hide RunGateway, Signed, VerifyRecordDsse, Assembled, WellFormedRecord, WellFormedActions, WriteRecord,
         Depth, Predicate, Parse, ReadRecord, Utf8, Canonical, Reread;
    var entries := RunGateway(host, config, events).contexts[i].buffer.entries;
    var r := Assembled(entries, identity, createdAtMs);
    var s := Emitted(c, host, config, events, i, identity, createdAtMs, key);
    HeldAreCaptured(host, config, events, i);
    AssembledDepth(config, entries, identity, createdAtMs);
    EmittedRecordVerifies(c, entries, identity, createdAtMs, key);
    EmittedIsWellFormed(c, s, entries, identity, createdAtMs, key);
    SignedIsShallow(c, r, key, identity.keyId);
    VerdictSurvivesText(c, s, c.verifyingKey(key));
  }

  lemma HeldAreCaptured(host: Host, config: PluginConfig, events: seq<Event>, i: nat)
    requires config.maxEvidenceBuffer > 0 && i < |RunGateway(host, config, events).contexts|
    ensures var entries := RunGateway(host, config, events).contexts[i].buffer.entries;
            forall j :: 0 <= j < |entries| ==> CapturedUnder(config, entries[j])
  {
    hide RunGateway, Describes, LatestHeaders, CapturedUnder;
    var entries := RunGateway(host, config, events).contexts[i].buffer.entries;
    forall j | 0 <= j < |entries|
      ensures CapturedUnder(config, entries[j])
    {
      HeldDescribesRequest(host, config, events, i, j);
    }
  }

  lemma SignedIsShallow(c: Suite, r: AepRecord, key: SigningKey, keyId: string)
    requires WellFormedRecord(Signed(c, r, key, keyId)) && Depth(Predicate(r)) <= 3
    ensures Depth(Obj(WriteRecord(Signed(c, r, key, keyId)))) <= 4
  {
    hide WellFormedRecord, WriteRecord, Depth, SealedEnvelope;
    var s := Signed(c, r, key, keyId);
    assert Strip(s) == Strip(r);
    SignedDepth(s);
  }

  /**
   Records emitted from what a gateway holds, in any contexts and at any moments:
   accepted under one payload they name the same trace, agent, time and evidence,
   or their canonical texts collide.
   */
  lemma GatewayEnvelopesBind(
    c: Suite, r: AepRecord, s: AepRecord, host: Host, config: PluginConfig,
    events: seq<Event>, events': seq<Event>, i: nat, i': nat, id: EmitterIdentity, id': EmitterIdentity,
    at: u64, at': u64, key: SigningKey, key': SigningKey, checking: VerifyingKey, checking': VerifyingKey)
    requires config.maxEvidenceBuffer > 0
    requires i < |RunGateway(host, config, events).contexts| && i' < |RunGateway(host, config, events').contexts|
    requires r == Emitted(c, host, config, events, i, id, at, key)
    requires s == Emitted(c, host, config, events', i', id', at', key')
    requires VerifyRecordDsse(c, r, checking) == Accepted && VerifyRecordDsse(c, s, checking') == Accepted
    requires r.dsseEnvelope.value.payload == s.dsseEnvelope.value.payload
    ensures id.traceId == id'.traceId
    ensures || Collision(c, PredicateBytes(r), PredicateBytes(s))
            || (id.agentId == id'.agentId && at == at' && r.actions == s.actions)
  {
    hide RunGateway, Signed, VerifyRecordDsse, PredicateBytes, WellFormedActions, Depth, Predicate;
    var xs := RunGateway(host, config, events).contexts[i].buffer.entries;
    var ys := RunGateway(host, config, events').contexts[i'].buffer.entries;
    HeldAreCaptured(host, config, events, i);
    HeldAreCaptured(host, config, events', i');
    AssembledDepth(config, xs, id, at);
    AssembledDepth(config, ys, id', at');
    EmittedRecordsBind(c, r, s, xs, ys, id, id', at, at', key, key', checking, checking');
    SignedActions(c, Assembled(xs, id, at), key, id.keyId);
    SignedActions(c, Assembled(ys, id', at'), key', id'.keyId);
  }

  lemma SignedActions(c: Suite, r: AepRecord, key: SigningKey, keyId: string)
    ensures Signed(c, r, key, keyId).actions == r.actions
  {
  }
}
