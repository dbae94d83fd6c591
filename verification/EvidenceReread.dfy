/** Structs that are written out and read back, and what two structs with the same JSON share. */
module EvidenceReread {
  import opened Wrappers
  import opened Json
  import opened Recording
  import opened Evidence
  import opened EvidenceJson
  import opened EvidenceRoundTrip

  // --- Records whose catch-all members cannot hide a modelled field --------------------

  /** A catch-all member named like a modelled field stands in for an absent one, with a value of its type. */
  ghost predicate WellFormedDecision(d: CapabilityDecision) {
    forall f: DecisionField | f.Name() in d.extra ::
      DecisionValue(d, f).None? && DecisionTyped(f, Some(d.extra[f.Name()]))
  }

  ghost predicate WellFormedAction(a: ActionEvidence) {
    && (a.capabilityDecision.Some? ==> WellFormedDecision(a.capabilityDecision.value))
    && forall f: ActionField | f.Name() in a.extra ::
         ActionValue(a, f).None? && ActionTyped(f, Some(a.extra[f.Name()]))
  }

  ghost predicate WellFormedActions(actions: seq<ActionEvidence>) {
    forall i :: 0 <= i < |actions| ==> WellFormedAction(actions[i])
  }

  /** Signing members never come from the catch-all: `RecordTyped` admits no value for them. */
  ghost predicate WellFormedRecord(r: AepRecord) {
    && WellFormedActions(r.actions)
    && forall f: RecordField | f.Name() in r.extra ::
         RecordValue(r, f).None? && RecordTyped(f, Some(r.extra[f.Name()]))
  }

  lemma DecisionMember(d: CapabilityDecision, f: DecisionField)
    ensures Lookup(WriteDecision(d), f.Name())
         == if f.Name() in d.extra then Some(d.extra[f.Name()]) else DecisionValue(d, f)
  {
    hide DecisionField.Name, DecisionFields, DecisionValue;
    DecisionLookup(d, f);
  }

  lemma WellFormedDecisionIsTyped(d: CapabilityDecision)
    requires WellFormedDecision(d)
    ensures WellTypedDecision(WriteDecision(d))
  {
    hide DecisionField.Name, WriteDecision;
    forall f: DecisionField
      ensures DecisionTyped(f, Lookup(WriteDecision(d), f.Name()))
    {
      DecisionMember(d, f);
    }
  }

  lemma ActionMember(a: ActionEvidence, f: ActionField)
    ensures Lookup(WriteAction(a), f.Name())
         == if f.Name() in a.extra then Some(a.extra[f.Name()]) else ActionValue(a, f)
  {
    hide ActionField.Name, ActionFields, ActionValue;
    ActionLookup(a, f);
  }

  lemma WellFormedActionIsTyped(a: ActionEvidence)
    requires WellFormedAction(a)
    ensures WellTypedAction(WriteAction(a))
  {
    hide ActionField.Name, WriteAction, WriteDecision, WellTypedDecision, WellFormedDecision;
    if a.capabilityDecision.Some? {
      WellFormedDecisionIsTyped(a.capabilityDecision.value);
    }
    ModeTextReads(a.recordingMode);
    forall f: ActionField
      ensures ActionTyped(f, Lookup(WriteAction(a), f.Name()))
    {
      ActionMember(a, f);
    }
  }

  lemma WellFormedActionsAreTyped(actions: seq<ActionEvidence>)
    requires WellFormedActions(actions)
    ensures WellTypedActions(WriteActions(actions))
  {
    hide WriteAction, WellTypedAction, WellFormedAction;
    forall i | 0 <= i < |actions|
      ensures WellTypedAction(WriteAction(actions[i]))
    {
      WellFormedActionIsTyped(actions[i]);
    }
  }

  lemma RecordMember(r: AepRecord, f: RecordField)
    ensures Lookup(WriteRecord(r), f.Name())
         == if f.Name() in r.extra then Some(r.extra[f.Name()]) else RecordValue(r, f)
  {
    hide RecordField.Name, RecordFields, RecordValue;
    RecordLookup(r, f);
  }

  /** The unsigned document of a well-formed record: what it holds under each modelled name. */
  lemma WellFormedMember(r: AepRecord, f: RecordField)
    requires WellFormedRecord(r)
    ensures var o := Lookup(WriteRecord(Strip(r)), f.Name());
            && RecordTyped(f, o)
            && (RecordValue(r, f).Some? && f != Envelope && f != LegacySignature ==> o == RecordValue(r, f))
    ensures f == Envelope || f == LegacySignature ==> Lookup(WriteRecord(r), f.Name()) == RecordValue(r, f)
    ensures f != Envelope && f != LegacySignature ==>
              Lookup(WriteRecord(r), f.Name()) == Lookup(WriteRecord(Strip(r)), f.Name())
  {
    hide RecordField.Name, WriteRecord, WriteActions, WellTypedActions, WellFormedActions,
         EnvelopeJson, AepSignatureJson;
    WellFormedActionsAreTyped(r.actions);
    RecordMember(r, f);
    RecordMember(Strip(r), f);
  }

  lemma WellFormedRecordIsTyped(r: AepRecord)
    requires WellFormedRecord(r)
    ensures WellTypedRecord(WriteRecord(Strip(r)))
    ensures Unsigned(WriteRecord(r)) == WriteRecord(Strip(r))
  {
    hide RecordField.Name, WriteRecord, RecordTyped, RecordValue, WellFormedRecord;
    var m, u := WriteRecord(r), WriteRecord(Strip(r));
    forall f: RecordField
      ensures RecordTyped(f, Lookup(u, f.Name()))
    {
      WellFormedMember(r, f);
    }
    forall k
      ensures Lookup(Unsigned(m), k) == Lookup(u, k)
    {
      if f: RecordField :| f.Name() == k {
        WellFormedMember(r, f);
        UnsignedLookup(m, f);
        if f == Envelope || f == LegacySignature {
          WellTypedRecordReads(u);
          UnsignedLookup(u, f);
        }
      } else {
        OtherMember(r, k);
        OtherMember(Strip(r), k);
        assert k != Envelope.Name() && k != LegacySignature.Name();
      }
    }
    assert forall k :: k in Unsigned(m) <==> Lookup(Unsigned(m), k).Some?;
    assert forall k :: k in u <==> Lookup(u, k).Some?;
  }

  lemma OtherMember(r: AepRecord, k: string)
    requires forall f: RecordField :: f.Name() != k
    ensures Lookup(WriteRecord(r), k) == Lookup(r.extra, k)
  {
    hide RecordField.Name, RecordFields;
    RecordLookup(r, RunId);
    assert k !in RECORD_NAMES;
  }

  // --- Reading back what was written ---------------------------------------------------

  lemma {:induction false} DsseSignaturesRead(sigs: seq<DsseSignature>)
    ensures ReadDsseSignatures(DsseSignaturesJson(sigs)) == Some(sigs)
  {
    if sigs != [] {
      DsseSignaturesRead(sigs[1..]);
      assert DsseSignaturesJson(sigs)[1..] == DsseSignaturesJson(sigs[1..]);
      assert sigs == [sigs[0]] + sigs[1..];
    }
  }

  lemma EnvelopeReads(e: DsseEnvelope)
    ensures EnvelopeJson(e).Obj? && ReadEnvelope(EnvelopeJson(e)) == Some(e)
  {
    DsseSignaturesRead(e.signatures);
  }

  lemma AepSignatureReads(s: AepSignature)
    ensures ReadAepSignature(AepSignatureJson(s)) == Some(s)
  {
  }

  lemma WrittenFieldReads(r: AepRecord, f: RecordField)
    requires WellFormedRecord(r)
    ensures FieldReads(WriteRecord(r), f)
  {
    hide RecordField.Name, WriteRecord, WriteActions, WellTypedActions, WellFormedRecord, ReadActions, ReadStr, ReadU64,
         ReadOptStr, ReadOptU64, ReadOptStrs, ReadEnvelope, ReadAepSignature,
         EnvelopeJson, AepSignatureJson, RecordTyped;
    WellFormedMember(r, f);
    if f == Envelope {
      if r.dsseEnvelope.Some? {
        EnvelopeReads(r.dsseEnvelope.value);
      }
    } else if f == LegacySignature {
      if r.signature.Some? {
        AepSignatureReads(r.signature.value);
      }
    } else {
      WellFormedRecordIsTyped(r);
      WellTypedFieldReads(WriteRecord(Strip(r)), f);
      SameMemberReads(WriteRecord(Strip(r)), WriteRecord(r), f);
    }
  }

  lemma SameMemberReads(m: Members, w: Members, f: RecordField)
    requires FieldReads(m, f) && Lookup(m, f.Name()) == Lookup(w, f.Name())
    ensures FieldReads(w, f)
  {
    hide RecordField.Name, ReadActions, ReadEnvelope, ReadAepSignature, IsStrs;
  }

  /** The record that comes back from being written as JSON and read again. */
  function Reread(r: AepRecord): Option<AepRecord> { ReadRecord(WriteRecord(r)) }

  /**
   Writing a well-formed record and reading it back keeps the envelope, the run
   id and the unsigned document, even where a catch-all member moves into the
   field it names.
   */
  lemma WriteThenRead(r: AepRecord)
    requires WellFormedRecord(r)
    ensures Reread(r).Some?
    ensures var r' := Reread(r).value;
            && r'.dsseEnvelope == r.dsseEnvelope
            && r'.runId == r.runId
            && WriteRecord(Strip(r')) == WriteRecord(Strip(r))
  {
    hide RecordField.Name, WriteRecord, WellFormedRecord, FieldReads, IdentityReadable, RunReadable, BuildRecord;
    var m := WriteRecord(r);
    forall f: RecordField
      ensures FieldReads(m, f)
    {
      WrittenFieldReads(r, f);
    }
    FieldsMakeIdentityReadable(m);
    FieldsMakeRunReadable(m);
    WellFormedRecordIsTyped(r);
    WireRoundTrip(m);
    SigningFieldsReadBack(r);
  }

  lemma SigningFieldsReadBack(r: AepRecord)
    requires WellFormedRecord(r)
    ensures Reread(r).Some? ==> Reread(r).value.dsseEnvelope == r.dsseEnvelope && Reread(r).value.runId == r.runId
  {
    hide RecordField.Name, WriteRecord, WellFormedRecord, ReadEnvelope, EnvelopeJson, ReadActions;
    var m := WriteRecord(r);
    WellFormedMember(r, Envelope);
    WellFormedMember(r, RunId);
    if r.dsseEnvelope.Some? {
      EnvelopeReads(r.dsseEnvelope.value);
    }
    if Reread(r).Some? {
      ReadableField(m, Envelope);
      ReadableField(m, RunId);
    }
  }

  // --- Structs that write the same JSON ------------------------------------------------

  /** The catch-all members of two structs name the same modelled fields. */
  predicate DecisionsNameAlike(d: CapabilityDecision, e: CapabilityDecision) {
    d.extra.Keys * DECISION_NAMES == e.extra.Keys * DECISION_NAMES
  }

  predicate ActionsNameAlike(a: ActionEvidence, b: ActionEvidence) {
    && a.extra.Keys * ACTION_NAMES == b.extra.Keys * ACTION_NAMES
    && (a.capabilityDecision.Some? && b.capabilityDecision.Some? ==>
          DecisionsNameAlike(a.capabilityDecision.value, b.capabilityDecision.value))
  }

  predicate AllActionsNameAlike(xs: seq<ActionEvidence>, ys: seq<ActionEvidence>) {
    forall i :: 0 <= i < |xs| && i < |ys| ==> ActionsNameAlike(xs[i], ys[i])
  }

  predicate RecordsNameAlike(r: AepRecord, s: AepRecord) {
    r.extra.Keys * RECORD_NAMES == s.extra.Keys * RECORD_NAMES && AllActionsNameAlike(r.actions, s.actions)
  }

  /**
   Objects that agree, split along a set of names into fields and catch-all
   members that name the same fields, have the same catch-all members.
   */
  lemma CatchAllsAgree(fields: Members, fields': Members, extra: Members, extra': Members, names: set<string>)
    requires fields.Keys <= names && fields'.Keys <= names
    requires fields + extra == fields' + extra'
    requires extra.Keys * names == extra'.Keys * names
    ensures extra == extra'
  {
    var whole := fields + extra;
    forall k
      ensures k in extra <==> k in extra'
      ensures k in extra ==> extra[k] == extra'[k]
    {
      assert k in whole <==> k in fields || k in extra;
      assert k in whole <==> k in fields' || k in extra';
      assert k in names ==> (k in extra.Keys * names <==> k in extra'.Keys * names);
      if k in extra && k in extra' {
        assert whole[k] == extra[k] && whole[k] == extra'[k];
      }
    }
  }

  lemma StrsInjective(ss: seq<string>, ts: seq<string>)
    ensures Strs(ss) == Strs(ts) <==> ss == ts
  {
    if Strs(ss) == Strs(ts) {
      assert |Strs(ss).items| == |ss| && |Strs(ts).items| == |ts|;
      assert forall i :: 0 <= i < |ss| ==> Strs(ss).items[i] == Str(ss[i]) && Strs(ts).items[i] == Str(ts[i]);
    }
  }

  lemma DecisionInjective(d: CapabilityDecision, e: CapabilityDecision)
    requires WellFormedDecision(d) && WellFormedDecision(e) && DecisionsNameAlike(d, e)
    requires WriteDecision(d) == WriteDecision(e)
    ensures d == e
  {
    hide DecisionField.Name, DecisionFields, DecisionValue;
    DecisionLookup(d, Subject);
    DecisionLookup(e, Subject);
    CatchAllsAgree(DecisionFields(d), DecisionFields(e), d.extra, e.extra, DECISION_NAMES);
    forall f: DecisionField
      ensures DecisionValue(d, f) == DecisionValue(e, f)
    {
      DecisionMember(d, f);
      DecisionMember(e, f);
    }
    SameDecisionValues(d, e);
  }

  lemma SameDecisionValues(d: CapabilityDecision, e: CapabilityDecision)
    requires d.extra == e.extra && forall f: DecisionField :: DecisionValue(d, f) == DecisionValue(e, f)
    ensures d == e
  {
    assert DecisionValue(d, Capability) == DecisionValue(e, Capability);
    assert DecisionValue(d, Subject) == DecisionValue(e, Subject);
    assert DecisionValue(d, Resource) == DecisionValue(e, Resource);
    assert DecisionValue(d, Decision) == DecisionValue(e, Decision);
    assert DecisionValue(d, ReasonCode) == DecisionValue(e, ReasonCode);
    assert DecisionValue(d, DenyReasonClass) == DecisionValue(e, DenyReasonClass);
  }

  lemma ActionInjective(a: ActionEvidence, b: ActionEvidence)
    requires WellFormedAction(a) && WellFormedAction(b) && ActionsNameAlike(a, b)
    requires WriteAction(a) == WriteAction(b)
    ensures a == b
  {
    hide ActionField.Name, ActionFields, ActionValue, ActionTyped, WriteDecision, WellFormedDecision;
    ActionLookup(a, Mode);
    ActionLookup(b, Mode);
    CatchAllsAgree(ActionFields(a), ActionFields(b), a.extra, b.extra, ACTION_NAMES);
    forall f: ActionField
      ensures ActionValue(a, f) == ActionValue(b, f)
    {
      ActionMember(a, f);
      ActionMember(b, f);
    }
    SameActionValues(a, b);
  }

  lemma SameActionValues(a: ActionEvidence, b: ActionEvidence)
    requires WellFormedAction(a) && WellFormedAction(b) && ActionsNameAlike(a, b)
    requires a.extra == b.extra && forall f: ActionField :: ActionValue(a, f) == ActionValue(b, f)
    ensures a == b
  {
    hide ActionField.Name, ActionTyped, WriteDecision, WellFormedDecision, DecisionsNameAlike;
    assert ActionValue(a, ActionId) == ActionValue(b, ActionId);
    assert ActionValue(a, ToolName) == ActionValue(b, ToolName);
    assert ActionValue(a, StateChanging) == ActionValue(b, StateChanging);
    assert ActionValue(a, PreconditionDigest) == ActionValue(b, PreconditionDigest);
    assert ActionValue(a, ResultDigest) == ActionValue(b, ResultDigest);
    assert ActionValue(a, TimestampMs) == ActionValue(b, TimestampMs);
    assert ActionValue(a, ParentActionId) == ActionValue(b, ParentActionId);
    assert ActionValue(a, CausalChainId) == ActionValue(b, CausalChainId);
    assert ActionValue(a, McpHeaderRisk) == ActionValue(b, McpHeaderRisk);
    assert ActionValue(a, EffectClass) == ActionValue(b, EffectClass);
    assert a.recordingMode == b.recordingMode by {
      assert ActionValue(a, Mode) == ActionValue(b, Mode);
      ModeTextReads(a.recordingMode);
      ModeTextReads(b.recordingMode);
    }
    assert a.capabilityDecision == b.capabilityDecision by {
      assert ActionValue(a, CapabilityOutcome) == ActionValue(b, CapabilityOutcome);
      if a.capabilityDecision.Some? {
        DecisionInjective(a.capabilityDecision.value, b.capabilityDecision.value);
      }
    }
  }

  lemma ActionsInjective(xs: seq<ActionEvidence>, ys: seq<ActionEvidence>)
    requires WellFormedActions(xs) && WellFormedActions(ys) && AllActionsNameAlike(xs, ys)
    requires WriteActions(xs) == WriteActions(ys)
    ensures xs == ys
  {
    hide WriteAction, WellFormedAction, ActionsNameAlike;
    var v, w := WriteActions(xs).items, WriteActions(ys).items;
    assert |v| == |xs| && |w| == |ys|;
    forall i | 0 <= i < |xs|
      ensures xs[i] == ys[i]
    {
      assert v[i] == Obj(WriteAction(xs[i])) && w[i] == Obj(WriteAction(ys[i]));
      ActionInjective(xs[i], ys[i]);
    }
  }

  /**
   Well-formed records that write the same unsigned document agree on every
   field exactly when their catch-alls name the same modelled fields, at record,
   action and decision level.
   */
  lemma SameDocumentSameFields(r: AepRecord, s: AepRecord)
    requires WellFormedRecord(r) && WellFormedRecord(s) && WriteRecord(Strip(r)) == WriteRecord(Strip(s))
    ensures Strip(r) == Strip(s) <==> RecordsNameAlike(r, s)
  {
    hide RecordField.Name, WellFormedActions, RecordFields, RecordValue, RecordTyped, ActionsNameAlike;
    var u, v := Strip(r), Strip(s);
    if u == v {
      AlikeToItself(r.actions);
    }
    if RecordsNameAlike(r, s) {
      RecordLookup(u, RunId);
      RecordLookup(v, RunId);
      CatchAllsAgree(RecordFields(u), RecordFields(v), u.extra, v.extra, RECORD_NAMES);
      forall f: RecordField
        ensures RecordValue(u, f) == RecordValue(v, f)
      {
        StrippedValue(r, f);
        StrippedValue(s, f);
        RecordMember(u, f);
        RecordMember(v, f);
      }
      SameRecordValues(u, v);
    }
  }

  lemma AlikeToItself(xs: seq<ActionEvidence>)
    ensures AllActionsNameAlike(xs, xs)
  {
  }

  lemma StrippedValue(r: AepRecord, f: RecordField)
    ensures RecordValue(r, f).None? ==> RecordValue(Strip(r), f).None?
  {
  }

  lemma SameIdentity(u: AepRecord, v: AepRecord)
    requires forall f: RecordField :: RecordValue(u, f) == RecordValue(v, f)
    ensures u.schemaVersion == v.schemaVersion
    ensures u.runId == v.runId
    ensures u.traceId == v.traceId
    ensures u.sessionId == v.sessionId
    ensures u.userId == v.userId
    ensures u.authorizedBy == v.authorizedBy
    ensures u.authorityOrigin == v.authorityOrigin
  {
    hide RecordField.Name, WriteActions, Strs;
    assert RecordValue(u, SchemaVersion) == RecordValue(v, SchemaVersion);
    assert RecordValue(u, RunId) == RecordValue(v, RunId);
    assert RecordValue(u, TraceId) == RecordValue(v, TraceId);
    assert RecordValue(u, SessionId) == RecordValue(v, SessionId);
    assert RecordValue(u, UserId) == RecordValue(v, UserId);
    assert RecordValue(u, AuthorizedBy) == RecordValue(v, AuthorizedBy);
    assert RecordValue(u, AuthorityOrigin) == RecordValue(v, AuthorityOrigin);
  }

  lemma SameRun(u: AepRecord, v: AepRecord)
    requires forall f: RecordField :: RecordValue(u, f) == RecordValue(v, f)
    ensures u.identitySource == v.identitySource
    ensures u.attributionBacking == v.attributionBacking
    ensures u.runAttributionBackingFloor == v.runAttributionBackingFloor
    ensures u.authorizationEvidenceCount == v.authorizationEvidenceCount
    ensures u.runSideEffectClassMax == v.runSideEffectClassMax
    ensures u.recordingMode == v.recordingMode
    ensures u.createdAtMs == v.createdAtMs
  {
    hide RecordField.Name, WriteActions, Strs;
    assert RecordValue(u, IdentitySource) == RecordValue(v, IdentitySource);
    assert RecordValue(u, AttributionBacking) == RecordValue(v, AttributionBacking);
    assert RecordValue(u, BackingFloor) == RecordValue(v, BackingFloor);
    assert RecordValue(u, EvidenceCount) == RecordValue(v, EvidenceCount);
    assert RecordValue(u, EffectClassMax) == RecordValue(v, EffectClassMax);
    assert RecordValue(u, RunMode) == RecordValue(v, RunMode);
    assert RecordValue(u, CreatedAtMs) == RecordValue(v, CreatedAtMs);
  }

  lemma SameRecordValues(u: AepRecord, v: AepRecord)
    requires WellFormedActions(u.actions) && WellFormedActions(v.actions) && AllActionsNameAlike(u.actions, v.actions)
    requires Strip(u) == u && Strip(v) == v
    requires u.extra == v.extra && forall f: RecordField :: RecordValue(u, f) == RecordValue(v, f)
    ensures u == v
  {
    hide RecordField.Name, WriteActions, WellFormedActions, AllActionsNameAlike, Strs;
    SameIdentity(u, v);
    SameRun(u, v);
    assert u.actions == v.actions by {
      assert RecordValue(u, Actions) == RecordValue(v, Actions);
      ActionsInjective(u.actions, v.actions);
    }
    assert u.runAttributionBackingObserved == v.runAttributionBackingObserved by {
      assert RecordValue(u, BackingObserved) == RecordValue(v, BackingObserved);
      if u.runAttributionBackingObserved.Some? {
        StrsInjective(u.runAttributionBackingObserved.value, v.runAttributionBackingObserved.value);
      }
    }
  }

  // --- The documents, member by member -------------------------------------------------

  /** What a flattened object holds under a key: the catch-all's member if it has one. */
  function Or(extra: Members, k: string, o: Option<Json>): Option<Json> { if k in extra then Some(extra[k]) else o }

  lemma DecisionWireNames()
    ensures Capability.Name() == "capability"
    ensures Subject.Name() == "subject"
    ensures Resource.Name() == "resource"
    ensures Decision.Name() == "decision"
    ensures ReasonCode.Name() == "reason_code"
    ensures DenyReasonClass.Name() == "deny_reason_class"
  {
  }

  /** The object of a decision: its members under their wire names, optional ones absent when none. */
  lemma DecisionDocument(d: CapabilityDecision)
    ensures var w := WriteDecision(d);
            && Lookup(w, "capability") == Or(d.extra, "capability", Some(Str(d.capability)))
            && Lookup(w, "subject") == Or(d.extra, "subject", Some(Str(d.subject)))
            && Lookup(w, "resource") == Or(d.extra, "resource", Some(Str(d.resource)))
            && Lookup(w, "decision") == Or(d.extra, "decision", Some(Str(d.decision)))
            && Lookup(w, "reason_code") == Or(d.extra, "reason_code", OptStr(d.reasonCode))
            && Lookup(w, "deny_reason_class") == Or(d.extra, "deny_reason_class", OptStr(d.denyReasonClass))
    ensures forall k :: k !in DECISION_NAMES ==> Lookup(WriteDecision(d), k) == Lookup(d.extra, k)
  {
    hide DecisionField.Name, DecisionFields, WriteDecision;
    DecisionWireNames();
    DecisionMember(d, Capability);
    DecisionMember(d, Subject);
    DecisionMember(d, Resource);
    DecisionMember(d, Decision);
    DecisionMember(d, ReasonCode);
    DecisionMember(d, DenyReasonClass);
    OtherDecisionMembers(d);
  }

  lemma OtherDecisionMembers(d: CapabilityDecision)
    ensures forall k :: k !in DECISION_NAMES ==> Lookup(WriteDecision(d), k) == Lookup(d.extra, k)
  {
    hide DecisionField.Name, DecisionFields;
    DecisionLookup(d, Subject);
  }

  lemma ActionWireNames()
    ensures ActionId.Name() == "action_id"
    ensures ToolName.Name() == "tool_name"
    ensures StateChanging.Name() == "state_changing"
    ensures PreconditionDigest.Name() == "precondition_digest"
    ensures ResultDigest.Name() == "result_digest"
    ensures TimestampMs.Name() == "timestamp_ms"
    ensures ParentActionId.Name() == "parent_action_id"
    ensures CausalChainId.Name() == "causal_chain_id"
    ensures Mode.Name() == "recording_mode"
    ensures CapabilityOutcome.Name() == "capability_decision"
    ensures McpHeaderRisk.Name() == "mcp_header_risk"
    ensures EffectClass.Name() == "side_effect_class"
  {
  }

  /** The object of an action: what was done. */
  lemma ActionDocument(a: ActionEvidence)
    ensures var w := WriteAction(a);
            && Lookup(w, "action_id") == Or(a.extra, "action_id", Some(Str(a.actionId)))
            && Lookup(w, "tool_name") == Or(a.extra, "tool_name", Some(Str(a.toolName)))
            && Lookup(w, "state_changing") == Or(a.extra, "state_changing", Some(Bool(a.stateChanging)))
            && Lookup(w, "precondition_digest") == Or(a.extra, "precondition_digest", OptStr(a.preconditionDigest))
            && Lookup(w, "result_digest") == Or(a.extra, "result_digest", OptStr(a.resultDigest))
            && Lookup(w, "timestamp_ms") == Or(a.extra, "timestamp_ms", Some(Int(a.timestampMs)))
            && Lookup(w, "parent_action_id") == Or(a.extra, "parent_action_id", OptStr(a.parentActionId))
            && Lookup(w, "causal_chain_id") == Or(a.extra, "causal_chain_id", OptStr(a.causalChainId))
    ensures forall k :: k !in ACTION_NAMES ==> Lookup(WriteAction(a), k) == Lookup(a.extra, k)
  {
    hide ActionField.Name, ActionFields, WriteAction, WriteDecision;
    ActionWireNames();
    ActionMember(a, ActionId);
    ActionMember(a, ToolName);
    ActionMember(a, StateChanging);
    ActionMember(a, PreconditionDigest);
    ActionMember(a, ResultDigest);
    ActionMember(a, TimestampMs);
    ActionMember(a, ParentActionId);
    ActionMember(a, CausalChainId);
    OtherActionMembers(a);
  }

  /** The object of an action: how it was judged, its mode in snake case and its decision nested. */
  lemma ActionOutcomeDocument(a: ActionEvidence)
    ensures var w := WriteAction(a);
            var mode := match a.recordingMode case Validation => "validation" case Delta => "delta" case Full => "full";
            var decision := if a.capabilityDecision.None? then None
                            else Some(Obj(WriteDecision(a.capabilityDecision.value)));
            && Lookup(w, "recording_mode") == Or(a.extra, "recording_mode", Some(Str(mode)))
            && Lookup(w, "capability_decision") == Or(a.extra, "capability_decision", decision)
            && Lookup(w, "mcp_header_risk") == Or(a.extra, "mcp_header_risk", OptStr(a.mcpHeaderRisk))
            && Lookup(w, "side_effect_class") == Or(a.extra, "side_effect_class", OptStr(a.sideEffectClass))
  {
    hide ActionField.Name, ActionFields, WriteAction, WriteDecision;
    ActionWireNames();
    ActionMember(a, Mode);
    ActionMember(a, CapabilityOutcome);
    ActionMember(a, McpHeaderRisk);
    ActionMember(a, EffectClass);
  }

  lemma OtherActionMembers(a: ActionEvidence)
    ensures forall k :: k !in ACTION_NAMES ==> Lookup(WriteAction(a), k) == Lookup(a.extra, k)
  {
    hide ActionField.Name, ActionFields;
    ActionLookup(a, Mode);
  }

  lemma RecordWireNames()
    ensures SchemaVersion.Name() == "schema_version"
    ensures RunId.Name() == "run_id"
    ensures TraceId.Name() == "trace_id"
    ensures SessionId.Name() == "session_id"
    ensures UserId.Name() == "user_id"
    ensures AuthorizedBy.Name() == "authorized_by"
    ensures AuthorityOrigin.Name() == "authority_origin"
    ensures IdentitySource.Name() == "identity_source"
  {
  }

  lemma BackingWireNames()
    ensures AttributionBacking.Name() == "attribution_backing"
    ensures BackingFloor.Name() == "run_attribution_backing_floor"
    ensures BackingObserved.Name() == "run_attribution_backing_observed"
    ensures EvidenceCount.Name() == "authorization_evidence_count"
  {
  }

  lemma RunWireNames()
    ensures EffectClassMax.Name() == "run_side_effect_class_max"
    ensures RunMode.Name() == "recording_mode"
    ensures Actions.Name() == "actions"
    ensures CreatedAtMs.Name() == "created_at_ms"
  {
  }

  lemma SigningWireNames()
    ensures Envelope.Name() == "dsse_envelope"
    ensures LegacySignature.Name() == "signature"
  {
  }

  /** The object of a record: whose run it is. */
  lemma RecordDocument(r: AepRecord)
    ensures var w := WriteRecord(r);
            && Lookup(w, "schema_version") == Or(r.extra, "schema_version", Some(Str(r.schemaVersion)))
            && Lookup(w, "run_id") == Or(r.extra, "run_id", Some(Str(r.runId)))
            && Lookup(w, "trace_id") == Or(r.extra, "trace_id", OptStr(r.traceId))
            && Lookup(w, "session_id") == Or(r.extra, "session_id", OptStr(r.sessionId))
            && Lookup(w, "user_id") == Or(r.extra, "user_id", OptStr(r.userId))
            && Lookup(w, "authorized_by") == Or(r.extra, "authorized_by", OptStr(r.authorizedBy))
            && Lookup(w, "authority_origin") == Or(r.extra, "authority_origin", OptStr(r.authorityOrigin))
            && Lookup(w, "identity_source") == Or(r.extra, "identity_source", OptStr(r.identitySource))
    ensures forall k :: k !in RECORD_NAMES ==> Lookup(WriteRecord(r), k) == Lookup(r.extra, k)
  {
    hide RecordField.Name, RecordFields, WriteRecord;
    RecordWireNames();
    RecordMember(r, SchemaVersion);
    RecordMember(r, RunId);
    RecordMember(r, TraceId);
    RecordMember(r, SessionId);
    RecordMember(r, UserId);
    RecordMember(r, AuthorizedBy);
    RecordMember(r, AuthorityOrigin);
    RecordMember(r, IdentitySource);
    OtherRecordMembers(r);
  }

  /** The object of a record: how its attribution is backed. */
  lemma RecordBackingDocument(r: AepRecord)
    ensures var w := WriteRecord(r);
            var observed := if r.runAttributionBackingObserved.None? then None
                            else Some(Strs(r.runAttributionBackingObserved.value));
            var count := if r.authorizationEvidenceCount.None? then None
                         else Some(Int(r.authorizationEvidenceCount.value));
            && Lookup(w, "attribution_backing") == Or(r.extra, "attribution_backing", OptStr(r.attributionBacking))
            && Lookup(w, "run_attribution_backing_floor")
               == Or(r.extra, "run_attribution_backing_floor", OptStr(r.runAttributionBackingFloor))
            && Lookup(w, "run_attribution_backing_observed")
               == Or(r.extra, "run_attribution_backing_observed", observed)
            && Lookup(w, "authorization_evidence_count") == Or(r.extra, "authorization_evidence_count", count)
  {
    hide RecordField.Name, RecordFields, WriteRecord, Strs;
    BackingWireNames();
    RecordMember(r, AttributionBacking);
    RecordMember(r, BackingFloor);
    RecordMember(r, BackingObserved);
    RecordMember(r, EvidenceCount);
  }

  /** The object of a record: what the run did. */
  lemma RecordRunDocument(r: AepRecord)
    ensures var w := WriteRecord(r);
            && Lookup(w, "run_side_effect_class_max")
               == Or(r.extra, "run_side_effect_class_max", OptStr(r.runSideEffectClassMax))
            && Lookup(w, "recording_mode") == Or(r.extra, "recording_mode", OptStr(r.recordingMode))
            && Lookup(w, "actions") == Or(r.extra, "actions", Some(WriteActions(r.actions)))
            && Lookup(w, "created_at_ms") == Or(r.extra, "created_at_ms", Some(Int(r.createdAtMs)))
  {
    hide RecordField.Name, RecordFields, WriteRecord, WriteActions;
    RunWireNames();
    RecordMember(r, EffectClassMax);
    RecordMember(r, RunMode);
    RecordMember(r, Actions);
    RecordMember(r, CreatedAtMs);
  }

  lemma OtherRecordMembers(r: AepRecord)
    ensures forall k :: k !in RECORD_NAMES ==> Lookup(WriteRecord(r), k) == Lookup(r.extra, k)
  {
    hide RecordField.Name, RecordFields;
    RecordLookup(r, RunId);
  }

  /** The members of an envelope and of a legacy signature, under their wire names. */
  lemma SigningDocument(r: AepRecord)
    ensures var w := WriteRecord(r);
            && (r.dsseEnvelope.Some? && "dsse_envelope" !in r.extra ==>
                  "dsse_envelope" in w && w["dsse_envelope"].Obj? &&
                  var m := w["dsse_envelope"].members;
                  && m.Keys == {"payloadType", "payload", "signatures"}
                  && m["payloadType"] == Str(r.dsseEnvelope.value.payloadType)
                  && m["payload"] == Str(r.dsseEnvelope.value.payload)
                  && m["signatures"].Arr? && |m["signatures"].items| == |r.dsseEnvelope.value.signatures|
                  && forall i :: 0 <= i < |m["signatures"].items| ==>
                       var s := r.dsseEnvelope.value.signatures[i];
                       m["signatures"].items[i] == Obj(map["keyid" := Str(s.keyid), "sig" := Str(s.sig)]))
            && (r.signature.Some? && "signature" !in r.extra ==>
                  var s := r.signature.value;
                  Lookup(w, "signature")
                  == Some(Obj(map["alg" := Str(s.alg), "key_id" := Str(s.keyId), "sig" := Str(s.sig)])))
  {
    hide RecordField.Name, RecordFields, WriteRecord;
    SigningWireNames();
    RecordMember(r, Envelope);
    RecordMember(r, LegacySignature);
  }
}
