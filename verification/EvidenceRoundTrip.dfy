/**
 When a JSON document survives being read into the structs and written back,
 and when a struct survives being written and read.
 */
module EvidenceRoundTrip {
  import opened Wrappers
  import opened Json
  import opened Recording
  import opened Evidence
  import opened EvidenceJson

  // --- Which JSON each modelled field writes ---------------------------------------

  predicate OptionalStr(o: Option<Json>) { o.None? || o.value.Str? }

  predicate DecisionTyped(f: DecisionField, o: Option<Json>) {
    if f == ReasonCode || f == DenyReasonClass then OptionalStr(o)
    else o.Some? && o.value.Str?
  }

  ghost predicate WellTypedDecision(m: Members) {
    forall f: DecisionField :: DecisionTyped(f, Lookup(m, f.Name()))
  }

  ghost predicate ActionTyped(f: ActionField, o: Option<Json>) {
    match f
    case ActionId => o.Some? && o.value.Str?
    case ToolName => o.Some? && o.value.Str?
    case StateChanging => o.Some? && o.value.Bool?
    case TimestampMs => o.Some? && IsU64(o.value)
    case Mode => o.Some? && o.value.Str? && ModeFromStr(o.value.s).Some?
    case CapabilityOutcome => o.None? || (o.value.Obj? && WellTypedDecision(o.value.members))
    case _ => OptionalStr(o)
  }

  ghost predicate WellTypedAction(m: Members) {
    forall f: ActionField :: ActionTyped(f, Lookup(m, f.Name()))
  }

  ghost predicate WellTypedActions(v: Json) {
    v.Arr? && forall i :: 0 <= i < |v.items| ==> v.items[i].Obj? && WellTypedAction(v.items[i].members)
  }

  ghost predicate RecordTyped(f: RecordField, o: Option<Json>) {
    match f
    case SchemaVersion => o.Some? && o.value.Str?
    case RunId => o.Some? && o.value.Str?
    case Envelope => o.None?
    case BackingObserved => o.None? || IsStrs(o.value)
    case EvidenceCount => o.None? || IsU64(o.value)
    case Actions => o.Some? && WellTypedActions(o.value)
    case CreatedAtMs => o.Some? && IsU64(o.value)
    case LegacySignature => o.None?
    case _ => OptionalStr(o)
  }

  /** An unsigned record document whose modelled members are present where required, well typed and not null. */
  ghost predicate WellTypedRecord(m: Members) {
    forall f: RecordField :: RecordTyped(f, Lookup(m, f.Name()))
  }

  // --- Splitting an object along a set of names --------------------------------------

  lemma SplitsAlong(m: Members, fields: Members, names: set<string>)
    requires fields.Keys <= names
    ensures fields + (m - names) == m <==> forall k :: k in names ==> Lookup(fields, k) == Lookup(m, k)
  {
    var w := fields + (m - names);
    if w == m {
      forall k | k in names
        ensures Lookup(fields, k) == Lookup(m, k)
      {
        assert k in m <==> k in w;
      }
    }
    if forall k :: k in names ==> Lookup(fields, k) == Lookup(m, k) {
      assert forall k :: Lookup(w, k) == Lookup(m, k);
      assert forall k :: k in w <==> Lookup(w, k).Some?;
      assert forall k :: k in m <==> Lookup(m, k).Some?;
    }
  }

  // --- Capability decisions ------------------------------------------------------------

  lemma DecisionLookup(d: CapabilityDecision, f: DecisionField)
    ensures Lookup(DecisionFields(d), f.Name()) == DecisionValue(d, f)
    ensures DecisionFields(d).Keys <= DECISION_NAMES && f.Name() in DECISION_NAMES
  {
    hide DecisionField.Name, DecisionField.All, DecisionValue;
    DecisionNamesInjective();
  }

  lemma DecisionWritesBack(m: Members, d: CapabilityDecision)
    requires d.extra == m - DECISION_NAMES
    ensures WriteDecision(d) == m <==> forall f: DecisionField :: DecisionValue(d, f) == Lookup(m, f.Name())
  {
    hide DecisionField.Name, DecisionValue, DecisionFields;
    forall f: DecisionField
      ensures Lookup(DecisionFields(d), f.Name()) == DecisionValue(d, f)
      ensures DecisionFields(d).Keys <= DECISION_NAMES && f.Name() in DECISION_NAMES
    {
      DecisionLookup(d, f);
    }
    DecisionLookup(d, Subject);
    SplitsAlong(m, DecisionFields(d), DECISION_NAMES);
  }

  /** A decision object survives reading and writing exactly when its modelled members are well typed. */
  lemma DecisionRoundTrip(m: Members)
    ensures ReadDecision(m).Some? && WriteDecision(ReadDecision(m).value) == m <==> WellTypedDecision(m)
  {
    hide DecisionField.Name, WriteDecision;
    if ReadDecision(m).Some? {
      var d := ReadDecision(m).value;
      DecisionWritesBack(m, d);
      forall f: DecisionField
        ensures DecisionValue(d, f) == Lookup(m, f.Name()) <==> DecisionTyped(f, Lookup(m, f.Name()))
      {
      }
    } else if WellTypedDecision(m) {
      WellTypedDecisionReads(m);
    }
  }

  lemma WellTypedDecisionReads(m: Members)
    requires WellTypedDecision(m)
    ensures ReadDecision(m).Some?
  {
    hide DecisionField.Name, ReadStr, ReadOptStr;
    assert DecisionTyped(Capability, Lookup(m, Capability.Name()));
    assert DecisionTyped(Subject, Lookup(m, Subject.Name()));
    assert DecisionTyped(Resource, Lookup(m, Resource.Name()));
    assert DecisionTyped(Decision, Lookup(m, Decision.Name()));
    assert DecisionTyped(ReasonCode, Lookup(m, ReasonCode.Name()));
    assert DecisionTyped(DenyReasonClass, Lookup(m, DenyReasonClass.Name()));
  }

  // --- Actions -----------------------------------------------------------------------

  lemma ActionLookup(a: ActionEvidence, f: ActionField)
    ensures Lookup(ActionFields(a), f.Name()) == ActionValue(a, f)
    ensures ActionFields(a).Keys <= ACTION_NAMES && f.Name() in ACTION_NAMES
  {
    hide ActionField.Name, ActionField.All, ActionValue;
    ActionNamesInjective();
  }

  lemma ActionWritesBack(m: Members, a: ActionEvidence)
    requires a.extra == m - ACTION_NAMES
    ensures WriteAction(a) == m <==> forall f: ActionField :: ActionValue(a, f) == Lookup(m, f.Name())
  {
    hide ActionField.Name, ActionValue, ActionFields;
    forall f: ActionField
      ensures Lookup(ActionFields(a), f.Name()) == ActionValue(a, f)
      ensures ActionFields(a).Keys <= ACTION_NAMES && f.Name() in ACTION_NAMES
    {
      ActionLookup(a, f);
    }
    ActionLookup(a, Mode);
    SplitsAlong(m, ActionFields(a), ACTION_NAMES);
  }

  lemma ActionFieldRoundTrip(m: Members, f: ActionField)
    requires ReadAction(m).Some?
    ensures ActionValue(ReadAction(m).value, f) == Lookup(m, f.Name()) <==> ActionTyped(f, Lookup(m, f.Name()))
  {
    hide ActionField.Name, WriteDecision, ReadDecision, WellTypedDecision;
    var o := Lookup(m, f.Name());
    if f == CapabilityOutcome {
      if o.Some? && o.value.Obj? {
        DecisionRoundTrip(o.value.members);
      }
    } else if f == Mode {
      if o.Some? && o.value.Str? {
        assert ReadMode(o.value) == ModeFromStr(o.value.s);
      }
    }
  }

  lemma WellTypedActionReads(m: Members)
    requires WellTypedAction(m)
    ensures ReadAction(m).Some?
  {
    hide ActionField.Name, BuildAction, ReadDecision, WellTypedDecision, WriteDecision,
         ReadStr, ReadBool, ReadU64, ReadOptStr;
    assert ActionTyped(ActionId, Lookup(m, ActionId.Name()));
    assert ActionTyped(ToolName, Lookup(m, ToolName.Name()));
    assert ActionTyped(StateChanging, Lookup(m, StateChanging.Name()));
    assert ActionTyped(PreconditionDigest, Lookup(m, PreconditionDigest.Name()));
    assert ActionTyped(ResultDigest, Lookup(m, ResultDigest.Name()));
    assert ActionTyped(TimestampMs, Lookup(m, TimestampMs.Name()));
    assert ActionTyped(ParentActionId, Lookup(m, ParentActionId.Name()));
    assert ActionTyped(CausalChainId, Lookup(m, CausalChainId.Name()));
    assert ActionTyped(Mode, Lookup(m, Mode.Name()));
    assert ActionTyped(McpHeaderRisk, Lookup(m, McpHeaderRisk.Name()));
    assert ActionTyped(EffectClass, Lookup(m, EffectClass.Name()));
    var o := Lookup(m, CapabilityOutcome.Name());
    assert ActionTyped(CapabilityOutcome, o);
    if o.Some? {
      DecisionRoundTrip(o.value.members);
    }
  }

  lemma ActionRoundTrip(m: Members)
    ensures ReadAction(m).Some? && WriteAction(ReadAction(m).value) == m <==> WellTypedAction(m)
  {
    hide ActionField.Name, WriteAction, ActionTyped, ActionValue;
    if ReadAction(m).Some? {
      ActionWritesBack(m, ReadAction(m).value);
      forall f: ActionField
        ensures ActionValue(ReadAction(m).value, f) == Lookup(m, f.Name()) <==> ActionTyped(f, Lookup(m, f.Name()))
      {
        ActionFieldRoundTrip(m, f);
      }
    } else if WellTypedAction(m) {
      WellTypedActionReads(m);
    }
  }

  lemma ActionsRoundTrip(v: Json)
    requires v.Arr?
    ensures WellTypedActions(v) <==> ReadActions(v.items).Some? && WriteActions(ReadActions(v.items).value) == v
  {
    hide ReadAction, WriteAction, WellTypedAction;
    forall i | 0 <= i < |v.items| && v.items[i].Obj?
      ensures var m := v.items[i].members;
              WellTypedAction(m) <==> ReadAction(m).Some? && WriteAction(ReadAction(m).value) == m
    {
      ActionRoundTrip(v.items[i].members);
    }
    if ReadActions(v.items).Some? {
      var w := WriteActions(ReadActions(v.items).value);
      assert |w.items| == |v.items|;
      assert forall i :: 0 <= i < |v.items| ==>
                           w.items[i] == Obj(WriteAction(ReadActions(v.items).value[i]));
      assert w == v <==> w.items == v.items;
    }
  }

  // --- Records -------------------------------------------------------------------------

  lemma RecordLookup(r: AepRecord, f: RecordField)
    ensures Lookup(RecordFields(r), f.Name()) == RecordValue(r, f)
    ensures RecordFields(r).Keys <= RECORD_NAMES && f.Name() in RECORD_NAMES
  {
    hide RecordField.Name, RecordField.All, RecordValue;
    RecordNamesInjective();
  }

  lemma RecordWritesBack(m: Members, r: AepRecord)
    requires r.extra == m - RECORD_NAMES
    ensures WriteRecord(r) == m <==> forall f: RecordField :: RecordValue(r, f) == Lookup(m, f.Name())
  {
    hide RecordField.Name, RecordValue, RecordFields;
    forall f: RecordField
      ensures Lookup(RecordFields(r), f.Name()) == RecordValue(r, f)
      ensures RecordFields(r).Keys <= RECORD_NAMES && f.Name() in RECORD_NAMES
    {
      RecordLookup(r, f);
    }
    RecordLookup(r, RunId);
    SplitsAlong(m, RecordFields(r), RECORD_NAMES);
  }

  lemma WellTypedActionsRead(v: Json)
    requires WellTypedActions(v)
    ensures v.Arr? && ReadActions(v.items).Some?
  {
    ActionsRoundTrip(v);
  }

  /** Whether the member a field reads is present where required and of its type. */
  predicate FieldReads(m: Members, f: RecordField)
  {
    match f
    case SchemaVersion => ReadStr(m, f.Name()).Some?
    case RunId => ReadStr(m, f.Name()).Some?
    case Envelope => ReadOptEnvelope(m, f.Name()).Some?
    case BackingObserved => ReadOptStrs(m, f.Name()).Some?
    case EvidenceCount => ReadOptU64(m, f.Name()).Some?
    case Actions => f.Name() in m && m[f.Name()].Arr? && ReadActions(m[f.Name()].items).Some?
    case CreatedAtMs => ReadU64(m, f.Name()).Some?
    case LegacySignature => ReadOptAepSignature(m, f.Name()).Some?
    case _ => ReadOptStr(m, f.Name()).Some?
  }

  lemma ReadableField(m: Members, f: RecordField)
    requires RecordReadable(m)
    ensures FieldReads(m, f)
  {
    hide RecordField.Name, ReadActions, ReadStr, ReadU64, ReadOptStr, ReadOptU64, ReadOptStrs,
         ReadOptEnvelope, ReadOptAepSignature;
  }

  lemma FieldsMakeIdentityReadable(m: Members)
    requires forall f: RecordField :: FieldReads(m, f)
    ensures IdentityReadable(m)
  {
    hide RecordField.Name, ReadActions, ReadStr, ReadU64, ReadOptStr, ReadOptU64, ReadOptStrs,
         ReadOptEnvelope, ReadOptAepSignature,
         ReadAction;
    assert FieldReads(m, SchemaVersion);
    assert FieldReads(m, RunId);
    assert FieldReads(m, TraceId);
    assert FieldReads(m, SessionId);
    assert FieldReads(m, Envelope);
    assert FieldReads(m, UserId);
    assert FieldReads(m, AuthorizedBy);
    assert FieldReads(m, AuthorityOrigin);
    assert FieldReads(m, IdentitySource);
  }

  lemma FieldsMakeRunReadable(m: Members)
    requires forall f: RecordField :: FieldReads(m, f)
    ensures RunReadable(m)
  {
    hide RecordField.Name, ReadActions, ReadStr, ReadU64, ReadOptStr, ReadOptU64, ReadOptStrs,
         ReadOptEnvelope, ReadOptAepSignature,
         ReadAction;
    assert FieldReads(m, AttributionBacking);
    assert FieldReads(m, BackingFloor);
    assert FieldReads(m, BackingObserved);
    assert FieldReads(m, EvidenceCount);
    assert FieldReads(m, EffectClassMax);
    assert FieldReads(m, RunMode);
    assert FieldReads(m, Actions);
    assert FieldReads(m, CreatedAtMs);
    assert FieldReads(m, LegacySignature);
  }

  lemma WellTypedFieldReads(m: Members, f: RecordField)
    requires RecordTyped(f, Lookup(m, f.Name()))
    ensures FieldReads(m, f)
  {
    hide RecordField.Name, WellTypedActions, ReadActions, ReadStr, ReadU64, ReadOptStr, ReadOptU64, ReadOptStrs;
    if f == Actions {
      WellTypedActionsRead(m[f.Name()]);
    }
  }

  lemma WellTypedRecordReads(m: Members)
    requires WellTypedRecord(m)
    ensures ReadRecord(m).Some? && Unsigned(m) == m
  {
    hide RecordField.Name, BuildRecord, FieldReads, IdentityReadable, RunReadable;
    forall f: RecordField
      ensures FieldReads(m, f)
    {
      WellTypedFieldReads(m, f);
    }
    FieldsMakeIdentityReadable(m);
    FieldsMakeRunReadable(m);
    assert RecordTyped(Envelope, Lookup(m, Envelope.Name()));
    assert RecordTyped(LegacySignature, Lookup(m, LegacySignature.Name()));
  }

  /** The signing members of a record document removed. */
  function Unsigned(m: Members): Members { m - {Envelope.Name(), LegacySignature.Name()} }

  lemma UnsignedLookup(m: Members, f: RecordField)
    ensures Lookup(Unsigned(m), f.Name()) == if f == Envelope || f == LegacySignature then None else Lookup(m, f.Name())
  {
    hide RecordField.Name;
    RecordNamesDiffer(f, Envelope);
    RecordNamesDiffer(f, LegacySignature);
  }

  lemma UnsignedKeepsExtra(m: Members)
    ensures Unsigned(m) - RECORD_NAMES == m - RECORD_NAMES
  {
    hide RecordField.Name;
    assert Envelope.Name() in RECORD_NAMES && LegacySignature.Name() in RECORD_NAMES;
  }

  lemma RecordFieldRoundTrip(m: Members, f: RecordField)
    requires ReadRecord(m).Some?
    ensures var o := Lookup(Unsigned(m), f.Name());
            RecordValue(Strip(ReadRecord(m).value), f) == o <==> RecordTyped(f, o)
  {
    hide RecordField.Name, Unsigned, WriteActions, ReadActions, WellTypedActions,
         ReadStr, ReadU64, ReadOptStr, ReadOptU64, ReadOptStrs;
    UnsignedLookup(m, f);
    ReadableField(m, f);
    if f == Actions {
      ActionsRoundTrip(m[f.Name()]);
    }
  }

  /**
   A record document survives reading and writing, apart from its signing
   members, exactly when its modelled members are well typed and not null;
   members no struct models are kept at every level.
   */
  lemma WireRoundTrip(m: Members)
    requires ReadRecord(m).Some?
    ensures WriteRecord(Strip(ReadRecord(m).value)) == Unsigned(m) <==> WellTypedRecord(Unsigned(m))
  {
    hide RecordField.Name, WriteRecord, RecordTyped, RecordValue, Unsigned, RecordReadable;
    var u, r := Unsigned(m), Strip(ReadRecord(m).value);
    UnsignedKeepsExtra(m);
    RecordWritesBack(u, r);
    forall f: RecordField
      ensures RecordValue(r, f) == Lookup(u, f.Name()) <==> RecordTyped(f, Lookup(u, f.Name()))
    {
      RecordFieldRoundTrip(m, f);
    }
  }
}
