/** Assembling captured evidence into one signed record. */
module Emitter {
  import opened Wrappers
  import opened Json
  import opened JsonReader
  import opened Evidence
  import opened EvidenceJson
  import opened EvidenceRoundTrip
  import opened EvidenceReread
  import opened Crypto
  import opened Dsse
  import opened DsseProofs

  datatype EmitterIdentity = EmitterIdentity(traceId: string, agentId: string, keyId: string)

  datatype EmitError = NoEvidence | EmptyTraceId | SignerRejected(error: SignError)

  // --- str::trim -----------------------------------------------------------------------

  /** The characters with the Unicode property White_Space. */
  predicate IsWhitespace(c: char) {
    var n := c as int;
    || 9 <= n <= 13 || n == 32 || n == 0x85 || n == 0xA0 || n == 0x1680 || 0x2000 <= n <= 0x200A
    || n == 0x2028 || n == 0x2029 || n == 0x202F || n == 0x205F || n == 0x3000
  }

  function TrimStart(s: string): string {
    if s != "" && IsWhitespace(s[0]) then TrimStart(s[1..]) else s
  }

  function TrimEnd(s: string): string {
    if s != "" && IsWhitespace(s[|s| - 1]) then TrimEnd(s[..|s| - 1]) else s
  }

  function Trim(s: string): string { TrimEnd(TrimStart(s)) }

  /** The code points listed with White_Space in PropList.txt of the Unicode Character Database. */
  const WHITE_SPACE := {
    9, 10, 11, 12, 13, 0x20, 0x85, 0xA0, 0x1680, 0x2000, 0x2001, 0x2002, 0x2003, 0x2004, 0x2005, 0x2006, 0x2007,
    0x2008, 0x2009, 0x200A, 0x2028, 0x2029, 0x202F, 0x205F, 0x3000 }

  lemma WhitespaceExactly(c: char)
    ensures IsWhitespace(c) <==> c as int in WHITE_SPACE
  {
  }

  predicate IsBlank(s: string) { forall i :: 0 <= i < |s| ==> s[i] as int in WHITE_SPACE }

  lemma {:induction false} TrimStartBlank(s: string)
    ensures TrimStart(s) == "" <==> IsBlank(s)
    ensures TrimStart(s) != "" ==> !IsWhitespace(TrimStart(s)[0])
  {
    hide WHITE_SPACE, IsWhitespace;
    if s != "" {
      WhitespaceExactly(s[0]);
    }
    if s != "" && IsWhitespace(s[0]) {
      TrimStartBlank(s[1..]);
      assert forall i :: 0 < i < |s| ==> s[i] == s[1..][i - 1];
    }
  }

  lemma {:induction false} TrimEndKeepsStart(s: string)
    requires s != "" && !IsWhitespace(s[0])
    ensures TrimEnd(s) != ""
  {
    if IsWhitespace(s[|s| - 1]) {
      TrimEndKeepsStart(s[..|s| - 1]);
    }
  }

  lemma {:induction false} TrimStartDrops(s: string) returns (before: string)
    ensures IsBlank(before) && s == before + TrimStart(s)
  {
    hide WHITE_SPACE, IsWhitespace;
    before := "";
    if s != "" && IsWhitespace(s[0]) {
      WhitespaceExactly(s[0]);
      var tail := TrimStartDrops(s[1..]);
      before := [s[0]] + tail;
      assert s == [s[0]] + s[1..];
    }
  }

  lemma {:induction false} TrimEndDrops(s: string) returns (after: string)
    ensures IsBlank(after) && s == TrimEnd(s) + after
    ensures var t := TrimEnd(s); t != "" ==> t[|t| - 1] as int !in WHITE_SPACE && t[0] == s[0]
  {
    hide WHITE_SPACE, IsWhitespace;
    after := "";
    if s != "" {
      var last := s[|s| - 1];
      WhitespaceExactly(last);
      if IsWhitespace(last) {
        var front := TrimEndDrops(s[..|s| - 1]);
        after := front + [last];
        assert s == s[..|s| - 1] + [last];
      }
    }
  }

  /** Trimming drops white space at both ends, all of it, and nothing else. */
  lemma TrimDropsBlankEnds(s: string) returns (before: string, after: string)
    ensures IsBlank(before) && IsBlank(after) && s == before + Trim(s) + after
    ensures var t := Trim(s); t != "" ==> t[0] as int !in WHITE_SPACE && t[|t| - 1] as int !in WHITE_SPACE
  {
    hide WHITE_SPACE, IsWhitespace, TrimStart, TrimEnd, IsBlank;
    before := TrimStartDrops(s);
    after := TrimEndDrops(TrimStart(s));
    TrimStartBlank(s);
    if Trim(s) != "" {
      WhitespaceExactly(Trim(s)[0]);
    }
  }

  /** Nothing is left of a string after trimming exactly when it is all white space. */
  lemma TrimIsEmptyOnBlank(s: string)
    ensures Trim(s) == "" <==> IsBlank(s)
  {
    TrimStartBlank(s);
    if TrimStart(s) != "" {
      TrimEndKeepsStart(TrimStart(s));
    }
  }

  // --- assemble_and_sign ---------------------------------------------------------------

  /** `..Default::default()`. */
  const EMPTY_RECORD: AepRecord :=
    AepRecord("", "", None, None, None, None, None, None, None, None, None, None, None, None, None, [], 0, None, map[])

  /** The record as it stands when the signer is called. */
  function Assembled(evidence: seq<ActionEvidence>, identity: EmitterIdentity, createdAtMs: u64): AepRecord {
    EMPTY_RECORD.(schemaVersion := AEP_SCHEMA_VERSION,
                  runId := "gw-" + identity.traceId,
                  traceId := Some(identity.traceId),
                  actions := evidence,
                  createdAtMs := createdAtMs,
                  extra := map["claimed_agent_id" := Str(identity.agentId), "identity_source" := Str("self_asserted")])
  }

  /** `assemble_and_sign`: succeeds exactly on some evidence and a trace id that is not blank. */
  method AssembleAndSign(
    c: Suite, evidence: seq<ActionEvidence>, identity: EmitterIdentity, createdAtMs: u64, key: SigningKey)
    returns (r: Result<AepRecord, EmitError>)
    ensures r.Ok? <==> evidence != [] && !IsBlank(identity.traceId)
    ensures r == Err(NoEvidence) <==> evidence == []
    ensures r == Err(EmptyTraceId) <==> evidence != [] && IsBlank(identity.traceId)
    ensures r.Ok? ==> r.value == Signed(c, Assembled(evidence, identity, createdAtMs), key, identity.keyId)
    ensures r.Ok? ==>
              var document := WriteRecord(Strip(r.value));
              && document.Keys == {"schema_version", "run_id", "trace_id", "actions", "created_at_ms",
                                   "claimed_agent_id", "identity_source"}
              && document["schema_version"] == Str("aep/v0.5")
              && document["run_id"] == Str("gw-" + identity.traceId)
              && document["trace_id"] == Str(identity.traceId)
              && document["actions"] == WriteActions(evidence)
              && document["created_at_ms"] == Int(createdAtMs)
              && document["claimed_agent_id"] == Str(identity.agentId)
              && document["identity_source"] == Str("self_asserted")
    ensures r.Ok? ==> r.value.actions == evidence
  {
    hide Signed, WriteRecord, WriteActions;
    AssembledDocument(evidence, identity, createdAtMs);
    SignedStrips(c, Assembled(evidence, identity, createdAtMs), key, identity.keyId);
    if evidence == [] {
      return Err(NoEvidence);
    }
    TrimIsEmptyOnBlank(identity.traceId);
    if Trim(identity.traceId) == "" {
      return Err(EmptyTraceId);
    }
    var slot := new RecordRef(EMPTY_RECORD.(
      schemaVersion := AEP_SCHEMA_VERSION,
      runId := "gw-" + identity.traceId,
      traceId := Some(identity.traceId),
      actions := evidence,
      createdAtMs := createdAtMs));
    slot.record := slot.record.(extra := slot.record.extra["claimed_agent_id" := Str(identity.agentId)]);
    slot.record := slot.record.(extra := slot.record.extra["identity_source" := Str("self_asserted")]);
    slot.record := slot.record.(extra := slot.record.extra["claimed_agent_id" := Str(identity.agentId)]);
    assert slot.record.extra == Assembled(evidence, identity, createdAtMs).extra;
    assert slot.record == Assembled(evidence, identity, createdAtMs);
    var signed := slot.SignRecordDsse(c, key, identity.keyId);
    match signed {
      case Ok(_) => r := Ok(slot.record);
      case Err(error) => r := Err(SignerRejected(error));
    }
  }

  lemma SignedStrips(c: Suite, r: AepRecord, key: SigningKey, keyId: string)
    ensures Strip(Signed(c, r, key, keyId)) == Strip(r)
  {
    hide SealedEnvelope;
  }

  /** The unsigned document of an assembled record: its members, and no others. */
  lemma AssembledDocument(evidence: seq<ActionEvidence>, identity: EmitterIdentity, createdAtMs: u64)
    ensures var document := WriteRecord(Strip(Assembled(evidence, identity, createdAtMs)));
            && document.Keys == {"schema_version", "run_id", "trace_id", "actions", "created_at_ms",
                                 "claimed_agent_id", "identity_source"}
            && document["schema_version"] == Str("aep/v0.5")
            && document["run_id"] == Str("gw-" + identity.traceId)
            && document["trace_id"] == Str(identity.traceId)
            && document["actions"] == WriteActions(evidence)
            && document["created_at_ms"] == Int(createdAtMs)
            && document["claimed_agent_id"] == Str(identity.agentId)
            && document["identity_source"] == Str("self_asserted")
  {
    hide WriteRecord, WriteActions, RecordField.Name;
    var r := Strip(Assembled(evidence, identity, createdAtMs));
    var document := WriteRecord(r);
    AssembledWireNames();
    AssembledMembers(evidence, identity, createdAtMs);
    AssembledKeys(evidence, identity, createdAtMs);
    assert document["schema_version"] == Lookup(document, SchemaVersion.Name()).value;
    assert document["run_id"] == Lookup(document, RunId.Name()).value;
    assert document["trace_id"] == Lookup(document, TraceId.Name()).value;
    assert document["actions"] == Lookup(document, Actions.Name()).value;
    assert document["created_at_ms"] == Lookup(document, CreatedAtMs.Name()).value;
    assert document["identity_source"] == Lookup(document, IdentitySource.Name()).value;
  }

  /** The members of an assembled record, field by field. */
  lemma AssembledMembers(evidence: seq<ActionEvidence>, identity: EmitterIdentity, createdAtMs: u64)
    ensures var r := Strip(Assembled(evidence, identity, createdAtMs));
            && (forall f: RecordField :: Lookup(WriteRecord(r), f.Name()) == AssembledValue(r, f))
            && Lookup(WriteRecord(r), "claimed_agent_id") == Some(Str(identity.agentId))
  {
    hide WriteRecord, WriteActions, RecordField.Name;
    var r := Strip(Assembled(evidence, identity, createdAtMs));
    forall f: RecordField
      ensures f.Name() != "claimed_agent_id" && Lookup(WriteRecord(r), f.Name()) == AssembledValue(r, f)
    {
      AssembledNames(f);
      RecordMember(r, f);
    }
    OtherMember(r, "claimed_agent_id");
  }

  function AssembledValue(r: AepRecord, f: RecordField): Option<Json> {
    if f == IdentitySource then Some(Str("self_asserted")) else RecordValue(r, f)
  }

  lemma AssembledKeys(evidence: seq<ActionEvidence>, identity: EmitterIdentity, createdAtMs: u64)
    ensures WriteRecord(Strip(Assembled(evidence, identity, createdAtMs))).Keys
         == {SchemaVersion.Name(), RunId.Name(), TraceId.Name(), Actions.Name(), CreatedAtMs.Name(),
             "claimed_agent_id", IdentitySource.Name()}
  {
    hide WriteRecord, WriteActions, RecordField.Name;
    var r := Strip(Assembled(evidence, identity, createdAtMs));
    var document := WriteRecord(r);
    AssembledMembers(evidence, identity, createdAtMs);
    AssembledWireNames();
    forall k
      ensures k in document <==>
              k in {SchemaVersion.Name(), RunId.Name(), TraceId.Name(), Actions.Name(), CreatedAtMs.Name(),
                    "claimed_agent_id", IdentitySource.Name()}
    {
      assert k in document <==> Lookup(document, k).Some?;
      if f: RecordField :| f.Name() == k {
        AssembledNames(f);
        AssembledHas(r, f);
      } else {
        OtherMember(r, k);
      }
    }
  }

  lemma AssembledHas(r: AepRecord, f: RecordField)
    requires r.traceId.Some?
    requires r == EMPTY_RECORD.(schemaVersion := r.schemaVersion, runId := r.runId, traceId := r.traceId,
                                actions := r.actions, createdAtMs := r.createdAtMs, extra := r.extra)
    ensures AssembledValue(r, f).Some? <==>
            f.Name() in {SchemaVersion.Name(), RunId.Name(), TraceId.Name(), Actions.Name(), CreatedAtMs.Name(),
                         IdentitySource.Name()}
  {
    hide RecordField.Name, WriteActions;
    RecordNamesDiffer(f, SchemaVersion);
    RecordNamesDiffer(f, RunId);
    RecordNamesDiffer(f, TraceId);
    RecordNamesDiffer(f, Actions);
    RecordNamesDiffer(f, CreatedAtMs);
    RecordNamesDiffer(f, IdentitySource);
  }

  lemma AssembledWireNames()
    ensures SchemaVersion.Name() == "schema_version"
    ensures RunId.Name() == "run_id"
    ensures TraceId.Name() == "trace_id"
    ensures Actions.Name() == "actions"
    ensures CreatedAtMs.Name() == "created_at_ms"
    ensures IdentitySource.Name() == "identity_source"
  {
  }

  // --- What the emitted record promises --------------------------------------------------

  lemma AssembledIsWellFormed(evidence: seq<ActionEvidence>, identity: EmitterIdentity, createdAtMs: u64)
    requires WellFormedActions(evidence)
    ensures WellFormedRecord(Assembled(evidence, identity, createdAtMs))
  {
    hide WellFormedActions, WellTypedActions, WriteActions;
    var r := Assembled(evidence, identity, createdAtMs);
    forall f: RecordField | f.Name() in r.extra
      ensures RecordValue(r, f).None? && RecordTyped(f, Some(r.extra[f.Name()]))
    {
      AssembledNames(f);
    }
  }

  /** The only catch-all member of an assembled record that names a modelled field. */
  lemma AssembledNames(f: RecordField)
    ensures f.Name() != "claimed_agent_id"
    ensures f.Name() == "identity_source" <==> f == IdentitySource
  {
    assert Tag("claimed_agent_id") == 16 * 128 + 99;
    RecordNameTag(f);
    RecordNamesDiffer(f, IdentitySource);
  }

  /** What verification says of an assembled record, once signed. */
  function EmittedVerdict(r: AepRecord): Verdict {
    if Depth(Predicate(r)) < MAX_NESTING then Accepted else Rejected(StatementNotJson)
  }

  /**
   The emitted record keeps the captured actions in order and verifies, exactly
   when the assembled record does not nest too deeply for the verifier; and it
   gets the same verdict after being written and read back, when its catch-all
   `identity_source` has moved into the field of that name.
   */
  lemma EmittedRecordVerifies(
    c: Suite, evidence: seq<ActionEvidence>, identity: EmitterIdentity, createdAtMs: u64, key: SigningKey)
    requires WellFormedActions(evidence)
    ensures var r := Assembled(evidence, identity, createdAtMs);
            var s := Signed(c, r, key, identity.keyId);
            && s.actions == evidence
            && VerifyRecordDsse(c, s, c.verifyingKey(key)) == EmittedVerdict(r)
            && Reread(s).Some?
            && VerifyRecordDsse(c, Reread(s).value, c.verifyingKey(key)) == EmittedVerdict(r)
            && s.identitySource == None && Reread(s).value.identitySource == Some("self_asserted")
  {
    hide Signed, VerifyRecordDsse, Reread, WellFormedActions, Depth, Predicate;
    var r := Assembled(evidence, identity, createdAtMs);
    var s := Signed(c, r, key, identity.keyId);
    AssembledIsWellFormed(evidence, identity, createdAtMs);
    SignThenVerify(c, r, key, identity.keyId);
    SignedIsWellFormed(r, s);
    VerdictSurvivesWire(c, s, c.verifyingKey(key));
    IdentitySourceMoves(s);
  }

  lemma SignedIsWellFormed(r: AepRecord, s: AepRecord)
    requires WellFormedRecord(r) && s == r.(signature := None, dsseEnvelope := s.dsseEnvelope)
    ensures WellFormedRecord(s)
  {
    hide RecordField.Name, WellFormedActions, WellTypedActions, WriteActions;
    forall f: RecordField | f.Name() in s.extra
      ensures RecordValue(s, f).None? && RecordTyped(f, Some(s.extra[f.Name()]))
    {
      assert RecordValue(r, f).None? && RecordTyped(f, Some(r.extra[f.Name()]));
    }
  }

  lemma IdentitySourceMoves(s: AepRecord)
    requires "identity_source" in s.extra && s.extra["identity_source"] == Str("self_asserted")
    ensures Reread(s).Some? ==> Reread(s).value.identitySource == Some("self_asserted")
  {
    hide WriteRecord;
    RecordMember(s, IdentitySource);
    if Reread(s).Some? {
      ReadableField(WriteRecord(s), IdentitySource);
    }
  }

  // --- What an emitted envelope binds ------------------------------------------------------

  /**
   Two emitted records accepted under envelopes with the same payload, whatever
   the keys, have the same trace id; and the same agent id, time and evidence,
   or their canonical texts collide. Evidence may differ only where a catch-all
   of one action names a modelled field and its counterpart's does not.
   */
  lemma EmittedRecordsBind(
    c: Suite, r: AepRecord, s: AepRecord, xs: seq<ActionEvidence>, ys: seq<ActionEvidence>,
    id: EmitterIdentity, id': EmitterIdentity, at: u64, at': u64, key: SigningKey, key': SigningKey,
    checking: VerifyingKey, checking': VerifyingKey)
    requires WellFormedActions(xs) && WellFormedActions(ys)
    requires r == Signed(c, Assembled(xs, id, at), key, id.keyId)
    requires s == Signed(c, Assembled(ys, id', at'), key', id'.keyId)
    requires VerifyRecordDsse(c, r, checking) == Accepted && VerifyRecordDsse(c, s, checking') == Accepted
    requires r.dsseEnvelope.value.payload == s.dsseEnvelope.value.payload
    ensures id.traceId == id'.traceId
    ensures || Collision(c, PredicateBytes(r), PredicateBytes(s))
            || (id.agentId == id'.agentId && at == at' && (xs == ys <==> AllActionsNameAlike(xs, ys)))
  {
    hide Signed, VerifyRecordDsse, WriteRecord, WellFormedRecord, WellFormedActions, AllActionsNameAlike,
         PredicateBytes, RECORD_NAMES;
    EnvelopeBindsRecord(c, r, s, checking, checking');
    EmittedIsWellFormed(c, r, xs, id, at, key);
    EmittedIsWellFormed(c, s, ys, id', at', key');
    assert id.traceId == r.runId[3..] && id'.traceId == s.runId[3..];
    if !Collision(c, PredicateBytes(r), PredicateBytes(s)) {
      EmittedDocument(r, xs, id, at);
      EmittedDocument(s, ys, id', at');
      assert r.extra.Keys == s.extra.Keys;
      assert Strip(r) == Strip(s) ==> Strip(r).actions == Strip(s).actions;
      assert xs == ys ==> Strip(r) == Strip(s);
    }
  }

  lemma EmittedIsWellFormed(
    c: Suite, r: AepRecord, evidence: seq<ActionEvidence>, identity: EmitterIdentity, at: u64, key: SigningKey)
    requires WellFormedActions(evidence) && r == Signed(c, Assembled(evidence, identity, at), key, identity.keyId)
    ensures WellFormedRecord(r) && Strip(r) == Assembled(evidence, identity, at)
  {
    hide VerifyRecordDsse, WellFormedActions, WellFormedRecord, SealedEnvelope;
    AssembledIsWellFormed(evidence, identity, at);
    SignedIsWellFormed(Assembled(evidence, identity, at), r);
  }

  /** The time and the agent id of an assembled record are members of its unsigned document. */
  lemma EmittedDocument(r: AepRecord, evidence: seq<ActionEvidence>, identity: EmitterIdentity, at: u64)
    requires Strip(r) == Assembled(evidence, identity, at)
    ensures Lookup(WriteRecord(Strip(r)), CreatedAtMs.Name()) == Some(Int(at))
    ensures Lookup(WriteRecord(Strip(r)), "claimed_agent_id") == Some(Str(identity.agentId))
  {
    hide RecordField.Name, WriteRecord;
    forall f: RecordField
      ensures f.Name() != "claimed_agent_id" && (f.Name() == "identity_source" <==> f == IdentitySource)
    {
      AssembledNames(f);
    }
    RecordMember(Strip(r), CreatedAtMs);
    OtherMember(Strip(r), "claimed_agent_id");
  }
}
