/** Signing a record as a DSSE envelope around an in-toto statement, and verifying it. */
module Dsse {
  import opened Wrappers
  import opened Unicode
  import opened Hex
  import Base64
  import opened Pae
  import opened Json
  import opened JsonReader
  import opened Evidence
  import opened EvidenceJson
  import opened Crypto

  const IN_TOTO_PAYLOAD_TYPE := "application/vnd.in-toto+json"
  const IN_TOTO_STATEMENT_TYPE := "https://in-toto.io/Statement/v1"
  const AEP_PREDICATE_TYPE := "https://wasmagent.dev/attestations/aep/v0.4"

  // --- The attribution floor -----------------------------------------------------------

  function GradeRank(grade: string): nat {
    if grade == "operator_asserted" then 1
    else if grade == "principal_key_signed" then 2
    else if grade == "organization_attested" then 3
    else if grade == "subject_consented" then 4
    else 0
  }

  /** `min_by_key(grade_rank)`: the first grade of least rank. */
  function Weakest(observed: seq<string>): string
    requires observed != []
  {
    if |observed| == 1 then observed[0]
    else
      var w := Weakest(observed[1..]);
      if GradeRank(observed[0]) <= GradeRank(w) then observed[0] else w
  }

  datatype SignError =
    | FloorWithoutObserved
    | FloorWithEmptyObserved
    | FloorTooStrong(floor: string, weakest: string)
    | ObservedWithoutFloor

  function FloorCheck(r: AepRecord): Result<Unit, SignError> {
    match r.runAttributionBackingFloor
    case Some(floor) =>
      if r.runAttributionBackingObserved.None? then Err(FloorWithoutObserved)
      else
        var observed := r.runAttributionBackingObserved.value;
        if observed == [] then Err(FloorWithEmptyObserved)
        else if GradeRank(floor) > GradeRank(Weakest(observed)) then Err(FloorTooStrong(floor, Weakest(observed)))
        else Ok(Unit)
    case None =>
      if r.runAttributionBackingObserved.Some? then Err(ObservedWithoutFloor) else Ok(Unit)
  }

  lemma {:induction false} WeakestIsLeast(observed: seq<string>, rank: nat)
    requires observed != []
    ensures rank <= GradeRank(Weakest(observed)) <==> forall i :: 0 <= i < |observed| ==> rank <= GradeRank(observed[i])
  {
    hide GradeRank;
    if |observed| > 1 {
      WeakestIsLeast(observed[1..], rank);
      assert forall i :: 0 < i < |observed| ==> observed[i] == observed[1..][i - 1];
    }
  }

  /** Of several grades of least rank, the first. */
  lemma {:induction false} WeakestIsFirst(observed: seq<string>) returns (i: nat)
    requires observed != []
    ensures i < |observed| && Weakest(observed) == observed[i]
    ensures forall j :: 0 <= j < |observed| ==>
              if j < i then GradeRank(observed[j]) > GradeRank(observed[i])
              else GradeRank(observed[j]) >= GradeRank(observed[i])
  {
    hide GradeRank;
    i := 0;
    if |observed| > 1 {
      var k := WeakestIsFirst(observed[1..]);
      assert forall j :: 0 < j < |observed| ==> observed[j] == observed[1..][j - 1];
      if GradeRank(observed[0]) > GradeRank(observed[1..][k]) {
        i := k + 1;
      }
    }
  }

  /** The backing grades, weakest first. */
  const GRADES := ["operator_asserted", "principal_key_signed", "organization_attested", "subject_consented"]

  /** Grade `g` stands no higher than `h`; outside the vocabulary is below every grade. */
  predicate NoStronger(g: string, h: string) {
    g !in GRADES || exists i, j :: 0 <= i <= j < |GRADES| && GRADES[i] == g && GRADES[j] == h
  }

  lemma RankIsPosition(g: string)
    ensures GradeRank(g) == 0 <==> g !in GRADES
    ensures forall i :: 0 <= i < |GRADES| ==> (GRADES[i] == g <==> GradeRank(g) == i + 1)
  {
  }

  lemma RanksGrades(g: string, h: string)
    ensures GradeRank(g) <= GradeRank(h) <==> NoStronger(g, h)
  {
    hide GradeRank, GRADES;
    RankIsPosition(g);
    RankIsPosition(h);
    if g in GRADES && GradeRank(g) <= GradeRank(h) {
      assert GRADES[GradeRank(g) - 1] == g && GRADES[GradeRank(h) - 1] == h;
    }
  }

  /** The floor passes exactly when it is anchored in observed grades none of which is weaker. */
  lemma FloorRule(r: AepRecord)
    ensures FloorCheck(r).Ok? <==>
            || (r.runAttributionBackingFloor.None? && r.runAttributionBackingObserved.None?)
            || (&& r.runAttributionBackingFloor.Some?
                && r.runAttributionBackingObserved.Some?
                && r.runAttributionBackingObserved.value != []
                && var floor, observed := r.runAttributionBackingFloor.value, r.runAttributionBackingObserved.value;
                   forall i :: 0 <= i < |observed| ==> NoStronger(floor, observed[i]))
  {
    hide GradeRank, NoStronger;
    if r.runAttributionBackingFloor.Some? && r.runAttributionBackingObserved.Some? {
      var floor, observed := r.runAttributionBackingFloor.value, r.runAttributionBackingObserved.value;
      if observed != [] {
        WeakestIsLeast(observed, GradeRank(floor));
        forall i | 0 <= i < |observed|
          ensures GradeRank(floor) <= GradeRank(observed[i]) <==> NoStronger(floor, observed[i])
        {
          RanksGrades(floor, observed[i]);
        }
      }
    }
  }

  /** Which error a floor that does not pass gives. */
  lemma FloorErrors(r: AepRecord)
    ensures var floor, observed := r.runAttributionBackingFloor, r.runAttributionBackingObserved;
            && (FloorCheck(r) == Err(FloorWithoutObserved) <==> floor.Some? && observed.None?)
            && (FloorCheck(r) == Err(FloorWithEmptyObserved) <==> floor.Some? && observed == Some([]))
            && (FloorCheck(r) == Err(ObservedWithoutFloor) <==> floor.None? && observed.Some?)
            && forall f, w :: FloorCheck(r) == Err(FloorTooStrong(f, w)) <==>
                 && floor == Some(f) && observed.Some? && observed.value != []
                 && w == Weakest(observed.value) && !NoStronger(f, w)
  {
    hide GradeRank, NoStronger;
    if r.runAttributionBackingFloor.Some? && r.runAttributionBackingObserved.Some? {
      var floor, observed := r.runAttributionBackingFloor.value, r.runAttributionBackingObserved.value;
      if observed != [] {
        RanksGrades(floor, Weakest(observed));
      }
    }
  }

  // --- Signing -------------------------------------------------------------------------

  /** The record without its signing fields, as JSON. */
  function Predicate(r: AepRecord): Json { Obj(WriteRecord(Strip(r))) }

  function PredicateBytes(r: AepRecord): bytes { Utf8(Canonical(Predicate(r))) }

  function DigestText(c: Suite, b: bytes): string { HexText(c.sha256(b)) }

  function SubjectName(runId: string): string { "urn:wasmagent:run:" + runId }

  /** `wrap_in_toto_statement`. */
  function WrapInTotoStatement(attested: Json, runId: string, payloadDigestHex: string): Json {
    Obj(map["_type" := Str(IN_TOTO_STATEMENT_TYPE),
            "subject" := Arr([Obj(map["name" := Str(SubjectName(runId)),
                                      "digest" := Obj(map["sha256" := Str(payloadDigestHex)])])]),
            "predicateType" := Str(AEP_PREDICATE_TYPE),
            "predicate" := attested])
  }

  function Statement(c: Suite, r: AepRecord): Json {
    WrapInTotoStatement(Predicate(r), r.runId, DigestText(c, PredicateBytes(r)))
  }

  function StatementBytes(c: Suite, r: AepRecord): bytes { Utf8(Canonical(Statement(c, r))) }

  function SealedEnvelope(c: Suite, statementBytes: bytes, key: SigningKey, keyId: string): DsseEnvelope {
    DsseEnvelope(
      IN_TOTO_PAYLOAD_TYPE,
      Base64.Encode(statementBytes),
      [DsseSignature(keyId, Base64.Encode(c.sign(key, PaeOf(IN_TOTO_PAYLOAD_TYPE, statementBytes))))])
  }

  /** What `sign_record_dsse` makes of a record whose floor is admissible. */
  function Signed(c: Suite, r: AepRecord, key: SigningKey, keyId: string): AepRecord {
    Strip(r).(dsseEnvelope := Some(SealedEnvelope(c, StatementBytes(c, r), key, keyId)))
  }

  /** A record held by mutable reference. */
  class RecordRef {
    var record: AepRecord

    constructor (record: AepRecord)
      ensures this.record == record
    {
      this.record := record;
    }

    /** `sign_record_dsse`. A floor error leaves the record as it was. */
    method SignRecordDsse(c: Suite, key: SigningKey, keyId: string) returns (r: Result<Unit, SignError>)
      modifies this
      ensures r == FloorCheck(old(record))
      ensures record == if r.Ok? then Signed(c, old(record), key, keyId) else old(record)
    {
      hide FloorCheck, Canonical, WriteRecord, Utf8, Base64.Encode, PaeOf, WrapInTotoStatement, DigestText;
      var floor := FloorCheck(record);
      if floor.Err? {
        return floor;
      }
      record := record.(signature := None);
      record := record.(dsseEnvelope := None);
      assert record == Strip(old(record));
      var attested := Obj(WriteRecord(record));
      var payloadBytes := Utf8(Canonical(attested));
      var payloadDigest := DigestText(c, payloadBytes);
      var statement := WrapInTotoStatement(attested, record.runId, payloadDigest);
      var statementBytes := Utf8(Canonical(statement));
      var payloadB64 := Base64.Encode(statementBytes);
      assert statementBytes == StatementBytes(c, old(record));
      var pae := PaeEncode(IN_TOTO_PAYLOAD_TYPE, statementBytes);
      var sigB64 := Base64.Encode(c.sign(key, pae));
      var dsseSig := DsseSignature(keyId, sigB64);
      var envelope := DsseEnvelope(IN_TOTO_PAYLOAD_TYPE, payloadB64, [dsseSig]);
      record := record.(dsseEnvelope := Some(envelope));
      r := floor;
    }
  }

  // --- Verifying -----------------------------------------------------------------------

  datatype VerifyError =
    | EnvelopeMissing
    | UnexpectedPayloadType(actual: string)
    | NoSignatures
    | SignatureCount(count: nat)
    | PayloadNotBase64
    | SignatureNotBase64
    | SignatureNot64Bytes
    | SignatureInvalid
    | StatementNotJson
    | StatementTypeMissing
    | StatementTypeMismatch(actual: string)
    | PredicateTypeMissing
    | PredicateTypeMismatch(actual: string)
    | SubjectNotArray
    | SubjectEmpty
    | SubjectNameMissing
    | SubjectNameMismatch(actual: string)
    | DigestNotObject
    | DigestNotString
    | DigestMismatch(actual: string)

  /** `Panicked`: indexing the digest object by `"sha256"` panics when it has no such member. */
  datatype Verdict = Accepted | Rejected(error: VerifyError) | Panicked

  /** Indexing a `Value` by a key: null when it is no object or has no such member. */
  function At(v: Json, k: string): Json {
    if v.Obj? && k in v.members then v.members[k] else Null
  }

  /** The checks on the envelope, up to the parsed statement. */
  function OpenEnvelope(c: Suite, e: Option<DsseEnvelope>, key: VerifyingKey): Result<Json, VerifyError> {
    if e.None? then Err(EnvelopeMissing)
    else if e.value.payloadType != IN_TOTO_PAYLOAD_TYPE then Err(UnexpectedPayloadType(e.value.payloadType))
    else if e.value.signatures == [] then Err(NoSignatures)
    else if |e.value.signatures| != 1 then Err(SignatureCount(|e.value.signatures|))
    else
      var body := Base64.Decode(e.value.payload);
      if body.None? then Err(PayloadNotBase64) else
      var sig := Base64.LenientDecode(e.value.signatures[0].sig);
      if sig.None? then Err(SignatureNotBase64)
      else if |sig.value| != 64 then Err(SignatureNot64Bytes)
      else if !c.verify(key, PaeOf(IN_TOTO_PAYLOAD_TYPE, body.value), sig.value) then Err(SignatureInvalid)
      else
        match Parse(body.value)
        case None => Err(StatementNotJson)
        case Some(statement) => Ok(statement)
  }

  /** The checks that a statement is an AEP attestation of this run and digest. */
  function CheckStatement(statement: Json, runId: string, expectedDigest: string): Verdict {
    var kind := At(statement, "_type");
    if !kind.Str? then Rejected(StatementTypeMissing)
    else if kind.s != IN_TOTO_STATEMENT_TYPE then Rejected(StatementTypeMismatch(kind.s))
    else
      var predicateType := At(statement, "predicateType");
      if !predicateType.Str? then Rejected(PredicateTypeMissing)
      else if predicateType.s != AEP_PREDICATE_TYPE then Rejected(PredicateTypeMismatch(predicateType.s))
      else
        var subjects := At(statement, "subject");
        if !subjects.Arr? then Rejected(SubjectNotArray)
        else if subjects.items == [] then Rejected(SubjectEmpty)
        else CheckSubject(subjects.items[0], runId, expectedDigest)
  }

  function CheckSubject(subject: Json, runId: string, expectedDigest: string): Verdict {
    var name := At(subject, "name");
    if !name.Str? then Rejected(SubjectNameMissing)
    else if name.s != SubjectName(runId) then Rejected(SubjectNameMismatch(name.s))
    else
      var digest := At(subject, "digest");
      if !digest.Obj? then Rejected(DigestNotObject)
      else if "sha256" !in digest.members then Panicked
      else
        var actual := digest.members["sha256"];
        if !actual.Str? then Rejected(DigestNotString)
        else if actual.s != expectedDigest then Rejected(DigestMismatch(actual.s))
        else Accepted
  }

  /** `verify_record_dsse`. */
  function VerifyRecordDsse(c: Suite, r: AepRecord, key: VerifyingKey): Verdict {
    match OpenEnvelope(c, r.dsseEnvelope, key)
    case Err(error) => Rejected(error)
    case Ok(statement) => CheckStatement(statement, r.runId, DigestText(c, PredicateBytes(r)))
  }
}
