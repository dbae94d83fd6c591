/** What signing and verifying promise each other. */
module DsseProofs {
  import opened Wrappers
  import opened Unicode
  import opened Hex
  import Base64
  import opened Pae
  import opened Json
  import opened JsonReader
  import opened JsonRoundTrip
  import opened Evidence
  import opened EvidenceJson
  import opened EvidenceRoundTrip
  import opened EvidenceReread
  import opened Crypto
  import opened Dsse

  // --- Sign, then verify ---------------------------------------------------------------

  lemma SubjectDepth(runId: string, digestHex: string)
    ensures Depth(At(WrapInTotoStatement(Null, runId, digestHex), "subject")) <= 3
  {
    var digest := Obj(map["sha256" := Str(digestHex)]);
    var subject := Obj(map["name" := Str(SubjectName(runId)), "digest" := digest]);
    NestedWithin(digest, 1);
    NestedWithin(subject, 2);
    NestedWithin(Arr([subject]), 3);
  }

  /** Wrapping a predicate in a statement adds one level of nesting. */
  lemma StatementDepth(attested: Json, runId: string, digestHex: string, d: nat)
    requires d >= 4
    ensures Depth(WrapInTotoStatement(attested, runId, digestHex)) <= d <==> Depth(attested) < d
  {
    hide DepthOfMembers, DepthOfItems, SortedKeys, SubjectName;
    var statement := WrapInTotoStatement(attested, runId, digestHex);
    NestedWithin(statement, d);
    SubjectDepth(runId, digestHex);
    assert statement.members["subject"] == At(WrapInTotoStatement(Null, runId, digestHex), "subject");
    assert statement.members["predicate"] == attested;
  }

  lemma SealedEnvelopeOpens(c: Suite, statement: Json, key: SigningKey, keyId: string)
    ensures OpenEnvelope(c, Some(SealedEnvelope(c, Utf8(Canonical(statement)), key, keyId)), c.verifyingKey(key))
         == if Depth(statement) <= MAX_NESTING then Ok(statement) else Err(StatementNotJson)
  {
    hide Canonical, Utf8, PaeOf, Parse, Depth, Base64.Decode, Base64.Encode, Base64.LenientDecode;
    var body := Utf8(Canonical(statement));
    var pae := PaeOf(IN_TOTO_PAYLOAD_TYPE, body);
    Base64.DecodeInvertsEncode(body);
    Base64.FourSpellings(c.sign(key, pae));
    ParseInvertsCanonical(statement);
    assert c.verify(c.verifyingKey(key), pae, c.sign(key, pae));
  }

  lemma WrappedStatementChecks(attested: Json, runId: string, digestHex: string)
    ensures CheckStatement(WrapInTotoStatement(attested, runId, digestHex), runId, digestHex) == Accepted
  {
  }

  /**
   What `sign_record_dsse` leaves behind, `verify_record_dsse` accepts: for
   every record and key, exactly when the record nests less deeply than the
   verifier's JSON reader goes. Deeper records are signed and then refused.
   Nothing but the signing fields of the record has changed.
   */
  lemma SignThenVerify(c: Suite, r: AepRecord, key: SigningKey, keyId: string)
    ensures var s := Signed(c, r, key, keyId);
            && s == r.(signature := None, dsseEnvelope := s.dsseEnvelope)
            && s.dsseEnvelope.Some? && |s.dsseEnvelope.value.signatures| == 1
            && s.dsseEnvelope.value.signatures[0].keyid == keyId
    ensures VerifyRecordDsse(c, Signed(c, r, key, keyId), c.verifyingKey(key))
         == if Depth(Predicate(r)) < 127 then Accepted else Rejected(StatementNotJson)
  {
    hide OpenEnvelope, CheckStatement, Canonical, Depth, WriteRecord;
    var s := Signed(c, r, key, keyId);
    assert Strip(s) == Strip(r);
    SealedEnvelopeOpens(c, Statement(c, r), key, keyId);
    StatementDepth(Predicate(r), r.runId, DigestText(c, PredicateBytes(r)), MAX_NESTING);
    WrappedStatementChecks(Predicate(r), r.runId, DigestText(c, PredicateBytes(r)));
  }

  // --- What the payload says ---------------------------------------------------------------

  /**
   For every record: the payload of the envelope is the canonical text of an
   in-toto statement that holds the whole unsigned record as its predicate and
   names the run and the digest of the record's canonical bytes; the one
   signature is of that payload.
   */
  lemma PayloadCarriesRecord(c: Suite, r: AepRecord, key: SigningKey, keyId: string)
    ensures var e := Signed(c, r, key, keyId).dsseEnvelope;
            var document := Obj(WriteRecord(r.(signature := None, dsseEnvelope := None)));
            var digest := HexText(c.sha256(Utf8(Canonical(document))));
            var subject := Obj(map["name" := Str("urn:wasmagent:run:" + r.runId),
                                   "digest" := Obj(map["sha256" := Str(digest)])]);
            var body := Utf8(Canonical(Obj(map["_type" := Str("https://in-toto.io/Statement/v1"),
                                               "subject" := Arr([subject]),
                                               "predicateType" := Str("https://wasmagent.dev/attestations/aep/v0.4"),
                                               "predicate" := document])));
            && e.Some?
            && e.value.payloadType == "application/vnd.in-toto+json"
            && Base64.Decode(e.value.payload) == Some(body)
            && |e.value.signatures| == 1
            && e.value.signatures[0].keyid == keyId
            && Base64.Decode(e.value.signatures[0].sig)
            == Some(c.sign(key, PaeOf("application/vnd.in-toto+json", body)))
  {
    hide Canonical, Utf8, WriteRecord, PaeOf, HexText, Base64.Encode, Base64.Decode;
    var body := StatementBytes(c, r);
    Base64.DecodeInvertsEncode(body);
    Base64.DecodeInvertsEncode(c.sign(key, PaeOf(IN_TOTO_PAYLOAD_TYPE, body)));
  }

  /** Read back, the payload of a record that does not nest too deeply has exactly these four members. */
  lemma PayloadReads(c: Suite, r: AepRecord, key: SigningKey, keyId: string)
    requires Depth(Obj(WriteRecord(Strip(r)))) < 127
    ensures var body := Base64.Decode(Signed(c, r, key, keyId).dsseEnvelope.value.payload);
            && body.Some? && Parse(body.value).Some? && Parse(body.value).value.Obj?
            && var m := Parse(body.value).value.members;
               && m.Keys == {"_type", "subject", "predicateType", "predicate"}
               && m["predicate"] == Obj(WriteRecord(Strip(r)))
  {
    hide Canonical, Utf8, WriteRecord, PaeOf, Parse, HexText, Depth, Base64.Encode, Base64.Decode, SubjectName;
    Base64.DecodeInvertsEncode(StatementBytes(c, r));
    StatementDepth(Predicate(r), r.runId, DigestText(c, PredicateBytes(r)), 127);
    ParseInvertsCanonical(Statement(c, r));
  }

  /** `n` arrays inside one another. */
  function Nest(n: nat): Json { if n == 0 then Null else Arr([Nest(n - 1)]) }

  lemma {:induction false} NestDepth(n: nat)
    ensures Depth(Nest(n)) == n
  {
    if n > 0 {
      NestDepth(n - 1);
      var items := [Nest(n - 1)];
      assert items[1..] == [];
      assert DepthOfItems(items) == Max(Depth(items[0]), DepthOfItems(items[1..]));
    }
  }

  /** A record without floor whose one catch-all member nests as deeply as the reader goes, less one. */
  function DeepRecord(): AepRecord {
    AepRecord(
      AEP_SCHEMA_VERSION, "run-deep", None, None, None, None, None, None, None, None, None, None, None, None, None,
      [], 0, None, map["trail" := Nest(MAX_NESTING - 1)])
  }

  /** "Every signed record verifies" is false: this one is signed and then refused. */
  lemma DeepRecordSignsButDoesNotVerify(c: Suite, key: SigningKey, keyId: string)
    ensures FloorCheck(DeepRecord()).Ok?
    ensures VerifyRecordDsse(c, Signed(c, DeepRecord(), key, keyId), c.verifyingKey(key)) == Rejected(StatementNotJson)
  {
    hide Depth, Nest, VerifyRecordDsse, Signed, RecordFields;
    var r := DeepRecord();
    NestDepth(MAX_NESTING - 1);
    NestedWithin(Predicate(r), MAX_NESTING - 1);
    assert Predicate(r).members["trail"] == Nest(MAX_NESTING - 1);
    SignThenVerify(c, r, key, keyId);
  }

  /** Signing a signed record again with the same key and id changes nothing. */
  lemma ResignIsIdentity(c: Suite, r: AepRecord, key: SigningKey, keyId: string)
    ensures Signed(c, Signed(c, r, key, keyId), key, keyId) == Signed(c, r, key, keyId)
    ensures FloorCheck(Signed(c, r, key, keyId)) == FloorCheck(r)
  {
    hide SealedEnvelope, StatementBytes;
    assert Strip(Signed(c, r, key, keyId)) == Strip(r);
    SameStatement(c, r, Signed(c, r, key, keyId));
  }

  lemma SameStatement(c: Suite, r: AepRecord, s: AepRecord)
    requires Strip(r) == Strip(s)
    ensures StatementBytes(c, r) == StatementBytes(c, s)
  {
    hide Canonical, Utf8, WrapInTotoStatement, DigestText, WriteRecord;
    assert r.runId == Strip(r).runId && s.runId == Strip(s).runId;
  }

  // --- What acceptance means -----------------------------------------------------------

  /** An in-toto statement that attests a run and a digest. */
  ghost predicate Attests(statement: Json, runId: string, digest: string) {
    && At(statement, "_type") == Str(IN_TOTO_STATEMENT_TYPE)
    && At(statement, "predicateType") == Str(AEP_PREDICATE_TYPE)
    && At(statement, "subject").Arr? && At(statement, "subject").items != []
    && At(At(statement, "subject").items[0], "name") == Str(SubjectName(runId))
    && At(At(At(statement, "subject").items[0], "digest"), "sha256") == Str(digest)
  }

  /** An envelope around `body` with one signature, `sig`, in any spelling of base64. */
  ghost predicate Encloses(e: DsseEnvelope, body: bytes, sig: Signature) {
    && e.payloadType == IN_TOTO_PAYLOAD_TYPE
    && e.payload == Base64.Encode(body)
    && |e.signatures| == 1
    && Base64.Spells(e.signatures[0].sig, sig)
  }

  /** The signature covers the body, and the body is a statement attesting the record's canonical digest. */
  ghost predicate Authentic(c: Suite, r: AepRecord, key: VerifyingKey, body: bytes, sig: Signature) {
    && c.verify(key, PaeOf(IN_TOTO_PAYLOAD_TYPE, body), sig)
    && Parse(body).Some?
    && Attests(Parse(body).value, r.runId, HexText(c.sha256(PredicateBytes(r))))
  }

  lemma CheckStatementAttests(statement: Json, runId: string, digest: string)
    ensures CheckStatement(statement, runId, digest) == Accepted <==> Attests(statement, runId, digest)
  {
  }

  lemma OpensWhenEnclosed(c: Suite, e: DsseEnvelope, key: VerifyingKey, body: bytes, sig: Signature)
    requires Encloses(e, body, sig)
    ensures OpenEnvelope(c, Some(e), key)
         == if !c.verify(key, PaeOf(IN_TOTO_PAYLOAD_TYPE, body), sig) then Err(SignatureInvalid)
            else if Parse(body).None? then Err(StatementNotJson)
            else Ok(Parse(body).value)
  {
    hide Base64.Encode, Base64.Decode, Base64.LenientDecode, Base64.Spells, Parse, PaeOf;
    Base64.DecodeInvertsEncode(body);
    Base64.LenientAcceptsExactly(e.signatures[0].sig, sig);
  }

  lemma EnclosedWhenOpens(c: Suite, e: DsseEnvelope, key: VerifyingKey) returns (body: bytes, sig: Signature)
    requires OpenEnvelope(c, Some(e), key).Ok?
    ensures Encloses(e, body, sig)
  {
    hide Base64.Encode, Base64.Decode, Base64.LenientDecode, Base64.Spells, Parse, PaeOf;
    body := Base64.Decode(e.payload).value;
    sig := Base64.LenientDecode(e.signatures[0].sig).value;
    Base64.EncodeInvertsDecode(e.payload);
    Base64.LenientAcceptsExactly(e.signatures[0].sig, sig);
  }

  /** `verify_record_dsse` accepts exactly the records with an authentic envelope. */
  lemma AcceptedExactlyWhenAuthentic(c: Suite, r: AepRecord, key: VerifyingKey)
    ensures VerifyRecordDsse(c, r, key) == Accepted <==>
            r.dsseEnvelope.Some? &&
            exists body: bytes, sig: Signature ::
              Encloses(r.dsseEnvelope.value, body, sig) && Authentic(c, r, key, body, sig)
  {
    hide OpenEnvelope, CheckStatement, Attests, Encloses, PredicateBytes, Parse, PaeOf, HexText;
    if r.dsseEnvelope.Some? {
      var e, digest := r.dsseEnvelope.value, DigestText(c, PredicateBytes(r));
      forall body: bytes, sig: Signature | Encloses(e, body, sig)
        ensures VerifyRecordDsse(c, r, key) == Accepted <==> Authentic(c, r, key, body, sig)
      {
        OpensWhenEnclosed(c, e, key, body, sig);
        if Parse(body).Some? {
          CheckStatementAttests(Parse(body).value, r.runId, digest);
        }
      }
      if VerifyRecordDsse(c, r, key) == Accepted {
        var body, sig := EnclosedWhenOpens(c, e, key);
        assert Encloses(e, body, sig) && Authentic(c, r, key, body, sig);
      }
    } else {
      NoEnvelope(c, key);
    }
  }

  lemma NoEnvelope(c: Suite, key: VerifyingKey)
    ensures OpenEnvelope(c, None, key).Err?
  {
  }

  // --- What a verdict depends on -------------------------------------------------------

  /** The verdict is a function of the envelope, the run id and the unsigned document. */
  lemma VerdictDependsOn(c: Suite, r: AepRecord, s: AepRecord, key: VerifyingKey)
    requires r.dsseEnvelope == s.dsseEnvelope && r.runId == s.runId
    requires WriteRecord(Strip(r)) == WriteRecord(Strip(s))
    ensures VerifyRecordDsse(c, r, key) == VerifyRecordDsse(c, s, key)
  {
  }

  /** Neither the legacy signature nor the key id is looked at. */
  lemma VerdictIgnores(c: Suite, r: AepRecord, key: VerifyingKey, legacy: Option<AepSignature>, keyId: string)
    ensures VerifyRecordDsse(c, r.(signature := legacy), key) == VerifyRecordDsse(c, r, key)
    ensures r.dsseEnvelope.Some? && |r.dsseEnvelope.value.signatures| == 1 ==>
              var e := r.dsseEnvelope.value;
              var renamed := e.(signatures := [e.signatures[0].(keyid := keyId)]);
              VerifyRecordDsse(c, r.(dsseEnvelope := Some(renamed)), key) == VerifyRecordDsse(c, r, key)
  {
    hide CheckStatement, PredicateBytes, Base64.Decode, Base64.LenientDecode, Parse, PaeOf;
    assert Strip(r.(signature := legacy)) == Strip(r);
    SamePredicateBytes(r, r.(signature := legacy));
    if r.dsseEnvelope.Some? && |r.dsseEnvelope.value.signatures| == 1 {
      var e := r.dsseEnvelope.value;
      var renamed := e.(signatures := [e.signatures[0].(keyid := keyId)]);
      assert Strip(r.(dsseEnvelope := Some(renamed))) == Strip(r);
      SamePredicateBytes(r, r.(dsseEnvelope := Some(renamed)));
      assert OpenEnvelope(c, Some(renamed), key) == OpenEnvelope(c, Some(e), key);
    }
  }

  lemma SamePredicateBytes(r: AepRecord, s: AepRecord)
    requires Strip(r) == Strip(s)
    ensures PredicateBytes(r) == PredicateBytes(s)
  {
  }

  /** An accepted statement names the run and carries the digest it was checked against. */
  lemma AcceptedStatementBinds(statement: Json, runId: string, digest: string, runId': string, digest': string)
    requires CheckStatement(statement, runId, digest) == Accepted
    requires CheckStatement(statement, runId', digest') == Accepted
    ensures runId == runId' && digest == digest'
  {
    var name := At(At(statement, "subject").items[0], "name").s;
    assert name == SubjectName(runId) == SubjectName(runId');
    assert runId == name[18..] && runId' == name[18..];
  }

  /**
   Two records accepted under envelopes with the same payload, whatever the
   keys, have the same run id and the same unsigned document, or their canonical
   texts are a digest collision. If well formed, they then agree on every field
   but the envelope and the legacy signature exactly when their catch-alls name
   the same modelled fields.
   */
  lemma EnvelopeBindsRecord(c: Suite, r: AepRecord, s: AepRecord, key: VerifyingKey, key': VerifyingKey)
    requires VerifyRecordDsse(c, r, key) == Accepted && VerifyRecordDsse(c, s, key') == Accepted
    requires r.dsseEnvelope.value.payload == s.dsseEnvelope.value.payload
    ensures r.runId == s.runId
    ensures || Collision(c, PredicateBytes(r), PredicateBytes(s))
            || (&& WriteRecord(Strip(r)) == WriteRecord(Strip(s))
                && (WellFormedRecord(r) && WellFormedRecord(s) ==>
                      (Strip(r) == Strip(s) <==> RecordsNameAlike(r, s))))
  {
    hide CheckStatement, Canonical, Utf8, WriteRecord, WellFormedRecord, RecordsNameAlike,
         Parse, Base64.Decode, Base64.LenientDecode, PaeOf;
    var statement := OpenEnvelope(c, r.dsseEnvelope, key).value;
    assert OpenEnvelope(c, s.dsseEnvelope, key') == Ok(statement);
    AcceptedStatementBinds(
      statement, r.runId, DigestText(c, PredicateBytes(r)), s.runId, DigestText(c, PredicateBytes(s)));
    HexTextInjective(c.sha256(PredicateBytes(r)), c.sha256(PredicateBytes(s)));
    if PredicateBytes(r) == PredicateBytes(s) {
      SamePredicate(r, s);
      if WellFormedRecord(r) && WellFormedRecord(s) {
        SameDocumentSameFields(r, s);
      }
    }
  }

  lemma SamePredicate(r: AepRecord, s: AepRecord)
    requires PredicateBytes(r) == PredicateBytes(s)
    ensures WriteRecord(Strip(r)) == WriteRecord(Strip(s))
  {
    hide Canonical, Utf8, WriteRecord;
    Utf8Injective(Canonical(Predicate(r)), Canonical(Predicate(s)));
    CanonicalInjective(Predicate(r), Predicate(s));
  }

  // --- Over the wire -------------------------------------------------------------------

  /** A well-formed record gets the same verdict after being written and read back. */
  lemma VerdictSurvivesWire(c: Suite, r: AepRecord, key: VerifyingKey)
    requires WellFormedRecord(r)
    ensures Reread(r).Some?
    ensures VerifyRecordDsse(c, Reread(r).value, key) == VerifyRecordDsse(c, r, key)
  {
    hide VerifyRecordDsse, WriteRecord, Reread, WellFormedRecord;
    WriteThenRead(r);
    VerdictDependsOn(c, r, Reread(r).value, key);
  }

  /** Down to the bytes: text, UTF-8 and back; the reader's bound on nesting is the only limit. */
  lemma VerdictSurvivesText(c: Suite, r: AepRecord, key: VerifyingKey)
    requires WellFormedRecord(r)
    ensures var document := Parse(Utf8(Canonical(Obj(WriteRecord(r)))));
            if Depth(Obj(WriteRecord(r))) <= MAX_NESTING then
              && document.Some? && document.value.Obj? && ReadRecord(document.value.members).Some?
              && VerifyRecordDsse(c, ReadRecord(document.value.members).value, key) == VerifyRecordDsse(c, r, key)
            else document.None?
  {
    hide VerifyRecordDsse, WriteRecord, ReadRecord, WellFormedRecord, Canonical, Utf8, Parse, Depth;
    ParseInvertsCanonical(Obj(WriteRecord(r)));
    VerdictSurvivesWire(c, r, key);
  }

  /**
   A document from another producer whose statement carries the digest of its
   own canonical unsigned bytes: reading it into the structs re-derives that
   digest exactly when its modelled members are well typed, or else the two
   canonical texts collide.
   */
  lemma ForeignDigestReproduced(c: Suite, m: Members)
    requires ReadRecord(m).Some?
    ensures var r := ReadRecord(m).value;
            var foreign := Utf8(Canonical(Obj(Unsigned(m))));
            || Collision(c, PredicateBytes(r), foreign)
            || (DigestText(c, PredicateBytes(r)) == DigestText(c, foreign) <==> WellTypedRecord(Unsigned(m)))
  {
    hide Canonical, Utf8, WriteRecord, ReadRecord, WellTypedRecord, Unsigned, HexText;
    var r := ReadRecord(m).value;
    var foreign := Utf8(Canonical(Obj(Unsigned(m))));
    WireRoundTrip(m);
    if PredicateBytes(r) == foreign {
      Utf8Injective(Canonical(Predicate(r)), Canonical(Obj(Unsigned(m))));
      CanonicalInjective(Predicate(r), Obj(Unsigned(m)));
    }
    if DigestText(c, PredicateBytes(r)) == DigestText(c, foreign) {
      HexTextInjective(c.sha256(PredicateBytes(r)), c.sha256(foreign));
    }
  }

  // --- Which error -----------------------------------------------------------------------

  /** The envelope has the right payload type and one signature. */
  ghost predicate OneSignature(e: Option<DsseEnvelope>) {
    e.Some? && e.value.payloadType == "application/vnd.in-toto+json" && |e.value.signatures| == 1
  }

  /** The record's envelope encloses `body` under a signature that is valid or not. */
  ghost predicate EnclosesSigned(c: Suite, r: AepRecord, key: VerifyingKey, body: bytes, valid: bool) {
    r.dsseEnvelope.Some? && exists sig: Signature ::
      Encloses(r.dsseEnvelope.value, body, sig) && c.verify(key, PaeOf(IN_TOTO_PAYLOAD_TYPE, body), sig) == valid
  }

  /** Errors found before the statement is looked at, each on exactly these records. */
  lemma EnvelopeErrors(c: Suite, r: AepRecord, key: VerifyingKey)
    ensures var e, v := r.dsseEnvelope, VerifyRecordDsse(c, r, key);
            && (v == Rejected(EnvelopeMissing) <==> e.None?)
            && (forall t :: v == Rejected(UnexpectedPayloadType(t)) <==>
                  e.Some? && e.value.payloadType == t != "application/vnd.in-toto+json")
            && (v == Rejected(NoSignatures) <==>
                e.Some? && e.value.payloadType == "application/vnd.in-toto+json" && e.value.signatures == [])
            && forall n: nat :: v == Rejected(SignatureCount(n)) <==>
                 e.Some? && e.value.payloadType == "application/vnd.in-toto+json" && n == |e.value.signatures| >= 2
  {
    hide PredicateBytes, HexText, Base64.Decode, Base64.LenientDecode, Parse, PaeOf;
    if OpenEnvelope(c, r.dsseEnvelope, key).Ok? {
      CheckStatementErrors(OpenEnvelope(c, r.dsseEnvelope, key).value, r.runId, DigestText(c, PredicateBytes(r)));
    }
  }

  lemma CheckStatementErrors(statement: Json, runId: string, digest: string)
    ensures var v := CheckStatement(statement, runId, digest);
            v.Rejected? ==>
              && !v.error.EnvelopeMissing? && !v.error.UnexpectedPayloadType? && !v.error.NoSignatures?
              && !v.error.SignatureCount? && !v.error.PayloadNotBase64? && !v.error.SignatureNotBase64?
              && !v.error.SignatureNot64Bytes? && !v.error.SignatureInvalid? && !v.error.StatementNotJson?
  {
  }

  /** What the two texts of an envelope with one signature may fail to be. */
  lemma EncodingErrors(c: Suite, r: AepRecord, key: VerifyingKey)
    ensures var e, v := r.dsseEnvelope, VerifyRecordDsse(c, r, key);
            var encoded := e.Some? && exists body: bytes :: e.value.payload == Base64.Encode(body);
            && (v == Rejected(PayloadNotBase64) <==> OneSignature(e) && !encoded)
            && (v == Rejected(SignatureNotBase64) <==>
                OneSignature(e) && encoded && forall sig: bytes :: !Base64.Spells(e.value.signatures[0].sig, sig))
            && (v == Rejected(SignatureNot64Bytes) <==>
                && OneSignature(e) && encoded
                && exists sig: bytes :: Base64.Spells(e.value.signatures[0].sig, sig) && |sig| != 64)
  {
    hide CheckStatement, PredicateBytes, HexText, Base64.Encode, Base64.Decode, Base64.LenientDecode, Base64.Spells,
         Parse, PaeOf;
    var e := r.dsseEnvelope;
    if OpenEnvelope(c, e, key).Ok? {
      CheckStatementErrors(OpenEnvelope(c, e, key).value, r.runId, DigestText(c, PredicateBytes(r)));
    }
    if OneSignature(e) {
      DecodesExactly(e.value.payload);
      LenientDecodesExactly(e.value.signatures[0].sig);
    }
  }

  lemma DecodesExactly(s: string)
    ensures Base64.Decode(s).Some? <==> exists b: bytes :: s == Base64.Encode(b)
  {
    hide Base64.Encode, Base64.Decode;
    if Base64.Decode(s).Some? {
      Base64.EncodeInvertsDecode(s);
    }
    if b: bytes :| s == Base64.Encode(b) {
      Base64.DecodeInvertsEncode(b);
    }
  }

  lemma LenientDecodesExactly(s: string)
    ensures Base64.LenientDecode(s).None? <==> forall b: bytes :: !Base64.Spells(s, b)
    ensures forall b: bytes :: Base64.Spells(s, b) <==> Base64.LenientDecode(s) == Some(b)
  {
    hide Base64.LenientDecode, Base64.Spells;
    forall b: bytes
      ensures Base64.Spells(s, b) <==> Base64.LenientDecode(s) == Some(b)
    {
      Base64.LenientAcceptsExactly(s, b);
    }
  }

  /** A well-encoded envelope is refused for its signature or its text, or else its statement decides. */
  lemma SignatureErrors(c: Suite, r: AepRecord, key: VerifyingKey)
    ensures var v := VerifyRecordDsse(c, r, key);
            && (v == Rejected(SignatureInvalid) <==> exists body: bytes :: EnclosesSigned(c, r, key, body, false))
            && (v == Rejected(StatementNotJson) <==>
                exists body: bytes :: EnclosesSigned(c, r, key, body, true) && Parse(body).None?)
    ensures forall body: bytes :: EnclosesSigned(c, r, key, body, true) && Parse(body).Some? ==>
              VerifyRecordDsse(c, r, key)
              == CheckStatement(
                   Parse(body).value, r.runId, HexText(c.sha256(Utf8(Canonical(Obj(WriteRecord(Strip(r))))))))
  {
    hide OpenEnvelope, CheckStatement, Encloses, Parse, PaeOf, HexText, Canonical, Utf8, WriteRecord;
    if r.dsseEnvelope.None? {
      NoEnvelope(c, key);
      EnvelopeErrors(c, r, key);
    } else {
      var e := r.dsseEnvelope.value;
      forall body: bytes, sig: Signature | Encloses(e, body, sig)
        ensures OpenEnvelope(c, Some(e), key)
             == if !c.verify(key, PaeOf(IN_TOTO_PAYLOAD_TYPE, body), sig) then Err(SignatureInvalid)
                else if Parse(body).None? then Err(StatementNotJson)
                else Ok(Parse(body).value)
      {
        OpensWhenEnclosed(c, e, key, body, sig);
      }
      var o := OpenEnvelope(c, Some(e), key);
      if o.Ok? {
        CheckStatementErrors(o.value, r.runId, DigestText(c, PredicateBytes(r)));
      } else if o.error == SignatureInvalid || o.error == StatementNotJson {
        var body, sig := EnclosedWhenRefused(c, e, key);
        assert EnclosesSigned(c, r, key, body, o.error == StatementNotJson);
      }
    }
  }

  lemma EnclosedWhenRefused(c: Suite, e: DsseEnvelope, key: VerifyingKey) returns (body: bytes, sig: Signature)
    requires OpenEnvelope(c, Some(e), key) in [Err(SignatureInvalid), Err(StatementNotJson)]
    ensures Encloses(e, body, sig)
  {
    hide Base64.Encode, Base64.Decode, Base64.LenientDecode, Base64.Spells, Parse, PaeOf;
    body := Base64.Decode(e.payload).value;
    sig := Base64.LenientDecode(e.signatures[0].sig).value;
    Base64.EncodeInvertsDecode(e.payload);
    Base64.LenientAcceptsExactly(e.signatures[0].sig, sig);
  }

  /** Errors in a statement: the types first, then the subject's name, then its digest. */
  lemma StatementErrors(statement: Json, runId: string, digest: string)
    ensures var v := CheckStatement(statement, runId, digest);
            var kind, predicateType := At(statement, "_type"), At(statement, "predicateType");
            var subjects := At(statement, "subject");
            var aep := kind == Str("https://in-toto.io/Statement/v1");
            var typed := aep && predicateType == Str("https://wasmagent.dev/attestations/aep/v0.4");
            && (v == Rejected(StatementTypeMissing) <==> !kind.Str?)
            && (forall t :: v == Rejected(StatementTypeMismatch(t)) <==> kind == Str(t) && !aep)
            && (v == Rejected(PredicateTypeMissing) <==> aep && !predicateType.Str?)
            && (forall t :: v == Rejected(PredicateTypeMismatch(t)) <==> aep && predicateType == Str(t) && !typed)
            && (v == Rejected(SubjectNotArray) <==> typed && !subjects.Arr?)
            && (v == Rejected(SubjectEmpty) <==> typed && subjects == Arr([]))
            && (typed && subjects.Arr? && subjects.items != [] ==> v == CheckSubject(subjects.items[0], runId, digest))
  {
  }

  lemma SubjectErrors(subject: Json, runId: string, digest: string)
    ensures var v := CheckSubject(subject, runId, digest);
            var name, d := At(subject, "name"), At(subject, "digest");
            var named := name == Str("urn:wasmagent:run:" + runId);
            && (v == Rejected(SubjectNameMissing) <==> !name.Str?)
            && (forall t :: v == Rejected(SubjectNameMismatch(t)) <==> name == Str(t) && !named)
            && (v == Rejected(DigestNotObject) <==> named && !d.Obj?)
            && (v == Rejected(DigestNotString) <==>
                named && d.Obj? && "sha256" in d.members && !d.members["sha256"].Str?)
            && (forall t :: v == Rejected(DigestMismatch(t)) <==> named && At(d, "sha256") == Str(t) && t != digest)
  {
  }

  // --- Verification as a total function ------------------------------------------------

  /** An AEP statement for a run whose first subject has a digest object without a SHA-256 member. */
  ghost predicate LacksSha256(statement: Json, runId: string) {
    && At(statement, "_type") == Str(IN_TOTO_STATEMENT_TYPE)
    && At(statement, "predicateType") == Str(AEP_PREDICATE_TYPE)
    && At(statement, "subject").Arr? && At(statement, "subject").items != []
    && At(At(statement, "subject").items[0], "name") == Str(SubjectName(runId))
    && var digest := At(At(statement, "subject").items[0], "digest");
       digest.Obj? && "sha256" !in digest.members
  }

  lemma CheckStatementPanics(statement: Json, runId: string, digest: string)
    ensures CheckStatement(statement, runId, digest) == Panicked <==> LacksSha256(statement, runId)
  {
  }

  /** Verification ends without a verdict exactly when the envelope holds a valid signature of such a statement. */
  lemma PanicsExactlyWithoutSha256(c: Suite, r: AepRecord, key: VerifyingKey)
    ensures VerifyRecordDsse(c, r, key) == Panicked <==>
            r.dsseEnvelope.Some? &&
            exists body: bytes, sig: Signature ::
              && Encloses(r.dsseEnvelope.value, body, sig)
              && c.verify(key, PaeOf(IN_TOTO_PAYLOAD_TYPE, body), sig)
              && Parse(body).Some? && LacksSha256(Parse(body).value, r.runId)
  {
    hide OpenEnvelope, CheckStatement, LacksSha256, Encloses, PredicateBytes, Parse, PaeOf, HexText;
    if r.dsseEnvelope.Some? {
      var e, digest := r.dsseEnvelope.value, DigestText(c, PredicateBytes(r));
      forall body: bytes, sig: Signature | Encloses(e, body, sig)
        ensures VerifyRecordDsse(c, r, key) == Panicked <==>
                && c.verify(key, PaeOf(IN_TOTO_PAYLOAD_TYPE, body), sig)
                && Parse(body).Some? && LacksSha256(Parse(body).value, r.runId)
      {
        OpensWhenEnclosed(c, e, key, body, sig);
        if Parse(body).Some? {
          CheckStatementPanics(Parse(body).value, r.runId, digest);
        }
      }
      if VerifyRecordDsse(c, r, key) == Panicked {
        var body, sig := EnclosedWhenOpens(c, e, key);
        assert Encloses(e, body, sig);
      }
    } else {
      NoEnvelope(c, key);
    }
  }

  /** A statement for a run that carries no digest at all. */
  function DigestlessStatement(runId: string): Json {
    Obj(map["_type" := Str(IN_TOTO_STATEMENT_TYPE),
            "subject" := Arr([Obj(map["name" := Str(SubjectName(runId)), "digest" := Obj(map[])])]),
            "predicateType" := Str(AEP_PREDICATE_TYPE)])
  }

  lemma DigestlessDepth(runId: string)
    ensures Depth(DigestlessStatement(runId)) <= 4
  {
    hide DepthOfMembers, DepthOfItems, SortedKeys, SubjectName;
    var digest := Obj(map[]);
    var subject := Obj(map["name" := Str(SubjectName(runId)), "digest" := digest]);
    NestedWithin(digest, 1);
    NestedWithin(subject, 2);
    NestedWithin(Arr([subject]), 3);
    NestedWithin(DigestlessStatement(runId), 4);
  }

  /** Whatever the record and key: with that key's envelope around such a statement, verification does not return. */
  lemma DigestlessStatementPanics(c: Suite, r: AepRecord, key: SigningKey, keyId: string)
    ensures var envelope := SealedEnvelope(c, Utf8(Canonical(DigestlessStatement(r.runId))), key, keyId);
            VerifyRecordDsse(c, r.(dsseEnvelope := Some(envelope)), c.verifyingKey(key)) == Panicked
  {
    hide SealedEnvelope, OpenEnvelope, Canonical, Utf8, PredicateBytes, HexText, SubjectName, Depth;
    var statement := DigestlessStatement(r.runId);
    DigestlessDepth(r.runId);
    SealedEnvelopeOpens(c, statement, key, keyId);
    CheckStatementPanics(statement, r.runId, "");
  }
}
