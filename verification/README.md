# Evidence engine: a verified model

This project models the evidence engine of a WebAssembly proxy and proves what
its parts promise each other. The engine captures what a request did, keeps the
captures in a bounded buffer, signs a record of them as a DSSE envelope around
an in-toto statement, verifies such records, checks chains of them, and walks
provenance graphs.

`dafny verify dfyconfig.toml` checks everything.

## How it is organised

- `Unicode`, `Decimal`, `Hex`, `Base64`, `Pae`: text and byte encodings. UTF-8
  and UTF-16 with the key order of section 3.2.3 of RFC 8785; base64 as in
  sections 3.5, 4 and 5 of RFC 4648; the DSSE pre-authentication encoding.
- `Json`, `JsonReader`, `JsonGrammar`, `JsonRoundTrip`, `JsonPrinter`: JSON
  values, their canonical text, the reader that `serde_json` applies to a
  statement, a grammar of exactly what that reader accepts (sections 2 to 7 of
  RFC 8259), the proof that the reader undoes the printer, and the printer as it
  runs, collecting and sorting the keys of objects whose members come in some order.
- `Recording`, `Evidence`, `EvidenceJson`, `EvidenceRoundTrip`,
  `EvidenceReread`, `EvidenceReading`: the evidence structs, their JSON form with
  flattened catch-all members at three levels, both round trips, and exactly
  which JSON reads as which struct.
- `Crypto`, `Dsse`, `DsseProofs`, `Emitter`: signing and verifying. SHA-256 and
  Ed25519 are parameters (`Crypto.Suite`) with one law, that a genuine signature
  verifies. Nothing is assumed about collisions: where a conclusion leans on the
  digest it is "equal, or these two texts collide", with the two texts named.
- `Chain`: the five chain verdicts. `Prov`: the provenance traversal.
- `Rollup`, `Recorder`, `Filter`: roll-ups, the evidence buffer, classification,
  the HTTP filter as a step machine, and a gateway running any number of filter
  contexts, compared with what its callbacks alone say happened.

What is mutable in the original is mutable here: `Dsse.RecordRef` stands for the
`&mut AepRecord` the signer is handed, `Recorder.EvidenceBuffer` and
`Filter.EvidenceFilter` are classes, and the loops of `decode_base64_lenient`,
`chain_status` and `ancestors` are loops. Each is proved against a function or
predicate, and the theorems are about those.

## What turned out otherwise than one might expect

- A signed record need not verify. The verifier's JSON reader admits 127 nested
  containers (the default recursion limit of `serde_json`), the signer has no
  bound. `DsseProofs.SignThenVerify` gives the exact condition,
  `DsseProofs.DeepRecordSignsButDoesNotVerify` a record.
- Verification need not return. The digest object is indexed by `"sha256"`
  through `serde_json::Map`, which panics on a missing key
  (`crates/aep-core/src/dsse.rs:318-323`). `DsseProofs.PanicsExactlyWithoutSha256`
  says exactly when: on a validly signed statement for this run whose digest
  object has no such member. `DsseProofs.DigestlessStatementPanics` gives one for
  every record and key; nothing `sign_record_dsse` makes is such a statement.
- UTF-16 and UTF-8 key orders agree on more than ASCII keys:
  `Unicode.OrdersDisagreeExactlyOnClash` gives the exact pairs on which they differ.
- The lenient base64 reader also takes half of a double padding, and the two
  alphabets mixed, so a signature has more than the four spellings its comment
  names (`Base64.LenientAcceptsExactly`).
- `crates/proxy-wasm-evidence/src/recorder.rs:113-116` says the MCP header may
  never lower the inferred risk. It never lowers the recording mode
  (`Recorder.RecordingNeverDeescalates`); it does lower the class a run rolls up
  to, because the two orders place `unknown` differently:
  `Filter.McpLowersRollupExactly` gives the exact requests and runs,
  `Filter.McpLowersThisRollup` an instance.
- An emitted record keeps `identity_source` in its catch-all, and reading it back
  moves the member into the field of that name. Two records with one unsigned
  document therefore agree on every field exactly when their catch-alls name the
  same modelled fields (`EvidenceReread.SameDocumentSameFields`).
- `crates/proxy-wasm-evidence/src/recorder.rs:100-101` and
  `crates/proxy-wasm-evidence/src/filter.rs:129-130` say the MCP method replaces
  the HTTP heuristic; the code takes the more severe of the two, and so does the model.
- `docs/architecture.md:122-133` and `docs/aep-evidence-format.md:132-157`
  describe a signing profile that `crates/aep-core/src/signing.rs:11-16` says was
  removed. The model follows the code.

## Model

| member | source | states |
|---|---|---|
| Unicode.Utf8CharReads | crates/aep-core/src/dsse.rs:177-181 | a character is one to four bytes in the shortest form, six bits in each continuation byte |
| Unicode.Utf8RoundTrip | crates/aep-core/src/dsse.rs:177-181 | text written as bytes decodes to the same text |
| Unicode.Utf8DecodesOnlyEncodings | crates/aep-core/src/dsse.rs:262-263 | a byte string decodes only if it is the encoding of what it decodes to: overlong and surrogate spellings are refused |
| Unicode.Utf16OrderIsTotal | crates/aep-core/src/dsse.rs:48-52 | `compare_utf16` is a total order and equal only on equal keys |
| Unicode.Utf16OrderIsLexicographic | crates/aep-core/src/dsse.rs:48-52 | a key is less than another exactly when its code units are a proper prefix of the other's or are smaller where the two first differ |
| Unicode.Utf16CharReads | crates/aep-core/src/dsse.rs:49-50 | one code unit is the character, two are a surrogate pair that spells it |
| Unicode.Utf16Injective | crates/aep-core/src/dsse.rs:49-50 | UTF-16 encoding is injective, surrogate pairs included |
| Unicode.OrdersDisagreeExactlyOnClash | crates/aep-core/src/dsse.rs:8-12 | UTF-16 and UTF-8 key orders differ exactly when the first differing characters are one from U+E000..U+FFFF and one supplementary |
| Unicode.OrdersAgreeBelowHighBmp | crates/aep-core/src/dsse.rs:11-12 | both orders agree on keys without U+E000..U+FFFF, ASCII keys among them |
| Json.SortedKeysAscend | crates/aep-core/src/dsse.rs:57-58 | every object key precedes the later ones in the lexicographic order of UTF-16 code units |
| Json.SortIsUnique | crates/aep-core/src/dsse.rs:57-58 | any ascending arrangement of the same keys is that one |
| JsonPrinter.SortSorts | crates/aep-core/src/dsse.rs:57-58 | sorting the collected keys rearranges them and leaves none less than one before it |
| JsonPrinter.SortGivesSortedKeys | crates/aep-core/src/dsse.rs:57-58 | distinct keys, in whatever order collected, are sorted into the one ascending order of their set |
| JsonRoundTrip.CanonicalIsJoined | crates/aep-core/src/dsse.rs:59-74 | items, and key-colon-value members in key order, are joined by single commas with nothing else between |
| JsonPrinter.PrintIsCanonical | crates/aep-core/src/dsse.rs:54-77 | collecting, sorting, looking up and joining at every level prints the canonical text of the value |
| JsonPrinter.PrintsAlikeExactlyWhenReordered | crates/aep-core/src/dsse.rs:41-47 | two values whose objects list their members in some order print alike exactly when they differ in that order only, at any depth |
| JsonPrinter.PermutedMembersPrintAlike | crates/aep-core/src/dsse.rs:41-47 | every permutation of the members of an object prints as the same text |
| JsonRoundTrip.EscapesExactly | crates/aep-core/src/dsse.rs:64-75 | exactly quotes, backslashes and control characters are escaped, the latter in six characters ending in lower-case digits unless they have a short form |
| JsonRoundTrip.EscapedTextReads | crates/aep-core/src/dsse.rs:64-75 | any characters in a string or key are escaped so that the reader recovers them and stops at the closing quote |
| JsonGrammar.ParsesExactly | crates/aep-core/src/dsse.rs:262-263 | the reader accepts exactly the UTF-8 bytes of the spellings of a value nested at most 127 deep, any white space and escapes included, the last of duplicate members counting |
| Hex.HexDigits | crates/aep-core/src/dsse.rs:262-263 | hexadecimal digits of an escape are read in either case, and nothing else is |
| JsonRoundTrip.CanonicalReads | crates/aep-core/src/dsse.rs:54-77 | canonical text followed by anything a value may be followed by reads as the value printed, exactly within the nesting bound |
| JsonRoundTrip.ParseInvertsCanonical | crates/aep-core/src/dsse.rs:44-77 | `from_slice` undoes `canonical_json` exactly on values nested at most 127 deep |
| JsonRoundTrip.CanonicalInjective | crates/aep-core/src/dsse.rs:44-77 | two values of any depth have the same canonical text exactly when they are equal up to key order |
| JsonRoundTrip.CanonicalizingIsStable | crates/aep-core/src/dsse.rs:262-263 | any accepted document, however spelled, reads as the same value after being made canonical |
| Base64.DecodeInvertsEncode | crates/aep-core/src/dsse.rs:183-190 | the standard decoder recovers every byte string from its encoding |
| Base64.EncodeInvertsDecode | crates/aep-core/src/dsse.rs:243-245 | any text the standard decoder accepts is the encoding of its result: padding and trailing bits are canonical |
| Base64.EncodeShape | crates/aep-core/src/dsse.rs:183 | the encoding is in the standard alphabet with padding exactly at the end |
| Base64.EncodeSpellsGroups | crates/aep-core/src/dsse.rs:183 | each four symbols encode the next three bytes, or what is left of them |
| Base64.SymbolsAreStandard | crates/aep-core/src/dsse.rs:183 | the symbols are the upper-case letters, the lower-case letters, the digits, plus and slash |
| Base64.DecodeBase64Lenient | crates/aep-core/src/dsse.rs:89-106 | the character loop, the length-based padding and the strict decoder compute `LenientDecode` |
| Base64.LenientAcceptsExactly | crates/aep-core/src/dsse.rs:86-106 | a text reads as given bytes exactly when it is their encoding, minus for plus and underscore for slash anywhere, with some of its own padding left off |
| Base64.FourSpellings | crates/aep-core/src/dsse.rs:86-88 | standard or URL-safe, padded or unpadded, every byte string is recovered |
| Base64.GroupSpellsBits | crates/aep-core/src/dsse.rs:183 | the symbols of a group spell the bits of its bytes, most significant first |
| Hex.HexTextSpells | crates/aep-core/src/dsse.rs:79-84 | each byte is two digits, high nibble first |
| Hex.HexTextInjective | crates/aep-core/src/dsse.rs:79-84 | digests with the same hexadecimal text are the same digest |
| Decimal.DecimalRoundTrip | crates/aep-core/src/dsse.rs:31-35 | a printed length reads as that length |
| Pae.PaeEncode | crates/aep-core/src/dsse.rs:28-39 | the appended buffer is the prefix, decimal byte lengths and fields separated by single spaces, and a parser recovers type and payload from it |
| Pae.PaeParses | crates/aep-core/src/dsse.rs:24-39 | a parser recovers type and payload from the encoding, for all byte strings |
| Pae.PaeUniquelyDecodable | crates/aep-core/src/dsse.rs:24-39 | equal encodings have equal types and payloads |
| Pae.PaeOfInjective | crates/aep-core/src/dsse.rs:24-39 | what is signed for one payload type and payload is signed for no other |
| EvidenceRoundTrip.DecisionRoundTrip | crates/aep-core/src/evidence.rs:42-59 | a decision object survives reading and writing exactly when its modelled members are well typed and not null |
| EvidenceRoundTrip.ActionRoundTrip | crates/aep-core/src/evidence.rs:61-98 | the same for an action, its nested decision included |
| EvidenceRoundTrip.WireRoundTrip | crates/aep-core/src/evidence.rs:100-152 | a record document survives, signing members aside, exactly when its modelled members are well typed and not null; unmodelled members are kept at all three levels |
| EvidenceReread.DecisionDocument | crates/aep-core/src/evidence.rs:42-59 | the wire names and values of a decision, optional members absent when none, catch-all members winning |
| EvidenceReread.ActionDocument | crates/aep-core/src/evidence.rs:61-98 | the same for what an action did |
| EvidenceReread.ActionOutcomeDocument | crates/aep-core/src/evidence.rs:61-98 | the same for how it was judged: mode in snake case, decision nested |
| EvidenceReread.RecordDocument | crates/aep-core/src/evidence.rs:100-152 | the same for whose run a record is |
| EvidenceReread.RecordBackingDocument | crates/aep-core/src/evidence.rs:100-152 | the same for how its attribution is backed |
| EvidenceReread.RecordRunDocument | crates/aep-core/src/evidence.rs:100-152 | the same for what the run did |
| EvidenceReread.SigningDocument | crates/aep-core/src/evidence.rs:154-178 | the wire names of envelope, its signatures and the legacy signature |
| EvidenceReading.DecisionReadsExactly | crates/aep-core/src/evidence.rs:42-59 | the objects that read as a given decision: wire names, null or absent alike for optional members, all others kept |
| EvidenceReading.ActionReadsExactly | crates/aep-core/src/evidence.rs:61-98 | the same for an action, its mode also as a one-key object |
| EvidenceReading.EnvelopeReadsExactly | crates/aep-core/src/evidence.rs:161-178 | an envelope is read from exactly an object with its members or an array of its fields |
| EvidenceReading.RecordReadsExactly | crates/aep-core/src/evidence.rs:100-152 | a record is read from exactly the objects that spell it, envelope and legacy signature included |
| EvidenceReread.EnvelopeReads | crates/aep-core/src/evidence.rs:161-178 | a written envelope reads back as the same envelope |
| EvidenceReread.WellFormedRecordIsTyped | crates/aep-core/src/evidence.rs:146-151 | a record whose catch-all members hide no modelled field writes a well-typed document |
| EvidenceReread.WriteThenRead | crates/aep-core/src/evidence.rs:100-152 | such a record, written and read, keeps envelope, run id and unsigned document, even where a catch-all member moves into a typed field |
| EvidenceReread.SameDocumentSameFields | crates/aep-core/src/evidence.rs:100-152 | well-formed records that write the same unsigned document agree on every field exactly when their catch-alls name the same modelled fields, at all three levels |
| Dsse.WeakestIsLeast | crates/aep-core/src/dsse.rs:157-160 | the weakest observed grade ranks at most as high as every observed grade |
| Dsse.WeakestIsFirst | crates/aep-core/src/dsse.rs:157-160 | it is an observed grade, the first of those of least rank |
| Dsse.RanksGrades | crates/aep-core/src/dsse.rs:337-346 | grades rank in the order of the vocabulary, `none` and anything else below them all |
| Dsse.FloorRule | crates/aep-core/src/dsse.rs:137-168 | the floor passes exactly when both fields are absent, or some grade was observed and the floor stands no higher in the vocabulary than any of them |
| Dsse.FloorErrors | crates/aep-core/src/dsse.rs:147-168 | exactly which error a floor that does not pass gives |
| Dsse.RecordRef.SignRecordDsse | crates/aep-core/src/dsse.rs:130-205 | on a floor error the record is unchanged; otherwise it becomes the signed record of its old value |
| DsseProofs.PayloadCarriesRecord | crates/aep-core/src/dsse.rs:171-204 | for every record: the payload is the canonical text of a statement with the in-toto type, the run as subject with the digest of the record's canonical bytes, the predicate type and the whole unsigned record as predicate; the one signature is of that payload under the key id |
| DsseProofs.PayloadReads | crates/aep-core/src/dsse.rs:108-119 | read back, the payload has exactly four members, and its predicate is the unsigned record |
| DsseProofs.StatementDepth | crates/aep-core/src/dsse.rs:108-119 | wrapping adds one level of nesting |
| DsseProofs.SignThenVerify | crates/aep-core/src/dsse.rs:130-332 | for every record and key, what signing leaves behind verifies exactly when the record nests less than 127 deep, and is refused as unreadable otherwise; only the signing fields have changed |
| DsseProofs.DeepRecordSignsButDoesNotVerify | crates/aep-core/src/dsse.rs:261-263 | a concrete record that is signed and then refused |
| DsseProofs.ResignIsIdentity | crates/aep-core/src/dsse.rs:170-204 | signing again with the same key and id changes nothing |
| DsseProofs.AcceptedExactlyWhenAuthentic | crates/aep-core/src/dsse.rs:207-332 | a record is accepted exactly when its envelope encodes a body and one signature of it under the key, and the body is an AEP statement naming its run and its canonical digest |
| DsseProofs.EnvelopeErrors | crates/aep-core/src/dsse.rs:220-238 | exactly which records are refused for a missing envelope, its payload type or its number of signatures |
| DsseProofs.EncodingErrors | crates/aep-core/src/dsse.rs:240-252 | exactly which are refused because payload or signature encodes nothing, or not 64 bytes |
| DsseProofs.SignatureErrors | crates/aep-core/src/dsse.rs:254-263 | exactly which are refused for the signature or for a payload that is no JSON; otherwise the statement decides, against the re-derived digest |
| DsseProofs.StatementErrors | crates/aep-core/src/dsse.rs:268-305 | exactly which statements are refused for their types or subject list, in that order |
| DsseProofs.SubjectErrors | crates/aep-core/src/dsse.rs:307-329 | exactly which subjects are refused for their name or digest, in that order |
| DsseProofs.VerdictIgnores | crates/aep-core/src/dsse.rs:220-332 | the verdict depends neither on the legacy signature nor on the key id |
| DsseProofs.AcceptedStatementBinds | crates/aep-core/src/dsse.rs:265-329 | one statement is accepted for at most one run id and digest |
| DsseProofs.EnvelopeBindsRecord | crates/aep-core/src/dsse.rs:289-329 | two records accepted with the same payload have the same run id; and the same unsigned document, and if well formed the same fields exactly when their catch-alls name the same ones, or their canonical texts collide |
| DsseProofs.VerdictSurvivesWire | crates/aep-core/src/evidence.rs:146-151 | a well-formed record gets the same verdict after being written as JSON and read back |
| DsseProofs.VerdictSurvivesText | crates/aep-core/src/dsse.rs:214-332 | the same down to the bytes, exactly within the reader's nesting bound |
| DsseProofs.ForeignDigestReproduced | crates/aep-core/src/dsse.rs:289-296 | the digest of a foreign producer's document is re-derived exactly when its modelled members are well typed, or two named texts collide |
| DsseProofs.PanicsExactlyWithoutSha256 | crates/aep-core/src/dsse.rs:318-323 | verification panics exactly when the envelope holds a valid signature of an AEP statement for this run whose digest object has no SHA-256 member |
| DsseProofs.DigestlessStatementPanics | crates/aep-core/src/dsse.rs:318-323 | for every record and key, such a statement |
| Emitter.TrimDropsBlankEnds | crates/proxy-wasm-evidence/src/emitter.rs:42-44 | trimming drops white space at both ends, all of it, and nothing else |
| Emitter.TrimIsEmptyOnBlank | crates/proxy-wasm-evidence/src/emitter.rs:42-44 | a trace id trims to nothing exactly when it is all white space |
| Emitter.AssembleAndSign | crates/proxy-wasm-evidence/src/emitter.rs:33-71 | succeeds exactly on some evidence and a trace id that is not blank, with the right error otherwise; the unsigned document of the signed result has exactly seven members, whose values come from evidence, identity and time |
| Emitter.EmittedRecordVerifies | crates/proxy-wasm-evidence/src/emitter.rs:46-70 | the emitted record keeps the actions in order and verifies, in memory and after being written and read, exactly within the nesting bound, although `identity_source` changes place |
| Emitter.EmittedRecordsBind | crates/proxy-wasm-evidence/src/emitter.rs:46-70 | emitted records accepted with the same payload have the same trace id; and the same agent id and time, and the same evidence unless catch-alls of actions name different modelled fields, or their canonical texts collide |
| Chain.FindChainStatus | crates/aep-core/tests/protocol_corpus.rs:39-98 | the counting loop with early exit computes the verdict defined by quantifying over the links |
| Chain.LinkedStatus | crates/aep-core/tests/protocol_corpus.rs:82-97 | intact means at least two records, all linked, none claimed before the first; orphaned means all linked and a predecessor claimed |
| Chain.UnlinkedStatus | crates/aep-core/tests/protocol_corpus.rs:39-87 | exact descriptions of broken, partial and not present |
| Chain.LinkedAtReads | crates/aep-core/tests/protocol_corpus.rs:58-76 | a link fits exactly when it is the hexadecimal digest of the canonical text of the unsigned record before it |
| Chain.PrefixIsIntact | crates/aep-core/tests/protocol_corpus.rs:53-97 | a prefix of at least two records of an intact chain is intact |
| Chain.SuffixIsOrphaned | crates/aep-core/tests/protocol_corpus.rs:88-96 | every proper non-empty suffix of an intact chain is orphaned |
| Chain.GluedIsIntact | crates/aep-core/tests/protocol_corpus.rs:53-97 | a concatenation is intact exactly when its parts are intact and orphaned and the joint fits |
| Chain.LinkIsInPredicate | crates/aep-core/tests/protocol_corpus.rs:58-76 | the claim of a record is part of what its successor's digest covers |
| Chain.HeadDeterminesHistory | crates/aep-core/tests/protocol_corpus.rs:53-97 | two intact chains whose heads have the same digest have the same length and the same records throughout, or two named records at the same distance from the end collide |
| Prov.Ancestors | crates/aep-core/src/prov.rs:43-69 | on every graph: exactly the reachable activities, none twice, in an order of discovery; no entity is popped twice, and at most one more than the distinct used entities; every pop takes the entity pushed last among those pending, until none is |
| Prov.TraversalIsUnique | crates/aep-core/src/prov.rs:43-69 | there is one such traversal, so the order of the result is determined |
| Prov.SeenIsComplete | crates/aep-core/src/prov.rs:49-67 | a closed set of seen entities leaves no ancestor out |
| Prov.AncestorsAreClosed | crates/aep-core/src/prov.rs:37-42 | the ancestors of what an ancestor used are ancestors |
| Prov.AncestorsUnfold | crates/aep-core/src/prov.rs:37-42 | an ancestor is the generator, or an ancestor of something the generator used |
| Prov.GrowthKeepsAncestors | crates/aep-core/src/prov.rs:43-69 | adding entities or activities under fresh ids removes no ancestor |
| Rollup.ClassMaxIsLastOfMaxRank | crates/aep-core/src/evidence.rs:180-201 | the class roll-up is the last class of greatest rank, and absent only if no action has one |
| Rollup.RanksClasses | crates/aep-core/src/evidence.rs:183-199 | classes rank in the order of the vocabulary, `unknown` and anything else above them all |
| Rollup.ClassMaxConcat | crates/aep-core/src/evidence.rs:183-201 | the class roll-up distributes over concatenation, later classes winning ties |
| Rollup.ReplacementLowersRollup | crates/aep-core/src/evidence.rs:180-201 | replacing one action lowers the class of a run exactly when the new one ranks lower and every other action ranks below the old |
| Rollup.StrictestIsGreatest | crates/aep-core/src/evidence.rs:203-223 | the strictest mode is carried by some action and no action's is stricter |
| Rollup.StrictestExactly | crates/aep-core/src/evidence.rs:203-223 | full if any action was recorded in full, else the difference mode if any, else validation |
| Rollup.StrictestConcat | crates/aep-core/src/evidence.rs:206-223 | the mode roll-up distributes over concatenation |
| Recorder.EvidenceBuffer.constructor | crates/proxy-wasm-evidence/src/recorder.rs:27-40 | a positive capacity gives an empty buffer that has dropped nothing |
| Recorder.EvidenceBuffer.Push | crates/proxy-wasm-evidence/src/recorder.rs:57-68 | evicts the oldest entry exactly when full; evicted entry and contents are the old contents and the new entry |
| Recorder.EvidenceBuffer.Drain | crates/proxy-wasm-evidence/src/recorder.rs:86-88 | returns the contents in order and leaves the drop count alone |
| Recorder.BufferConserves | crates/proxy-wasm-evidence/src/recorder.rs:33-88 | over every run: what left followed by what is held is what was pushed; counts add up; the bound holds; the drop count is the evictions modulo 2^64 |
| Recorder.EvictsOnlyOverflow | crates/proxy-wasm-evidence/src/recorder.rs:57-68 | without drains exactly the oldest overflow is evicted and the latest entries are held |
| Recorder.ContainsExactly | crates/proxy-wasm-evidence/src/recorder.rs:126 | a path contains a marker exactly when it is some text, the marker and some text |
| Recorder.NeverMutateLocal | crates/proxy-wasm-evidence/src/recorder.rs:117-150 | no request is classified as a local mutation |
| Recorder.PolicyDropsExactlyAtMutateLocal | crates/aep-core/src/recording.rs:76-120 | the one pair of classes on which higher severity is recorded less fully |
| Recorder.ReasonExactly | crates/aep-core/src/recording.rs:76-120 | the reason given is that of the first rule that matches |
| Recorder.EvidenceStatesRisk | crates/proxy-wasm-evidence/src/recorder.rs:206-230 | evidence built for any risk carries its class in the wire vocabulary and the mode the policy gives; what is not known yet is absent |
| Recorder.RecordingNeverDeescalates | crates/proxy-wasm-evidence/src/filter.rs:209-223 | for all header strings the recorded mode is at least the default and at least the mode without the MCP header, and is one of default and policy |
| Filter.EvidenceFilter.constructor | crates/proxy-wasm-evidence/src/filter.rs:142-156 | a new context has blank request fields and an empty buffer of the configured size |
| Filter.EvidenceFilter.OnHttpResponseHeaders | crates/proxy-wasm-evidence/src/filter.rs:196-237 | one captured action is pushed, one mode counter goes up, and the response shows that mode and risk |
| Filter.GatewayAccounts | crates/proxy-wasm-evidence/src/filter.rs:176-238 | after any run of callbacks over any contexts: each has the fields of its latest request, holds exactly its latest captures and has counted the rest as dropped; each mode counter is the number of captures in that mode |
| Filter.HeldDescribesRequest | crates/proxy-wasm-evidence/src/filter.rs:177-238 | every held entry belongs to a response, at its time, and to the latest request before it: it names its context and that method and path, its risk is that of the MCP headers, its class is a read, network egress, external mutation or unknown exactly as stated of the headers, and it is recorded in full unless a read, which gets the default mode |
| Filter.ContextRemembersRequest | crates/proxy-wasm-evidence/src/filter.rs:177-194 | after any run a context remembers the latest request it saw, header by header, with the fallback order of the MCP headers |
| Filter.CountersCoverHeldAndDropped | crates/proxy-wasm-evidence/src/filter.rs:230-235 | the mode counters add up to what is held and dropped over all contexts |
| Filter.StrictestAtLeastDefault | crates/proxy-wasm-evidence/src/filter.rs:209-223 | in every run the strictest held mode is at least the operator's default |
| Filter.McpLowersRollupExactly | crates/proxy-wasm-evidence/src/recorder.rs:113-150 | sending an MCP method lowers the class of a run exactly when it makes a tool call of an HTTP method in neither list and no other action of the run ranks with unknown |
| Filter.McpLowersThisRollup | crates/proxy-wasm-evidence/src/recorder.rs:113-150 | a request that rolls up as an external mutation, and as unknown without its MCP header |
| Filter.GatewayRecordVerifies | crates/proxy-wasm-evidence/src/emitter.rs:1-14 | whatever a gateway has seen, signing what a context holds gives a record that verifies, in memory and after being written as text and read |
| Filter.GatewayEnvelopesBind | crates/proxy-wasm-evidence/src/emitter.rs:46-70 | records emitted from any contexts at any moments and accepted with the same payload name the same trace, agent, time and evidence, or their canonical texts collide |

## Left out

- ReadInt: reads integers that fit `i64` or `u64`; a number with a fraction or
  an exponent, `-0`, and a larger integer are floats to `serde_json` and make
  the modelled reader refuse the document. Section 3.2.2.3 of RFC 8785 is not claimed.
- ReadRecord: reads a JSON value; reading text straight into the structs also
  rejects a modelled member that occurs twice, where a JSON value keeps the last.
- VerifyRecordDsse: error messages are constructors carrying the offending
  value; the formatted text is not modelled.
- VerdictSurvivesText: writes the record as canonical text; `serde_json` writes
  a record in field order, which reads as the same value.
- OnHttpResponseHeaders: the clock is an argument, so the clock-failure counter
  and its fallback to zero are not modelled; the host counters are ghost state.
- `serde_json`, `base64`, `hex`, `sha2`, `ed25519-dalek` and the standard
  library are not part of the repository. Their documented behaviour is modelled
  (escapes, recursion limit, canonical padding, white space of `trim`), or they
  are parameters: SHA-256, Ed25519 and `to_uppercase`.
- Release builds wrap the `u64` drop count, which is what is modelled; builds
  with overflow checks stop instead.
- `classify_mcp_headers`: a parameter of the filter, a short cascade that would add only branch-level members.
- Plugin configuration beyond the default mode, the two header names and the
  buffer size: parsing, validation and the signing key are not used by the filter's steps.
- `ProvGraph` construction, agents and timestamps play no part in the traversal.
- The `EvidenceSink` port, corpus file walking, benchmarks, CI scripts, sample
  emitter and deployment files: I/O or wrappers.
