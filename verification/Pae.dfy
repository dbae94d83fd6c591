/** The DSSE pre-authentication encoding, and the parser that shows it is uniquely decodable. */
module Pae {
  import opened Wrappers
  import opened Unicode
  import opened Decimal

  const SPACE: byte := 32

  /** `b"DSSEv1 "`. */
  const HEAD: bytes := [68, 83, 83, 69, 118, 49, 32]

  /** A length in decimal ASCII. */
  function LengthField(n: nat): bytes { Ascii(DecimalText(n)) }

  /** `LEN(field) SP field`. */
  function Field(field: bytes): bytes { LengthField(|field|) + [SPACE] + field }

  function PaeBytes(kind: bytes, payload: bytes): bytes
  {
    HEAD + Field(kind) + [SPACE] + Field(payload)
  }

  function PaeOf(payloadType: string, payload: bytes): bytes { PaeBytes(Utf8(payloadType), payload) }

  /** `pae_encode`: the fields are appended one after the other. */
  method PaeEncode(payloadType: string, payload: bytes) returns (out: bytes)
    ensures out == PaeOf(payloadType, payload)
    ensures ParsePae(out) == Some((Utf8(payloadType), payload))
    ensures out == Utf8("DSSEv1 ") + Utf8(DecimalText(|Utf8(payloadType)|)) + Utf8(" ") + Utf8(payloadType)
                   + Utf8(" ") + Utf8(DecimalText(|payload|)) + Utf8(" ") + payload
  {
    hide ParsePae, LengthField, DecimalText, Utf8;
    PaeOfLayout(payloadType, payload);
    PaeOfParses(payloadType, payload);
    out := [];
    out := out + HEAD;
    out := out + LengthField(|Utf8(payloadType)|);
    out := out + [SPACE];
    out := out + Utf8(payloadType);
    out := out + [SPACE];
    out := out + LengthField(|payload|);
    out := out + [SPACE];
    out := out + payload;
  }

  /** Decimal digits off the front of a byte string. */
  function TakeDigitBytes(b: bytes): (r: (string, bytes))
    ensures AllDigits(r.0)
  {
    if b == [] || !(48 <= b[0] < 58) then ("", b)
    else var (ds, rest) := TakeDigitBytes(b[1..]); ([b[0] as char] + ds, rest)
  }

  /** A length, a space, that many bytes. */
  function ReadField(b: bytes): Option<(bytes, bytes)>
  {
    var (ds, rest) := TakeDigitBytes(b);
    var n := DecimalValue(ds);
    if ds != "" && 1 + n <= |rest| && rest[0] == SPACE then Some((rest[1..1 + n], rest[1 + n..]))
    else None
  }

  function ParsePae(b: bytes): Option<(bytes, bytes)>
  {
    if !(HEAD <= b) then None else
    var (kind, rest) :- ReadField(b[|HEAD|..]);
    if rest == [] || rest[0] != SPACE then None else
    var (payload, end) :- ReadField(rest[1..]);
    if end == [] then Some((kind, payload)) else None
  }

  lemma {:induction false} TakeDigitBytesStops(ds: string, rest: bytes)
    requires AllDigits(ds)
    requires rest != [] ==> !(48 <= rest[0] < 58)
    ensures TakeDigitBytes(Ascii(ds) + rest) == (ds, rest)
  {
    if ds == "" {
      assert Ascii(ds) + rest == rest;
    } else {
      var b := Ascii(ds) + rest;
      assert b[1..] == Ascii(ds[1..]) + rest;
      TakeDigitBytesStops(ds[1..], rest);
      assert ds == [ds[0]] + ds[1..];
    }
  }

  lemma FieldReadsBack(field: bytes, rest: bytes)
    ensures ReadField(Field(field) + rest) == Some((field, rest))
  {
    var tail := [SPACE] + field + rest;
    assert Field(field) + rest == LengthField(|field|) + tail;
    TakeDigitBytesStops(DecimalText(|field|), tail);
    DecimalRoundTrip(|field|);
    assert tail[1..1 + |field|] == field && tail[1 + |field|..] == rest;
  }

  /** A parser recovers type and payload, whatever spaces and digits they hold. */
  lemma PaeParses(kind: bytes, payload: bytes)
    ensures ParsePae(PaeBytes(kind, payload)) == Some((kind, payload))
  {
    var rest := [SPACE] + Field(payload);
    FieldReadsBack(kind, rest);
    FieldReadsBack(payload, []);
    assert Field(payload) + [] == Field(payload);
    assert PaeBytes(kind, payload) == HEAD + (Field(kind) + rest);
    assert (HEAD + (Field(kind) + rest))[|HEAD|..] == Field(kind) + rest;
    assert rest[1..] == Field(payload);
  }

  lemma PaeUniquelyDecodable(kind: bytes, payload: bytes, kind': bytes, payload': bytes)
    requires PaeBytes(kind, payload) == PaeBytes(kind', payload')
    ensures kind == kind' && payload == payload'
  {
    PaeParses(kind, payload);
    PaeParses(kind', payload');
  }

  /** The text of the prefix, the decimal byte lengths and the fields, separated by single spaces. */
  lemma PaeOfLayout(payloadType: string, payload: bytes)
    ensures PaeOf(payloadType, payload)
         == Utf8("DSSEv1 ") + Utf8(DecimalText(|Utf8(payloadType)|)) + Utf8(" ") + Utf8(payloadType)
            + Utf8(" ") + Utf8(DecimalText(|payload|)) + Utf8(" ") + payload
  {
    hide Utf8, LengthField, DecimalText;
    PaeLiterals();
    LengthFieldText(|Utf8(payloadType)|);
    LengthFieldText(|payload|);
    var kind := Utf8(payloadType);
    Appended(HEAD, LengthField(|kind|), kind, [SPACE], LengthField(|payload|), payload);
  }

  lemma Appended(head: bytes, n: bytes, kind: bytes, space: bytes, m: bytes, payload: bytes)
    ensures head + (n + space + kind) + space + (m + space + payload)
         == head + n + space + kind + space + m + space + payload
  {
    assert head + (n + space + kind) == head + n + space + kind;
    var front := head + n + space + kind + space;
    assert front + (m + space + payload) == front + m + space + payload;
  }

  lemma PaeLiterals()
    ensures Utf8("DSSEv1 ") == HEAD && Utf8(" ") == [SPACE]
  {
    hide Utf8;
    Utf8Ascii("DSSEv1 ");
    Utf8Ascii(" ");
    assert Ascii("DSSEv1 ") == HEAD && Ascii(" ") == [SPACE];
  }

  lemma LengthFieldText(n: nat)
    ensures LengthField(n) == Utf8(DecimalText(n))
  {
    hide Utf8;
    Utf8Ascii(DecimalText(n));
  }

  /** What is signed gives back the payload type and the payload. */
  lemma PaeOfParses(payloadType: string, payload: bytes)
    ensures ParsePae(PaeOf(payloadType, payload)) == Some((Utf8(payloadType), payload))
  {
    hide ParsePae, PaeBytes;
    PaeParses(Utf8(payloadType), payload);
  }

  /** What is signed for one type and payload is signed for no other. */
  lemma PaeOfInjective(payloadType: string, payload: bytes, payloadType': string, payload': bytes)
    ensures PaeOf(payloadType, payload) == PaeOf(payloadType', payload') <==>
            payloadType == payloadType' && payload == payload'
  {
    hide ParsePae, PaeOf, Utf8;
    PaeOfParses(payloadType, payload);
    PaeOfParses(payloadType', payload');
    if PaeOf(payloadType, payload) == PaeOf(payloadType', payload') {
      Utf8Injective(payloadType, payloadType');
    }
  }
}
