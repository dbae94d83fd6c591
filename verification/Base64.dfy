/**
 Base64 as the signer and verifier use it: the `STANDARD` engine (padded,
 canonical: no stray padding, no stray trailing bits) and the lenient reader
 that also takes the URL-safe alphabet and missing padding.
 */
module Base64 {
  import opened Wrappers
  import opened Unicode

  /** The standard alphabet, section 4 of RFC 4648. */
  function Symbol(i: int): (c: char)
    requires 0 <= i < 64
    ensures c as int < 0x80 && c != '=' && c != '-' && c != '_'
  {
    if i < 26 then (65 + i) as char
    else if i < 52 then (71 + i) as char
    else if i < 62 then (i - 4) as char
    else if i == 62 then '+'
    else '/'
  }

  function SymbolValue(c: char): (r: Option<int>)
    ensures r.Some? ==> 0 <= r.value < 64 && Symbol(r.value) == c
  {
    if 'A' <= c <= 'Z' then Some(c as int - 65)
    else if 'a' <= c <= 'z' then Some(c as int - 71)
    else if '0' <= c <= '9' then Some(c as int + 4)
    else if c == '+' then Some(62)
    else if c == '/' then Some(63)
    else None
  }

  lemma SymbolInverts(i: int)
    requires 0 <= i < 64
    ensures SymbolValue(Symbol(i)) == Some(i)
  {
  }

  /** Table 1 of RFC 4648: the upper-case letters, the lower-case letters, the digits, plus and slash. */
  lemma SymbolsAreStandard(i: int)
    requires 0 <= i < 64
    ensures i < 26 ==> Symbol(i) as int - 'A' as int == i
    ensures 26 <= i < 52 ==> Symbol(i) as int - 'a' as int == i - 26
    ensures 52 <= i < 62 ==> Symbol(i) as int - '0' as int == i - 52
    ensures i == 62 ==> Symbol(i) == '+'
    ensures i == 63 ==> Symbol(i) == '/'
  {
  }

  lemma PaddingIsNoSymbol()
    ensures SymbolValue('=') == None
  {
  }

  function EncodeGroup(b: bytes): (s: string)
    requires 1 <= |b| <= 3
    ensures |s| == 4
  {
    var b1 := if |b| > 1 then b[1] else 0;
    var b2 := if |b| > 2 then b[2] else 0;
    [ Symbol(b[0] / 4), Symbol(b[0] % 4 * 16 + b1 / 16),
      if |b| > 1 then Symbol(b1 % 16 * 4 + b2 / 64) else '=',
      if |b| > 2 then Symbol(b2 % 64) else '=' ]
  }

  /** `STANDARD.encode`. */
  function Encode(b: bytes): (s: string)
    ensures |s| % 4 == 0
    decreases |b|
  {
    if b == [] then ""
    else if |b| < 3 then EncodeGroup(b)
    else
      var group, rest := EncodeGroup(b[..3]), Encode(b[3..]);
      FourMore(|rest|);
      group + rest
  }

  lemma FourMore(n: nat)
    ensures n % 4 == 0 ==> (4 + n) % 4 == 0
  {
  }

  /** Four characters; padding is read only in the last group of the text. */
  function DecodeGroup(s: string, last: bool): (r: Option<bytes>)
    requires |s| == 4
    ensures r.Some? ==> 1 <= |r.value| <= 3 && (!last ==> |r.value| == 3)
  {
    var v0 :- SymbolValue(s[0]);
    var v1 :- SymbolValue(s[1]);
    if last && s[2] == '=' && s[3] == '=' then
      if v1 % 16 == 0 then Some([v0 * 4 + v1 / 16]) else None
    else
      var v2 :- SymbolValue(s[2]);
      if last && s[3] == '=' then
        if v2 % 4 == 0 then Some([v0 * 4 + v1 / 16, v1 % 16 * 16 + v2 / 4]) else None
      else
        var v3 :- SymbolValue(s[3]);
        Some([v0 * 4 + v1 / 16, v1 % 16 * 16 + v2 / 4, v2 % 4 * 64 + v3])
  }

  /** `STANDARD.decode`. */
  function Decode(s: string): Option<bytes>
    decreases |s|
  {
    if s == "" then Some([])
    else if |s| < 4 then None
    else
      var group :- DecodeGroup(s[..4], |s| == 4);
      var tail :- Decode(s[4..]);
      Some(group + tail)
  }

  lemma OctetsOfSextets(b0: byte, b1: byte, b2: byte)
    ensures (b0 % 4 * 16 + b1 / 16) / 16 == b0 % 4
    ensures (b0 % 4 * 16 + b1 / 16) % 16 == b1 / 16
    ensures (b1 % 16 * 4 + b2 / 64) / 4 == b1 % 16
    ensures (b1 % 16 * 4 + b2 / 64) % 4 == b2 / 64
  {
  }

  /** The value a symbol stands for; padding stands for zero. */
  function Sextet(c: char): int { if SymbolValue(c).Some? then SymbolValue(c).value else 0 }

  /** The four symbols of a group spell the 24 bits of its bytes, most significant first. */
  lemma GroupSpellsBits(b: bytes)
    requires 1 <= |b| <= 3
    ensures var s := EncodeGroup(b);
            var bits := Sextet(s[0]) * 262144 + Sextet(s[1]) * 4096 + Sextet(s[2]) * 64 + Sextet(s[3]);
            var b1 := if |b| > 1 then b[1] as int else 0;
            var b2 := if |b| > 2 then b[2] as int else 0;
            bits == b[0] as int * 65536 + b1 * 256 + b2
  {
    hide Symbol, SymbolValue;
    var b1 := if |b| > 1 then b[1] else 0;
    var b2 := if |b| > 2 then b[2] else 0;
    PaddingIsNoSymbol();
    SymbolInverts(b[0] / 4);
    SymbolInverts(b[0] % 4 * 16 + b1 / 16);
    SymbolInverts(b1 % 16 * 4 + b2 / 64);
    SymbolInverts(b2 % 64);
  }

  lemma GroupDecodesEncoded(b: bytes, last: bool)
    requires 1 <= |b| <= 3 && (!last ==> |b| == 3)
    ensures DecodeGroup(EncodeGroup(b), last) == Some(b)
  {
    hide Symbol, SymbolValue;
    var b1 := if |b| > 1 then b[1] else 0;
    var b2 := if |b| > 2 then b[2] else 0;
    SymbolInverts(0);
    PaddingIsNoSymbol();
    OctetsOfSextets(b[0], b1, b2);
    SymbolInverts(b[0] / 4);
    SymbolInverts(b[0] % 4 * 16 + b1 / 16);
    SymbolInverts(b1 % 16 * 4 + b2 / 64);
    SymbolInverts(b2 % 64);
    assert b == if |b| == 1 then [b[0]] else if |b| == 2 then [b[0], b1] else [b[0], b1, b2];
  }

  lemma SextetsOfOctets(v0: int, v1: int, v2: int, v3: int)
    requires 0 <= v0 < 64 && 0 <= v1 < 64 && 0 <= v2 < 64 && 0 <= v3 < 64
    ensures (v0 * 4 + v1 / 16) / 4 == v0
    ensures (v0 * 4 + v1 / 16) % 4 * 16 + (v1 % 16 * 16 + v2 / 4) / 16 == v1
    ensures (v1 % 16 * 16 + v2 / 4) % 16 * 4 + (v2 % 4 * 64 + v3) / 64 == v2
    ensures (v2 % 4 * 64 + v3) % 64 == v3
  {
  }

  /** Four sextets spelled out; a sextet past the padding is zero. */
  lemma GroupOfSextets(v0: int, v1: int, v2: int, v3: int, b: bytes)
    requires 0 <= v0 < 64 && 0 <= v1 < 64 && 0 <= v2 < 64 && 0 <= v3 < 64
    requires 1 <= |b| <= 3 && b[0] == v0 * 4 + v1 / 16
    requires if |b| > 1 then b[1] == v1 % 16 * 16 + v2 / 4 else v1 % 16 == v2 == 0
    requires if |b| > 2 then b[2] == v2 % 4 * 64 + v3 else v2 % 4 == v3 == 0
    ensures EncodeGroup(b) == [ Symbol(v0), Symbol(v1),
                                if |b| > 1 then Symbol(v2) else '=',
                                if |b| > 2 then Symbol(v3) else '=' ]
  {
    SextetsOfOctets(v0, v1, v2, v3);
  }

  lemma GroupEncodesDecoded(s: string, last: bool)
    requires |s| == 4 && DecodeGroup(s, last).Some?
    ensures EncodeGroup(DecodeGroup(s, last).value) == s
  {
    var b := DecodeGroup(s, last).value;
    var v2, v3 := SymbolValue(s[2]), SymbolValue(s[3]);
    GroupOfSextets(SymbolValue(s[0]).value, SymbolValue(s[1]).value,
                   if |b| > 1 then v2.value else 0, if |b| > 2 then v3.value else 0, b);
    assert s == [s[0], s[1], s[2], s[3]];
  }

  lemma {:induction false} DecodeInvertsEncode(b: bytes)
    ensures Decode(Encode(b)) == Some(b)
    decreases |b|
  {
    if b == [] {
    } else if |b| <= 3 {
      GroupDecodesEncoded(b, true);
      assert |b| == 3 ==> b[..3] == b && b[3..] == [];
      assert Encode(b) == EncodeGroup(b);
      assert Encode(b)[..4] == Encode(b) && Encode(b)[4..] == "";
      assert b + [] == b;
    } else {
      var s := Encode(b);
      DecodeInvertsEncode(b[3..]);
      GroupDecodesEncoded(b[..3], false);
      assert s[..4] == EncodeGroup(b[..3]) && s[4..] == Encode(b[3..]);
      assert b == b[..3] + b[3..];
      assert Encode(b[3..]) != "";
    }
  }

  lemma {:induction false} EncodeInvertsDecode(s: string)
    requires Decode(s).Some?
    ensures Encode(Decode(s).value) == s
    decreases |s|
  {
    if s != "" {
      var group := DecodeGroup(s[..4], |s| == 4).value;
      var tail := Decode(s[4..]).value;
      GroupEncodesDecoded(s[..4], |s| == 4);
      EncodeInvertsDecode(s[4..]);
      assert s == s[..4] + s[4..];
      if |s| == 4 {
        assert tail == [] && group + tail == group;
        assert |group| == 3 ==> group[..3] == group && group[3..] == [];
      } else {
        assert (group + tail)[..3] == group && (group + tail)[3..] == tail;
      }
    }
  }

  /** Group `i` of the text spells the bytes from `3 * i`: three of them, or what is left. */
  lemma {:induction false} EncodeSpellsGroups(b: bytes, i: nat)
    requires 3 * i < |b|
    ensures 4 * i + 4 <= |Encode(b)|
    ensures Encode(b)[4 * i..4 * i + 4] == EncodeGroup(if |b| - 3 * i < 3 then b[3 * i..] else b[3 * i..3 * i + 3])
    decreases i
  {
    hide EncodeGroup;
    if i > 0 {
      EncodeSpellsGroups(b[3..], i - 1);
      assert Encode(b)[4..] == Encode(b[3..]);
      assert Encode(b)[4 * i..4 * i + 4] == Encode(b)[4..][4 * (i - 1)..4 * (i - 1) + 4];
      assert b[3..][3 * (i - 1)..] == b[3 * i..];
      if |b| - 3 * i >= 3 {
        assert b[3..][3 * (i - 1)..3 * (i - 1) + 3] == b[3 * i..3 * i + 3];
      }
    } else {
      assert |b| < 3 ==> b[0..] == b;
    }
  }

  // --- The lenient reader ----------------------------------------------------

  function NormalChar(c: char): char {
    if c == '-' then '+' else if c == '_' then '/' else c
  }

  function Normalize(s: string): (t: string)
    ensures |t| == |s|
  {
    seq(|s|, i requires 0 <= i < |s| => NormalChar(s[i]))
  }

  function PadBy(t: string, length: nat): string {
    if length % 4 == 2 then t + "=="
    else if length % 4 == 3 then t + "="
    else t
  }

  /** Padding by the length in bytes, as `String::len` counts it. */
  function Pad(t: string): string { PadBy(t, |Utf8(t)|) }

  /** `decode_base64_lenient` as a function of its input. */
  function LenientDecode(input: string): Option<bytes> { Decode(Pad(Normalize(input))) }

  method DecodeBase64Lenient(input: string) returns (r: Option<bytes>)
    ensures r == LenientDecode(input)
  {
    var normalized := "";
    for i := 0 to |input|
      invariant normalized == Normalize(input[..i])
    {
      var c := input[i];
      if c == '-' {
        normalized := normalized + ['+'];
      } else if c == '_' {
        normalized := normalized + ['/'];
      } else {
        normalized := normalized + [c];
      }
      assert input[..i + 1] == input[..i] + [c];
    }
    assert input[..|input|] == input;
    var length := |Utf8(normalized)|;
    if length % 4 == 2 {
      normalized := normalized + "==";
    } else if length % 4 == 3 {
      normalized := normalized + "=";
    }
    r := Decode(normalized);
  }

  /** How many '=' close the standard encoding of `b`. */
  function PadCount(b: bytes): (n: nat)
  {
    (3 - |b| % 3) % 3
  }

  /** The standard encoding with its last `dropped` padding characters left off. */
  function Spelling(b: bytes, dropped: nat): string
    requires dropped <= PadCount(b)
  {
    EncodeShape(b);
    Encode(b)[..|Encode(b)| - dropped]
  }

  lemma GroupShape(b: bytes)
    requires 1 <= |b| <= 3
    ensures forall i :: 0 <= i < 4 ==> (EncodeGroup(b)[i] == '=' <==> i >= 1 + |b|)
    ensures forall i :: 0 <= i < 4 ==>
              var c := EncodeGroup(b)[i]; c as int < 0x80 && c != '-' && c != '_'
  {
  }

  /** Section 4 of RFC 4648: ASCII symbols, with '=' exactly in the closing pad positions. */
  lemma {:induction false} EncodeShape(b: bytes)
    ensures PadCount(b) <= |Encode(b)|
    ensures forall i :: 0 <= i < |Encode(b)| ==> (Encode(b)[i] == '=' <==> i >= |Encode(b)| - PadCount(b))
    ensures forall i :: 0 <= i < |Encode(b)| ==>
              var c := Encode(b)[i]; c as int < 0x80 && c != '-' && c != '_'
    decreases |b|
  {
    hide EncodeGroup;
    if 1 <= |b| < 3 {
      GroupShape(b);
    } else if |b| >= 3 {
      GroupShape(b[..3]);
      EncodeShape(b[3..]);
      assert PadCount(b) == PadCount(b[3..]);
      forall i | 0 <= i < |Encode(b)|
        ensures Encode(b)[i] == if i < 4 then EncodeGroup(b[..3])[i] else Encode(b[3..])[i - 4]
      {
      }
    }
  }

  /** Character by character the same text, where '-' may stand for '+' and '_' for '/'. */
  predicate InEitherAlphabet(input: string, t: string) {
    |input| == |t| && forall i :: 0 <= i < |t| ==>
      input[i] == t[i] || (input[i] == '-' && t[i] == '+') || (input[i] == '_' && t[i] == '/')
  }

  /** `input` is the encoding of `b` in either alphabet, short of none, some or all of its padding. */
  ghost predicate Spells(input: string, b: bytes) {
    exists d: nat :: d <= PadCount(b) && InEitherAlphabet(input, Spelling(b, d))
  }

  lemma NormalizedSpelling(input: string, b: bytes, d: nat)
    requires d <= PadCount(b)
    ensures Normalize(input) == Spelling(b, d) <==> InEitherAlphabet(input, Spelling(b, d))
  {
    EncodeShape(b);
    var t := Spelling(b, d);
    assert forall i :: 0 <= i < |t| ==> t[i] == Encode(b)[i];
    if |input| == |t| {
      forall i | 0 <= i < |t|
        ensures Normalize(input)[i] == t[i] <==>
                input[i] == t[i] || (input[i] == '-' && t[i] == '+') || (input[i] == '_' && t[i] == '/')
      {
      }
    }
  }

  /** Lenient reading accepts exactly the spellings in either alphabet that drop none, some or all of the padding. */
  lemma LenientAcceptsExactly(input: string, b: bytes)
    ensures LenientDecode(input) == Some(b) <==> Spells(input, b)
  {
    hide Normalize, Spelling, InEitherAlphabet;
    var t := Normalize(input);
    if LenientDecode(input) == Some(b) {
      EncodeInvertsDecode(Pad(t));
      var d := PaddingAdded(t, b);
      NormalizedSpelling(input, b, d);
    }
    if d: nat :| d <= PadCount(b) && InEitherAlphabet(input, Spelling(b, d)) {
      NormalizedSpelling(input, b, d);
      SpellingPads(b, d);
      DecodeInvertsEncode(b);
    }
  }

  /** Text that pads to an encoding is that encoding short of some of its own padding. */
  lemma PaddingAdded(t: string, b: bytes) returns (d: nat)
    requires Pad(t) == Encode(b)
    ensures d <= PadCount(b) && t == Spelling(b, d)
  {
    EncodeShape(b);
    d := |Pad(t)| - |t|;
    assert Pad(t)[..|t|] == t;
    if d > 0 {
      assert Pad(t)[|t|] == '=';
    }
  }

  lemma SpellingPads(b: bytes, d: nat)
    requires d <= PadCount(b)
    ensures Pad(Spelling(b, d)) == Encode(b)
  {
    hide Encode, Pad, PadBy, Utf8;
    EncodeShape(b);
    var e, t := Encode(b), Spelling(b, d);
    assert forall i :: 0 <= i < |t| ==> t[i] == e[i];
    PadAscii(t);
    PadByCompletes(e, d);
  }

  lemma PadByCompletes(e: string, d: nat)
    requires |e| % 4 == 0 && d <= 2 && d <= |e|
    requires forall i :: |e| - d <= i < |e| ==> e[i] == '='
    ensures PadBy(e[..|e| - d], |e| - d) == e
  {
    var t := e[..|e| - d];
    assert e == t + e[|e| - d..];
    if d == 1 {
      assert e[|e| - d..] == "=";
    } else if d == 2 {
      assert e[|e| - d..] == "==";
    }
  }

  lemma PadAscii(t: string)
    requires IsAscii(t)
    ensures Pad(t) == PadBy(t, |t|)
  {
    Utf8Ascii(t);
  }

  function UrlSafeChar(c: char): char {
    if c == '+' then '-' else if c == '/' then '_' else c
  }

  /** The URL-safe alphabet, section 5 of RFC 4648. */
  function UrlSafe(s: string): (t: string)
    ensures |t| == |s|
  {
    seq(|s|, i requires 0 <= i < |s| => UrlSafeChar(s[i]))
  }

  lemma SpellingReadsBack(b: bytes, d: nat)
    requires d <= PadCount(b)
    ensures LenientDecode(Spelling(b, d)) == Some(b)
    ensures LenientDecode(UrlSafe(Spelling(b, d))) == Some(b)
  {
    EncodeShape(b);
    var t := Spelling(b, d);
    assert forall i :: 0 <= i < |t| ==> t[i] == Encode(b)[i];
    assert InEitherAlphabet(t, t) && InEitherAlphabet(UrlSafe(t), t);
    LenientAcceptsExactly(t, b);
    LenientAcceptsExactly(UrlSafe(t), b);
  }

  /** Standard or URL-safe, padded or unpadded: every spelling reads back. */
  lemma FourSpellings(b: bytes)
    ensures LenientDecode(Encode(b)) == Some(b)
    ensures LenientDecode(UrlSafe(Encode(b))) == Some(b)
    ensures LenientDecode(Spelling(b, PadCount(b))) == Some(b)
    ensures LenientDecode(UrlSafe(Spelling(b, PadCount(b)))) == Some(b)
  {
    SpellingReadsBack(b, 0);
    SpellingReadsBack(b, PadCount(b));
    assert Spelling(b, 0) == Encode(b);
  }
}
