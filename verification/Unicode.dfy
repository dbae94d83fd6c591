/**
 Text as Rust holds it: a `string` is a sequence of Unicode scalar values.
 UTF-8 is what a Rust `String` stores, UTF-16 is what the key order compares.
 */
module Unicode {
  import opened Wrappers

  // --- UTF-8 ---------------------------------------------------------------

  function Utf8Char(c: char): (b: bytes)
    ensures 1 <= |b| <= 4
  {
    var n := c as int;
    if n < 0x80 then [n]
    else if n < 0x800 then [0xC0 + n / 64, 0x80 + n % 64]
    else if n < 0x10000 then [0xE0 + n / 64 / 64, 0x80 + n / 64 % 64, 0x80 + n % 64]
    else [0xF0 + n / 64 / 64 / 64, 0x80 + n / 64 / 64 % 64, 0x80 + n / 64 % 64, 0x80 + n % 64]
  }

  function Concat(parts: seq<bytes>): bytes
  {
    if parts == [] then [] else parts[0] + Concat(parts[1..])
  }

  function Utf8Parts(s: string): seq<bytes>
  {
    seq(|s|, i requires 0 <= i < |s| => Utf8Char(s[i]))
  }

  /** `str::as_bytes`. */
  function Utf8(s: string): bytes { Concat(Utf8Parts(s)) }

  lemma Utf8Unfolds(s: string)
    ensures Utf8(s) == if s == "" then [] else Utf8Char(s[0]) + Utf8(s[1..])
  {
    if s != "" {
      assert Utf8Parts(s)[1..] == Utf8Parts(s[1..]);
    }
  }

  predicate IsContinuation(b: byte) { 0x80 <= b < 0xC0 }

  predicate IsScalar(n: int) { 0 <= n < 0xD800 || 0xE000 <= n < 0x110000 }

  /** One UTF-8 character off the front; overlong forms and surrogates are refused. */
  function ReadUtf8Char(b: bytes): (r: Option<(char, bytes)>)
    ensures r.Some? ==> |r.value.1| < |b|
  {
    if b == [] then None
    else if b[0] < 0x80 then Some((b[0] as char, b[1..]))
    else if 0xC2 <= b[0] < 0xE0 && |b| >= 2 && IsContinuation(b[1]) then
      var n: int := (b[0] as int - 0xC0) * 64 + (b[1] as int - 0x80);
      Some((n as char, b[2..]))
    else if 0xE0 <= b[0] < 0xF0 && |b| >= 3 && IsContinuation(b[1]) && IsContinuation(b[2]) then
      var n: int := (b[0] as int - 0xE0) * 4096 + (b[1] as int - 0x80) * 64 + (b[2] as int - 0x80);
      if 0x800 <= n && IsScalar(n) then Some((n as char, b[3..])) else None
    else if 0xF0 <= b[0] < 0xF5 && |b| >= 4 && IsContinuation(b[1]) && IsContinuation(b[2]) && IsContinuation(b[3]) then
      var high: int := (b[0] as int - 0xF0) * 64 + (b[1] as int - 0x80);
      var n: int := high * 4096 + (b[2] as int - 0x80) * 64 + (b[3] as int - 0x80);
      if 0x10000 <= n && IsScalar(n) then Some((n as char, b[4..])) else None
    else None
  }

  /** `std::str::from_utf8`: the text a byte sequence encodes, if it is UTF-8. */
  function FromUtf8(b: bytes): Option<string>
    decreases |b|
  {
    if b == [] then Some("") else
    var (c, rest) :- ReadUtf8Char(b);
    var tail :- FromUtf8(rest);
    Some([c] + tail)
  }

  /** Section 3 of RFC 3629: one to four bytes, six bits in each continuation byte, in the shortest form. */
  lemma Utf8CharReads(c: char)
    ensures var n: int, b: seq<int> := c as int, Utf8Char(c);
            && (n < 0x80 <==> |b| == 1) && (n < 0x800 <==> |b| <= 2) && (n < 0x10000 <==> |b| <= 3)
            && (forall i :: 0 < i < |b| ==> 0x80 <= b[i] < 0xC0)
            && (|b| == 1 ==> b[0] == n)
            && (|b| == 2 ==> n == (b[0] - 0xC0) * 0x40 + (b[1] - 0x80))
            && (|b| == 3 ==> n == (b[0] - 0xE0) * 0x1000 + (b[1] - 0x80) * 0x40 + (b[2] - 0x80))
            && (|b| == 4 ==>
                  n == (b[0] - 0xF0) * 0x40000 + (b[1] - 0x80) * 0x1000 + (b[2] - 0x80) * 0x40 + (b[3] - 0x80))
  {
  }

  lemma ReadUtf8CharInverts(c: char, rest: bytes)
    ensures ReadUtf8Char(Utf8Char(c) + rest) == Some((c, rest))
  {
    var n := c as int;
    var b := Utf8Char(c) + rest;
    assert b[|Utf8Char(c)|..] == rest;
  }

  lemma {:induction false} Utf8RoundTrip(s: string)
    ensures FromUtf8(Utf8(s)) == Some(s)
  {
    Utf8Unfolds(s);
    if s != "" {
      ReadUtf8CharInverts(s[0], Utf8(s[1..]));
      Utf8RoundTrip(s[1..]);
      assert Utf8(s) != [] && s == [s[0]] + s[1..];
    }
  }

  lemma SixBits(q: nat, r: nat)
    requires r < 64
    ensures (q * 64 + r) / 64 == q && (q * 64 + r) % 64 == r
  {
  }

  lemma ReadUtf8CharIsCanonical(b: bytes)
    requires ReadUtf8Char(b).Some?
    ensures Utf8Char(ReadUtf8Char(b).value.0) + ReadUtf8Char(b).value.1 == b
  {
    var c := ReadUtf8Char(b).value.0;
    if b[0] < 0x80 {
      assert b == [b[0]] + b[1..];
    } else if b[0] < 0xE0 {
      SixBits(b[0] - 0xC0, b[1] - 0x80);
      assert Utf8Char(c) == [b[0], b[1]];
      assert b == [b[0], b[1]] + b[2..];
    } else if b[0] < 0xF0 {
      SixBits((b[0] as int - 0xE0) * 64 + (b[1] as int - 0x80), b[2] - 0x80);
      SixBits(b[0] - 0xE0, b[1] - 0x80);
      assert Utf8Char(c) == [b[0], b[1], b[2]];
      assert b == [b[0], b[1], b[2]] + b[3..];
    } else {
      LongCharIsCanonical(b);
    }
  }

  lemma LongCharIsCanonical(b: bytes)
    requires ReadUtf8Char(b).Some? && b[0] >= 0xF0
    ensures Utf8Char(ReadUtf8Char(b).value.0) + ReadUtf8Char(b).value.1 == b
  {
    var c := ReadUtf8Char(b).value.0;
    SixBits(((b[0] as int - 0xF0) * 64 + (b[1] as int - 0x80)) * 64 + (b[2] as int - 0x80), b[3] - 0x80);
    SixBits((b[0] as int - 0xF0) * 64 + (b[1] as int - 0x80), b[2] - 0x80);
    SixBits(b[0] - 0xF0, b[1] - 0x80);
    assert Utf8Char(c) == [b[0], b[1], b[2], b[3]];
    assert b == [b[0], b[1], b[2], b[3]] + b[4..];
  }

  /** Only the encoding of a text decodes to it: overlong and surrogate spellings are refused. */
  lemma {:induction false} Utf8DecodesOnlyEncodings(b: bytes)
    requires FromUtf8(b).Some?
    ensures Utf8(FromUtf8(b).value) == b
    decreases |b|
  {
    Utf8Unfolds(FromUtf8(b).value);
    if b != [] {
      hide Utf8Char, ReadUtf8Char;
      var (c, rest) := ReadUtf8Char(b).value;
      ReadUtf8CharIsCanonical(b);
      Utf8DecodesOnlyEncodings(rest);
      assert ([c] + FromUtf8(rest).value)[1..] == FromUtf8(rest).value;
    }
  }

  lemma Utf8Injective(s: string, t: string)
    requires Utf8(s) == Utf8(t)
    ensures s == t
  {
    Utf8RoundTrip(s);
    Utf8RoundTrip(t);
  }

  predicate IsAscii(s: string) { forall i :: 0 <= i < |s| ==> s[i] as int < 0x80 }

  /** The bytes of an ASCII text: one per character. */
  function Ascii(s: string): (b: bytes)
    requires IsAscii(s)
    ensures |b| == |s|
  {
    seq(|s|, i requires 0 <= i < |s| => s[i] as int)
  }

  lemma {:induction false} Utf8Ascii(s: string)
    requires IsAscii(s)
    ensures Utf8(s) == Ascii(s)
  {
    Utf8Unfolds(s);
    if s != "" {
      assert forall i :: 0 <= i < |s[1..]| ==> s[1..][i] == s[i + 1];
      Utf8Ascii(s[1..]);
      assert Ascii(s) == [s[0] as int] + Ascii(s[1..]);
    }
  }

  // --- UTF-16 --------------------------------------------------------------

  /** Section 2.1 of RFC 2781: one unit below U+10000, a surrogate pair above. */
  function Utf16Char(c: char): (u: seq<int>)
    ensures 1 <= |u| <= 2
  {
    var n := c as int;
    if n < 0x10000 then [n]
    else [0xD800 + (n - 0x10000) / 0x400, 0xDC00 + (n - 0x10000) % 0x400]
  }

  function Utf16(s: string): seq<int>
  {
    if s == "" then [] else Utf16Char(s[0]) + Utf16(s[1..])
  }

  // --- Lexicographic order -------------------------------------------------

  datatype Ordering = Less | Equal | Greater {
    function Flip(): Ordering {
      match this
      case Less => Greater
      case Equal => Equal
      case Greater => Less
    }
  }

  /** `Ord::cmp` on vectors of numbers. */
  function Compare(a: seq<int>, b: seq<int>): Ordering
  {
    if a == [] && b == [] then Equal
    else if a == [] then Less
    else if b == [] then Greater
    else if a[0] < b[0] then Less
    else if b[0] < a[0] then Greater
    else Compare(a[1..], b[1..])
  }

  function CompareUtf16(a: string, b: string): Ordering { Compare(Utf16(a), Utf16(b)) }

  function CompareUtf8(a: string, b: string): Ordering { Compare(Utf8(a), Utf8(b)) }

  lemma {:induction false} CompareEqual(a: seq<int>, b: seq<int>)
    ensures Compare(a, b) == Equal <==> a == b
  {
    if a != [] && b != [] {
      CompareEqual(a[1..], b[1..]);
      assert a == [a[0]] + a[1..] && b == [b[0]] + b[1..];
    }
  }

  lemma {:induction false} CompareFlips(a: seq<int>, b: seq<int>)
    ensures Compare(b, a) == Compare(a, b).Flip()
  {
    if a != [] && b != [] {
      CompareFlips(a[1..], b[1..]);
    }
  }

  lemma {:induction false} CompareTransitive(a: seq<int>, b: seq<int>, c: seq<int>)
    requires Compare(a, b) == Less && Compare(b, c) == Less
    ensures Compare(a, c) == Less
  {
    if a != [] && b != [] && c != [] && a[0] == b[0] == c[0] {
      CompareTransitive(a[1..], b[1..], c[1..]);
    }
  }

  lemma {:induction false} CompareCommonPrefix(p: seq<int>, a: seq<int>, b: seq<int>)
    ensures Compare(p + a, p + b) == Compare(a, b)
  {
    if p == [] {
      assert p + a == a && p + b == b;
    } else {
      assert (p + a)[1..] == p[1..] + a && (p + b)[1..] == p[1..] + b;
      CompareCommonPrefix(p[1..], a, b);
    }
  }

  /** Lexicographic order, read off the positions: a proper prefix, or smaller where the two first differ. */
  predicate Precedes(a: seq<int>, b: seq<int>) {
    || (|a| < |b| && a == b[..|a|])
    || exists i :: 0 <= i < |a| && i < |b| && a[..i] == b[..i] && a[i] < b[i]
  }

  lemma {:induction false} CompareIsLexicographic(a: seq<int>, b: seq<int>)
    ensures Compare(a, b) == Less <==> Precedes(a, b)
  {
    if Compare(a, b) == Less {
      LessPrecedes(a, b);
    }
    if |a| < |b| && a == b[..|a|] {
      assert b == a + b[|a|..] && a == a + [];
      CompareCommonPrefix(a, [], b[|a|..]);
    } else if i :| 0 <= i < |a| && i < |b| && a[..i] == b[..i] && a[i] < b[i] {
      CompareFirstDifference(a, b, i);
    }
  }

  lemma {:induction false} LessPrecedes(a: seq<int>, b: seq<int>)
    requires Compare(a, b) == Less
    ensures Precedes(a, b)
  {
    if a != [] && a[0] == b[0] {
      var x, y := a[1..], b[1..];
      LessPrecedes(x, y);
      assert a == [a[0]] + x && b == [a[0]] + y;
      if |x| < |y| && x == y[..|x|] {
        assert b[..|a|] == [a[0]] + y[..|x|];
      } else {
        var i :| 0 <= i < |x| && i < |y| && x[..i] == y[..i] && x[i] < y[i];
        assert a[..i + 1] == [a[0]] + x[..i] && b[..i + 1] == [a[0]] + y[..i];
        assert a[i + 1] < b[i + 1];
      }
    } else if a != [] {
      assert a[..0] == b[..0] && a[0] < b[0];
    }
  }

  // --- The two string orders, character by character -------------------------

  /**
   Where a character stands in UTF-16 unit order: supplementary characters are
   spelled with surrogates, so they sort before U+E000..U+FFFF.
   */
  function Utf16Weight(c: char): int
  {
    var n := c as int;
    if 0xE000 <= n < 0x10000 then n + 0x110000 else n
  }

  function Weights(s: string): (w: seq<int>)
  {
    seq(|s|, i requires 0 <= i < |s| => Utf16Weight(s[i]))
  }

  function Points(s: string): (p: seq<int>)
  {
    seq(|s|, i requires 0 <= i < |s| => s[i] as int)
  }

  lemma Utf16CharDecides(c: char, d: char, x: seq<int>, y: seq<int>)
    requires c != d
    ensures Compare(Utf16Char(c) + x, Utf16Char(d) + y) == if Utf16Weight(c) < Utf16Weight(d) then Less else Greater
  {
    var u, v := Utf16Char(c) + x, Utf16Char(d) + y;
    if u[0] == v[0] {
      assert u[1..][0] == u[1] && v[1..][0] == v[1];
    }
  }

  lemma {:induction false} CompareFirstDifference(a: seq<int>, b: seq<int>, i: nat)
    requires i < |a| && i < |b| && a[..i] == b[..i] && a[i] < b[i]
    ensures Compare(a, b) == Less && Compare(b, a) == Greater
  {
    if i > 0 {
      assert a[..i][0] == a[0] && b[..i][0] == b[0];
      assert a[1..][..i - 1] == a[..i][1..] && b[1..][..i - 1] == b[..i][1..];
      CompareFirstDifference(a[1..], b[1..], i - 1);
    }
  }

  lemma Utf8CharDecides(c: char, d: char, x: bytes, y: bytes)
    requires c < d
    ensures Compare(Utf8Char(c) + x, Utf8Char(d) + y) == Less
    ensures Compare(Utf8Char(d) + y, Utf8Char(c) + x) == Greater
  {
    var i := Utf8FirstDifference(c, d);
    var u, v := Utf8Char(c) + x, Utf8Char(d) + y;
    assert forall j :: 0 <= j < i ==> u[j] == Utf8Char(c)[j] && v[j] == Utf8Char(d)[j];
    CompareFirstDifference(u, v, i);
  }

  lemma SixBitOrder(m: nat, n: nat)
    requires m <= n
    ensures m / 64 <= n / 64
    ensures m < n && m / 64 == n / 64 ==> m % 64 < n % 64
  {
  }

  lemma Utf8LongerLeadsHigher(c: char, d: char)
    requires c < d && |Utf8Char(c)| != |Utf8Char(d)|
    ensures Utf8Char(c)[0] < Utf8Char(d)[0]
  {
  }

  lemma Utf8FirstDifference(c: char, d: char) returns (i: nat)
    requires c < d
    ensures i < |Utf8Char(c)| && i < |Utf8Char(d)|
    ensures forall j :: 0 <= j < i ==> Utf8Char(c)[j] == Utf8Char(d)[j]
    ensures Utf8Char(c)[i] < Utf8Char(d)[i]
  {
    if |Utf8Char(c)| != |Utf8Char(d)| {
      Utf8LongerLeadsHigher(c, d);
      i := 0;
    } else {
      i := Utf8SameLengthDifference(c, d);
    }
  }

  lemma Utf8SameLengthDifference(c: char, d: char) returns (i: nat)
    requires c < d && |Utf8Char(c)| == |Utf8Char(d)|
    ensures i < |Utf8Char(c)|
    ensures forall j :: 0 <= j < i ==> Utf8Char(c)[j] == Utf8Char(d)[j]
    ensures Utf8Char(c)[i] < Utf8Char(d)[i]
  {
    var length, m, n := |Utf8Char(c)|, c as int, d as int;
    SixBitOrder(m, n);
    SixBitOrder(m / 64, n / 64);
    SixBitOrder(m / 64 / 64, n / 64 / 64);
    if length == 1 {
      i := 0;
    } else if m / 64 == n / 64 {
      i := length - 1;
    } else if m / 64 / 64 == n / 64 / 64 {
      i := length - 2;
    } else if m / 64 / 64 / 64 == n / 64 / 64 / 64 {
      i := length - 3;
    } else {
      i := 0;
    }
  }

  lemma {:induction false} Utf16OrderIsWeightOrder(a: string, b: string)
    ensures CompareUtf16(a, b) == Compare(Weights(a), Weights(b))
  {
    if a != "" && b != "" {
      assert Weights(a)[1..] == Weights(a[1..]) && Weights(b)[1..] == Weights(b[1..]);
      if a[0] == b[0] {
        CompareCommonPrefix(Utf16Char(a[0]), Utf16(a[1..]), Utf16(b[1..]));
        Utf16OrderIsWeightOrder(a[1..], b[1..]);
      } else {
        Utf16CharDecides(a[0], b[0], Utf16(a[1..]), Utf16(b[1..]));
      }
    }
  }

  lemma {:induction false} Utf8OrderIsPointOrder(a: string, b: string)
    ensures CompareUtf8(a, b) == Compare(Points(a), Points(b))
  {
    Utf8Unfolds(a);
    Utf8Unfolds(b);
    if a != "" && b != "" {
      assert Points(a)[1..] == Points(a[1..]) && Points(b)[1..] == Points(b[1..]);
      if a[0] == b[0] {
        CompareCommonPrefix(Utf8Char(a[0]), Utf8(a[1..]), Utf8(b[1..]));
        Utf8OrderIsPointOrder(a[1..], b[1..]);
      } else {
        if a[0] < b[0] {
          Utf8CharDecides(a[0], b[0], Utf8(a[1..]), Utf8(b[1..]));
        } else {
          Utf8CharDecides(b[0], a[0], Utf8(b[1..]), Utf8(a[1..]));
        }
      }
    }
  }

  /** `compare_utf16` is a total order on strings: equal only on equal strings. */
  lemma Utf16OrderIsTotal(a: string, b: string, c: string)
    ensures CompareUtf16(a, b) == Equal <==> a == b
    ensures CompareUtf16(b, a) == CompareUtf16(a, b).Flip()
    ensures CompareUtf16(a, b) == Less && CompareUtf16(b, c) == Less ==> CompareUtf16(a, c) == Less
  {
    Utf16OrderIsWeightOrder(a, b);
    CompareEqual(Weights(a), Weights(b));
    if Weights(a) == Weights(b) {
      forall i | 0 <= i < |a|
        ensures a[i] == b[i]
      {
        assert Weights(a)[i] == Weights(b)[i];
      }
      assert |a| == |Weights(a)| == |b|;
    }
    CompareFlips(Utf16(a), Utf16(b));
    if CompareUtf16(a, b) == Less && CompareUtf16(b, c) == Less {
      CompareTransitive(Utf16(a), Utf16(b), Utf16(c));
    }
  }

  /** `compare_utf16` is the lexicographic order of the code units: keys come before the keys they begin. */
  lemma Utf16OrderIsLexicographic(a: string, b: string)
    ensures CompareUtf16(a, b) == Less <==> Precedes(Utf16(a), Utf16(b))
    ensures CompareUtf16(a, b) == Greater <==> Precedes(Utf16(b), Utf16(a))
  {
    CompareIsLexicographic(Utf16(a), Utf16(b));
    CompareIsLexicographic(Utf16(b), Utf16(a));
    CompareFlips(Utf16(a), Utf16(b));
  }

  /** Section 2.2 of RFC 2781: one unit is the character, two are a surrogate pair carrying ten bits each. */
  lemma Utf16CharReads(c: char)
    ensures var u := Utf16Char(c);
            || (c as int < 0x10000 && u == [c as int])
            || (&& |u| == 2 && 0xD800 <= u[0] < 0xDC00 <= u[1] < 0xE000
                && c as int == 0x10000 + (u[0] - 0xD800) * 0x400 + (u[1] - 0xDC00))
  {
  }

  lemma Utf16Injective(a: string, b: string)
    requires Utf16(a) == Utf16(b)
    ensures a == b
  {
    CompareEqual(Utf16(a), Utf16(b));
    Utf16OrderIsTotal(a, b, a);
  }

  // --- Where the two orders agree --------------------------------------------

  predicate InHighBmp(c: char) { 0xE000 <= c as int < 0x10000 }

  predicate IsSupplementary(c: char) { 0x10000 <= c as int }

  /** The first position where two strings differ pits U+E000..U+FFFF against a supplementary character. */
  predicate ClashesAt(a: string, b: string, i: nat)
    requires i < |a| && i < |b|
  {
    && a[..i] == b[..i]
    && ((InHighBmp(a[i]) && IsSupplementary(b[i])) || (IsSupplementary(a[i]) && InHighBmp(b[i])))
  }

  /** A clash lies past an equal first character, or is the first character. */
  lemma ClashShifts(a: string, b: string, i: nat)
    requires i < |a| && i < |b|
    ensures i > 0 ==> (ClashesAt(a, b, i) <==> a[0] == b[0] && ClashesAt(a[1..], b[1..], i - 1))
  {
    if i > 0 {
      assert a[..i] == [a[0]] + a[1..][..i - 1] && b[..i] == [b[0]] + b[1..][..i - 1];
      if a[..i] == b[..i] {
        assert a[1..][..i - 1] == a[..i][1..] && b[1..][..i - 1] == b[..i][1..];
        assert a[..i][0] == b[..i][0];
      }
    }
  }

  ghost predicate Clash(a: string, b: string) {
    exists i: nat :: i < |a| && i < |b| && ClashesAt(a, b, i)
  }

  lemma ClashUnfolds(a: string, b: string)
    requires a != "" && b != ""
    ensures Clash(a, b) <==> ClashesAt(a, b, 0) || (a[0] == b[0] && Clash(a[1..], b[1..]))
  {
    if i: nat :| i < |a| && i < |b| && ClashesAt(a, b, i) {
      ClashShifts(a, b, i);
    }
    if a[0] == b[0] {
      if i: nat :| i < |a[1..]| && i < |b[1..]| && ClashesAt(a[1..], b[1..], i) {
        ClashShifts(a, b, i + 1);
      }
    }
  }

  /** The exact extent of the claim that UTF-16 and UTF-8 key orders agree. */
  lemma {:induction false} OrdersDisagreeExactlyOnClash(a: string, b: string)
    ensures CompareUtf16(a, b) != CompareUtf8(a, b) <==> Clash(a, b)
  {
    Utf16OrderIsWeightOrder(a, b);
    Utf8OrderIsPointOrder(a, b);
    if a != "" && b != "" {
      ClashUnfolds(a, b);
      if a[0] == b[0] {
        assert Weights(a)[1..] == Weights(a[1..]) && Weights(b)[1..] == Weights(b[1..]);
        assert Points(a)[1..] == Points(a[1..]) && Points(b)[1..] == Points(b[1..]);
        Utf16OrderIsWeightOrder(a[1..], b[1..]);
        Utf8OrderIsPointOrder(a[1..], b[1..]);
        OrdersDisagreeExactlyOnClash(a[1..], b[1..]);
      }
    }
  }

  /** Keys free of U+E000..U+FFFF, ASCII ones among them, sort alike in both orders. */
  lemma OrdersAgreeBelowHighBmp(a: string, b: string)
    requires forall i :: 0 <= i < |a| ==> !InHighBmp(a[i])
    requires forall i :: 0 <= i < |b| ==> !InHighBmp(b[i])
    ensures CompareUtf16(a, b) == CompareUtf8(a, b)
  {
    OrdersDisagreeExactlyOnClash(a, b);
  }
}
