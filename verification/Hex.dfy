/** Lower-case hexadecimal, as the `hex` crate encodes digests. */
module Hex {
  import opened Wrappers

  function HexChar(d: int): (c: char)
    requires 0 <= d < 16
  {
    if d < 10 then (48 + d) as char else (87 + d) as char
  }

  function HexValue(c: char): (r: Option<int>)
    ensures r.Some? ==> 0 <= r.value < 16
  {
    if '0' <= c <= '9' then Some(c as int - 48)
    else if 'a' <= c <= 'f' then Some(c as int - 87)
    else if 'A' <= c <= 'F' then Some(c as int - 55)
    else None
  }

  predicate IsLowerHex(c: char) { '0' <= c <= '9' || 'a' <= c <= 'f' }

  function HexText(b: bytes): (s: string)
    ensures |s| == 2 * |b| && forall i :: 0 <= i < |s| ==> IsLowerHex(s[i])
  {
    if b == [] then "" else [HexChar(b[0] / 16), HexChar(b[0] % 16)] + HexText(b[1..])
  }

  lemma HexCharInverts(d: int)
    requires 0 <= d < 16
    ensures HexValue(HexChar(d)) == Some(d)
  {
  }

  /** Digits are read in either case, and nothing else is. */
  lemma HexDigits(c: char)
    ensures HexValue(c).Some? <==> IsLowerHex(c) || 'A' <= c <= 'F'
    ensures 'A' <= c <= 'F' ==> HexValue(c) == HexValue((c as int + 32) as char)
  {
  }

  /** Two digits a byte, high nibble first. */
  lemma {:induction false} HexTextSpells(b: bytes, i: nat)
    requires i < |b|
    ensures HexValue(HexText(b)[2 * i]) == Some(b[i] / 16)
    ensures HexValue(HexText(b)[2 * i + 1]) == Some(b[i] % 16)
  {
    HexCharInverts(b[0] / 16);
    HexCharInverts(b[0] % 16);
    if i > 0 {
      HexTextSpells(b[1..], i - 1);
      assert HexText(b)[2..] == HexText(b[1..]);
      assert HexText(b)[2 * i] == HexText(b[1..])[2 * (i - 1)];
      assert HexText(b)[2 * i + 1] == HexText(b[1..])[2 * (i - 1) + 1];
    }
  }

  lemma {:induction false} HexTextInjective(a: bytes, b: bytes)
    requires HexText(a) == HexText(b)
    ensures a == b
  {
    if a != [] && b != [] {
      var s, t := HexText(a), HexText(b);
      assert s[2..] == HexText(a[1..]) && t[2..] == HexText(b[1..]);
      HexTextInjective(a[1..], b[1..]);
      HexCharInverts(a[0] / 16);
      HexCharInverts(b[0] / 16);
      HexCharInverts(a[0] % 16);
      HexCharInverts(b[0] % 16);
      assert s[0] == t[0] && s[1] == t[1];
      assert a == [a[0]] + a[1..] && b == [b[0]] + b[1..];
    }
  }
}
