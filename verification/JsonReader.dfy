/**
 The reader `serde_json::from_slice` applies to a statement: white space, every
 escape, surrogate pairs, the last of duplicate members, and a bound on nesting.
 */
module JsonReader {
  import opened Wrappers
  import opened Unicode
  import opened Decimal
  import opened Hex
  import opened Json

  function SkipSpace(s: string): (t: string)
    ensures |t| <= |s|
  {
    if s != "" && (s[0] == ' ' || s[0] == '\t' || s[0] == '\n' || s[0] == '\r') then SkipSpace(s[1..]) else s
  }

  /** Four hexadecimal digits. */
  function ReadUnit(s: string): (r: Option<(int, string)>)
    ensures r.Some? ==> 0 <= r.value.0 < 0x10000 && |r.value.1| < |s|
  {
    if |s| < 4 then None else
    var h0 :- HexValue(s[0]);
    var h1 :- HexValue(s[1]);
    var h2 :- HexValue(s[2]);
    var h3 :- HexValue(s[3]);
    Some((h0 * 4096 + h1 * 256 + h2 * 16 + h3, s[4..]))
  }

  /** What follows `\u`: a scalar value, or a surrogate pair in two escapes. */
  function ReadUnicodeEscape(s: string): (r: Option<(char, string)>)
    ensures r.Some? ==> |r.value.1| < |s|
  {
    var (unit, rest) :- ReadUnit(s);
    if IsScalar(unit) then Some((unit as char, rest))
    else if unit < 0xDC00 && |rest| >= 2 && rest[0] == '\\' && rest[1] == 'u' then
      var (low, rest') :- ReadUnit(rest[2..]);
      if 0xDC00 <= low < 0xE000 then
        Some(((0x10000 + (unit - 0xD800) * 0x400 + (low - 0xDC00)) as char, rest'))
      else None
    else None
  }

  /** What follows a backslash. */
  function ReadEscape(s: string): (r: Option<(char, string)>)
    ensures r.Some? ==> |r.value.1| < |s|
  {
    if s == "" then None
    else if s[0] == '\"' || s[0] == '\\' || s[0] == '/' then Some((s[0], s[1..]))
    else if s[0] == 'b' then Some((8 as char, s[1..]))
    else if s[0] == 'f' then Some((12 as char, s[1..]))
    else if s[0] == 'n' then Some((10 as char, s[1..]))
    else if s[0] == 'r' then Some((13 as char, s[1..]))
    else if s[0] == 't' then Some((9 as char, s[1..]))
    else if s[0] == 'u' then ReadUnicodeEscape(s[1..])
    else None
  }

  /** The characters of a string up to its closing quote. */
  function ReadString(s: string): (r: Option<(string, string)>)
    ensures r.Some? ==> |r.value.1| < |s|
    decreases |s|
  {
    if s == "" then None
    else if s[0] == '\"' then Some(("", s[1..]))
    else if s[0] == '\\' then
      var (c, rest) :- ReadEscape(s[1..]);
      var (t, end) :- ReadString(rest);
      Some(([c] + t, end))
    else if s[0] as int < 32 then None
    else
      var (t, end) :- ReadString(s[1..]);
      Some(([s[0]] + t, end))
  }

  /** An integer; fractions, exponents, `-0` and integers beyond 64 bits are floats, which are not modelled. */
  function ReadInt(s: string): (r: Option<(Json, string)>)
    ensures r.Some? ==> |r.value.1| < |s|
  {
    var negative := s != "" && s[0] == '-';
    var (ds, rest) := TakeDigits(if negative then s[1..] else s);
    if ds == "" || (|ds| > 1 && ds[0] == '0') then None
    else if rest != "" && (rest[0] == '.' || rest[0] == 'e' || rest[0] == 'E') then None
    else FinishInt(negative, DecimalValue(ds), rest)
  }

  function FinishInt(negative: bool, n: nat, rest: string): (r: Option<(Json, string)>)
    ensures r.Some? ==> r.value.1 == rest
  {
    if negative then
      if 0 < n <= 0x8000_0000_0000_0000 then Some((Int(-(n as int)), rest)) else None
    else
      if n < 0x1_0000_0000_0000_0000 then Some((Int(n), rest)) else None
  }

  /** One value off the front; `d` more arrays or objects may be opened. */
  function ReadValue(s: string, d: nat): (r: Option<(Json, string)>)
    ensures r.Some? ==> |r.value.1| < |s|
    decreases |s|, 0
  {
    var t := SkipSpace(s);
    if t == "" then None
    else if t[0] == 'n' then if "null" <= t then Some((Null, t[4..])) else None
    else if t[0] == 't' then if "true" <= t then Some((Bool(true), t[4..])) else None
    else if t[0] == 'f' then if "false" <= t then Some((Bool(false), t[5..])) else None
    else if t[0] == '\"' then
      var (str, rest) :- ReadString(t[1..]);
      Some((Str(str), rest))
    else if t[0] == '[' then ReadArray(t[1..], d)
    else if t[0] == '{' then ReadObject(t[1..], d)
    else ReadInt(t)
  }

  /** What follows an opening bracket. */
  function ReadArray(s: string, d: nat): (r: Option<(Json, string)>)
    ensures r.Some? ==> |r.value.1| < |s|
    decreases |s|, 2
  {
    if d == 0 then None else
    var t := SkipSpace(s);
    if t != "" && t[0] == ']' then Some((Arr([]), t[1..])) else
    var (items, rest) :- ReadItems(s, d - 1);
    Some((Arr(items), rest))
  }

  /** One or more items and the closing bracket. */
  function ReadItems(s: string, d: nat): (r: Option<(seq<Json>, string)>)
    ensures r.Some? ==> |r.value.1| < |s|
    decreases |s|, 1
  {
    var (v, rest) :- ReadValue(s, d);
    var t := SkipSpace(rest);
    if t == "" then None
    else if t[0] == ']' then Some(([v], t[1..]))
    else if t[0] == ',' then
      var (vs, end) :- ReadItems(t[1..], d);
      Some(([v] + vs, end))
    else None
  }

  /** What follows an opening brace. */
  function ReadObject(s: string, d: nat): (r: Option<(Json, string)>)
    ensures r.Some? ==> |r.value.1| < |s|
    decreases |s|, 3
  {
    if d == 0 then None else
    var t := SkipSpace(s);
    if t != "" && t[0] == '}' then Some((Obj(map[]), t[1..])) else
    var (m, rest) :- ReadMembers(s, d - 1);
    Some((Obj(m), rest))
  }

  /** A key, a colon and a value. */
  function ReadMember(s: string, d: nat): (r: Option<(string, Json, string)>)
    ensures r.Some? ==> |r.value.2| < |s|
    decreases |s|, 1
  {
    var t := SkipSpace(s);
    if t == "" || t[0] != '\"' then None else
    var (k, rest) :- ReadString(t[1..]);
    var u := SkipSpace(rest);
    if u == "" || u[0] != ':' then None else
    var (v, end) :- ReadValue(u[1..], d);
    Some((k, v, end))
  }

  /** One or more members and the closing brace; a later duplicate key wins. */
  function ReadMembers(s: string, d: nat): (r: Option<(map<string, Json>, string)>)
    ensures r.Some? ==> |r.value.1| < |s|
    decreases |s|, 2
  {
    var (k, v, rest) :- ReadMember(s, d);
    var t := SkipSpace(rest);
    if t == "" then None
    else if t[0] == '}' then Some((map[k := v], t[1..]))
    else if t[0] == ',' then
      var (m, end) :- ReadMembers(t[1..], d);
      Some((map[k := v] + m, end))
    else None
  }

  /** The default recursion limit of `serde_json` (128) admits 127 nested containers. */
  const MAX_NESTING: nat := 127

  /** One value and nothing after it but white space. */
  function ParseText(s: string): Option<Json>
  {
    var (v, rest) :- ReadValue(s, MAX_NESTING);
    if SkipSpace(rest) == "" then Some(v) else None
  }

  /** `serde_json::from_slice::<Value>`. */
  function Parse(b: bytes): Option<Json>
  {
    var s :- FromUtf8(b);
    ParseText(s)
  }
}
