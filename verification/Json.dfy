/**
 JSON values as `serde_json` holds them, and their RFC 8785 text.

 An object is a map from keys to values: the order in which members were
 inserted is not part of a value. Numbers are the integers that fit `i64` or
 `u64`, the ones `serde_json` keeps exactly.
 */
module Json {
  import opened Wrappers
  import opened Unicode
  import opened Decimal
  import opened Hex

  type JsonInt = n: int | -0x8000_0000_0000_0000 <= n < 0x1_0000_0000_0000_0000

  datatype Json =
    | Null
    | Bool(b: bool)
    | Int(n: JsonInt)
    | Str(s: string)
    | Arr(items: seq<Json>)
    | Obj(members: map<string, Json>)

  function Lookup(m: map<string, Json>, k: string): Option<Json> { if k in m then Some(m[k]) else None }

  // --- Key order (section 3.2.3 of RFC 8785) ---------------------------------

  predicate KeyLess(a: string, b: string) { CompareUtf16(a, b) == Less }

  predicate Ascending(ks: seq<string>) { forall i, j :: 0 <= i < j < |ks| ==> KeyLess(ks[i], ks[j]) }

  predicate IsMinKey(k: string, s: set<string>) { k in s && forall j :: j in s && j != k ==> KeyLess(k, j) }

  lemma {:induction false} MinKeyExists(s: set<string>)
    requires s != {}
    ensures exists k :: IsMinKey(k, s)
    decreases |s|
  {
    var k :| k in s;
    if s == {k} {
      assert IsMinKey(k, s);
    } else {
      MinKeyExists(s - {k});
      var m :| IsMinKey(m, s - {k});
      Utf16OrderIsTotal(k, m, m);
      var least := if KeyLess(k, m) then k else m;
      forall j | j in s && j != least
        ensures KeyLess(least, j)
      {
        assert j == k || j in s - {k};
        Utf16OrderIsTotal(k, m, j);
      }
      assert IsMinKey(least, s);
    }
  }

  lemma MinKeyUnique(k: string, j: string, s: set<string>)
    requires IsMinKey(k, s) && IsMinKey(j, s)
    ensures k == j
  {
    Utf16OrderIsTotal(k, j, j);
  }

  function MinKey(s: set<string>): (k: string)
    requires s != {}
    ensures IsMinKey(k, s)
  {
    MinKeyExists(s);
    assert forall k, j | IsMinKey(k, s) && IsMinKey(j, s) :: k == j by {
      forall k, j | IsMinKey(k, s) && IsMinKey(j, s)
        ensures k == j
      {
        MinKeyUnique(k, j, s);
      }
    }
    var k :| k in s && IsMinKey(k, s);
    k
  }

  /** The keys of an object in the order `sort_by(compare_utf16)` leaves them. */
  function SortedKeys(s: set<string>): (ks: seq<string>)
    ensures forall k :: k in ks <==> k in s
    decreases |s|
  {
    if s == {} then [] else
    var k := MinKey(s);
    [k] + SortedKeys(s - {k})
  }

  lemma {:induction false} SortedKeysAreAscending(s: set<string>)
    ensures Ascending(SortedKeys(s))
    decreases |s|
  {
    if s != {} {
      SortedKeysAreAscending(s - {MinKey(s)});
    }
  }

  /** Every key precedes the later ones in the lexicographic order of UTF-16 code units. */
  lemma SortedKeysAscend(s: set<string>)
    ensures var ks := SortedKeys(s);
            forall i, j :: 0 <= i < j < |ks| ==> Precedes(Utf16(ks[i]), Utf16(ks[j]))
  {
    hide SortedKeys, Precedes;
    var ks := SortedKeys(s);
    SortedKeysAreAscending(s);
    forall i, j | 0 <= i < j < |ks|
      ensures Precedes(Utf16(ks[i]), Utf16(ks[j]))
    {
      assert KeyLess(ks[i], ks[j]);
      Utf16OrderIsLexicographic(ks[i], ks[j]);
    }
  }

  /** Sorting a list of keys gives one text, whatever order the keys came in. */
  lemma {:induction false} SortIsUnique(ks: seq<string>, s: set<string>)
    requires Ascending(ks)
    requires forall k :: k in ks <==> k in s
    ensures ks == SortedKeys(s)
    decreases |ks|
  {
    if ks != [] {
      assert ks[0] in s;
      forall i | 0 < i < |ks|
        ensures ks[i] != ks[0]
      {
        Utf16OrderIsTotal(ks[0], ks[i], ks[i]);
      }
      assert IsMinKey(ks[0], s);
      MinKeyUnique(ks[0], MinKey(s), s);
      forall k
        ensures k in ks[1..] <==> k in s - {ks[0]}
      {
      }
      SortIsUnique(ks[1..], s - {ks[0]});
    } else {
      assert s == {};
    }
  }

  // --- Canonical text ----------------------------------------------------------

  /** String escapes as `serde_json` writes them (section 3.2.2.2 of RFC 8785). */
  function EscapeChar(c: char): string
  {
    if c == '\"' then "\\\""
    else if c == '\\' then "\\\\"
    else if c as int == 8 then "\\b"
    else if c as int == 9 then "\\t"
    else if c as int == 10 then "\\n"
    else if c as int == 12 then "\\f"
    else if c as int == 13 then "\\r"
    else if c as int < 32 then ['\\', 'u', '0', '0', HexChar(c as int / 16), HexChar(c as int % 16)]
    else [c]
  }

  function Escape(s: string): string
  {
    if s == "" then "" else EscapeChar(s[0]) + Escape(s[1..])
  }

  function Quote(s: string): string { "\"" + Escape(s) + "\"" }

  function IntText(n: int): string
  {
    if n < 0 then "-" + DecimalText(-n) else DecimalText(n)
  }

  /** `canonical_json`. */
  function Canonical(v: Json): string
    decreases v, 2
  {
    match v
    case Null => "null"
    case Bool(b) => if b then "true" else "false"
    case Int(n) => IntText(n)
    case Str(s) => Quote(s)
    case Arr(items) => if items == [] then "[]" else "[" + CanonicalItems(items) + "]"
    case Obj(m) => if m == map[] then "{}" else "{" + CanonicalMembers(v, SortedKeys(m.Keys)) + "}"
  }

  /** The items, joined by commas. */
  function CanonicalItems(items: seq<Json>): string
    requires items != []
    decreases items, 0
  {
    if |items| == 1 then Canonical(items[0])
    else Canonical(items[0]) + "," + CanonicalItems(items[1..])
  }

  function CanonicalMember(v: Json, k: string): string
    requires v.Obj? && k in v.members
    decreases v, 0
  {
    Quote(k) + ":" + Canonical(v.members[k])
  }

  /** The members under the keys `ks`, joined by commas. */
  function CanonicalMembers(v: Json, ks: seq<string>): string
    requires v.Obj? && ks != [] && forall k :: k in ks ==> k in v.members
    decreases v, 1, |ks|
  {
    if |ks| == 1 then CanonicalMember(v, ks[0])
    else CanonicalMember(v, ks[0]) + "," + CanonicalMembers(v, ks[1..])
  }

  // --- Nesting -------------------------------------------------------------------

  function Max(a: nat, b: nat): nat { if a < b then b else a }

  /** How many arrays and objects enclose the innermost one, itself included. */
  function Depth(v: Json): nat
    decreases v, 2
  {
    match v
    case Arr(items) => 1 + DepthOfItems(items)
    case Obj(m) => 1 + DepthOfMembers(v, SortedKeys(m.Keys))
    case _ => 0
  }

  function DepthOfItems(items: seq<Json>): nat
    decreases items, 0
  {
    if items == [] then 0 else Max(Depth(items[0]), DepthOfItems(items[1..]))
  }

  function DepthOfMembers(v: Json, ks: seq<string>): nat
    requires v.Obj? && forall k :: k in ks ==> k in v.members
    decreases v, 1, |ks|
  {
    if ks == [] then 0 else Max(Depth(v.members[ks[0]]), DepthOfMembers(v, ks[1..]))
  }

  lemma {:induction false} ItemsWithin(items: seq<Json>, d: nat)
    ensures DepthOfItems(items) <= d <==> forall i :: 0 <= i < |items| ==> Depth(items[i]) <= d
  {
    if items != [] {
      ItemsWithin(items[1..], d);
      assert forall i :: 0 < i < |items| ==> items[i] == items[1..][i - 1];
    }
  }

  lemma {:induction false} MembersWithin(v: Json, ks: seq<string>, d: nat)
    requires v.Obj? && forall k :: k in ks ==> k in v.members
    ensures DepthOfMembers(v, ks) <= d <==> forall k :: k in ks ==> Depth(v.members[k]) <= d
    decreases |ks|
  {
    if ks != [] {
      MembersWithin(v, ks[1..], d);
      assert forall k :: k in ks <==> k == ks[0] || k in ks[1..];
    }
  }

  /** Nesting bounds of an array and an object in terms of their parts. */
  lemma NestedWithin(v: Json, d: nat)
    ensures v.Arr? ==> (Depth(v) <= d <==> d > 0 && forall i :: 0 <= i < |v.items| ==> Depth(v.items[i]) < d)
    ensures v.Obj? ==> (Depth(v) <= d <==> d > 0 && forall k :: k in v.members ==> Depth(v.members[k]) < d)
  {
    if d > 0 {
      if v.Arr? {
        ItemsWithin(v.items, d - 1);
      } else if v.Obj? {
        MembersWithin(v, SortedKeys(v.members.Keys), d - 1);
      }
    }
  }
}
