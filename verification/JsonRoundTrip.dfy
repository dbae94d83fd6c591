/** Reading canonical text gives back the value printed, at any nesting the reader admits. */
module JsonRoundTrip {
  import opened Wrappers
  import opened Unicode
  import opened Decimal
  import opened Hex
  import opened Json
  import opened JsonReader

  // --- Strings -------------------------------------------------------------------

  lemma EscapedCharReads(c: char, rest: string)
    requires EscapeChar(c) != [c]
    ensures var e := EscapeChar(c);
            |e| >= 2 && e[0] == '\\' && ReadEscape(e[1..] + rest) == Some((c, rest))
  {
    var e := EscapeChar(c);
    var s := e[1..] + rest;
    assert s[|e| - 1..] == rest;
    if e[1] == 'u' {
      HexCharInverts(c as int / 16);
      HexCharInverts(c as int % 16);
      assert s[1..][4..] == rest;
    } else {
      assert s[1..] == rest;
    }
  }

  /** Only quotes, backslashes and control characters are escaped. */
  lemma EscapesExactly(c: char)
    ensures EscapeChar(c) == [c] <==> c != '\"' && c != '\\' && c as int >= 32
    ensures |EscapeChar(c)| == 6 <==> c as int < 32 && !(8 <= c as int <= 10) && c as int != 12 && c as int != 13
    ensures |EscapeChar(c)| == 6 ==>
              var e := EscapeChar(c);
              e[..4] == "\\u00" && IsLowerHex(e[4]) && IsLowerHex(e[5])
  {
  }

  lemma {:induction false} EscapedTextReads(t: string, rest: string)
    ensures ReadString(Escape(t) + "\"" + rest) == Some((t, rest))
  {
    hide EscapeChar, ReadEscape;
    var s := Escape(t) + "\"" + rest;
    if t == "" {
      assert s[1..] == rest;
    } else {
      var e, tail := EscapeChar(t[0]), Escape(t[1..]) + "\"" + rest;
      assert s == e + tail;
      assert t == [t[0]] + t[1..];
      EscapedTextReads(t[1..], rest);
      if e == [t[0]] {
        EscapesExactly(t[0]);
        assert s[1..] == tail;
      } else {
        EscapedCharReads(t[0], tail);
        assert s[1..] == e[1..] + tail;
      }
    }
  }

  lemma QuotedReads(t: string, rest: string)
    ensures Quote(t) != "" && Quote(t)[0] == '\"'
    ensures ReadString((Quote(t) + rest)[1..]) == Some((t, rest))
  {
    EscapedTextReads(t, rest);
    assert (Quote(t) + rest)[1..] == Escape(t) + "\"" + rest;
  }

  // --- Numbers -------------------------------------------------------------------

  /** What may follow a value inside canonical text. */
  predicate Delimited(rest: string) { rest == "" || rest[0] == ',' || rest[0] == ']' || rest[0] == '}' }

  lemma NumeralReads(m: nat, rest: string)
    requires Delimited(rest)
    ensures TakeDigits(DecimalText(m) + rest) == (DecimalText(m), rest)
    ensures DecimalValue(DecimalText(m)) == m
  {
    TakeDigitsStops(DecimalText(m), rest);
    DecimalRoundTrip(m);
  }

  lemma NegativeReads(n: JsonInt, rest: string)
    requires Delimited(rest) && n < 0
    ensures ReadInt(IntText(n) + rest) == Some((Int(n), rest))
  {
    hide DecimalText, DecimalValue, TakeDigits;
    var m: nat := -n;
    NumeralReads(m, rest);
    assert (IntText(n) + rest)[1..] == DecimalText(m) + rest;
    assert ReadInt(IntText(n) + rest) == FinishInt(true, m, rest);
  }

  lemma IntReads(n: JsonInt, rest: string)
    requires Delimited(rest)
    ensures ReadInt(IntText(n) + rest) == Some((Int(n), rest))
  {
    if n < 0 {
      NegativeReads(n, rest);
    } else {
      NumeralReads(n, rest);
      assert IsDigit((DecimalText(n) + rest)[0]);
    }
  }

  // --- Values ----------------------------------------------------------------------

  predicate StartsValue(c: char) {
    c == 'n' || c == 't' || c == 'f' || c == '\"' || c == '[' || c == '{' || c == '-' || IsDigit(c)
  }

  /** Canonical text of a value starts with a character that is neither white space nor a closing bracket. */
  lemma CanonicalStarts(v: Json)
    ensures Canonical(v) != "" && StartsValue(Canonical(v)[0])
    ensures v.Int? ==> Canonical(v)[0] == '-' || IsDigit(Canonical(v)[0])
  {
  }

  lemma ScalarReads(v: Json, rest: string, d: nat)
    requires !v.Arr? && !v.Obj? && Delimited(rest)
    ensures ReadValue(Canonical(v) + rest, d) == Some((v, rest))
  {
    CanonicalStarts(v);
    var s := Canonical(v) + rest;
    assert SkipSpace(s) == s;
    match v
    case Null =>
      assert s[4..] == rest;
    case Bool(b) =>
      assert s[|Canonical(v)|..] == rest;
    case Int(n) =>
      IntReads(n, rest);
    case Str(t) =>
      QuotedReads(t, rest);
  }

  /** What reading the canonical text of `v` gives when `d` more containers may be opened. */
  function Readable(v: Json, rest: string, d: nat): Option<(Json, string)> {
    if Depth(v) <= d then Some((v, rest)) else None
  }

  lemma {:induction false} CanonicalReads(v: Json, rest: string, d: nat)
    requires Delimited(rest)
    ensures ReadValue(Canonical(v) + rest, d) == Readable(v, rest, d)
    decreases v, 3
  {
    var s := Canonical(v) + rest;
    match v
    case Arr(items) =>
      ArrayReads(v, rest, d);
      assert SkipSpace(s) == s && s[0] == '[';
    case Obj(m) =>
      ObjectReads(v, rest, d);
      assert SkipSpace(s) == s && s[0] == '{';
    case _ =>
      ScalarReads(v, rest, d);
  }

  lemma CanonicalOfArray(items: seq<Json>)
    ensures Canonical(Arr(items)) == if items == [] then "[]" else "[" + CanonicalItems(items) + "]"
  {
    hide CanonicalItems;
  }

  lemma EmptyArrayReads(rest: string, d: nat)
    ensures ReadArray("]" + rest, d) == Readable(Arr([]), rest, d)
  {
    hide ReadItems;
    var s := "]" + rest;
    assert SkipSpace(s) == s && s[1..] == rest;
    NestedWithin(Arr([]), d);
  }

  lemma {:induction false} ArrayReads(v: Json, rest: string, d: nat)
    requires v.Arr?
    ensures Canonical(v) != "" && Canonical(v)[0] == '['
    ensures ReadArray((Canonical(v) + rest)[1..], d) == Readable(v, rest, d)
    decreases v, 2
  {
    hide Canonical, CanonicalItems, ReadArray, Readable;
    CanonicalOfArray(v.items);
    var s := (Canonical(v) + rest)[1..];
    if v.items == [] {
      EmptyArrayReads(rest, d);
      assert s == "]" + rest;
    } else {
      ArrayBodyReads(v, rest, d);
      assert s == CanonicalItems(v.items) + "]" + rest;
    }
  }

  lemma {:induction false} ArrayBodyReads(v: Json, rest: string, d: nat)
    requires v.Arr? && v.items != []
    ensures ReadArray(CanonicalItems(v.items) + "]" + rest, d) == Readable(v, rest, d)
    decreases v, 1
  {
    hide CanonicalItems, ReadItems, DepthOfItems;
    ArrayText(v.items, rest, d);
    assert Depth(v) == 1 + DepthOfItems(v.items);
    if d > 0 {
      ItemsRead(v.items, rest, d - 1);
    }
  }

  lemma CanonicalOfObject(m: map<string, Json>)
    ensures Canonical(Obj(m)) == if m == map[] then "{}" else "{" + CanonicalMembers(Obj(m), SortedKeys(m.Keys)) + "}"
  {
    hide CanonicalMembers, SortedKeys;
  }

  lemma EmptyObjectReads(rest: string, d: nat)
    ensures ReadObject("}" + rest, d) == Readable(Obj(map[]), rest, d)
  {
    hide ReadMembers;
    var s := "}" + rest;
    assert SkipSpace(s) == s && s[1..] == rest;
    NestedWithin(Obj(map[]), d);
  }

  lemma {:induction false} ObjectReads(v: Json, rest: string, d: nat)
    requires v.Obj?
    ensures Canonical(v) != "" && Canonical(v)[0] == '{'
    ensures ReadObject((Canonical(v) + rest)[1..], d) == Readable(v, rest, d)
    decreases v, 2
  {
    hide Canonical, CanonicalMembers, SortedKeys, ReadObject, Readable;
    CanonicalOfObject(v.members);
    var s, ks := (Canonical(v) + rest)[1..], SortedKeys(v.members.Keys);
    if v.members == map[] {
      EmptyObjectReads(rest, d);
      assert s == "}" + rest;
    } else {
      var k :| k in v.members;
      assert k in ks;
      ObjectBodyReads(v, ks, rest, d);
      assert s == CanonicalMembers(v, ks) + "}" + rest;
    }
  }

  lemma {:induction false} ObjectBodyReads(v: Json, ks: seq<string>, rest: string, d: nat)
    requires v.Obj? && ks != [] && ks == SortedKeys(v.members.Keys)
    ensures ReadObject(CanonicalMembers(v, ks) + "}" + rest, d) == Readable(v, rest, d)
    decreases v, 1, |ks| + 1
  {
    hide CanonicalMembers, SortedKeys, ReadMembers, DepthOfMembers;
    ObjectText(v, ks, rest, d);
    assert Depth(v) == 1 + DepthOfMembers(v, ks);
    if d > 0 {
      MembersRead(v, ks, rest, d - 1);
      assert Restrict(v.members, ks) == v.members;
    }
  }

  lemma ArrayText(items: seq<Json>, rest: string, d: nat)
    requires items != []
    ensures var s := CanonicalItems(items) + "]" + rest;
            SkipSpace(s) == s && s[0] != ']'
  {
    CanonicalStarts(items[0]);
  }

  lemma {:induction false} ItemsRead(items: seq<Json>, rest: string, d: nat)
    requires items != []
    ensures ReadItems(CanonicalItems(items) + "]" + rest, d)
         == if DepthOfItems(items) <= d then Some((items, rest)) else None
    decreases items, 0
  {
    hide Canonical, ReadValue, Depth;
    var s := CanonicalItems(items) + "]" + rest;
    if |items| == 1 {
      var tail := "]" + rest;
      assert s == Canonical(items[0]) + tail;
      CanonicalReads(items[0], tail, d);
      assert SkipSpace(tail) == tail && tail[1..] == rest;
      assert items == [items[0]];
    } else {
      var tail := "," + CanonicalItems(items[1..]) + "]" + rest;
      assert s == Canonical(items[0]) + tail;
      CanonicalReads(items[0], tail, d);
      assert SkipSpace(tail) == tail && tail[1..] == CanonicalItems(items[1..]) + "]" + rest;
      ItemsRead(items[1..], rest, d);
      assert items == [items[0]] + items[1..];
    }
  }

  /** The members of `m` under the keys `ks`. */
  function Restrict(m: map<string, Json>, ks: seq<string>): map<string, Json>
    requires forall k :: k in ks ==> k in m
  {
    map k | k in ks :: m[k]
  }

  lemma ObjectText(v: Json, ks: seq<string>, rest: string, d: nat)
    requires v.Obj? && ks != [] && forall k :: k in ks ==> k in v.members
    ensures var s := CanonicalMembers(v, ks) + "}" + rest;
            SkipSpace(s) == s && s[0] == '\"'
  {
  }

  lemma {:induction false} MemberReads(v: Json, k: string, rest: string, d: nat)
    requires v.Obj? && k in v.members && Delimited(rest)
    ensures ReadMember(CanonicalMember(v, k) + rest, d)
         == if Depth(v.members[k]) <= d then Some((k, v.members[k], rest)) else None
    decreases v, 0
  {
    hide Canonical, ReadValue, Depth, Quote, ReadString;
    var s, tail := CanonicalMember(v, k) + rest, ":" + Canonical(v.members[k]) + rest;
    assert s == Quote(k) + tail;
    QuotedReads(k, tail);
    assert SkipSpace(s) == s && SkipSpace(tail) == tail;
    assert tail[1..] == Canonical(v.members[k]) + rest;
    CanonicalReads(v.members[k], rest, d);
  }

  lemma RestrictUnfolds(m: map<string, Json>, ks: seq<string>)
    requires ks != [] && forall k :: k in ks ==> k in m
    ensures Restrict(m, ks) == map[ks[0] := m[ks[0]]] + Restrict(m, ks[1..])
  {
    assert forall k :: k in ks <==> k == ks[0] || k in ks[1..];
  }

  lemma {:induction false} MembersRead(v: Json, ks: seq<string>, rest: string, d: nat)
    requires v.Obj? && ks != [] && forall k :: k in ks ==> k in v.members
    ensures ReadMembers(CanonicalMembers(v, ks) + "}" + rest, d)
         == if DepthOfMembers(v, ks) <= d then Some((Restrict(v.members, ks), rest)) else None
    decreases v, 1, |ks|
  {
    hide ReadMember;
    hide SortedKeys;
    hide CanonicalMember;
    var s := CanonicalMembers(v, ks) + "}" + rest;
    RestrictUnfolds(v.members, ks);
    if |ks| == 1 {
      var tail := "}" + rest;
      assert s == CanonicalMember(v, ks[0]) + tail;
      MemberReads(v, ks[0], tail, d);
      assert SkipSpace(tail) == tail && tail[1..] == rest;
      assert Restrict(v.members, ks[1..]) == map[];
      assert Restrict(v.members, ks) == map[ks[0] := v.members[ks[0]]];
    } else {
      var tail := "," + CanonicalMembers(v, ks[1..]) + "}" + rest;
      assert s == CanonicalMember(v, ks[0]) + tail;
      MemberReads(v, ks[0], tail, d);
      assert SkipSpace(tail) == tail && tail[1..] == CanonicalMembers(v, ks[1..]) + "}" + rest;
      MembersRead(v, ks[1..], rest, d);
    }
  }

  /** `serde_json::from_slice` undoes `canonical_json` exactly on values nested no deeper than it reads. */
  lemma ParseInvertsCanonical(v: Json)
    ensures Parse(Utf8(Canonical(v))) == if Depth(v) <= 127 then Some(v) else None
  {
    Utf8RoundTrip(Canonical(v));
    CanonicalReads(v, "", MAX_NESTING);
    assert Canonical(v) + "" == Canonical(v);
  }

  /** Two values print alike only when they are the same value; nesting does not matter. */
  lemma CanonicalInjective(v: Json, w: Json)
    ensures Canonical(v) == Canonical(w) <==> v == w
  {
    if Canonical(v) == Canonical(w) {
      var d := Max(Depth(v), Depth(w));
      CanonicalReads(v, "", d);
      CanonicalReads(w, "", d);
      assert Canonical(v) + "" == Canonical(v) && Canonical(w) + "" == Canonical(w);
    }
  }

  // --- Any accepted document ---------------------------------------------------------

  /** The reader never returns a value nested more deeply than it was allowed to go. */
  lemma {:induction false} ReadValueWithin(s: string, d: nat)
    requires ReadValue(s, d).Some?
    ensures Depth(ReadValue(s, d).value.0) <= d
    decreases |s|, 0
  {
    var t := SkipSpace(s);
    if t[0] == '[' {
      ReadArrayWithin(t[1..], d);
    } else if t[0] == '{' {
      ReadObjectWithin(t[1..], d);
    }
  }

  lemma {:induction false} ReadArrayWithin(s: string, d: nat)
    requires ReadArray(s, d).Some?
    ensures Depth(ReadArray(s, d).value.0) <= d
    decreases |s|, 2
  {
    hide ReadItems;
    var v := ReadArray(s, d).value.0;
    if v.items != [] {
      ReadItemsWithin(s, d - 1);
    }
    NestedWithin(v, d);
  }

  lemma {:induction false} ReadItemsWithin(s: string, d: nat)
    requires ReadItems(s, d).Some?
    ensures forall i :: 0 <= i < |ReadItems(s, d).value.0| ==> Depth(ReadItems(s, d).value.0[i]) <= d
    decreases |s|, 1
  {
    hide Depth;
    var (v, rest) := ReadValue(s, d).value;
    ReadValueWithin(s, d);
    var t := SkipSpace(rest);
    if t[0] == ',' {
      ReadItemsWithin(t[1..], d);
    }
  }

  lemma {:induction false} ReadObjectWithin(s: string, d: nat)
    requires ReadObject(s, d).Some?
    ensures Depth(ReadObject(s, d).value.0) <= d
    decreases |s|, 3
  {
    hide ReadMembers;
    var v := ReadObject(s, d).value.0;
    if v.members != map[] {
      ReadMembersWithin(s, d - 1);
    }
    NestedWithin(v, d);
  }

  lemma {:induction false} ReadMembersWithin(s: string, d: nat)
    requires ReadMembers(s, d).Some?
    ensures forall k :: k in ReadMembers(s, d).value.0 ==> Depth(ReadMembers(s, d).value.0[k]) <= d
    decreases |s|, 2
  {
    hide Depth;
    var (k, v, rest) := ReadMember(s, d).value;
    ReadMemberWithin(s, d);
    var t := SkipSpace(rest);
    if t[0] == ',' {
      ReadMembersWithin(t[1..], d);
    }
  }

  lemma {:induction false} ReadMemberWithin(s: string, d: nat)
    requires ReadMember(s, d).Some?
    ensures Depth(ReadMember(s, d).value.1) <= d
    decreases |s|, 1
  {
    hide Depth;
    var t := SkipSpace(s);
    var (k, rest) := ReadString(t[1..]).value;
    ReadValueWithin(SkipSpace(rest)[1..], d);
  }

  /** Every document the reader accepts, however spelled, has a canonical spelling that reads as the same value. */
  lemma CanonicalizingIsStable(b: bytes)
    requires Parse(b).Some?
    ensures Parse(Utf8(Canonical(Parse(b).value))) == Parse(b)
  {
    hide Canonical, Utf8, FromUtf8, ReadValue, Depth;
    ReadValueWithin(FromUtf8(b).value, MAX_NESTING);
    ParseInvertsCanonical(Parse(b).value);
  }

  // --- Joined text -----------------------------------------------------------------------

  /** `[String]::join(",")`. */
  function Joined(parts: seq<string>): string {
    if parts == [] then "" else if |parts| == 1 then parts[0] else parts[0] + "," + Joined(parts[1..])
  }

  function ItemTexts(items: seq<Json>): seq<string> {
    seq(|items|, i requires 0 <= i < |items| => Canonical(items[i]))
  }

  function MemberTexts(v: Json, ks: seq<string>): seq<string>
    requires v.Obj? && forall k :: k in ks ==> k in v.members
  {
    seq(|ks|, i requires 0 <= i < |ks| => Quote(ks[i]) + ":" + Canonical(v.members[ks[i]]))
  }

  lemma {:induction false} ItemsAreJoined(items: seq<Json>)
    requires items != []
    ensures CanonicalItems(items) == Joined(ItemTexts(items))
  {
    hide Canonical;
    if |items| > 1 {
      ItemsAreJoined(items[1..]);
      assert ItemTexts(items)[1..] == ItemTexts(items[1..]);
    }
  }

  lemma {:induction false} MembersAreJoined(v: Json, ks: seq<string>)
    requires v.Obj? && ks != [] && forall k :: k in ks ==> k in v.members
    ensures CanonicalMembers(v, ks) == Joined(MemberTexts(v, ks))
    decreases |ks|
  {
    hide Canonical, Quote;
    if |ks| > 1 {
      MembersAreJoined(v, ks[1..]);
      assert MemberTexts(v, ks)[1..] == MemberTexts(v, ks[1..]);
    }
  }

  /** Items and members are joined by single commas, keys in UTF-16 order, with no white space anywhere between. */
  lemma CanonicalIsJoined(v: Json)
    ensures v.Arr? ==> Canonical(v) == "[" + Joined(ItemTexts(v.items)) + "]"
    ensures v.Obj? ==> Canonical(v) == "{" + Joined(MemberTexts(v, SortedKeys(v.members.Keys))) + "}"
  {
    hide CanonicalItems, CanonicalMembers, SortedKeys, Canonical;
    if v.Arr? {
      CanonicalOfArray(v.items);
      if v.items != [] {
        ItemsAreJoined(v.items);
      } else {
        assert ItemTexts(v.items) == [];
      }
    } else if v.Obj? {
      CanonicalOfObject(v.members);
      if v.members != map[] {
        var k :| k in v.members;
        assert k in SortedKeys(v.members.Keys);
        MembersAreJoined(v, SortedKeys(v.members.Keys));
      } else {
        SortedKeysOfNone();
        assert v.members.Keys == {};
        assert MemberTexts(v, []) == [];
      }
    }
  }

  lemma SortedKeysOfNone()
    ensures SortedKeys({}) == []
  {
  }
}
