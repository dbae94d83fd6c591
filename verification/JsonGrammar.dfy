/**
 The language the reader accepts, as a grammar: RFC 8259 with integers only and
 a bound on nesting. A spelling is a document down to its white space and escapes.
 */
module JsonGrammar {
  import opened Wrappers
  import opened Unicode
  import opened Decimal
  import opened Hex
  import opened Json
  import opened JsonReader

  // --- Spellings ---------------------------------------------------------------------

  /** A character of a string: itself, a short escape, a code unit, or a surrogate pair of code units. */
  datatype Glyph = Plain(c: char) | Short(c: char) | CodeUnit(hex: string) | Pair(high: string, low: string)

  datatype Value =
    | NullWord | TrueWord | FalseWord
    | Numeral(negative: bool, digits: string)
    | Quoted(glyphs: seq<Glyph>)
    | NoItems(space: string)
    | Bracketed(items: Items)
    | NoMembers(space: string)
    | Braced(members: Members)

  datatype Spaced = Spaced(space: string, value: Value)

  datatype Items = LastItem(item: Spaced, after: string) | MoreItems(item: Spaced, after: string, rest: Items)

  datatype Member = Member(space: string, key: seq<Glyph>, gap: string, value: Spaced)

  datatype Members =
    | LastMember(member: Member, after: string)
    | MoreMembers(member: Member, after: string, rest: Members)

  // --- Their text ------------------------------------------------------------------------

  function GlyphText(g: Glyph): string {
    match g
    case Plain(c) => [c]
    case Short(c) => ['\\', c]
    case CodeUnit(hex) => "\\u" + hex
    case Pair(high, low) => "\\u" + high + ("\\u" + low)
  }

  function GlyphsText(gs: seq<Glyph>): string { if gs == [] then "" else GlyphText(gs[0]) + GlyphsText(gs[1..]) }

  function ValueText(v: Value): string {
    match v
    case NullWord => "null"
    case TrueWord => "true"
    case FalseWord => "false"
    case Numeral(negative, digits) => if negative then "-" + digits else digits
    case Quoted(gs) => "\"" + (GlyphsText(gs) + "\"")
    case NoItems(space) => "[" + (space + "]")
    case Bracketed(items) => "[" + ItemsText(items)
    case NoMembers(space) => "{" + (space + "}")
    case Braced(members) => "{" + MembersText(members)
  }

  function SpacedText(t: Spaced): string { t.space + ValueText(t.value) }

  function ItemsText(ts: Items): string {
    match ts
    case LastItem(t, after) => SpacedText(t) + (after + "]")
    case MoreItems(t, after, rest) => SpacedText(t) + (after + ("," + ItemsText(rest)))
  }

  function MemberText(m: Member): string {
    m.space + ("\"" + (GlyphsText(m.key) + ("\"" + (m.gap + (":" + SpacedText(m.value))))))
  }

  function MembersText(ms: Members): string {
    match ms
    case LastMember(m, after) => MemberText(m) + (after + "}")
    case MoreMembers(m, after, rest) => MemberText(m) + (after + ("," + MembersText(rest)))
  }

  // --- Their value ----------------------------------------------------------------------

  /** The escapes of one character after the backslash. */
  const SHORT: map<char, char> :=
    map['\"' := '\"', '\\' := '\\', '/' := '/',
        'b' := 8 as char, 'f' := 12 as char, 'n' := 10 as char, 'r' := 13 as char, 't' := 9 as char]

  predicate IsUnit(hex: string) { |hex| == 4 && forall i :: 0 <= i < 4 ==> HexValue(hex[i]).Some? }

  function UnitValue(hex: string): int
    requires IsUnit(hex)
  {
    HexValue(hex[0]).value * 4096 + HexValue(hex[1]).value * 256 + HexValue(hex[2]).value * 16 + HexValue(hex[3]).value
  }

  predicate GlyphOk(g: Glyph) {
    match g
    case Plain(c) => c as int >= 32 && c != '\"' && c != '\\'
    case Short(c) => c in SHORT
    case CodeUnit(hex) => IsUnit(hex) && (UnitValue(hex) < 0xD800 || 0xE000 <= UnitValue(hex))
    case Pair(high, low) =>
      IsUnit(high) && IsUnit(low) && 0xD800 <= UnitValue(high) < 0xDC00 <= UnitValue(low) < 0xE000
  }

  predicate GlyphsOk(gs: seq<Glyph>) { forall i :: 0 <= i < |gs| ==> GlyphOk(gs[i]) }

  function GlyphChar(g: Glyph): char
    requires GlyphOk(g)
  {
    match g
    case Plain(c) => c
    case Short(c) => SHORT[c]
    case CodeUnit(hex) => UnitRange(hex); UnitValue(hex) as char
    case Pair(high, low) =>
      var n: int := 0x10000 + (UnitValue(high) - 0xD800) * 0x400 + (UnitValue(low) - 0xDC00);
      n as char
  }

  lemma UnitRange(hex: string)
    requires IsUnit(hex)
    ensures 0 <= UnitValue(hex) < 0x10000
  {
  }

  function GlyphsChars(gs: seq<Glyph>): string
    requires GlyphsOk(gs)
  {
    seq(|gs|, i requires 0 <= i < |gs| => GlyphChar(gs[i]))
  }

  predicate IsSpace(s: string) {
    forall i :: 0 <= i < |s| ==> s[i] == ' ' || s[i] == '\t' || s[i] == '\n' || s[i] == '\r'
  }

  /** Digits without a leading zero, of an integer other than negative zero that fits `i64` or `u64`. */
  predicate NumeralOk(negative: bool, digits: string) {
    && digits != "" && AllDigits(digits) && (|digits| > 1 ==> digits[0] != '0')
    && if negative then 0 < DecimalValue(digits) <= 0x8000_0000_0000_0000
       else DecimalValue(digits) < 0x1_0000_0000_0000_0000
  }

  predicate ValueOk(v: Value) {
    match v
    case Numeral(negative, digits) => NumeralOk(negative, digits)
    case Quoted(gs) => GlyphsOk(gs)
    case NoItems(space) => IsSpace(space)
    case Bracketed(items) => ItemsOk(items)
    case NoMembers(space) => IsSpace(space)
    case Braced(members) => MembersOk(members)
    case _ => true
  }

  predicate SpacedOk(t: Spaced) { IsSpace(t.space) && ValueOk(t.value) }

  predicate ItemsOk(ts: Items) {
    SpacedOk(ts.item) && IsSpace(ts.after) && (ts.MoreItems? ==> ItemsOk(ts.rest))
  }

  predicate MemberOk(m: Member) { IsSpace(m.space) && GlyphsOk(m.key) && IsSpace(m.gap) && SpacedOk(m.value) }

  predicate MembersOk(ms: Members) {
    MemberOk(ms.member) && IsSpace(ms.after) && (ms.MoreMembers? ==> MembersOk(ms.rest))
  }

  function Meaning(v: Value): Json
    requires ValueOk(v)
  {
    match v
    case NullWord => Null
    case TrueWord => Bool(true)
    case FalseWord => Bool(false)
    case Numeral(negative, digits) => var n: int := DecimalValue(digits); Int(if negative then -n else n)
    case Quoted(gs) => Str(GlyphsChars(gs))
    case NoItems(_) => Arr([])
    case Bracketed(items) => Arr(ItemsMeaning(items))
    case NoMembers(_) => Obj(map[])
    case Braced(members) => Obj(MembersMeaning(members))
  }

  function SpacedMeaning(t: Spaced): Json
    requires SpacedOk(t)
  {
    Meaning(t.value)
  }

  function ItemsMeaning(ts: Items): seq<Json>
    requires ItemsOk(ts)
  {
    assert SpacedOk(ts.item);
    if ts.LastItem? then [SpacedMeaning(ts.item)] else [SpacedMeaning(ts.item)] + ItemsMeaning(ts.rest)
  }

  /** Of members with the same key the last counts. */
  function MembersMeaning(ms: Members): map<string, Json>
    requires MembersOk(ms)
  {
    assert MemberOk(ms.member);
    assert SpacedOk(ms.member.value);
    var member := map[GlyphsChars(ms.member.key) := SpacedMeaning(ms.member.value)];
    if ms.LastMember? then member else member + MembersMeaning(ms.rest)
  }

  /** Nesting as spelled: members that do not count nest all the same. */
  function Nesting(v: Value): nat {
    match v
    case NoItems(_) => 1
    case Bracketed(items) => 1 + ItemsNesting(items)
    case NoMembers(_) => 1
    case Braced(members) => 1 + MembersNesting(members)
    case _ => 0
  }

  function ItemsNesting(ts: Items): nat {
    Max(Nesting(ts.item.value), if ts.MoreItems? then ItemsNesting(ts.rest) else 0)
  }

  function MembersNesting(ms: Members): nat {
    Max(Nesting(ms.member.value.value), if ms.MoreMembers? then MembersNesting(ms.rest) else 0)
  }

  // --- Every spelling is read as its value -------------------------------------------------

  lemma {:induction false} SpaceIsSkipped(space: string, rest: string)
    requires IsSpace(space) && SkipSpace(rest) == rest
    ensures SkipSpace(space + rest) == rest
  {
    if space == "" {
      assert space + rest == rest;
    } else {
      assert (space + rest)[1..] == space[1..] + rest;
      SpaceIsSkipped(space[1..], rest);
    }
  }

  lemma {:induction false} UnitIsRead(hex: string, rest: string)
    requires IsUnit(hex)
    ensures ReadUnit(hex + rest) == Some((UnitValue(hex), rest))
  {
    hide HexValue;
    assert (hex + rest)[4..] == rest;
  }

  lemma {:induction false} PairIsRead(high: string, low: string, rest: string)
    requires GlyphOk(Pair(high, low))
    ensures ReadUnicodeEscape(high + ("\\u" + low + rest)) == Some((GlyphChar(Pair(high, low)), rest))
  {
    hide IsUnit, UnitValue, ReadUnit;
    var tail := "\\u" + low + rest;
    UnitIsRead(high, tail);
    UnitIsRead(low, rest);
    assert tail[2..] == low + rest;
  }

  lemma {:induction false} UnitGlyphIsRead(hex: string, rest: string)
    requires GlyphOk(CodeUnit(hex))
    ensures ReadUnicodeEscape(hex + rest) == Some((GlyphChar(CodeUnit(hex)), rest))
  {
    hide IsUnit, UnitValue, ReadUnit;
    UnitIsRead(hex, rest);
  }

  lemma UnicodeEscapeIsRead(rest: string)
    ensures ReadEscape("u" + rest) == ReadUnicodeEscape(rest)
  {
    hide ReadUnicodeEscape;
    assert ("u" + rest)[1..] == rest;
  }

  lemma ShortIsRead(c: char, rest: string)
    requires c in SHORT
    ensures ReadEscape([c] + rest) == Some((GlyphChar(Short(c)), rest))
  {
    hide ReadUnicodeEscape;
    assert ([c] + rest)[1..] == rest;
  }

  lemma {:induction false} SpelledUnitIsRead(hex: string, rest: string)
    requires GlyphOk(CodeUnit(hex))
    ensures ReadEscape(GlyphText(CodeUnit(hex))[1..] + rest) == Some((GlyphChar(CodeUnit(hex)), rest))
  {
    hide GlyphOk, GlyphChar, ReadUnicodeEscape, ReadEscape;
    UnitGlyphIsRead(hex, rest);
    UnicodeEscapeIsRead(hex + rest);
    assert GlyphText(CodeUnit(hex))[1..] + rest == "u" + (hex + rest);
  }

  lemma PairText(high: string, low: string, rest: string)
    ensures GlyphText(Pair(high, low))[1..] + rest == "u" + (high + ("\\u" + low + rest))
  {
    assert GlyphText(Pair(high, low))[1..] == "u" + high + ("\\u" + low);
  }

  lemma {:induction false} SpelledPairIsRead(high: string, low: string, rest: string)
    requires GlyphOk(Pair(high, low))
    ensures ReadEscape(GlyphText(Pair(high, low))[1..] + rest) == Some((GlyphChar(Pair(high, low)), rest))
  {
    hide GlyphOk, GlyphChar, GlyphText, ReadUnicodeEscape, ReadEscape;
    var tail := "\\u" + low + rest;
    PairIsRead(high, low, rest);
    UnicodeEscapeIsRead(high + tail);
    PairText(high, low, rest);
  }

  /** What follows the backslash of an escape. */
  lemma {:induction false} EscapeIsRead(g: Glyph, rest: string)
    requires GlyphOk(g) && !g.Plain?
    ensures GlyphText(g)[0] == '\\' && ReadEscape(GlyphText(g)[1..] + rest) == Some((GlyphChar(g), rest))
  {
    hide IsUnit, UnitValue, ReadEscape, SHORT, GlyphChar;
    match g
    case Short(c) =>
      ShortIsRead(c, rest);
      assert GlyphText(g)[1..] == [c];
    case CodeUnit(hex) =>
      SpelledUnitIsRead(hex, rest);
    case Pair(high, low) =>
      SpelledPairIsRead(high, low, rest);
  }

  lemma {:induction false} GlyphsAreRead(gs: seq<Glyph>, rest: string)
    requires GlyphsOk(gs)
    ensures ReadString(GlyphsText(gs) + ("\"" + rest)) == Some((GlyphsChars(gs), rest))
  {
    hide GlyphOk, GlyphText, GlyphChar, ReadEscape;
    var s := GlyphsText(gs) + ("\"" + rest);
    if gs == [] {
      assert s == "\"" + rest && s[1..] == rest;
    } else {
      var g, tail := gs[0], GlyphsText(gs[1..]) + ("\"" + rest);
      GlyphsAreRead(gs[1..], rest);
      assert s == GlyphText(g) + tail;
      assert GlyphsChars(gs) == [GlyphChar(g)] + GlyphsChars(gs[1..]);
      GlyphIsRead(g, tail);
    }
  }

  lemma {:induction false} GlyphIsRead(g: Glyph, tail: string)
    requires GlyphOk(g)
    ensures ReadString(tail).Some? ==>
              ReadString(GlyphText(g) + tail)
              == Some(([GlyphChar(g)] + ReadString(tail).value.0, ReadString(tail).value.1))
  {
    hide IsUnit, UnitValue, ReadEscape;
    var s := GlyphText(g) + tail;
    if g.Plain? {
      assert s[1..] == tail;
    } else {
      EscapeIsRead(g, tail);
      assert s[1..] == GlyphText(g)[1..] + tail;
    }
  }

  /** What may follow a value: the end, white space, a comma or a closing bracket. */
  predicate CanFollow(rest: string) {
    rest == "" || rest[0] == ',' || rest[0] == ']' || rest[0] == '}' || IsSpace(rest[..1])
  }

  lemma NumeralEnds(digits: string, rest: string)
    requires AllDigits(digits) && digits != "" && CanFollow(rest)
    ensures TakeDigits(digits + rest) == (digits, rest)
    ensures rest != "" ==> rest[0] != '.' && rest[0] != 'e' && rest[0] != 'E'
    ensures IsDigit((digits + rest)[0])
  {
    TakeDigitsStops(digits, rest);
  }

  lemma {:induction false} NumeralIsRead(negative: bool, digits: string, rest: string)
    requires NumeralOk(negative, digits) && CanFollow(rest)
    ensures var v := Numeral(negative, digits); ReadInt(ValueText(v) + rest) == Some((Meaning(v), rest))
  {
    hide DecimalValue, TakeDigits, AllDigits, CanFollow;
    NumeralEnds(digits, rest);
    var s := ValueText(Numeral(negative, digits)) + rest;
    if negative {
      assert s[1..] == digits + rest;
    } else {
      assert s == digits + rest;
    }
    assert ReadInt(s) == FinishInt(negative, DecimalValue(digits), rest);
  }

  lemma {:induction false} WordIsRead(v: Value, rest: string, d: nat)
    requires v.NullWord? || v.TrueWord? || v.FalseWord?
    ensures ReadValue(ValueText(v) + rest, d) == Some((Meaning(v), rest))
  {
    var s := ValueText(v) + rest;
    assert SkipSpace(s) == s && s[|ValueText(v)|..] == rest;
  }

  /** The first character tells what kind of value follows. */
  lemma {:induction false} ValueStarts(v: Value, rest: string)
    requires ValueOk(v)
    ensures ValueText(v) != "" && SkipSpace(ValueText(v) + rest) == ValueText(v) + rest
    ensures ValueText(v)[0] != ']' && ValueText(v)[0] != '}' && ValueText(v)[0] != ','
    ensures v.Numeral? ==> ValueText(v)[0] == '-' || IsDigit(ValueText(v)[0])
  {
    hide ItemsText, MembersText, GlyphsText;
    if v.Numeral? {
      assert IsDigit(v.digits[0]);
    }
  }

  lemma {:induction false} ValueIsRead(v: Value, rest: string, d: nat)
    requires ValueOk(v) && Nesting(v) <= d && CanFollow(rest)
    ensures ReadValue(ValueText(v) + rest, d) == Some((Meaning(v), rest))
    decreases v
  {
    hide ReadArray, ReadObject, ReadInt, ReadString, GlyphsText, GlyphsChars, ItemsText, MembersText, CanFollow;
    var s := ValueText(v) + rest;
    ValueStarts(v, rest);
    match v
    case Numeral(negative, digits) =>
      NumeralIsRead(negative, digits, rest);
    case Quoted(gs) =>
      GlyphsAreRead(gs, rest);
      assert s[1..] == GlyphsText(gs) + ("\"" + rest);
    case NoItems(space) =>
      EmptyArrayIsRead(space, rest, d);
      assert s[1..] == space + ("]" + rest);
    case Bracketed(items) =>
      ArrayIsRead(items, rest, d);
      assert s[1..] == ItemsText(items) + rest;
    case NoMembers(space) =>
      EmptyObjectIsRead(space, rest, d);
      assert s[1..] == space + ("}" + rest);
    case Braced(members) =>
      ObjectIsRead(members, rest, d);
      assert s[1..] == MembersText(members) + rest;
    case _ =>
      WordIsRead(v, rest, d);
  }

  lemma {:induction false} EmptyArrayIsRead(space: string, rest: string, d: nat)
    requires IsSpace(space) && d > 0
    ensures ReadArray(space + ("]" + rest), d) == Some((Arr([]), rest))
  {
    SpaceIsSkipped(space, "]" + rest);
  }

  lemma {:induction false} EmptyObjectIsRead(space: string, rest: string, d: nat)
    requires IsSpace(space) && d > 0
    ensures ReadObject(space + ("}" + rest), d) == Some((Obj(map[]), rest))
  {
    SpaceIsSkipped(space, "}" + rest);
  }

  lemma {:induction false} SpacedIsRead(t: Spaced, rest: string, d: nat)
    requires SpacedOk(t) && Nesting(t.value) <= d && CanFollow(rest)
    ensures ReadValue(SpacedText(t) + rest, d) == Some((SpacedMeaning(t), rest))
    decreases t
  {
    hide ReadArray, ReadObject, ReadInt, ReadString, ValueText, CanFollow, Meaning, ValueOk, Nesting;
    var s := ValueText(t.value) + rest;
    ValueIsRead(t.value, rest, d);
    ValueStarts(t.value, rest);
    SpaceIsSkipped(t.space, s);
    assert SpacedText(t) + rest == t.space + s;
  }

  lemma {:induction false} ArrayIsRead(items: Items, rest: string, d: nat)
    requires ItemsOk(items) && 1 + ItemsNesting(items) <= d
    ensures ReadArray(ItemsText(items) + rest, d) == Some((Arr(ItemsMeaning(items)), rest))
    decreases items, 1
  {
    hide ReadItems, ItemsMeaning, ValueText;
    ItemsAreRead(items, rest, d - 1);
    var close := if items.LastItem? then "]" else "," + ItemsText(items.rest);
    var tail := items.after + close + rest;
    ValueStarts(items.item.value, tail);
    SpaceIsSkipped(items.item.space, ValueText(items.item.value) + tail);
    assert ItemsText(items) + rest == items.item.space + (ValueText(items.item.value) + tail);
  }

  /** White space and a delimiter may follow a value. */
  lemma {:induction false} DelimiterFollows(after: string, rest: string)
    requires IsSpace(after) && rest != "" && (rest[0] == ',' || rest[0] == ']' || rest[0] == '}')
    ensures CanFollow(after + rest) && SkipSpace(after + rest) == rest
  {
    SpaceIsSkipped(after, rest);
    if after != "" {
      assert (after + rest)[..1] == after[..1];
    } else {
      assert after + rest == rest;
    }
  }

  lemma {:induction false} ItemsAreRead(items: Items, rest: string, d: nat)
    requires ItemsOk(items) && ItemsNesting(items) <= d
    ensures ReadItems(ItemsText(items) + rest, d) == Some((ItemsMeaning(items), rest))
    decreases items, 0
  {
    hide ReadValue, SpacedText, CanFollow, SpacedMeaning, SpacedOk, Nesting, IsSpace, SkipSpace;
    var close := if items.LastItem? then "]" + rest else "," + (ItemsText(items.rest) + rest);
    var tail := items.after + close;
    DelimiterFollows(items.after, close);
    SpacedIsRead(items.item, tail, d);
    assert ItemsText(items) + rest == SpacedText(items.item) + tail;
    if items.MoreItems? {
      ItemsAreRead(items.rest, rest, d);
      assert close[1..] == ItemsText(items.rest) + rest;
    } else {
      assert close[1..] == rest;
    }
  }

  /** A quoted key, up to the colon. */
  lemma {:induction false} KeyIsRead(space: string, key: seq<Glyph>, gap: string, rest: string)
    requires IsSpace(space) && GlyphsOk(key) && IsSpace(gap)
    ensures var s := space + ("\"" + (GlyphsText(key) + ("\"" + (gap + (":" + rest)))));
            var t := SkipSpace(s);
            && t != "" && t[0] == '\"' && ReadString(t[1..]) == Some((GlyphsChars(key), gap + (":" + rest)))
            && SkipSpace(gap + (":" + rest)) == ":" + rest
  {
    hide GlyphsText, GlyphsChars, ReadString;
    var quoted := "\"" + (GlyphsText(key) + ("\"" + (gap + (":" + rest))));
    GlyphsAreRead(key, gap + (":" + rest));
    SpaceIsSkipped(space, quoted);
    SpaceIsSkipped(gap, ":" + rest);
    assert quoted[1..] == GlyphsText(key) + ("\"" + (gap + (":" + rest)));
  }

  lemma {:induction false} MemberIsRead(m: Member, rest: string, d: nat)
    requires MemberOk(m) && Nesting(m.value.value) <= d && CanFollow(rest)
    ensures ReadMember(MemberText(m) + rest, d) == Some((GlyphsChars(m.key), SpacedMeaning(m.value), rest))
    decreases m
  {
    hide ReadValue, SpacedText, CanFollow, SpacedMeaning, SpacedOk, Nesting, ReadString, GlyphsText, GlyphsChars,
         SkipSpace, IsSpace;
    var value := SpacedText(m.value) + rest;
    SpacedIsRead(m.value, rest, d);
    KeyIsRead(m.space, m.key, m.gap, value);
    MemberTextSplits(m, rest);
    assert (":" + value)[1..] == value;
  }

  lemma MemberTextSplits(m: Member, rest: string)
    ensures MemberText(m) + rest
         == m.space + ("\"" + (GlyphsText(m.key) + ("\"" + (m.gap + (":" + (SpacedText(m.value) + rest))))))
  {
    hide SpacedText, GlyphsText;
  }

  lemma {:induction false} ObjectIsRead(members: Members, rest: string, d: nat)
    requires MembersOk(members) && 1 + MembersNesting(members) <= d
    ensures ReadObject(MembersText(members) + rest, d) == Some((Obj(MembersMeaning(members)), rest))
    decreases members, 1
  {
    hide ReadMembers, MembersMeaning, SpacedText, GlyphsText;
    MembersAreRead(members, rest, d - 1);
    var m := members.member;
    var s := MembersText(members) + rest;
    var tail := s[|m.space|..];
    assert tail[0] == '\"' && s == m.space + tail;
    SpaceIsSkipped(m.space, tail);
  }

  lemma {:induction false} MembersAreRead(members: Members, rest: string, d: nat)
    requires MembersOk(members) && MembersNesting(members) <= d
    ensures ReadMembers(MembersText(members) + rest, d) == Some((MembersMeaning(members), rest))
    decreases members, 0
  {
    hide ReadMember, MemberText, CanFollow, SpacedMeaning, Nesting, IsSpace, SkipSpace, GlyphsChars;
    var close := if members.LastMember? then "}" + rest else "," + (MembersText(members.rest) + rest);
    var tail := members.after + close;
    DelimiterFollows(members.after, close);
    MemberIsRead(members.member, tail, d);
    assert MembersText(members) + rest == MemberText(members.member) + tail;
    if members.MoreMembers? {
      MembersAreRead(members.rest, rest, d);
      assert close[1..] == MembersText(members.rest) + rest;
    } else {
      assert close[1..] == rest;
    }
  }

  // --- Nothing else is read ------------------------------------------------------------------

  lemma {:induction false} SkippedIsSpace(s: string) returns (space: string)
    ensures IsSpace(space) && s == space + SkipSpace(s)
  {
    space := "";
    if SkipSpace(s) != s {
      var tail := SkippedIsSpace(s[1..]);
      space := [s[0]] + tail;
      assert s == [s[0]] + s[1..];
    }
  }

  lemma UnitIsSpelled(s: string)
    requires ReadUnit(s).Some?
    ensures |s| >= 4 && IsUnit(s[..4]) && s == s[..4] + ReadUnit(s).value.1
    ensures ReadUnit(s).value.0 == UnitValue(s[..4])
  {
    hide HexValue;
  }

  lemma {:induction false} UnicodeEscapeIsSpelled(s: string) returns (g: Glyph)
    requires ReadUnicodeEscape(s).Some?
    ensures GlyphOk(g) && !g.Plain? && "\\u" + s == GlyphText(g) + ReadUnicodeEscape(s).value.1
    ensures GlyphChar(g) == ReadUnicodeEscape(s).value.0
  {
    hide IsUnit, UnitValue, ReadUnit;
    UnitIsSpelled(s);
    if IsScalar(ReadUnit(s).value.0) {
      g := CodeUnit(s[..4]);
    } else {
      g := PairIsSpelled(s);
    }
  }

  lemma {:induction false} PairIsSpelled(s: string) returns (g: Glyph)
    requires ReadUnicodeEscape(s).Some? && !IsScalar(ReadUnit(s).value.0)
    ensures GlyphOk(g) && g.Pair? && "\\u" + s == GlyphText(g) + ReadUnicodeEscape(s).value.1
    ensures GlyphChar(g) == ReadUnicodeEscape(s).value.0
  {
    hide IsUnit, UnitValue, ReadUnit;
    var high, rest := s[..4], ReadUnit(s).value.1;
    UnitIsSpelled(s);
    UnitIsSpelled(rest[2..]);
    var low, end := rest[2..][..4], ReadUnit(rest[2..]).value.1;
    g := Pair(high, low);
    assert rest == "\\u" + rest[2..];
    PairSplits(high, low, end);
  }

  lemma PairSplits(high: string, low: string, end: string)
    ensures "\\u" + (high + ("\\u" + (low + end))) == GlyphText(Pair(high, low)) + end
  {
  }

  lemma {:induction false} EscapeIsSpelled(s: string) returns (g: Glyph)
    requires ReadEscape(s).Some?
    ensures GlyphOk(g) && !g.Plain? && "\\" + s == GlyphText(g) + ReadEscape(s).value.1
    ensures GlyphChar(g) == ReadEscape(s).value.0
  {
    hide ReadUnicodeEscape;
    if s[0] == 'u' {
      g := UnicodeEscapeIsSpelled(s[1..]);
      assert "\\" + s == "\\u" + s[1..];
    } else {
      g := Short(s[0]);
      assert "\\" + s == ['\\', s[0]] + s[1..];
    }
  }

  lemma {:induction false} StringIsSpelled(s: string) returns (gs: seq<Glyph>)
    requires ReadString(s).Some?
    ensures GlyphsOk(gs) && s == GlyphsText(gs) + ("\"" + ReadString(s).value.1)
    ensures GlyphsChars(gs) == ReadString(s).value.0
    decreases |s|
  {
    hide ReadEscape, GlyphChar, GlyphText;
    if s[0] == '\"' {
      gs := [];
      assert s == "\"" + s[1..];
    } else {
      var g, rest := GlyphIsSpelled(s);
      var tail := StringIsSpelled(rest);
      gs := [g] + tail;
      assert gs[1..] == tail;
      assert GlyphsChars(gs) == [GlyphChar(g)] + GlyphsChars(tail);
    }
  }

  /** The first glyph of a string that is not at its end, and what is left to read. */
  lemma {:induction false} GlyphIsSpelled(s: string) returns (g: Glyph, rest: string)
    requires ReadString(s).Some? && s[0] != '\"'
    ensures GlyphOk(g) && s == GlyphText(g) + rest && |rest| < |s| && ReadString(rest).Some?
    ensures ReadString(s).value.0 == [GlyphChar(g)] + ReadString(rest).value.0
    ensures ReadString(s).value.1 == ReadString(rest).value.1
  {
    hide ReadEscape;
    if s[0] == '\\' {
      rest := ReadEscape(s[1..]).value.1;
      g := EscapeIsSpelled(s[1..]);
      assert s == "\\" + s[1..];
    } else {
      rest := s[1..];
      g := Plain(s[0]);
      assert s == [s[0]] + s[1..];
    }
  }

  lemma {:induction false} IntIsSpelled(s: string) returns (v: Value)
    requires ReadInt(s).Some?
    ensures v.Numeral? && ValueOk(v) && s == ValueText(v) + ReadInt(s).value.1
    ensures Meaning(v) == ReadInt(s).value.0
  {
    hide DecimalValue, TakeDigits, AllDigits, FinishInt;
    var negative := s != "" && s[0] == '-';
    var (digits, rest) := TakeDigits(if negative then s[1..] else s);
    v := Numeral(negative, digits);
    FinishedIsSpelled(negative, digits, rest);
    if negative {
      assert s == "-" + s[1..];
    }
  }

  lemma {:induction false} FinishedIsSpelled(negative: bool, digits: string, rest: string)
    requires digits != "" && AllDigits(digits) && (|digits| > 1 ==> digits[0] != '0')
    requires FinishInt(negative, DecimalValue(digits), rest).Some?
    ensures NumeralOk(negative, digits)
    ensures FinishInt(negative, DecimalValue(digits), rest) == Some((Meaning(Numeral(negative, digits)), rest))
  {
    hide DecimalValue, AllDigits;
  }

  lemma {:induction false} WordIsSpelled(c: string, d: nat) returns (v: Value)
    requires c != "" && c[0] in ['n', 't', 'f'] && SkipSpace(c) == c && ReadValue(c, d).Some?
    ensures v in [NullWord, TrueWord, FalseWord] && c == ValueText(v) + ReadValue(c, d).value.1
    ensures Meaning(v) == ReadValue(c, d).value.0
  {
    hide ReadArray, ReadObject, ReadInt, ReadString, SkipSpace;
    if c[0] == 'n' {
      v := NullWord;
      assert c == "null" + c[4..];
    } else if c[0] == 't' {
      v := TrueWord;
      assert c == "true" + c[4..];
    } else {
      v := FalseWord;
      assert c == "false" + c[5..];
    }
  }

  /** A value with no white space before it. */
  lemma {:induction false} ValueIsSpelled(c: string, d: nat) returns (v: Value)
    requires c != "" && SkipSpace(c) == c && ReadValue(c, d).Some?
    ensures ValueOk(v) && c == ValueText(v) + ReadValue(c, d).value.1
    ensures Meaning(v) == ReadValue(c, d).value.0 && Nesting(v) <= d
    decreases |c|, 0
  {
    hide ReadArray, ReadObject, ReadInt, ReadString, SkipSpace, IsSpace, GlyphsText, GlyphsChars, GlyphsOk,
         NumeralOk, DecimalValue, ItemsOk, MembersOk, ItemsMeaning, MembersMeaning, ItemsNesting, MembersNesting;
    if c[0] == '\"' {
      var gs := StringIsSpelled(c[1..]);
      v := Quoted(gs);
      assert c == "\"" + c[1..];
    } else if c[0] == '[' {
      v := ArrayIsSpelled(c[1..], d);
      assert c == "[" + c[1..];
    } else if c[0] == '{' {
      v := ObjectIsSpelled(c[1..], d);
      assert c == "{" + c[1..];
    } else if c[0] in ['n', 't', 'f'] {
      v := WordIsSpelled(c, d);
    } else {
      v := IntIsSpelled(c);
    }
  }

  lemma {:induction false} SpacedIsSpelled(s: string, d: nat) returns (t: Spaced)
    requires ReadValue(s, d).Some?
    ensures SpacedOk(t) && s == SpacedText(t) + ReadValue(s, d).value.1
    ensures SpacedMeaning(t) == ReadValue(s, d).value.0 && Nesting(t.value) <= d
    decreases |s|, 1
  {
    hide ReadArray, ReadObject, ReadInt, ReadString, SkipSpace, IsSpace, ValueOk, ValueText, Meaning, Nesting;
    var space := SkippedIsSpace(s);
    var c := SkipSpace(s);
    SkipSpaceTwice(s);
    var v := ValueIsSpelled(c, d);
    t := Spaced(space, v);
  }

  lemma SkipSpaceTwice(s: string)
    ensures SkipSpace(SkipSpace(s)) == SkipSpace(s)
  {
  }

  lemma {:induction false} ArrayIsSpelled(s: string, d: nat) returns (v: Value)
    requires ReadArray(s, d).Some?
    ensures ValueOk(v) && "[" + s == ValueText(v) + ReadArray(s, d).value.1
    ensures Meaning(v) == ReadArray(s, d).value.0 && Nesting(v) <= d
    decreases |s|, 3
  {
    hide ReadItems, ItemsMeaning, ItemsText, IsSpace, SkipSpace;
    var t := SkipSpace(s);
    if t != "" && t[0] == ']' {
      var space := SkippedIsSpace(s);
      v := NoItems(space);
      assert t == "]" + t[1..];
    } else {
      var items := ItemsAreSpelled(s, d - 1);
      v := Bracketed(items);
    }
  }

  lemma {:induction false} ItemsAreSpelled(s: string, d: nat) returns (items: Items)
    requires ReadItems(s, d).Some?
    ensures ItemsOk(items) && s == ItemsText(items) + ReadItems(s, d).value.1
    ensures ItemsMeaning(items) == ReadItems(s, d).value.0 && ItemsNesting(items) <= d
    decreases |s|, 2
  {
    hide ReadValue, SpacedText, SpacedMeaning, SpacedOk, Nesting, IsSpace, SkipSpace;
    var rest := ReadValue(s, d).value.1;
    var item := SpacedIsSpelled(s, d);
    var after := SkippedIsSpace(rest);
    var t := SkipSpace(rest);
    if t[0] == ']' {
      items := LastItem(item, after);
      assert t == "]" + t[1..];
    } else {
      var others := ItemsAreSpelled(t[1..], d);
      items := MoreItems(item, after, others);
      assert t == "," + t[1..];
    }
  }

  lemma {:induction false} ObjectIsSpelled(s: string, d: nat) returns (v: Value)
    requires ReadObject(s, d).Some?
    ensures ValueOk(v) && "{" + s == ValueText(v) + ReadObject(s, d).value.1
    ensures Meaning(v) == ReadObject(s, d).value.0 && Nesting(v) <= d
    decreases |s|, 4
  {
    hide ReadMembers, MembersMeaning, MembersText, IsSpace, SkipSpace;
    var t := SkipSpace(s);
    if t != "" && t[0] == '}' {
      var space := SkippedIsSpace(s);
      v := NoMembers(space);
      assert t == "}" + t[1..];
    } else {
      var members := MembersAreSpelled(s, d - 1);
      v := Braced(members);
    }
  }

  lemma {:induction false} MemberIsSpelled(s: string, d: nat) returns (m: Member)
    requires ReadMember(s, d).Some?
    ensures MemberOk(m) && s == MemberText(m) + ReadMember(s, d).value.2
    ensures GlyphsChars(m.key) == ReadMember(s, d).value.0 && SpacedMeaning(m.value) == ReadMember(s, d).value.1
    ensures Nesting(m.value.value) <= d
    decreases |s|, 2
  {
    hide ReadValue, ReadString, SpacedText, SpacedMeaning, SpacedOk, Nesting, IsSpace, SkipSpace,
         GlyphsText, GlyphsChars, GlyphsOk;
    var space := SkippedIsSpace(s);
    var t := SkipSpace(s);
    var rest := ReadString(t[1..]).value.1;
    var key := StringIsSpelled(t[1..]);
    var gap := SkippedIsSpace(rest);
    var u := SkipSpace(rest);
    var value := SpacedIsSpelled(u[1..], d);
    m := Member(space, key, gap, value);
    assert t == "\"" + t[1..] && u == ":" + u[1..];
    MemberTextSplits(m, ReadMember(s, d).value.2);
  }

  lemma {:induction false} MembersAreSpelled(s: string, d: nat) returns (members: Members)
    requires ReadMembers(s, d).Some?
    ensures MembersOk(members) && s == MembersText(members) + ReadMembers(s, d).value.1
    ensures MembersMeaning(members) == ReadMembers(s, d).value.0 && MembersNesting(members) <= d
    decreases |s|, 3
  {
    hide ReadMember, MemberText, SpacedMeaning, Nesting, IsSpace, SkipSpace, GlyphsChars, GlyphsOk, SpacedOk;
    var rest := ReadMember(s, d).value.2;
    var m := MemberIsSpelled(s, d);
    var after := SkippedIsSpace(rest);
    var t := SkipSpace(rest);
    if t[0] == '}' {
      members := LastMember(m, after);
      assert t == "}" + t[1..];
    } else {
      var others := MembersAreSpelled(t[1..], d);
      members := MoreMembers(m, after, others);
      assert t == "," + t[1..];
    }
  }

  // --- The language -----------------------------------------------------------------------

  /** `text` spells `v`, nested at most 127 deep, with nothing but white space around it. */
  ghost predicate Spells(text: string, v: Json) {
    exists t: Spaced, after: string ::
      SpacedOk(t) && IsSpace(after) && text == SpacedText(t) + after &&
      SpacedMeaning(t) == v && Nesting(t.value) <= 127
  }

  lemma ReadsSpelled(text: string, v: Json)
    requires Spells(text, v)
    ensures ParseText(text) == Some(v)
  {
    hide SpacedText, SpacedMeaning, Nesting, ReadValue;
    var t, after :|
      SpacedOk(t) && IsSpace(after) && text == SpacedText(t) + after &&
      SpacedMeaning(t) == v && Nesting(t.value) <= 127;
    assert after != "" ==> IsSpace(after[..1]);
    SpacedIsRead(t, after, 127);
    SpaceIsSkipped(after, "");
    assert after + "" == after;
  }

  lemma SpellsRead(text: string, v: Json)
    requires ParseText(text) == Some(v)
    ensures Spells(text, v)
  {
    hide SpacedText, SpacedMeaning, Nesting, ReadValue, IsSpace, SkipSpace, SpacedOk;
    var t := SpacedIsSpelled(text, 127);
    var after := SkippedIsSpace(ReadValue(text, 127).value.1);
    assert SpacedOk(t) && IsSpace(after) && text == SpacedText(t) + after;
  }

  /** The reader accepts exactly the UTF-8 bytes of the spellings of a value, and reads them as it. */
  lemma ParsesExactly(b: bytes, v: Json)
    ensures Parse(b) == Some(v) <==> exists text :: b == Utf8(text) && Spells(text, v)
  {
    hide Utf8, FromUtf8, ParseText, Spells;
    if Parse(b) == Some(v) {
      Utf8DecodesOnlyEncodings(b);
      SpellsRead(FromUtf8(b).value, v);
    }
    if text :| b == Utf8(text) && Spells(text, v) {
      Utf8RoundTrip(text);
      ReadsSpelled(text, v);
    }
  }
}
