/**
 `canonical_json` as it runs: on objects whose members come in some order, the
 keys are collected and sorted, and each is looked up and printed.
 */
module JsonPrinter {
  import opened Unicode
  import opened Json
  import opened JsonRoundTrip

  // --- sort_by(compare_utf16) --------------------------------------------------------

  function Insert(k: string, ks: seq<string>): seq<string> {
    if ks == [] || !KeyLess(ks[0], k) then [k] + ks else [ks[0]] + Insert(k, ks[1..])
  }

  /** The keys as sorting leaves them; keys that compare equal keep their order. */
  function SortKeys(ks: seq<string>): seq<string> {
    if ks == [] then [] else Insert(ks[0], SortKeys(ks[1..]))
  }

  /** No key is less than one before it. */
  predicate NeverDescends(ks: seq<string>) { forall i, j :: 0 <= i < j < |ks| ==> !KeyLess(ks[j], ks[i]) }

  predicate Distinct<T(==)>(xs: seq<T>) { forall i, j :: 0 <= i < j < |xs| ==> xs[i] != xs[j] }

  lemma {:induction false} InsertPermutes(k: string, ks: seq<string>)
    ensures multiset(Insert(k, ks)) == multiset([k] + ks)
  {
    hide KeyLess;
    if ks != [] {
      InsertPermutes(k, ks[1..]);
      assert ks == [ks[0]] + ks[1..];
    }
  }

  lemma {:induction false} InsertKeepsOrder(k: string, ks: seq<string>)
    requires NeverDescends(ks)
    ensures NeverDescends(Insert(k, ks))
  {
    hide KeyLess;
    if ks != [] && KeyLess(ks[0], k) {
      InsertKeepsOrder(k, ks[1..]);
      InsertPermutes(k, ks[1..]);
      var tail := Insert(k, ks[1..]);
      forall j | 0 <= j < |tail|
        ensures !KeyLess(tail[j], ks[0])
      {
        assert tail[j] in multiset([k] + ks[1..]);
        LessIsStrict(ks[0], k, k);
      }
    } else {
      forall j | 0 <= j < |ks|
        ensures !KeyLess(ks[j], k)
      {
        LessIsStrict(ks[j], k, ks[0]);
      }
    }
  }

  lemma LessIsStrict(a: string, b: string, c: string)
    ensures KeyLess(a, b) ==> !KeyLess(b, a)
    ensures KeyLess(a, b) ==> KeyLess(a, c) || KeyLess(c, b)
  {
    Utf16OrderIsTotal(a, b, c);
    Utf16OrderIsTotal(a, c, b);
    Utf16OrderIsTotal(c, b, a);
    Utf16OrderIsTotal(c, a, b);
  }

  /** Sorting rearranges the keys, and leaves none less than one before it. */
  lemma {:induction false} SortSorts(ks: seq<string>)
    ensures multiset(SortKeys(ks)) == multiset(ks)
    ensures NeverDescends(SortKeys(ks))
  {
    hide KeyLess, NeverDescends;
    if ks != [] {
      SortSorts(ks[1..]);
      InsertPermutes(ks[0], SortKeys(ks[1..]));
      InsertKeepsOrder(ks[0], SortKeys(ks[1..]));
      assert ks == [ks[0]] + ks[1..];
    } else {
      NoneDescends();
    }
  }

  lemma NoneDescends()
    ensures NeverDescends([])
  {
  }

  lemma SortKeepsKeys(ks: seq<string>)
    ensures |SortKeys(ks)| == |ks|
    ensures forall k :: k in SortKeys(ks) <==> k in ks
  {
    SortSorts(ks);
    assert |multiset(SortKeys(ks))| == |multiset(ks)|;
    forall k
      ensures k in SortKeys(ks) <==> k in ks
    {
      assert k in SortKeys(ks) <==> k in multiset(SortKeys(ks));
    }
  }

  lemma {:induction false} DistinctOccurOnce<T>(xs: seq<T>, x: T)
    requires Distinct(xs)
    ensures multiset(xs)[x] <= 1
  {
    if xs != [] {
      DistinctOccurOnce(xs[1..], x);
      assert xs == [xs[0]] + xs[1..];
      assert xs[0] !in xs[1..];
    }
  }

  lemma RearrangedStayDistinct<T>(xs: seq<T>, ys: seq<T>)
    requires Distinct(xs) && multiset(ys) == multiset(xs)
    ensures Distinct(ys)
  {
    forall i, j | 0 <= i < j < |ys|
      ensures ys[i] != ys[j]
    {
      DistinctOccurOnce(xs, ys[i]);
      assert ys == ys[..j] + ys[j..];
      assert ys[i] in ys[..j] && ys[j] in ys[j..];
    }
  }

  /** Distinct keys are sorted into the one ascending order of their set, however they came. */
  lemma SortGivesSortedKeys(ks: seq<string>)
    requires Distinct(ks)
    ensures SortKeys(ks) == SortedKeys(set k | k in ks)
  {
    hide KeyLess, SortKeys, SortedKeys;
    var sorted := SortKeys(ks);
    SortSorts(ks);
    SortKeepsKeys(ks);
    RearrangedStayDistinct(ks, sorted);
    forall i, j | 0 <= i < j < |sorted|
      ensures KeyLess(sorted[i], sorted[j])
    {
      LessOrEqual(sorted[i], sorted[j]);
    }
    SortIsUnique(sorted, set k | k in ks);
  }

  lemma LessOrEqual(a: string, b: string)
    ensures a == b || KeyLess(a, b) || KeyLess(b, a)
  {
    Utf16OrderIsTotal(a, b, b);
  }

  // --- Values whose members come in some order -------------------------------------------

  type Scalar = v: Json | !v.Arr? && !v.Obj? witness Null

  /** A JSON value as the map type iterates over it: every object lists its members. */
  datatype Tree =
    | Leaf(scalar: Scalar)
    | Items(items: seq<Tree>)
    | Members(members: seq<(string, Tree)>)

  function Keys(ms: seq<(string, Tree)>): (ks: seq<string>)
    ensures |ks| == |ms| && forall i :: 0 <= i < |ms| ==> ks[i] == ms[i].0
  {
    seq(|ms|, i requires 0 <= i < |ms| => ms[i].0)
  }

  /** Where the member `k` is listed. */
  function Position(ms: seq<(string, Tree)>, k: string): (i: nat)
    requires k in Keys(ms)
    ensures i < |ms| && ms[i].0 == k
  {
    assert forall i :: 0 < i < |ms| ==> Keys(ms)[i] == Keys(ms[1..])[i - 1];
    if ms[0].0 == k then 0 else 1 + Position(ms[1..], k)
  }

  /** `canonical_json_value`. */
  function Print(t: Tree): string {
    match t
    case Leaf(v) => Canonical(v)
    case Items(ts) => "[" + Joined(seq(|ts|, i requires 0 <= i < |ts| => Print(ts[i]))) + "]"
    case Members(ms) =>
      var ks := SortKeys(Keys(ms));
      SortKeepsKeys(Keys(ms));
      "{" + Joined(seq(|ks|, i requires 0 <= i < |ks| => Quote(ks[i]) + ":" + Print(ms[Position(ms, ks[i])].1))) + "}"
  }

  /** The value, without the order of its members. */
  function Value(t: Tree): Json {
    match t
    case Leaf(v) => v
    case Items(ts) => Arr(seq(|ts|, i requires 0 <= i < |ts| => Value(ts[i])))
    case Members(ms) => Obj(map k | k in Keys(ms) :: Value(ms[Position(ms, k)].1))
  }

  /** No object lists a key twice: what a map type guarantees. */
  predicate IsMap(t: Tree) {
    match t
    case Leaf(_) => true
    case Items(ts) => forall i :: 0 <= i < |ts| ==> IsMap(ts[i])
    case Members(ms) => Distinct(Keys(ms)) && forall i :: 0 <= i < |ms| ==> IsMap(ms[i].1)
  }

  /** The same value with the members of any of its objects listed in another order. */
  predicate Reordered(t: Tree, u: Tree) {
    match t
    case Leaf(v) => u == Leaf(v)
    case Items(ts) => u.Items? && |ts| == |u.items| && forall i :: 0 <= i < |ts| ==> Reordered(ts[i], u.items[i])
    case Members(ms) =>
      && u.Members?
      && (set k | k in Keys(ms)) == (set k | k in Keys(u.members))
      && forall i :: 0 <= i < |ms| ==>
           ms[i].0 in Keys(u.members) && Reordered(ms[i].1, u.members[Position(u.members, ms[i].0)].1)
  }

  /** Collecting, sorting and looking up prints the canonical text of the value. */
  lemma {:induction false} PrintIsCanonical(t: Tree)
    requires IsMap(t)
    ensures Print(t) == Canonical(Value(t))
  {
    hide Canonical, SortKeys, SortedKeys, Joined;
    CanonicalIsJoined(Value(t));
    match t
    case Leaf(_) =>
    case Items(ts) =>
      var texts := seq(|ts|, i requires 0 <= i < |ts| => Print(ts[i]));
      forall i | 0 <= i < |ts|
        ensures texts[i] == ItemTexts(Value(t).items)[i]
      {
        PrintIsCanonical(ts[i]);
      }
      assert texts == ItemTexts(Value(t).items);
    case Members(ms) =>
      var ks, m := SortKeys(Keys(ms)), Value(t).members;
      SortKeepsKeys(Keys(ms));
      SortGivesSortedKeys(Keys(ms));
      assert (set k | k in Keys(ms)) == m.Keys;
      var texts :=
        seq(|ks|, i requires 0 <= i < |ks| => Quote(ks[i]) + ":" + Print(ms[Position(ms, ks[i])].1));
      forall i | 0 <= i < |ks|
        ensures texts[i] == MemberTexts(Value(t), ks)[i]
      {
        PrintIsCanonical(ms[Position(ms, ks[i])].1);
      }
      assert texts == MemberTexts(Value(t), ks);
  }

  lemma {:induction false} PositionIsUnique(ms: seq<(string, Tree)>, i: nat)
    requires Distinct(Keys(ms)) && i < |ms|
    ensures ms[i].0 in Keys(ms) && Position(ms, ms[i].0) == i
  {
    hide Position;
    assert Keys(ms)[i] == ms[i].0;
    assert Keys(ms)[Position(ms, ms[i].0)] == Keys(ms)[i];
  }

  /** Equal values are exactly the reorderings of one another. */
  lemma {:induction false} ReorderedHasSameValue(t: Tree, u: Tree)
    requires IsMap(t) && IsMap(u)
    ensures Reordered(t, u) <==> Value(t) == Value(u)
    decreases t, 1
  {
    if t.Items? && u.Items? && |t.items| == |u.items| {
      forall i | 0 <= i < |t.items|
        ensures Reordered(t.items[i], u.items[i]) <==> Value(t).items[i] == Value(u).items[i]
      {
        ReorderedHasSameValue(t.items[i], u.items[i]);
      }
      assert Value(t) == Value(u) <==> forall i :: 0 <= i < |t.items| ==> Value(t).items[i] == Value(u).items[i];
    } else if t.Members? && u.Members? {
      MembersHaveSameValue(t, u);
    }
  }

  lemma {:induction false} MembersHaveSameValue(t: Tree, u: Tree)
    requires t.Members? && u.Members? && IsMap(t) && IsMap(u)
    ensures Reordered(t, u) <==> Value(t) == Value(u)
    decreases t, 0
  {
    hide Keys, Position;
    var ms, ns := t.members, u.members;
    var v, w := Value(t).members, Value(u).members;
    assert v.Keys == (set k | k in Keys(ms)) && w.Keys == (set k | k in Keys(ns));
    if v.Keys == w.Keys {
      forall i | 0 <= i < |ms|
        ensures ms[i].0 in Keys(ns)
        ensures Reordered(ms[i].1, ns[Position(ns, ms[i].0)].1) <==> v[ms[i].0] == w[ms[i].0]
      {
        assert Keys(ms)[i] == ms[i].0 && ms[i].0 in v.Keys;
        PositionIsUnique(ms, i);
        ReorderedHasSameValue(ms[i].1, ns[Position(ns, ms[i].0)].1);
      }
      SameUnderAllKeys(ms, v, w);
    }
  }

  lemma SameUnderAllKeys(ms: seq<(string, Tree)>, v: map<string, Json>, w: map<string, Json>)
    requires v.Keys == w.Keys == set k | k in Keys(ms)
    ensures forall i :: 0 <= i < |ms| ==> ms[i].0 in v.Keys
    ensures v == w <==> forall i :: 0 <= i < |ms| ==> v[ms[i].0] == w[ms[i].0]
  {
    hide Keys;
    forall i | 0 <= i < |ms|
      ensures ms[i].0 in v.Keys
    {
      assert Keys(ms)[i] == ms[i].0;
    }
    if forall i :: 0 <= i < |ms| ==> v[ms[i].0] == w[ms[i].0] {
      forall k | k in v
        ensures v[k] == w[k]
      {
        var i :| 0 <= i < |ms| && Keys(ms)[i] == k;
      }
      assert v == w;
    }
  }

  /** Two listings print alike exactly when they differ at most in the order of members, at any depth. */
  lemma PrintsAlikeExactlyWhenReordered(t: Tree, u: Tree)
    requires IsMap(t) && IsMap(u)
    ensures Print(t) == Print(u) <==> Reordered(t, u)
  {
    hide Print, Reordered, Value, IsMap;
    PrintIsCanonical(t);
    PrintIsCanonical(u);
    CanonicalInjective(Value(t), Value(u));
    ReorderedHasSameValue(t, u);
  }

  /** Every permutation of the members of an object prints as the same text. */
  lemma PermutedMembersPrintAlike(ms: seq<(string, Tree)>, ns: seq<(string, Tree)>)
    requires IsMap(Members(ms)) && multiset(ms) == multiset(ns)
    ensures IsMap(Members(ns)) && Print(Members(ns)) == Print(Members(ms))
  {
    hide Print, Value;
    PermutedIsMap(ms, ns);
    forall i | 0 <= i < |ms|
      ensures ms[i].0 in Keys(ns) && ns[Position(ns, ms[i].0)] == ms[i]
    {
      var j := Listed(ms, ns, i);
      PositionIsUnique(ns, j);
    }
    forall j | 0 <= j < |ns|
      ensures ns[j].0 in Keys(ms)
    {
      var i := Listed(ns, ms, j);
      PositionIsUnique(ms, i);
    }
    forall i | 0 <= i < |ms|
      ensures Reordered(ms[i].1, ms[i].1)
    {
      ReorderedHasSameValue(ms[i].1, ms[i].1);
    }
    PrintsAlikeExactlyWhenReordered(Members(ms), Members(ns));
  }

  lemma Listed<T>(xs: seq<T>, ys: seq<T>, i: nat) returns (j: nat)
    requires multiset(xs) == multiset(ys) && i < |xs|
    ensures j < |ys| && ys[j] == xs[i]
  {
    assert xs[i] in multiset(ys);
    j :| j < |ys| && ys[j] == xs[i];
  }

  lemma PermutedIsMap(ms: seq<(string, Tree)>, ns: seq<(string, Tree)>)
    requires IsMap(Members(ms)) && multiset(ms) == multiset(ns)
    ensures IsMap(Members(ns))
  {
    assert forall i, j :: 0 <= i < j < |ms| ==> Keys(ms)[i] != Keys(ms)[j];
    RearrangedStayDistinct(ms, ns);
    forall i, j | 0 <= i < j < |ns|
      ensures Keys(ns)[i] != Keys(ns)[j]
    {
      var p := Listed(ns, ms, i);
      var q := Listed(ns, ms, j);
      assert Keys(ms)[p] == ns[i].0 && Keys(ms)[q] == ns[j].0;
      assert ns[i] != ns[j];
    }
    forall i | 0 <= i < |ns|
      ensures IsMap(ns[i].1)
    {
      var p := Listed(ns, ms, i);
      assert IsMap(ms[p].1);
    }
  }
}
