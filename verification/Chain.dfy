/** The status of a chain of records, each naming the digest of the one before it. */
module Chain {
  import opened Wrappers
  import opened Unicode
  import opened Hex
  import opened Json
  import opened Evidence
  import opened EvidenceJson
  import opened EvidenceReread
  import opened Crypto
  import opened Dsse
  import opened DsseProofs

  datatype ChainStatus = NotPresent | Orphaned | Broken | Partial | Intact

  const LINK_KEY := "prev_record_hash"

  /** The digest a record claims for its predecessor; anything but a string is no link. */
  function Link(r: AepRecord): Option<string> {
    if LINK_KEY in r.extra && r.extra[LINK_KEY].Str? then Some(r.extra[LINK_KEY].s) else None
  }

  /** The digest a successor should claim. */
  function RecordHash(c: Suite, r: AepRecord): string { DigestText(c, PredicateBytes(r)) }

  predicate MismatchAt(c: Suite, rs: seq<AepRecord>, i: nat)
    requires 0 < i < |rs|
  {
    Link(rs[i]).Some? && Link(rs[i]).value != RecordHash(c, rs[i - 1])
  }

  predicate LinkedAt(c: Suite, rs: seq<AepRecord>, i: nat)
    requires 0 < i < |rs|
  {
    Link(rs[i]) == Some(RecordHash(c, rs[i - 1]))
  }

  /** The five verdicts, in terms of the links alone. */
  function StatusOf(c: Suite, rs: seq<AepRecord>): ChainStatus {
    if |rs| == 0 then NotPresent
    else if |rs| == 1 then if Link(rs[0]).Some? then Orphaned else NotPresent
    else if exists i :: 0 < i < |rs| && MismatchAt(c, rs, i) then Broken
    else if forall i :: 0 < i < |rs| ==> Link(rs[i]).None? then NotPresent
    else if exists i :: 0 < i < |rs| && Link(rs[i]).None? then Partial
    else if Link(rs[0]).Some? then Orphaned
    else Intact
  }

  /** `chain_status`. */
  method FindChainStatus(c: Suite, records: seq<AepRecord>) returns (status: ChainStatus)
    ensures status == StatusOf(c, records)
  {
    hide RecordHash;
    if |records| == 0 {
      return NotPresent;
    }
    if |records| == 1 {
      return if Link(records[0]).Some? then Orphaned else NotPresent;
    }
    var linked, missing := 0, 0;
    for i := 1 to |records|
      invariant 0 <= linked && 0 <= missing
      invariant linked == 0 <==> forall j :: 0 < j < i ==> Link(records[j]).None?
      invariant missing == 0 <==> forall j :: 0 < j < i ==> Link(records[j]).Some?
      invariant forall j :: 0 < j < i ==> !MismatchAt(c, records, j)
    {
      match Link(records[i]) {
        case None =>
          missing := missing + 1;
        case Some(claimed) =>
          var expected := RecordHash(c, records[i - 1]);
          if claimed != expected {
            assert MismatchAt(c, records, i);
            return Broken;
          }
          linked := linked + 1;
      }
    }
    if linked == 0 {
      return NotPresent;
    }
    if missing > 0 {
      return Partial;
    }
    if Link(records[0]).Some? {
      return Orphaned;
    }
    return Intact;
  }

  // --- Slicing and gluing ----------------------------------------------------------------

  /** Every record after the first claims the digest of the one before it. */
  ghost predicate Linked(c: Suite, rs: seq<AepRecord>) {
    forall i :: 0 < i < |rs| ==> LinkedAt(c, rs, i)
  }

  /** A fully linked chain is orphaned when it claims a predecessor outside it, intact when it starts history. */
  lemma LinkedStatus(c: Suite, rs: seq<AepRecord>)
    ensures StatusOf(c, rs) == Intact <==> |rs| >= 2 && Link(rs[0]).None? && Linked(c, rs)
    ensures StatusOf(c, rs) == Orphaned <==> |rs| >= 1 && Link(rs[0]).Some? && Linked(c, rs)
  {
    hide Link, RecordHash;
    if |rs| >= 2 {
      forall i | 0 < i < |rs|
        ensures LinkedAt(c, rs, i) <==> Link(rs[i]).Some? && !MismatchAt(c, rs, i)
      {
      }
      assert LinkedAt(c, rs, 1) ==> Link(rs[1]).Some?;
    }
  }

  /** The other verdicts: a wrong claim, no claim at all after the first record, or some claims missing. */
  lemma UnlinkedStatus(c: Suite, rs: seq<AepRecord>)
    ensures StatusOf(c, rs) == Broken <==> exists i :: 0 < i < |rs| && MismatchAt(c, rs, i)
    ensures StatusOf(c, rs) == NotPresent <==>
            (forall i :: 0 < i < |rs| ==> Link(rs[i]).None?) && (|rs| == 1 ==> Link(rs[0]).None?)
    ensures StatusOf(c, rs) == Partial <==>
            && (forall i :: 0 < i < |rs| ==> Link(rs[i]).None? || LinkedAt(c, rs, i))
            && (exists i :: 0 < i < |rs| && Link(rs[i]).None?)
            && (exists i :: 0 < i < |rs| && Link(rs[i]).Some?)
  {
    hide Link, RecordHash;
    forall i | 0 < i < |rs|
      ensures LinkedAt(c, rs, i) <==> Link(rs[i]).Some? && !MismatchAt(c, rs, i)
    {
    }
  }

  /** A claim is a string member of the catch-all; anything else is none. */
  lemma LinkReads(r: AepRecord)
    ensures Link(r).None? <==> forall h :: Lookup(r.extra, "prev_record_hash") != Some(Str(h))
    ensures forall h :: Link(r) == Some(h) <==> Lookup(r.extra, "prev_record_hash") == Some(Str(h))
  {
    if Link(r).Some? {
      assert Lookup(r.extra, "prev_record_hash") == Some(Str(Link(r).value));
    }
  }

  /** A link fits when it is the hexadecimal digest of the canonical text of the unsigned record before it. */
  lemma LinkedAtReads(c: Suite, rs: seq<AepRecord>, i: nat)
    requires 0 < i < |rs|
    ensures var unsigned := rs[i - 1].(signature := None, dsseEnvelope := None);
            var digest := c.sha256(Utf8(Canonical(Obj(WriteRecord(unsigned)))));
            LinkedAt(c, rs, i) <==> Lookup(rs[i].extra, "prev_record_hash") == Some(Str(HexText(digest)))
  {
    hide Link, Canonical, Utf8, HexText, WriteRecord;
    LinkReads(rs[i]);
  }

  lemma PrefixIsLinked(c: Suite, rs: seq<AepRecord>, n: nat)
    requires Linked(c, rs) && n <= |rs|
    ensures Linked(c, rs[..n])
  {
    hide Link, RecordHash;
    forall i | 0 < i < n
      ensures LinkedAt(c, rs[..n], i)
    {
      assert LinkedAt(c, rs, i);
    }
  }

  /** A prefix of at least two records of an intact chain is intact. */
  lemma PrefixIsIntact(c: Suite, rs: seq<AepRecord>, n: nat)
    requires StatusOf(c, rs) == Intact && 2 <= n <= |rs|
    ensures StatusOf(c, rs[..n]) == Intact
  {
    hide Link, RecordHash, StatusOf;
    LinkedStatus(c, rs);
    LinkedStatus(c, rs[..n]);
    PrefixIsLinked(c, rs, n);
  }

  /** Every proper non-empty suffix of an intact chain is orphaned. */
  lemma SuffixIsOrphaned(c: Suite, rs: seq<AepRecord>, k: nat)
    requires StatusOf(c, rs) == Intact && 0 < k < |rs|
    ensures StatusOf(c, rs[k..]) == Orphaned
  {
    hide Link, RecordHash, StatusOf;
    LinkedStatus(c, rs);
    LinkedStatus(c, rs[k..]);
    assert LinkedAt(c, rs, k);
    forall i | 0 < i < |rs[k..]|
      ensures LinkedAt(c, rs[k..], i)
    {
      assert LinkedAt(c, rs, k + i);
    }
  }

  /** A concatenation is intact exactly when an intact part is followed by an orphaned one that fits it. */
  lemma GluedIsIntact(c: Suite, rs: seq<AepRecord>, ss: seq<AepRecord>)
    requires |rs| >= 2 && ss != []
    ensures StatusOf(c, rs + ss) == Intact <==>
            && StatusOf(c, rs) == Intact
            && StatusOf(c, ss) == Orphaned
            && Link(ss[0]) == Some(RecordHash(c, rs[|rs| - 1]))
  {
    hide Link, RecordHash, StatusOf;
    var all := rs + ss;
    LinkedStatus(c, all);
    LinkedStatus(c, rs);
    LinkedStatus(c, ss);
    if StatusOf(c, all) == Intact {
      PrefixIsIntact(c, all, |rs|);
      SuffixIsOrphaned(c, all, |rs|);
      assert all[..|rs|] == rs && all[|rs|..] == ss;
      assert LinkedAt(c, all, |rs|);
    }
    if StatusOf(c, rs) == Intact && StatusOf(c, ss) == Orphaned && Link(ss[0]) == Some(RecordHash(c, rs[|rs| - 1])) {
      forall i | 0 < i < |all|
        ensures LinkedAt(c, all, i)
      {
        if i < |rs| {
          assert LinkedAt(c, rs, i);
        } else if i > |rs| {
          assert LinkedAt(c, ss, i - |rs|);
        }
      }
    }
  }

  // --- The head determines the history -----------------------------------------------------

  lemma LinkKeyIsUnmodelled(f: RecordField)
    ensures f.Name() != LINK_KEY
  {
    assert Tag(LINK_KEY) == 16 * 128 + 112;
    RecordNameTag(f);
  }

  /** Records with the same unsigned document make the same claim. */
  lemma LinkIsInPredicate(r: AepRecord, s: AepRecord)
    requires Predicate(r) == Predicate(s)
    ensures Link(r) == Link(s)
  {
    hide RecordField.Name, WriteRecord;
    forall f: RecordField
      ensures f.Name() != LINK_KEY
    {
      LinkKeyIsUnmodelled(f);
    }
    OtherMember(Strip(r), LINK_KEY);
    OtherMember(Strip(s), LINK_KEY);
  }

  /** The records `back` places before the ends of two chains collide. */
  ghost predicate CollisionAt(c: Suite, rs: seq<AepRecord>, ss: seq<AepRecord>, back: nat) {
    && back < |rs| && back < |ss|
    && Collision(c, PredicateBytes(rs[|rs| - 1 - back]), PredicateBytes(ss[|ss| - 1 - back]))
  }

  ghost predicate SameHistory(rs: seq<AepRecord>, ss: seq<AepRecord>) {
    |rs| == |ss| && forall i :: 0 <= i < |rs| ==> Predicate(rs[i]) == Predicate(ss[i])
  }

  /**
   Complete chains that agree on the last record agree on every record, or two
   records at the same distance from the end collide.
   */
  lemma {:induction false} LastDeterminesAll(c: Suite, rs: seq<AepRecord>, ss: seq<AepRecord>)
    requires rs != [] && ss != [] && Link(rs[0]).None? && Link(ss[0]).None?
    requires Linked(c, rs) && Linked(c, ss)
    requires Predicate(rs[|rs| - 1]) == Predicate(ss[|ss| - 1])
    ensures SameHistory(rs, ss) || exists back :: CollisionAt(c, rs, ss, back)
    decreases |rs|
  {
    hide Link, Predicate, PredicateBytes, HexText;
    var n, m := |rs|, |ss|;
    LinkIsInPredicate(rs[n - 1], ss[m - 1]);
    if n >= 2 {
      assert LinkedAt(c, rs, n - 1);
    }
    if m >= 2 {
      assert LinkedAt(c, ss, m - 1);
    }
    if n >= 2 && m >= 2 {
      HexTextInjective(c.sha256(PredicateBytes(rs[n - 2])), c.sha256(PredicateBytes(ss[m - 2])));
      if PredicateBytes(rs[n - 2]) != PredicateBytes(ss[m - 2]) {
        assert CollisionAt(c, rs, ss, 1);
      } else {
        SameBytesSamePredicate(rs[n - 2], ss[m - 2]);
        LastDeterminesAllBefore(c, rs, ss);
      }
    }
  }

  lemma {:induction false} LastDeterminesAllBefore(c: Suite, rs: seq<AepRecord>, ss: seq<AepRecord>)
    requires |rs| >= 2 && |ss| >= 2 && Link(rs[0]).None? && Link(ss[0]).None?
    requires Linked(c, rs) && Linked(c, ss)
    requires Predicate(rs[|rs| - 1]) == Predicate(ss[|ss| - 1])
    requires Predicate(rs[|rs| - 2]) == Predicate(ss[|ss| - 2])
    ensures SameHistory(rs, ss) || exists back :: CollisionAt(c, rs, ss, back)
    decreases |rs|, 0
  {
    hide Link, Predicate, PredicateBytes, RecordHash;
    var before, before' := rs[..|rs| - 1], ss[..|ss| - 1];
    PrefixIsLinked(c, rs, |rs| - 1);
    PrefixIsLinked(c, ss, |ss| - 1);
    LastDeterminesAll(c, before, before');
    if SameHistory(before, before') {
      forall i | 0 <= i < |rs|
        ensures Predicate(rs[i]) == Predicate(ss[i])
      {
        if i < |before| {
          assert Predicate(before[i]) == Predicate(before'[i]);
        }
      }
    } else {
      var back: nat :| CollisionAt(c, before, before', back);
      assert CollisionAt(c, rs, ss, back + 1);
    }
  }

  lemma SameBytesSamePredicate(r: AepRecord, s: AepRecord)
    requires PredicateBytes(r) == PredicateBytes(s)
    ensures Predicate(r) == Predicate(s)
  {
    SamePredicate(r, s);
  }

  /**
   Two intact chains whose heads have the same digest are the same history, or
   an explicit pair of their records collides.
   */
  lemma HeadDeterminesHistory(c: Suite, rs: seq<AepRecord>, ss: seq<AepRecord>)
    requires StatusOf(c, rs) == Intact && StatusOf(c, ss) == Intact
    requires RecordHash(c, rs[|rs| - 1]) == RecordHash(c, ss[|ss| - 1])
    ensures SameHistory(rs, ss) || exists back :: CollisionAt(c, rs, ss, back)
  {
    hide Link, Predicate, PredicateBytes, StatusOf, Linked, HexText;
    LinkedStatus(c, rs);
    LinkedStatus(c, ss);
    var r, s := rs[|rs| - 1], ss[|ss| - 1];
    HexTextInjective(c.sha256(PredicateBytes(r)), c.sha256(PredicateBytes(s)));
    if PredicateBytes(r) != PredicateBytes(s) {
      assert CollisionAt(c, rs, ss, 0);
    } else {
      SameBytesSamePredicate(r, s);
      LastDeterminesAll(c, rs, ss);
    }
  }
}
