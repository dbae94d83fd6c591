/** Summaries over the actions of a run. */
module Rollup {
  import opened Wrappers
  import opened Recording
  import opened Evidence

  /** The position in the roll-up order; a class outside the vocabulary ranks with `unknown`. */
  function ClassRank(cls: string): nat {
    if cls == "read" then 0
    else if cls == "mutate-local" then 1
    else if cls == "mutate-external" then 2
    else if cls == "network-egress" then 3
    else 4
  }

  /** The classes a roll-up orders, lowest first; all others stand above them, with `unknown`. */
  const CLASSES := ["read", "mutate-local", "mutate-external", "network-egress"]

  predicate NoHigher(a: string, b: string) {
    b !in CLASSES || exists i, j :: 0 <= i <= j < |CLASSES| && CLASSES[i] == a && CLASSES[j] == b
  }

  lemma RankIsPosition(cls: string)
    ensures ClassRank(cls) <= 4 == |CLASSES|
    ensures ClassRank(cls) == 4 <==> cls !in CLASSES
    ensures forall i :: 0 <= i < |CLASSES| ==> (CLASSES[i] == cls <==> ClassRank(cls) == i)
  {
  }

  /** One class ranks no higher than another exactly when it stands no later in the vocabulary. */
  lemma RanksClasses(a: string, b: string)
    ensures ClassRank(a) <= ClassRank(b) <==> NoHigher(a, b)
  {
    hide ClassRank, CLASSES;
    RankIsPosition(a);
    RankIsPosition(b);
    if b in CLASSES && ClassRank(a) <= ClassRank(b) {
      assert CLASSES[ClassRank(a)] == a && CLASSES[ClassRank(b)] == b;
    }
  }

  /** `max_by_key` between an earlier and a later candidate: the later one wins a tie. */
  function LaterMax(earlier: Option<string>, later: Option<string>): Option<string> {
    if earlier.None? then later
    else if later.None? then earlier
    else if ClassRank(later.value) >= ClassRank(earlier.value) then later
    else earlier
  }

  function RunSideEffectClassMax(evidence: seq<ActionEvidence>): Option<string> {
    if evidence == [] then None
    else LaterMax(evidence[0].sideEffectClass, RunSideEffectClassMax(evidence[1..]))
  }

  /** Action `i` carries the class `cls`, nothing outranks it and nothing after it ties. */
  ghost predicate LastOfMaxRank(evidence: seq<ActionEvidence>, cls: string, i: nat)
    requires i < |evidence|
  {
    && evidence[i].sideEffectClass == Some(cls)
    && forall j :: 0 <= j < |evidence| && evidence[j].sideEffectClass.Some? ==>
         var rank := ClassRank(evidence[j].sideEffectClass.value);
         rank <= ClassRank(cls) && (j > i ==> rank < ClassRank(cls))
  }

  lemma LaterMaxAssociative(a: Option<string>, b: Option<string>, c: Option<string>)
    ensures LaterMax(LaterMax(a, b), c) == LaterMax(a, LaterMax(b, c))
  {
    hide ClassRank;
  }

  /** The class roll-up distributes over concatenation. */
  lemma {:induction false} ClassMaxConcat(xs: seq<ActionEvidence>, ys: seq<ActionEvidence>)
    ensures RunSideEffectClassMax(xs + ys) == LaterMax(RunSideEffectClassMax(xs), RunSideEffectClassMax(ys))
  {
    hide ClassRank;
    if xs == [] {
      assert xs + ys == ys;
    } else {
      assert (xs + ys)[1..] == xs[1..] + ys;
      ClassMaxConcat(xs[1..], ys);
      LaterMaxAssociative(xs[0].sideEffectClass, RunSideEffectClassMax(xs[1..]), RunSideEffectClassMax(ys));
    }
  }

  /** The roll-up is the last class of greatest rank. */
  lemma {:induction false} ClassMaxIsLastOfMaxRank(evidence: seq<ActionEvidence>)
    ensures RunSideEffectClassMax(evidence).None? <==>
            forall i :: 0 <= i < |evidence| ==> evidence[i].sideEffectClass.None?
    ensures RunSideEffectClassMax(evidence).Some? ==>
              exists i: nat :: i < |evidence| && LastOfMaxRank(evidence, RunSideEffectClassMax(evidence).value, i)
  {
    hide ClassRank;
    if evidence != [] {
      var head, tail := evidence[0].sideEffectClass, evidence[1..];
      ClassMaxIsLastOfMaxRank(tail);
      assert forall i :: 0 < i < |evidence| ==> evidence[i] == tail[i - 1];
      var rest := RunSideEffectClassMax(tail);
      if rest.Some? {
        var i: nat :| i < |tail| && LastOfMaxRank(tail, rest.value, i);
        if LaterMax(head, rest) == rest {
          assert LastOfMaxRank(evidence, rest.value, i + 1);
        } else {
          assert LastOfMaxRank(evidence, head.value, 0);
        }
      } else if head.Some? {
        assert LastOfMaxRank(evidence, head.value, 0);
      }
    }
  }

  /** No action of `evidence` has a class of rank `rank` or above. */
  predicate RanksBelow(evidence: seq<ActionEvidence>, rank: nat) {
    forall i :: 0 <= i < |evidence| && evidence[i].sideEffectClass.Some? ==>
      ClassRank(evidence[i].sideEffectClass.value) < rank
  }

  lemma {:induction false} RollupRanksBelow(evidence: seq<ActionEvidence>, rank: nat)
    ensures RanksBelow(evidence, rank) <==>
            var cls := RunSideEffectClassMax(evidence);
            cls.Some? ==> ClassRank(cls.value) < rank
  {
    hide ClassRank, RunSideEffectClassMax, LaterMax;
    ClassMaxIsLastOfMaxRank(evidence);
    var cls := RunSideEffectClassMax(evidence);
    if cls.Some? {
      var i: nat :| i < |evidence| && LastOfMaxRank(evidence, cls.value, i);
    }
  }

  /**
   Replacing one action of a run lowers the class it rolls up to exactly when
   the new action ranks lower and every other one ranks below the old.
   */
  lemma ReplacementLowersRollup(
    xs: seq<ActionEvidence>, a: ActionEvidence, b: ActionEvidence, ys: seq<ActionEvidence>)
    requires a.sideEffectClass.Some? && b.sideEffectClass.Some?
    ensures var before, after := RunSideEffectClassMax(xs + [a] + ys), RunSideEffectClassMax(xs + [b] + ys);
            var rank := ClassRank(a.sideEffectClass.value);
            && before.Some? && after.Some?
            && (ClassRank(after.value) < ClassRank(before.value) <==>
                ClassRank(b.sideEffectClass.value) < rank && RanksBelow(xs, rank) && RanksBelow(ys, rank))
  {
    hide ClassRank, RanksBelow;
    var rank := ClassRank(a.sideEffectClass.value);
    ClassMaxConcat(xs + [a], ys);
    ClassMaxConcat(xs + [b], ys);
    ClassMaxConcat(xs, [a]);
    ClassMaxConcat(xs, [b]);
    RollupOfOne(a);
    RollupOfOne(b);
    RollupRanksBelow(xs, rank);
    RollupRanksBelow(ys, rank);
  }

  lemma RollupOfOne(a: ActionEvidence)
    ensures RunSideEffectClassMax([a]) == a.sideEffectClass
  {
    assert [a][1..] == [];
    assert RunSideEffectClassMax([]) == None;
  }

  function StricterMode(earlier: Option<RecordingMode>, later: Option<RecordingMode>): Option<RecordingMode> {
    if earlier.None? then later
    else if later.None? then earlier
    else if later.value.Rank() >= earlier.value.Rank() then later
    else earlier
  }

  function StrictestRecordingMode(evidence: seq<ActionEvidence>): Option<RecordingMode> {
    if evidence == [] then None
    else StricterMode(Some(evidence[0].recordingMode), StrictestRecordingMode(evidence[1..]))
  }

  lemma {:induction false} StrictestConcat(xs: seq<ActionEvidence>, ys: seq<ActionEvidence>)
    ensures StrictestRecordingMode(xs + ys) == StricterMode(StrictestRecordingMode(xs), StrictestRecordingMode(ys))
  {
    if xs == [] {
      assert xs + ys == ys;
    } else {
      assert (xs + ys)[1..] == xs[1..] + ys;
      StrictestConcat(xs[1..], ys);
    }
  }

  /** The strictest mode is carried by some action and none is stricter. */
  lemma {:induction false} StrictestIsGreatest(evidence: seq<ActionEvidence>)
    requires evidence != []
    ensures StrictestRecordingMode(evidence).Some?
    ensures var mode := StrictestRecordingMode(evidence).value;
            && (exists i :: 0 <= i < |evidence| && evidence[i].recordingMode == mode)
            && forall i :: 0 <= i < |evidence| ==> evidence[i].recordingMode.Rank() <= mode.Rank()
  {
    if |evidence| > 1 {
      StrictestIsGreatest(evidence[1..]);
      var mode := StrictestRecordingMode(evidence[1..]).value;
      var i :| 0 <= i < |evidence[1..]| && evidence[1..][i].recordingMode == mode;
      assert evidence[i + 1].recordingMode == mode;
      assert forall j :: 0 < j < |evidence| ==> evidence[j] == evidence[1..][j - 1];
    }
  }

  predicate Carries(evidence: seq<ActionEvidence>, mode: RecordingMode) {
    exists i :: 0 <= i < |evidence| && evidence[i].recordingMode == mode
  }

  /** Full if any action was recorded in full, else the difference mode if any, else validation if any action. */
  lemma {:induction false} StrictestExactly(evidence: seq<ActionEvidence>)
    ensures StrictestRecordingMode(evidence)
         == if Carries(evidence, Full) then Some(Full)
            else if Carries(evidence, Delta) then Some(Delta)
            else if Carries(evidence, Validation) then Some(Validation)
            else None
  {
    if evidence != [] {
      StrictestExactly(evidence[1..]);
      CarriesUnfolds(evidence, Full);
      CarriesUnfolds(evidence, Delta);
      CarriesUnfolds(evidence, Validation);
    }
  }

  lemma CarriesUnfolds(evidence: seq<ActionEvidence>, mode: RecordingMode)
    requires evidence != []
    ensures Carries(evidence, mode) <==> evidence[0].recordingMode == mode || Carries(evidence[1..], mode)
  {
    if i :| 0 <= i < |evidence[1..]| && evidence[1..][i].recordingMode == mode {
      assert evidence[i + 1].recordingMode == mode;
    }
  }
}
