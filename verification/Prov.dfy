/** Provenance graphs and the traversal from an entity to the activities behind it. */
module Prov {
  import opened Wrappers

  datatype ProvActivity = ProvActivity(
    id: string, labelText: string, used: seq<string>, generated: seq<string>, timestampMs: u64)

  datatype ProvEntity = ProvEntity(id: string, digest: Option<string>, generatedBy: Option<string>)

  datatype ProvAgent = ProvAgent(id: string, labelText: string)

  /** Any graph: cyclic, or naming entities and activities it does not hold. */
  datatype ProvGraph = ProvGraph(
    activities: map<string, ProvActivity>,
    entities: map<string, ProvEntity>,
    agents: map<string, ProvAgent>)

  /** The activity that generated an entity, if the graph knows the entity and its origin. */
  function Generator(g: ProvGraph, e: string): Option<string> {
    if e in g.entities then g.entities[e].generatedBy else None
  }

  /** The entities an activity used; none for an activity the graph does not hold. */
  function Used(g: ProvGraph, a: string): seq<string> {
    if a in g.activities then g.activities[a].used else []
  }

  // --- Reachability ------------------------------------------------------------------------

  /** One step upstream: `y` was used by the activity that generated `x`. */
  predicate Step(g: ProvGraph, x: string, y: string) {
    Generator(g, x).Some? && y in Used(g, Generator(g, x).value)
  }

  predicate IsPath(g: ProvGraph, p: seq<string>) {
    p != [] && forall i :: 0 <= i < |p| - 1 ==> Step(g, p[i], p[i + 1])
  }

  ghost predicate Reaches(g: ProvGraph, e: string, x: string) {
    exists p :: IsPath(g, p) && p[0] == e && p[|p| - 1] == x
  }

  /** Activity `a` transitively produced entity `e`. */
  ghost predicate IsAncestor(g: ProvGraph, e: string, a: string) {
    exists x :: Reaches(g, e, x) && Generator(g, x) == Some(a)
  }

  lemma ReachesSelf(g: ProvGraph, e: string)
    ensures Reaches(g, e, e)
  {
    assert IsPath(g, [e]);
  }

  lemma ReachesConcat(g: ProvGraph, e: string, x: string, y: string, z: string)
    requires Reaches(g, e, x) && Step(g, x, y) && Reaches(g, y, z)
    ensures Reaches(g, e, z)
  {
    var p :| IsPath(g, p) && p[0] == e && p[|p| - 1] == x;
    var q :| IsPath(g, q) && q[0] == y && q[|q| - 1] == z;
    assert IsPath(g, p + q);
  }

  lemma PathTail(g: ProvGraph, p: seq<string>)
    requires IsPath(g, p) && |p| > 1
    ensures IsPath(g, p[1..])
  {
    forall i | 0 <= i < |p[1..]| - 1
      ensures Step(g, p[1..][i], p[1..][i + 1])
    {
      assert Step(g, p[i + 1], p[i + 1 + 1]);
    }
  }

  lemma {:induction false} PathStaysIn(g: ProvGraph, p: seq<string>, closed: set<string>)
    requires IsPath(g, p) && p[0] in closed
    requires forall x, y :: x in closed && Step(g, x, y) ==> y in closed
    ensures p[|p| - 1] in closed
    decreases |p|
  {
    if |p| > 1 {
      assert Step(g, p[0], p[1]);
      PathTail(g, p);
      PathStaysIn(g, p[1..], closed);
    }
  }

  // --- ProvGraph::ancestors ----------------------------------------------------------------

  predicate NoRepeats(s: seq<string>) { forall i, j :: 0 <= i < j < |s| ==> s[i] != s[j] }

  /** What the listed activities used. */
  function UsedBy(g: ProvGraph, activities: seq<string>): set<string> {
    set a, u | a in activities && u in Used(g, a) :: u
  }

  function Generators(g: ProvGraph): set<string> {
    set e | e in g.entities && g.entities[e].generatedBy.Some? :: g.entities[e].generatedBy.value
  }

  /** The first activity generated the entity asked for; each later one, an entity some earlier one used. */
  ghost predicate DiscoveredAt(g: ProvGraph, e: string, ancestors: seq<string>, i: nat)
    requires i < |ancestors|
  {
    if i == 0 then Generator(g, e) == Some(ancestors[0])
    else exists u :: u in UsedBy(g, ancestors[..i]) && Generator(g, u) == Some(ancestors[i])
  }

  ghost predicate InDiscoveryOrder(g: ProvGraph, e: string, ancestors: seq<string>) {
    forall i :: 0 <= i < |ancestors| ==> DiscoveredAt(g, e, ancestors, i)
  }

  lemma DiscoveryGrows(g: ProvGraph, e: string, ancestors: seq<string>, eid: string, a: string)
    requires InDiscoveryOrder(g, e, ancestors) && Generator(g, eid) == Some(a)
    requires if ancestors == [] then eid == e else eid in UsedBy(g, ancestors)
    ensures InDiscoveryOrder(g, e, ancestors + [a])
  {
    var longer := ancestors + [a];
    forall i | 0 <= i < |longer|
      ensures DiscoveredAt(g, e, longer, i)
    {
      if i < |ancestors| {
        assert DiscoveredAt(g, e, ancestors, i);
        assert longer[..i] == ancestors[..i];
      } else {
        assert longer[..i] == ancestors;
      }
    }
  }

  lemma {:induction false} NoRepeatsFit(s: seq<string>, universe: set<string>)
    requires NoRepeats(s) && forall x :: x in s ==> x in universe
    ensures |s| <= |universe|
    decreases |s|
  {
    if s != [] {
      assert forall x :: x in s[1..] ==> x in universe - {s[0]};
      NoRepeatsFit(s[1..], universe - {s[0]});
    }
  }

  /** What the traversal has seen leads to all there is to see. */
  lemma SeenIsComplete(g: ProvGraph, e: string, seenEntities: set<string>, ancestors: seq<string>)
    requires e in seenEntities
    requires forall x :: x in seenEntities && Generator(g, x).Some? ==> Generator(g, x).value in ancestors
    requires UsedBy(g, ancestors) <= seenEntities
    ensures forall a :: IsAncestor(g, e, a) ==> a in ancestors
  {
    forall a | IsAncestor(g, e, a)
      ensures a in ancestors
    {
      var x :| Reaches(g, e, x) && Generator(g, x) == Some(a);
      var p :| IsPath(g, p) && p[0] == e && p[|p| - 1] == x;
      forall y, z | y in seenEntities && Step(g, y, z)
        ensures z in seenEntities
      {
        assert z in UsedBy(g, ancestors);
      }
      PathStaysIn(g, p, seenEntities);
    }
  }

  /** Entities already popped and entities still on the stack: no repeats, together all that was seen. */
  ghost predicate Frontier(popped: seq<string>, stack: seq<string>, seen: set<string>) {
    && NoRepeats(popped) && NoRepeats(stack)
    && (forall x :: x in popped ==> x !in stack)
    && (forall x :: x in seen <==> x in popped || x in stack)
  }

  lemma FrontierPops(popped: seq<string>, stack: seq<string>, seen: set<string>)
    requires Frontier(popped, stack, seen) && stack != []
    ensures var eid := stack[|stack| - 1];
            && eid in seen && eid !in popped
            && Frontier(popped + [eid], stack[..|stack| - 1], seen)
  {
    var eid, rest := stack[|stack| - 1], stack[..|stack| - 1];
    assert stack == rest + [eid];
  }

  lemma FrontierPushes(popped: seq<string>, stack: seq<string>, seen: set<string>, u: string)
    requires Frontier(popped, stack, seen) && u !in seen
    ensures Frontier(popped, stack + [u], seen + {u})
  {
  }

  lemma FrontierEmpties(popped: seq<string>, seen: set<string>)
    requires Frontier(popped, [], seen)
    ensures NoRepeats(popped) && forall x :: x in popped <==> x in seen
  {
  }

  /** Everything seen is the entity asked for or was used by a listed activity. */
  ghost predicate SeenFrom(g: ProvGraph, e: string, seen: set<string>, ancestors: seq<string>) {
    forall x :: x in seen <==> x == e || x in UsedBy(g, ancestors)
  }

  ghost predicate AllReached(g: ProvGraph, e: string, seen: set<string>) {
    forall x :: x in seen ==> Reaches(g, e, x)
  }

  lemma ReachesUsed(g: ProvGraph, e: string, seen: set<string>, eid: string, u: string)
    requires AllReached(g, e, seen) && eid in seen && Step(g, eid, u)
    ensures AllReached(g, e, seen + {u})
  {
    ReachesSelf(g, u);
    ReachesConcat(g, e, eid, u, u);
  }

  lemma UsedByGrows(g: ProvGraph, ancestors: seq<string>, a: string)
    ensures UsedBy(g, ancestors + [a]) == UsedBy(g, ancestors) + (set u | u in Used(g, a))
  {
    var before, after := UsedBy(g, ancestors), UsedBy(g, ancestors + [a]);
    forall u | u in Used(g, a)
      ensures u in after
    {
      assert a in ancestors + [a];
    }
    forall u | u in before
      ensures u in after
    {
      var b :| b in ancestors && u in Used(g, b);
      assert b in ancestors + [a];
    }
  }

  /** Where a listed activity came from: the first pop is the entity asked for, a later one was used. */
  lemma PoppedOrigin(
    g: ProvGraph, e: string, seen: set<string>, ancestors: seq<string>, popped: seq<string>, eid: string)
    requires SeenFrom(g, e, seen, ancestors) && eid in seen
    requires if popped == [] then eid == e && ancestors == [] else popped[0] == e && eid !in popped
    ensures if ancestors == [] then eid == e else eid in UsedBy(g, ancestors)
  {
  }

  // --- The order of the traversal --------------------------------------------------------------

  /** The activities that generated the popped entities, each where it first occurs. */
  function Discovered(g: ProvGraph, popped: seq<string>): seq<string> {
    if popped == [] then []
    else
      var before, a := Discovered(g, popped[..|popped| - 1]), Generator(g, popped[|popped| - 1]);
      if a.None? || a.value in before then before else before + [a.value]
  }

  /** `pushed`, followed by the entities in `used` that are new, in order. */
  function PushAll(pushed: seq<string>, used: seq<string>): seq<string> {
    if used == [] then pushed
    else
      var p, u := PushAll(pushed, used[..|used| - 1]), used[|used| - 1];
      if u in p then p else p + [u]
  }

  /** The entities pushed by the time these activities are listed, in order. */
  function Pushed(g: ProvGraph, e: string, activities: seq<string>): seq<string> {
    if activities == [] then [e]
    else PushAll(Pushed(g, e, activities[..|activities| - 1]), Used(g, activities[|activities| - 1]))
  }

  /** What has been pushed and not popped, in the order it was pushed. */
  function Pending(pushed: seq<string>, popped: seq<string>): seq<string> {
    if pushed == [] then []
    else
      var x := pushed[|pushed| - 1];
      Pending(pushed[..|pushed| - 1], popped) + if x in popped then [] else [x]
  }

  function PendingAfter(g: ProvGraph, e: string, popped: seq<string>): seq<string> {
    Pending(Pushed(g, e, Discovered(g, popped)), popped)
  }

  /** Every pop takes the entity that was pushed last among those pending. */
  ghost predicate PopsLatest(g: ProvGraph, e: string, popped: seq<string>) {
    forall k :: 0 <= k < |popped| ==>
      var pending := PendingAfter(g, e, popped[..k]);
      pending != [] && popped[k] == pending[|pending| - 1]
  }

  /** A whole traversal: latest first, until nothing is pending. */
  ghost predicate IsTraversal(g: ProvGraph, e: string, popped: seq<string>) {
    PopsLatest(g, e, popped) && PendingAfter(g, e, popped) == []
  }

  lemma {:induction false} TraversalsAgree(g: ProvGraph, e: string, p: seq<string>, q: seq<string>, k: nat)
    requires PopsLatest(g, e, p) && PopsLatest(g, e, q) && k <= |p| && k <= |q|
    ensures p[..k] == q[..k]
  {
    hide PendingAfter;
    if k > 0 {
      TraversalsAgree(g, e, p, q, k - 1);
      assert p[k - 1] == q[k - 1];
      assert p[..k] == p[..k - 1] + [p[k - 1]] && q[..k] == q[..k - 1] + [q[k - 1]];
    }
  }

  lemma PendingBefore(g: ProvGraph, e: string, popped: seq<string>, k: nat)
    requires PopsLatest(g, e, popped) && k < |popped|
    ensures PendingAfter(g, e, popped[..k]) != []
  {
    hide PendingAfter;
  }

  lemma NoLongerTraversal(g: ProvGraph, e: string, p: seq<string>, q: seq<string>)
    requires IsTraversal(g, e, p) && PopsLatest(g, e, q)
    ensures |q| <= |p|
  {
    hide PendingAfter, PopsLatest;
    assert p[..|p|] == p;
    if |p| < |q| {
      PendingBefore(g, e, q, |p|);
      TraversalsAgree(g, e, p, q, |p|);
    }
  }

  /** There is one traversal from an entity, hence one order of ancestors. */
  lemma TraversalIsUnique(g: ProvGraph, e: string, p: seq<string>, q: seq<string>)
    requires IsTraversal(g, e, p) && IsTraversal(g, e, q)
    ensures p == q
  {
    hide PendingAfter, PopsLatest;
    NoLongerTraversal(g, e, p, q);
    NoLongerTraversal(g, e, q, p);
    TraversalsAgree(g, e, p, q, |p|);
    assert p[..|p|] == p && q[..|q|] == q;
  }

  lemma {:induction false} PendingIgnores(pushed: seq<string>, popped: seq<string>, x: string)
    requires x !in pushed
    ensures Pending(pushed, popped + [x]) == Pending(pushed, popped)
  {
    if pushed != [] {
      PendingIgnores(pushed[..|pushed| - 1], popped, x);
    }
  }

  lemma {:induction false} PendingPops(pushed: seq<string>, popped: seq<string>)
    requires NoRepeats(pushed) && Pending(pushed, popped) != []
    ensures var stack := Pending(pushed, popped);
            Pending(pushed, popped + [stack[|stack| - 1]]) == stack[..|stack| - 1]
  {
    var before, x := pushed[..|pushed| - 1], pushed[|pushed| - 1];
    var stack := Pending(pushed, popped);
    if x in popped {
      PendingPops(before, popped);
    } else {
      PendingIgnores(before, popped, x);
      assert stack == Pending(before, popped) + [x];
    }
  }

  lemma PendingPushes(pushed: seq<string>, popped: seq<string>, u: string)
    requires u !in popped
    ensures Pending(pushed + [u], popped) == Pending(pushed, popped) + [u]
  {
    assert (pushed + [u])[..|pushed|] == pushed;
  }

  lemma PopKeepsOrder(g: ProvGraph, e: string, popped: seq<string>, stack: seq<string>)
    requires PopsLatest(g, e, popped) && stack == PendingAfter(g, e, popped) && stack != []
    ensures PopsLatest(g, e, popped + [stack[|stack| - 1]])
  {
    hide PendingAfter;
    var longer := popped + [stack[|stack| - 1]];
    forall k | 0 <= k < |longer|
      ensures var pending := PendingAfter(g, e, longer[..k]);
              pending != [] && longer[k] == pending[|pending| - 1]
    {
      if k < |popped| {
        assert longer[..k] == popped[..k];
      } else {
        assert longer[..k] == popped;
      }
    }
  }

  lemma DiscoveredGrows(g: ProvGraph, popped: seq<string>, eid: string)
    ensures var before, a := Discovered(g, popped), Generator(g, eid);
            Discovered(g, popped + [eid]) == if a.None? || a.value in before then before else before + [a.value]
  {
    assert (popped + [eid])[..|popped|] == popped;
  }

  lemma PushedGrows(g: ProvGraph, e: string, activities: seq<string>, a: string)
    ensures Pushed(g, e, activities + [a]) == PushAll(Pushed(g, e, activities), Used(g, a))
  {
    assert (activities + [a])[..|activities|] == activities;
  }

  lemma PushAllGrows(pushed: seq<string>, used: seq<string>, u: string)
    ensures var p := PushAll(pushed, used);
            PushAll(pushed, used + [u]) == if u in p then p else p + [u]
  {
    assert (used + [u])[..|used|] == used;
  }

  /** The stack holds what is pending, and what was pushed is what has been seen. */
  ghost predicate StackIsPending(pushed: seq<string>, popped: seq<string>, stack: seq<string>, seen: set<string>) {
    && NoRepeats(pushed) && stack == Pending(pushed, popped)
    && forall x :: x in seen <==> x in pushed
  }

  lemma StackPops(pushed: seq<string>, popped: seq<string>, stack: seq<string>, seen: set<string>)
    requires StackIsPending(pushed, popped, stack, seen) && stack != []
    ensures StackIsPending(pushed, popped + [stack[|stack| - 1]], stack[..|stack| - 1], seen)
  {
    PendingPops(pushed, popped);
  }

  lemma StackPushes(pushed: seq<string>, popped: seq<string>, stack: seq<string>, seen: set<string>, u: string)
    requires StackIsPending(pushed, popped, stack, seen) && u !in seen && u !in popped
    ensures StackIsPending(pushed + [u], popped, stack + [u], seen + {u})
  {
    PendingPushes(pushed, popped, u);
  }

  /** Between two pops: latest first so far, and the stack holds what is pending. */
  ghost predicate Ordered(
    g: ProvGraph, e: string, popped: seq<string>, ancestors: seq<string>, stack: seq<string>, seen: set<string>)
  {
    && PopsLatest(g, e, popped) && ancestors == Discovered(g, popped)
    && StackIsPending(Pushed(g, e, ancestors), popped, stack, seen)
  }

  /** While activity `a` is being listed after `before`, the entities in `used` having been considered. */
  ghost predicate Pushing(
    g: ProvGraph, e: string, popped: seq<string>, before: seq<string>, a: string, used: seq<string>,
    stack: seq<string>, seen: set<string>)
  {
    && PopsLatest(g, e, popped) && before + [a] == Discovered(g, popped)
    && StackIsPending(PushAll(Pushed(g, e, before), used), popped, stack, seen)
  }

  lemma OrderStarts(g: ProvGraph, e: string)
    ensures Ordered(g, e, [], [], [e], {e})
  {
    assert [e][..0] == [];
  }

  lemma OrderPops(
    g: ProvGraph, e: string, popped: seq<string>, ancestors: seq<string>, stack: seq<string>, seen: set<string>)
    requires Ordered(g, e, popped, ancestors, stack, seen) && stack != []
    ensures var eid, rest := stack[|stack| - 1], stack[..|stack| - 1];
            var a := Generator(g, eid);
            if a.None? || a.value in ancestors then Ordered(g, e, popped + [eid], ancestors, rest, seen)
            else Pushing(g, e, popped + [eid], ancestors, a.value, [], rest, seen)
  {
    hide PopsLatest, Pending, Pushed, Discovered, NoRepeats;
    PopKeepsOrder(g, e, popped, stack);
    DiscoveredGrows(g, popped, stack[|stack| - 1]);
    StackPops(Pushed(g, e, ancestors), popped, stack, seen);
  }

  lemma OrderPushes(
    g: ProvGraph, e: string, popped: seq<string>, before: seq<string>, a: string, used: seq<string>,
    stack: seq<string>, seen: set<string>, u: string)
    requires Pushing(g, e, popped, before, a, used, stack, seen)
    ensures u in seen ==> Pushing(g, e, popped, before, a, used + [u], stack, seen)
    ensures u !in seen && u !in popped ==> Pushing(g, e, popped, before, a, used + [u], stack + [u], seen + {u})
  {
    hide PopsLatest, Pending, Pushed, Discovered, NoRepeats, PushAll;
    var pushed := PushAll(Pushed(g, e, before), used);
    PushAllGrows(Pushed(g, e, before), used, u);
    assert u in seen <==> u in pushed;
    if u !in seen && u !in popped {
      StackPushes(pushed, popped, stack, seen, u);
    }
  }

  lemma OrderResumes(
    g: ProvGraph, e: string, popped: seq<string>, before: seq<string>, a: string, stack: seq<string>,
    seen: set<string>)
    requires Pushing(g, e, popped, before, a, Used(g, a), stack, seen)
    ensures Ordered(g, e, popped, before + [a], stack, seen)
  {
    PushedGrows(g, e, before, a);
  }

  lemma OrderEnds(g: ProvGraph, e: string, popped: seq<string>, ancestors: seq<string>, seen: set<string>)
    requires Ordered(g, e, popped, ancestors, [], seen)
    ensures IsTraversal(g, e, popped) && ancestors == Discovered(g, popped)
  {
  }

  lemma PoppedWereSeen(popped: seq<string>, stack: seq<string>, seen: set<string>)
    requires Frontier(popped, stack, seen)
    ensures forall x :: x in popped ==> x in seen
  {
  }

  /**
   The activities behind an entity, each once, in an order of discovery.
   `popped` records the entities taken off the stack: none twice, and at most
   one more than there are distinct entities used by the listed activities; it
   is the one traversal that always takes the entity pushed last.
   */
  method Ancestors(g: ProvGraph, entityId: string) returns (ancestors: seq<string>, ghost popped: seq<string>)
    ensures forall a :: a in ancestors <==> IsAncestor(g, entityId, a)
    ensures NoRepeats(ancestors)
    ensures InDiscoveryOrder(g, entityId, ancestors)
    ensures NoRepeats(popped) && forall x :: x in popped <==> x == entityId || x in UsedBy(g, ancestors)
    ensures |popped| <= 1 + |UsedBy(g, ancestors)|
    ensures IsTraversal(g, entityId, popped) && ancestors == Discovered(g, popped)
  {
    hide Frontier, SeenFrom, AllReached, UsedBy, SeenAfter, InDiscoveryOrder, IsAncestor, Reaches,
         Ordered, Pushing, IsTraversal, Discovered;
    ancestors, popped := [], [];
    var seenActivities: set<string> := {};
    var seenEntities: set<string> := {};
    var stack := [entityId];
    seenEntities := seenEntities + {entityId};
    assert seenEntities == {entityId};
    TraversalStarts(g, entityId);
    OrderStarts(g, entityId);
    while stack != []
      invariant forall a :: a in seenActivities <==> a in ancestors
      invariant seenActivities <= Generators(g) && NoRepeats(ancestors)
      invariant InDiscoveryOrder(g, entityId, ancestors)
      invariant Frontier(popped, stack, seenEntities)
      invariant SeenFrom(g, entityId, seenEntities, ancestors)
      invariant AllReached(g, entityId, seenEntities)
      invariant if popped == [] then stack == [entityId] && ancestors == [] else popped[0] == entityId
      invariant forall a :: a in ancestors ==> IsAncestor(g, entityId, a)
      invariant forall x :: x in popped && Generator(g, x).Some? ==> Generator(g, x).value in ancestors
      invariant Ordered(g, entityId, popped, ancestors, stack, seenEntities)
      decreases Generators(g) - seenActivities, |stack|
    {
      var eid := stack[|stack| - 1];
      FrontierPops(popped, stack, seenEntities);
      PoppedOrigin(g, entityId, seenEntities, ancestors, popped, eid);
      OrderPops(g, entityId, popped, ancestors, stack, seenEntities);
      stack := stack[..|stack| - 1];
      popped := popped + [eid];
      if eid !in g.entities {
        continue;
      }
      var entity := g.entities[eid];
      if entity.generatedBy.None? {
        continue;
      }
      var actId := entity.generatedBy.value;
      if actId in seenActivities {
        continue;
      }
      seenActivities := seenActivities + {actId};
      DiscoveryGrows(g, entityId, ancestors, eid, actId);
      SeenGenerates(g, entityId, seenEntities, eid, actId);
      UsedByGrows(g, ancestors, actId);
      ghost var before := ancestors;
      ancestors := ancestors + [actId];
      SeenAfterStarts(g, entityId, seenEntities, before);
      if actId in g.activities {
        var used := g.activities[actId].used;
        for i := 0 to |used|
          invariant eid in seenEntities
          invariant Frontier(popped, stack, seenEntities)
          invariant AllReached(g, entityId, seenEntities)
          invariant SeenAfter(g, entityId, seenEntities, before, used[..i])
          invariant Pushing(g, entityId, popped, before, actId, used[..i], stack, seenEntities)
        {
          OrderPushes(g, entityId, popped, before, actId, used[..i], stack, seenEntities, used[i]);
          SeenAfterPushes(g, entityId, seenEntities, before, used[..i], used[i]);
          if used[i] !in seenEntities {
            PoppedWereSeen(popped, stack, seenEntities);
            FrontierPushes(popped, stack, seenEntities, used[i]);
            ReachesUsed(g, entityId, seenEntities, eid, used[i]);
            seenEntities := seenEntities + {used[i]};
            stack := stack + [used[i]];
          }
          assert used[..i + 1] == used[..i] + [used[i]];
        }
        assert used[..|used|] == used;
      }
      SeenFromAfter(g, entityId, seenEntities, before, actId);
      OrderResumes(g, entityId, popped, before, actId, stack, seenEntities);
    }
    OrderEnds(g, entityId, popped, ancestors, seenEntities);
    FrontierEmpties(popped, seenEntities);
    TraversalEnds(g, entityId, seenEntities, ancestors, popped);
  }

  /** What has been seen while the used entities of a newly listed activity are being pushed. */
  ghost predicate SeenAfter(g: ProvGraph, e: string, seen: set<string>, before: seq<string>, used: seq<string>) {
    forall x :: x in seen <==> x == e || x in UsedBy(g, before) || x in used
  }

  lemma SeenAfterStarts(g: ProvGraph, e: string, seen: set<string>, before: seq<string>)
    requires SeenFrom(g, e, seen, before)
    ensures SeenAfter(g, e, seen, before, [])
  {
  }

  lemma SeenAfterPushes(g: ProvGraph, e: string, seen: set<string>, before: seq<string>, used: seq<string>, u: string)
    requires SeenAfter(g, e, seen, before, used)
    ensures SeenAfter(g, e, seen + {u}, before, used + [u])
    ensures u in seen ==> seen + {u} == seen
  {
  }

  lemma SeenFromAfter(g: ProvGraph, e: string, seen: set<string>, before: seq<string>, a: string)
    requires SeenAfter(g, e, seen, before, Used(g, a))
    ensures SeenFrom(g, e, seen, before + [a])
  {
    UsedByGrows(g, before, a);
  }

  lemma TraversalStarts(g: ProvGraph, e: string)
    ensures Frontier([], [e], {e}) && SeenFrom(g, e, {e}, []) && AllReached(g, e, {e}) && InDiscoveryOrder(g, e, [])
  {
    ReachesSelf(g, e);
  }

  lemma SeenGenerates(g: ProvGraph, e: string, seen: set<string>, eid: string, a: string)
    requires AllReached(g, e, seen) && eid in seen && Generator(g, eid) == Some(a)
    ensures IsAncestor(g, e, a)
  {
  }

  lemma TraversalEnds(g: ProvGraph, e: string, seen: set<string>, ancestors: seq<string>, popped: seq<string>)
    requires SeenFrom(g, e, seen, ancestors)
    requires NoRepeats(popped) && forall x :: x in popped <==> x in seen
    requires forall x :: x in popped && Generator(g, x).Some? ==> Generator(g, x).value in ancestors
    ensures forall a :: IsAncestor(g, e, a) ==> a in ancestors
    ensures forall x :: x in popped <==> x == e || x in UsedBy(g, ancestors)
    ensures |popped| <= 1 + |UsedBy(g, ancestors)|
  {
    SeenIsComplete(g, e, seen, ancestors);
    NoRepeatsFit(popped, {e} + UsedBy(g, ancestors));
  }

  // --- Closure and growth --------------------------------------------------------------------

  /** The ancestors of what a listed activity used are ancestors too. */
  lemma AncestorsAreClosed(g: ProvGraph, e: string, a: string, u: string, b: string)
    requires IsAncestor(g, e, a) && u in Used(g, a) && IsAncestor(g, u, b)
    ensures IsAncestor(g, e, b)
  {
    var x :| Reaches(g, e, x) && Generator(g, x) == Some(a);
    var y :| Reaches(g, u, y) && Generator(g, y) == Some(b);
    ReachesConcat(g, e, x, u, y);
  }

  /** Ancestors, one generation at a time. */
  lemma AncestorsUnfold(g: ProvGraph, e: string, b: string)
    ensures IsAncestor(g, e, b) <==>
            || Generator(g, e) == Some(b)
            || exists u :: Step(g, e, u) && IsAncestor(g, u, b)
  {
    ReachesSelf(g, e);
    if IsAncestor(g, e, b) && Generator(g, e) != Some(b) {
      var x :| Reaches(g, e, x) && Generator(g, x) == Some(b);
      var p :| IsPath(g, p) && p[0] == e && p[|p| - 1] == x;
      assert Step(g, p[0], p[1]);
      PathTail(g, p);
      assert Reaches(g, p[1], x);
    }
    if u :| Step(g, e, u) && IsAncestor(g, u, b) {
      AncestorsAreClosed(g, e, Generator(g, e).value, u, b);
    }
  }

  /** `h` keeps everything `g` knows. */
  ghost predicate Extends(h: ProvGraph, g: ProvGraph) {
    && (forall e | e in g.entities :: e in h.entities && h.entities[e] == g.entities[e])
    && (forall a | a in g.activities :: a in h.activities && h.activities[a] == g.activities[a])
  }

  /** Adding entities or activities under fresh ids never removes an ancestor. */
  lemma GrowthKeepsAncestors(g: ProvGraph, h: ProvGraph, e: string, a: string)
    requires Extends(h, g) && IsAncestor(g, e, a)
    ensures IsAncestor(h, e, a)
  {
    var x :| Reaches(g, e, x) && Generator(g, x) == Some(a);
    var p :| IsPath(g, p) && p[0] == e && p[|p| - 1] == x;
    forall i | 0 <= i < |p| - 1
      ensures Step(h, p[i], p[i + 1])
    {
      assert Step(g, p[i], p[i + 1]);
    }
    assert IsPath(h, p);
    assert Generator(h, x) == Some(a);
  }
}
