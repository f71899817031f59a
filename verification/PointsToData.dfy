/** The basic points-to table with its reverse map, and the table that hands out points-to sets
    difference by difference. */
module PointsToData {

  type Key = nat
  type PtsMap = map<Key, set<Key>>

  /** A missing entry is the empty set. */
  function Entry(m: PtsMap, k: Key): set<Key> {
    if k in m then m[k] else {}
  }

  class PTData {
    var ptsMap: PtsMap
    var revPtsMap: PtsMap

    /** x is in the points-to set of k exactly when k is in the reverse set of x. */
    ghost predicate Mirrored()
      reads this
    {
      forall k, x :: x in Entry(ptsMap, k) <==> k in Entry(revPtsMap, x)
    }

    constructor ()
      ensures ptsMap == map[] && revPtsMap == map[] && Mirrored()
    {
      ptsMap, revPtsMap := map[], map[];
    }

    method Clear()
      modifies this
      ensures ptsMap == map[] && revPtsMap == map[] && Mirrored()
    {
      ptsMap, revPtsMap := map[], map[];
    }

    method AddSingleRevPts(x: Key, k: Key)
      modifies `revPtsMap
      ensures forall y :: Entry(revPtsMap, y) == Entry(old(revPtsMap), y) + (if y == x then {k} else {})
    {
      revPtsMap := revPtsMap[x := Entry(revPtsMap, x) + {k}];
    }

    method AddRevPts(data: set<Key>, k: Key)
      modifies `revPtsMap
      ensures forall y :: Entry(revPtsMap, y) == Entry(old(revPtsMap), y) + (if y in data then {k} else {})
    {
      var rest := data;
      while rest != {}
        invariant rest <= data
        invariant forall y :: Entry(revPtsMap, y) == Entry(old(revPtsMap), y) + (if y in data - rest then {k} else {})
      {
        var x :| x in rest;
        rest := rest - {x};
        AddSingleRevPts(x, k);
      }
    }

    /** Unions data into one points-to set. */
    method Join(k: Key, data: set<Key>) returns (changed: bool)
      modifies `ptsMap
      ensures forall l :: Entry(ptsMap, l) == Entry(old(ptsMap), l) + (if l == k then data else {})
      ensures changed <==> !(data <= Entry(old(ptsMap), k))
    {
      changed := !(data <= Entry(ptsMap, k));
      ptsMap := ptsMap[k := Entry(ptsMap, k) + data];
    }

    method AddPts(dstKey: Key, srcKey: Key) returns (changed: bool)
      requires Mirrored()
      modifies this
      ensures Mirrored()
      ensures forall l :: Entry(ptsMap, l) == Entry(old(ptsMap), l) + (if l == dstKey then {srcKey} else {})
      ensures changed <==> srcKey !in Entry(old(ptsMap), dstKey)
    {
      AddSingleRevPts(srcKey, dstKey);
      changed := Join(dstKey, {srcKey});
    }

    method UnionPtsOfKey(dstKey: Key, srcKey: Key) returns (changed: bool)
      requires Mirrored()
      modifies this
      ensures Mirrored()
      ensures forall l ::
                Entry(ptsMap, l) == Entry(old(ptsMap), l)
                + (if l == dstKey then Entry(old(ptsMap), srcKey) else {})
      ensures changed <==> !(Entry(old(ptsMap), srcKey) <= Entry(old(ptsMap), dstKey))
    {
      AddRevPts(Entry(ptsMap, srcKey), dstKey);
      changed := Join(dstKey, Entry(ptsMap, srcKey));
    }

    method UnionPtsData(dstKey: Key, srcData: set<Key>) returns (changed: bool)
      requires Mirrored()
      modifies this
      ensures Mirrored()
      ensures forall l :: Entry(ptsMap, l) == Entry(old(ptsMap), l) + (if l == dstKey then srcData else {})
      ensures changed <==> !(srcData <= Entry(old(ptsMap), dstKey))
    {
      AddRevPts(srcData, dstKey);
      changed := Join(dstKey, srcData);
    }
  }

  // ----- Difference propagation

  datatype Diffs = Diffs(diff: PtsMap, propa: PtsMap)

  /** - Compute: the next difference of a variable whose full set is given
      - Intersect: the propagated set of dst is cut down to that of src
      - Forget: a propagated set is cleared */
  datatype Step = Compute(v: Key, all: set<Key>) | Intersect(src: Key, dst: Key) | Forget(v: Key)

  function After(s: Diffs, step: Step): Diffs {
    match step
    case Compute(v, all) => Diffs(s.diff[v := all - Entry(s.propa, v)], s.propa[v := all])
    case Intersect(src, dst) => s.(propa := s.propa[dst := Entry(s.propa, dst) * Entry(s.propa, src)])
    case Forget(v) => s.(propa := s.propa[v := {}])
  }

  ghost predicate SameDiffs(a: Diffs, b: Diffs) {
    forall k :: Entry(a.diff, k) == Entry(b.diff, k) && Entry(a.propa, k) == Entry(b.propa, k)
  }

  class DiffPTData {
    var diffPtsMap: PtsMap
    var propaPtsMap: PtsMap

    ghost function State(): Diffs
      reads this
    {
      Diffs(diffPtsMap, propaPtsMap)
    }

    constructor ()
      ensures State() == Diffs(map[], map[])
    {
      diffPtsMap, propaPtsMap := map[], map[];
    }

    method ComputeDiffPts(v: Key, all: set<Key>) returns (nonEmpty: bool)
      modifies this
      ensures forall x :: x in Entry(diffPtsMap, v) <==> x in all && x !in Entry(old(propaPtsMap), v)
      ensures Entry(propaPtsMap, v) == all
      ensures forall k | k != v ::
                Entry(diffPtsMap, k) == Entry(old(diffPtsMap), k) && Entry(propaPtsMap, k) == Entry(old(propaPtsMap), k)
      ensures SameDiffs(State(), After(old(State()), Compute(v, all)))
      ensures nonEmpty <==> Entry(diffPtsMap, v) != {}
    {
      diffPtsMap := diffPtsMap[v := {}];
      var propa := Entry(propaPtsMap, v);
      diffPtsMap := diffPtsMap[v := all - propa];
      propaPtsMap := propaPtsMap[v := all];
      nonEmpty := diffPtsMap[v] != {};
    }

    method UpdatePropaPtsMap(src: Key, dst: Key)
      modifies `propaPtsMap
      ensures forall x :: x in Entry(propaPtsMap, dst)
                <==> x in Entry(old(propaPtsMap), dst) && x in Entry(old(propaPtsMap), src)
      ensures forall k | k != dst :: Entry(propaPtsMap, k) == Entry(old(propaPtsMap), k)
      ensures SameDiffs(State(), After(old(State()), Intersect(src, dst)))
    {
      var srcPropa := Entry(propaPtsMap, src);
      propaPtsMap := propaPtsMap[dst := Entry(propaPtsMap, dst) * srcPropa];
    }

    method ClearPropaPts(v: Key)
      modifies `propaPtsMap
      ensures forall k :: Entry(propaPtsMap, k) == if k == v then {} else Entry(old(propaPtsMap), k)
      ensures SameDiffs(State(), After(old(State()), Forget(v)))
    {
      propaPtsMap := propaPtsMap[v := {}];
    }
  }

  function RunSteps(s: Diffs, run: seq<Step>): Diffs {
    if run == [] then s else After(RunSteps(s, run[..|run| - 1]), run[|run| - 1])
  }

  /** What the diff map holds for v after each of its computations in a run: the differences handed out. */
  function Delivered(v: Key, s: Diffs, run: seq<Step>): seq<set<Key>> {
    if run == [] then []
    else
      var before, last := run[..|run| - 1], run[|run| - 1];
      if last.Compute? && last.v == v then
        Delivered(v, s, before) + [Entry(RunSteps(s, run).diff, v)]
      else Delivered(v, s, before)
  }

  ghost function Union(sets: seq<set<Key>>): set<Key> {
    set i, x | 0 <= i < |sets| && x in sets[i] :: x
  }

  lemma UnionAppend(sets: seq<set<Key>>, last: set<Key>)
    ensures Union(sets + [last]) == Union(sets) + last
  {
    var all := sets + [last];
    forall x ensures x in Union(all) <==> x in Union(sets) + last {
      if x in last {
        assert all[|sets|] == last;
      } else if x in Union(sets) {
        var i :| 0 <= i < |sets| && x in sets[i];
        assert all[i] == sets[i];
      }
    }
  }

  /** Whatever counts as propagated has been delivered. */
  lemma {:induction false} PropagatedWasDelivered(v: Key, s: Diffs, run: seq<Step>)
    requires Entry(s.propa, v) == {}
    ensures Entry(RunSteps(s, run).propa, v) <= Union(Delivered(v, s, run))
  {
    if run != [] {
      var before, last := run[..|run| - 1], run[|run| - 1];
      PropagatedWasDelivered(v, s, before);
      if last.Compute? && last.v == v {
        UnionAppend(Delivered(v, s, before), Entry(RunSteps(s, run).diff, v));
      }
    }
  }

  /** Nothing is ever lost: after a computation everything in the full set has been delivered, however
      propagated sets were cut down or cleared before. */
  lemma NothingIsLost(v: Key, s: Diffs, run: seq<Step>)
    requires Entry(s.propa, v) == {}
    requires run != [] && run[|run| - 1].Compute? && run[|run| - 1].v == v
    ensures run[|run| - 1].all <= Union(Delivered(v, s, run))
  {
    PropagatedWasDelivered(v, s, run);
  }

  /** The last full set of v a run has computed. */
  function LatestFull(v: Key, run: seq<Step>): set<Key> {
    if run == [] then {}
    else
      var last := run[|run| - 1];
      if last.Compute? && last.v == v then last.all else LatestFull(v, run[..|run| - 1])
  }

  /** v is only computed, and its full set never shrinks. */
  ghost predicate OnlyGrows(v: Key, run: seq<Step>) {
    run != [] ==>
      var before, last := run[..|run| - 1], run[|run| - 1];
      && OnlyGrows(v, before)
      && (match last
          case Compute(w, all) => w == v ==> LatestFull(v, before) <= all
          case Intersect(_, dst) => dst != v
          case Forget(w) => w != v)
  }

  /** Each element is delivered exactly once: the differences are pairwise disjoint and make up the
      latest full set. */
  lemma {:induction false} DeliveredExactlyOnce(v: Key, s: Diffs, run: seq<Step>)
    requires Entry(s.propa, v) == {} && OnlyGrows(v, run)
    ensures Union(Delivered(v, s, run)) == LatestFull(v, run) == Entry(RunSteps(s, run).propa, v)
    ensures forall i, j | 0 <= i < j < |Delivered(v, s, run)| :: Delivered(v, s, run)[i] !! Delivered(v, s, run)[j]
  {
    if run != [] {
      var before, last := run[..|run| - 1], run[|run| - 1];
      DeliveredExactlyOnce(v, s, before);
      if last.Compute? && last.v == v {
        var sofar, next := Delivered(v, s, before), Entry(RunSteps(s, run).diff, v);
        UnionAppend(sofar, next);
        forall i | 0 <= i < |sofar| ensures sofar[i] !! next {
          assert sofar[i] <= Union(sofar);
        }
      }
    }
  }

  // ----- What is handed out again

  /** The key whose propagated set a step changes. */
  function Changes(step: Step): Key {
    match step
    case Compute(v, _) => v
    case Intersect(_, dst) => dst
    case Forget(v) => v
  }

  ghost predicate LeavesAlone(v: Key, run: seq<Step>) {
    forall i | 0 <= i < |run| :: Changes(run[i]) != v
  }

  lemma {:induction false} LeftAloneKeeps(v: Key, s: Diffs, run: seq<Step>)
    requires LeavesAlone(v, run)
    ensures Entry(RunSteps(s, run).propa, v) == Entry(s.propa, v)
  {
    if run != [] {
      var before, last := run[..|run| - 1], run[|run| - 1];
      assert run == before + [last];
      LeftAloneKeeps(v, s, before);
    }
  }

  lemma {:induction false} RunOfParts(s: Diffs, a: seq<Step>, b: seq<Step>)
    ensures RunSteps(s, a + b) == RunSteps(RunSteps(s, a), b)
    decreases |b|
  {
    if b == [] {
      assert a + b == a;
    } else {
      var before, last := b[..|b| - 1], b[|b| - 1];
      RunOfParts(s, a, before);
      assert (a + b)[..|a + b| - 1] == a + before;
    }
  }

  lemma RunOfOne(s: Diffs, step: Step)
    ensures RunSteps(s, [step]) == After(s, step)
  {
    assert RunSteps(s, []) == s && [step][..0] == [];
  }

  /** What the first computation of v hands out after a step and others that leave v alone. */
  lemma HandedOutAfter(s: Diffs, step: Step, others: seq<Step>, v: Key, all: set<Key>)
    requires LeavesAlone(v, others)
    ensures var done := RunSteps(s, [step] + others + [Compute(v, all)]);
            forall x :: x in Entry(done.diff, v) <==> x in all && x !in Entry(After(s, step).propa, v)
  {
    RunOfOne(s, step);
    RunOfParts(s, [step], others);
    RunOfParts(s, [step] + others, [Compute(v, all)]);
    RunOfOne(RunSteps(s, [step] + others), Compute(v, all));
    LeftAloneKeeps(v, After(s, step), others);
  }

  /** The first computation of dst after its propagated set was cut down to that of src hands out exactly
      the elements of the full set that src or dst had not propagated. */
  lemma IntersectionHandsOutAgain(s: Diffs, src: Key, dst: Key, others: seq<Step>, all: set<Key>)
    requires LeavesAlone(dst, others)
    ensures var done := RunSteps(s, [Intersect(src, dst)] + others + [Compute(dst, all)]);
            forall x :: x in Entry(done.diff, dst)
                        <==> x in all && (x !in Entry(s.propa, src) || x !in Entry(s.propa, dst))
  {
    HandedOutAfter(s, Intersect(src, dst), others, dst, all);
  }

  /** The first computation of v after its propagated set was cleared hands out the whole full set. */
  lemma ClearingHandsOutAll(s: Diffs, v: Key, others: seq<Step>, all: set<Key>)
    requires LeavesAlone(v, others)
    ensures Entry(RunSteps(s, [Forget(v)] + others + [Compute(v, all)]).diff, v) == all
  {
    HandedOutAfter(s, Forget(v), others, v, all);
  }

  /** And after another computation it hands out exactly what is new in the full set. */
  lemma ComputationHandsOutNew(s: Diffs, v: Key, before: set<Key>, others: seq<Step>, all: set<Key>)
    requires LeavesAlone(v, others)
    ensures Entry(RunSteps(s, [Compute(v, before)] + others + [Compute(v, all)]).diff, v) == all - before
  {
    HandedOutAfter(s, Compute(v, before), others, v, all);
  }
}
