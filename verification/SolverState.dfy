/** Snapshots of the solver's state and what every call of the solver keeps. */
module SolverState {
  import opened EquationSystems
  import opened Downgrading

  /** - visited, located: backwardVisited and all members of locToDpmSetMap
      - sigma: both cache maps together, one entry per item of the system
      - loadVar, loadDpms: loadToPTCVarMap and the keys of dpmToloadDpmMap
      - exempt: outOfBudgetDpms
      - done: the visited items of earlier queries
      - steps: numOfStep */
  datatype Snap = Snap(
    visited: set<Item>,
    sigma: Assignment,
    located: set<Item>,
    loadVar: map<Item, Id>,
    loadDpms: set<Item>,
    outOfBudget: bool,
    exempt: set<Item>,
    done: set<Item>,
    steps: nat)

  /** Everything d depends on has been visited, and d's cached set covers its equation. */
  ghost predicate Closed(q: System, s: Snap, d: Item) {
    q.sources(s.sigma, d) <= s.visited && q.eval(s.sigma, d) <= Pts(s.sigma, d)
  }

  /** No set that d depends on differs between a and b. */
  ghost predicate Stable(q: System, a: Assignment, b: Assignment, d: Item) {
    forall s <- q.sources(a, d) :: Pts(b, s) == Pts(a, s)
  }

  /** The invariant of the solver. The set pending holds the item whose visited mark was just taken
      away for its re-evaluation, if there is one. */
  ghost predicate Good(q: System, sol: Assignment, s: Snap, pending: set<Item>) {
    && s.sigma.Keys == q.items && Below(q, s.sigma, sol)
    && s.visited <= q.items
    && s.located <= s.visited + pending
    && s.done <= s.visited <= s.done + s.located
    && s.done !! s.located
    && (forall d <- s.done - s.exempt :: DoneIsClosed(q, s, d))
    && s.loadDpms == s.loadVar.Keys
    && (forall d <- s.loadVar :: s.loadVar[d] == d.id)
  }

  ghost predicate DoneIsClosed(q: System, s: Snap, d: Item) {
    q.sources(s.sigma, d) <= s.done && q.eval(s.sigma, d) <= Pts(s.sigma, d)
  }

  /** What every call of the solver achieves between entry state s and exit state t: nothing is
      forgotten, finished items are untouched, and unless the budget ran out every visited item
      is closed, except those visited before whose inputs the call left alone. The call pays for its
      steps, but for extra ones, by visiting items and by filling room in the caches. */
  ghost predicate Advance(q: System, s: Snap, t: Snap, extra: nat := 0) {
    && s.visited <= t.visited && s.located <= t.located
    && s.loadVar.Keys <= t.loadVar.Keys
    && Below(q, s.sigma, t.sigma)
    && (s.outOfBudget ==> t.outOfBudget)
    && t.exempt == s.exempt && t.done == s.done
    && (forall d <- s.done :: Pts(t.sigma, d) == Pts(s.sigma, d))
    && (!t.outOfBudget ==> forall d <- t.visited - t.exempt :: Settled(q, s, t, d))
    && Cost(q, t) <= Cost(q, s) + extra
    && Counted(s, t)
  }

  /** Within budget every item visited for the first time has been counted as a step. */
  ghost predicate Counted(s: Snap, t: Snap) {
    t.outOfBudget || s.steps + |t.visited - s.visited| <= t.steps
  }

  lemma CountedTransitive(s: Snap, t: Snap, u: Snap)
    requires Counted(s, t) && Counted(t, u) && (t.outOfBudget ==> u.outOfBudget)
    ensures Counted(s, u)
  {
    SubsetIsNotLarger(u.visited - s.visited, (u.visited - t.visited) + (t.visited - s.visited));
  }

  lemma MarkingIsCounted(s: Snap, d: Item, outOfBudget: bool, steps: nat)
    requires d !in s.visited && (outOfBudget || steps == s.steps + 1)
    ensures Counted(s, Marked(s, d).(outOfBudget := outOfBudget, steps := steps))
  {
    assert Marked(s, d).visited - s.visited == {d};
  }

  lemma ClearingIsCounted(s: Snap, d: Item, t: Snap)
    requires Counted(Cleared(s, d), t)
    ensures Counted(s, t)
  {
    SubsetIsNotLarger(t.visited - s.visited, t.visited - Cleared(s, d).visited);
  }

  ghost predicate Settled(q: System, s: Snap, t: Snap, d: Item) {
    Closed(q, t, d) || (d in s.visited && Stable(q, s.sigma, t.sigma, d))
  }

  /** Facts the caches do not hold yet: the room they have left. */
  ghost function Missing(q: System, c: Assignment): set<(Item, Id)> {
    set e, x | e in q.items && x in q.objs && x !in Pts(c, e) :: (e, x)
  }

  /** How many re-evaluations the growth of one cached set can cause. */
  ghost function Fanout(q: System): nat {
    q.edges * |q.items|
  }

  /** The steps taken and all that can still come: one for each unvisited item, and for each missing
      fact the re-evaluations its arrival can cause. */
  ghost function Cost(q: System, s: Snap): nat {
    s.steps + |q.items - s.visited| + |Missing(q, s.sigma)| * Fanout(q)
  }

  /** No query needs more steps than this. */
  ghost function EnoughSteps(q: System): nat {
    |q.items| + |Universe(q)| * Fanout(q)
  }

  lemma CostIsBounded(q: System, s: Snap)
    requires s.steps == 0
    ensures Cost(q, s) <= EnoughSteps(q)
  {
    SubsetIsNotLarger(q.items - s.visited, q.items);
    SubsetIsNotLarger(Missing(q, s.sigma), Universe(q));
    MultipleGrows(|Missing(q, s.sigma)|, |Universe(q)|, Fanout(q));
  }

  lemma MultipleGrows(a: nat, b: nat, k: nat)
    requires a <= b
    ensures a * k <= b * k
  {
  }

  lemma MarkingPays(q: System, s: Snap, d: Item)
    requires d in q.items && d !in s.visited
    ensures Cost(q, Marked(s, d)) == Cost(q, s)
  {
    assert q.items - s.visited == (q.items - Marked(s, d).visited) + {d};
  }

  lemma ClearingCosts(q: System, s: Snap, d: Item)
    requires d in q.items && d in s.visited
    ensures Cost(q, Cleared(s, d)) == Cost(q, s) + 1
  {
    assert q.items - Cleared(s, d).visited == (q.items - s.visited) + {d};
  }

  lemma GrowthPays(q: System, s: Snap, d: Item, pts: set<Id>)
    requires Missing(q, Grown(s, d, pts).sigma) < Missing(q, s.sigma)
    ensures Cost(q, Grown(s, d, pts)) + Fanout(q) <= Cost(q, s)
  {
    var few, many := Missing(q, Grown(s, d, pts).sigma), Missing(q, s.sigma);
    ProperSubsetIsSmaller(few, many);
    MultipleGrows(|few| + 1, |many|, Fanout(q));
  }

  lemma StableReadsSame(q: System, a: Assignment, b: Assignment, d: Item)
    requires Lawful(q) && d in q.items && Stable(q, a, b, d)
    ensures q.sources(b, d) == q.sources(a, d) && q.eval(b, d) == q.eval(a, d)
  {
    assert Monotone(q, b, a, d);
    assert Monotone(q, a, b, d);
  }

  lemma StableKeepsClosed(q: System, s: Snap, t: Snap, d: Item)
    requires Lawful(q) && d in q.items
    requires Closed(q, s, d) && Stable(q, s.sigma, t.sigma, d)
    requires s.visited <= t.visited && Pts(s.sigma, d) <= Pts(t.sigma, d)
    ensures Closed(q, t, d)
  {
    StableReadsSame(q, s.sigma, t.sigma, d);
  }

  lemma AdvanceReflexive(q: System, s: Snap, t: Snap, extra: nat := 0)
    requires t.visited == s.visited && t.sigma == s.sigma && s.located <= t.located
    requires s.loadVar.Keys <= t.loadVar.Keys && t.exempt == s.exempt && t.done == s.done
    requires (s.outOfBudget ==> t.outOfBudget) && t.steps == s.steps
    ensures Advance(q, s, t, extra)
  {
    assert t.visited - s.visited == {};
  }

  lemma AdvanceTransitive(q: System, s: Snap, t: Snap, u: Snap, j: nat := 0, k: nat := 0)
    requires Lawful(q) && u.visited <= q.items
    requires Advance(q, s, t, j) && Advance(q, t, u, k)
    ensures Advance(q, s, u, j + k)
  {
    hide Cost, Counted;
    CountedTransitive(s, t, u);
    if !u.outOfBudget {
      forall d <- u.visited - u.exempt ensures Settled(q, s, u, d) {
        assert Settled(q, t, u, d);
        if !Closed(q, u, d) {
          assert Settled(q, s, t, d);
          if Closed(q, t, d) {
            StableKeepsClosed(q, t, u, d);
          } else {
            StableReadsSame(q, s.sigma, t.sigma, d);
          }
        }
      }
    }
  }

  lemma AdvanceCost(q: System, s: Snap, t: Snap, extra: nat)
    requires Advance(q, s, t, extra)
    ensures Cost(q, t) <= Cost(q, s) + extra
  {
    hide Cost, Settled;
  }

  lemma AdvanceCounts(q: System, s: Snap, t: Snap)
    requires Advance(q, s, t)
    ensures t.outOfBudget || s.steps + |t.visited - s.visited| <= t.steps
  {
    hide Cost, Settled;
  }

  ghost function Pairs(items: set<Item>, objs: set<Id>): set<(Item, Id)> {
    set e, x | e in items && x in objs :: (e, x)
  }

  lemma {:induction false} PairsOfOne(d: Item, objs: set<Id>)
    ensures |Pairs({d}, objs)| == |objs|
  {
    if objs == {} {
      assert Pairs({d}, objs) == {};
    } else {
      var o :| o in objs;
      PairsOfOne(d, objs - {o});
      assert Pairs({d}, objs) == Pairs({d}, objs - {o}) + {(d, o)};
      assert (d, o) !in Pairs({d}, objs - {o}) && |objs - {o}| == |objs| - 1;
    }
  }

  lemma {:induction false} PairsCount(items: set<Item>, objs: set<Id>)
    ensures |Pairs(items, objs)| == |items| * |objs|
  {
    if items == {} {
      assert Pairs(items, objs) == {};
    } else {
      var d :| d in items;
      PairsCount(items - {d}, objs);
      PairsOfOne(d, objs);
      assert Pairs(items, objs) == Pairs(items - {d}, objs) + Pairs({d}, objs);
      assert Pairs(items - {d}, objs) !! Pairs({d}, objs);
      assert |items - {d}| == |items| - 1;
    }
  }

  /** The number of steps that always suffice, from the sizes of the system. */
  lemma EnoughStepsFormula(q: System)
    ensures EnoughSteps(q) == |q.items| + |q.items| * |q.objs| * (q.edges * |q.items|)
  {
    assert Universe(q) == Pairs(q.items, q.objs);
    PairsCount(q.items, q.objs);
  }

  /** A further step that the steps already allowed for still cover. */
  lemma AdvanceFurther(q: System, s: Snap, t: Snap, u: Snap, extra: nat, more: nat)
    requires Lawful(q) && u.visited <= q.items
    requires Advance(q, s, t, extra) && Advance(q, t, u, more) && Cost(q, u) <= Cost(q, s) + extra
    ensures Advance(q, s, u, extra)
  {
    hide Cost;
    AdvanceTransitive(q, s, t, u, extra, more);
  }

  /** An item that is closed stays closed through any further call. */
  lemma AdvanceKeepsClosed(q: System, s: Snap, t: Snap, d: Item, extra: nat := 0)
    requires Lawful(q) && d in q.items && Advance(q, s, t, extra) && !t.outOfBudget
    requires d in s.visited - s.exempt && Closed(q, s, d)
    ensures Closed(q, t, d)
  {
    assert Settled(q, s, t, d);
    if Stable(q, s.sigma, t.sigma, d) {
      StableKeepsClosed(q, s, t, d);
    }
  }

  lemma AdvanceKeepsAllClosed(q: System, s: Snap, t: Snap, extra: nat := 0)
    requires Lawful(q) && Advance(q, s, t, extra) && s.visited <= q.items
    ensures t.outOfBudget || forall d <- s.visited - s.exempt :: Closed(q, s, d) ==> Closed(q, t, d)
  {
    if !t.outOfBudget {
      forall d <- s.visited - s.exempt | Closed(q, s, d) ensures Closed(q, t, d) {
        AdvanceKeepsClosed(q, s, t, d, extra);
      }
    }
  }

  /** A frame that is still evaluating d finds, after a nested call, d closed by a re-evaluation
      or every set it has read unchanged. */
  lemma FrameSurvives(q: System, s: Snap, t: Snap, d: Item)
    requires Lawful(q) && d in q.items && Advance(q, s, t)
    requires d in s.visited - s.exempt
    ensures t.outOfBudget || Closed(q, t, d)
         || (!s.outOfBudget && !Closed(q, s, d) && Stable(q, s.sigma, t.sigma, d)
             && q.sources(t.sigma, d) == q.sources(s.sigma, d))
  {
    if !t.outOfBudget && !Closed(q, t, d) {
      assert Settled(q, s, t, d);
      StableReadsSame(q, s.sigma, t.sigma, d);
      if Closed(q, s, d) {
        StableKeepsClosed(q, s, t, d);
      }
    }
  }

  /** Marking d visited, recording it at its location and counting the step, as findPT does first. */
  function Marked(s: Snap, d: Item): Snap {
    s.(visited := s.visited + {d}, located := s.located + {d}, steps := s.steps + 1)
  }

  function Grown(s: Snap, d: Item, pts: set<Id>): Snap {
    s.(sigma := s.sigma[d := Pts(s.sigma, d) + pts])
  }

  function Cleared(s: Snap, d: Item): Snap {
    s.(visited := s.visited - {d})
  }

  /** What evaluating the statement of d must establish before the cache is updated. */
  ghost predicate Evaluated(q: System, s: Snap, d: Item, pts: set<Id>) {
    s.outOfBudget || Closed(q, s, d)
    || (q.sources(s.sigma, d) <= s.visited && q.eval(s.sigma, d) <= pts)
  }

  lemma GoodFacts(q: System, sol: Assignment, s: Snap)
    requires Good(q, sol, s, {})
    ensures s.sigma.Keys == q.items && s.visited <= q.items && s.located <= s.visited
        && s.visited <= s.done + s.located && s.done !! s.located
    ensures Below(q, s.sigma, sol)
    ensures s.loadDpms == s.loadVar.Keys && forall d <- s.loadVar :: s.loadVar[d] == d.id
  {
  }

  lemma AdvanceFacts(q: System, s: Snap, t: Snap, extra: nat := 0)
    requires Advance(q, s, t, extra)
    ensures s.visited <= t.visited && s.located <= t.located && s.loadVar.Keys <= t.loadVar.Keys
    ensures t.exempt == s.exempt && t.done == s.done && (s.outOfBudget ==> t.outOfBudget)
    ensures Below(q, s.sigma, t.sigma)
    ensures Missing(q, t.sigma) <= Missing(q, s.sigma)
  {
  }

  lemma VisitedIsGood(q: System, sol: Assignment, s: Snap, d: Item)
    requires Good(q, sol, s, {d}) && d in s.visited
    ensures Good(q, sol, s, {}) && Advance(q, s, s)
  {
  }

  lemma FreshFacts(q: System, sol: Assignment, s: Snap, d: Item)
    requires Good(q, sol, s, {d}) && d !in s.visited
    ensures d !in s.done
  {
  }

  lemma MarkedIsGood(q: System, sol: Assignment, s: Snap, d: Item, outOfBudget: bool, steps: nat)
    requires Good(q, sol, s, {d}) && d in q.items && d !in s.visited
    ensures Good(q, sol, Marked(s, d).(outOfBudget := outOfBudget, steps := steps), {})
  {
  }

  lemma GrownIsGood(q: System, sol: Assignment, s: Snap, d: Item, pts: set<Id>)
    requires Lawful(q) && Good(q, sol, s, {}) && d in q.items && d in s.located && pts <= Pts(sol, d)
    ensures Good(q, sol, Grown(s, d, pts), {})
  {
    var w := Grown(s, d, pts);
    forall e <- w.done - w.exempt ensures DoneIsClosed(q, w, e) {
      assert DoneIsClosed(q, s, e);
      DoneDoesNotRead(q, sol, s, d, e);
      GrowthIsStable(q, s, d, pts, e);
      StableReadsSame(q, s.sigma, w.sigma, e);
    }
  }

  lemma ClearedIsGood(q: System, sol: Assignment, s: Snap, d: Item)
    requires Good(q, sol, s, {}) && d in s.located
    ensures Good(q, sol, Cleared(s, d), {d})
  {
  }

  /** Recording a load for d: the load variable of an item is its own object. */
  function WithLoad(s: Snap, d: Item, load: Id): Snap {
    s.(loadVar := s.loadVar[d := load], loadDpms := s.loadDpms + {d})
  }

  lemma GoodWithPending(q: System, sol: Assignment, s: Snap, d: Item)
    requires Good(q, sol, s, {})
    ensures Good(q, sol, s, {d})
  {
  }

  lemma WithLoadIsGood(q: System, sol: Assignment, s: Snap, d: Item)
    requires Good(q, sol, s, {})
    ensures Good(q, sol, WithLoad(s, d, d.id), {}) && Advance(q, s, WithLoad(s, d, d.id))
  {
  }

  /** findPT on an item it may not evaluate only marks it. */
  lemma SkippedAdvances(q: System, s: Snap, d: Item, outOfBudget: bool, steps: nat)
    requires (s.outOfBudget ==> outOfBudget) && steps <= s.steps + 1 && (outOfBudget || steps == s.steps + 1)
    requires d in q.items && d !in s.visited
    requires outOfBudget || d in s.exempt
    ensures Advance(q, s, Marked(s, d).(outOfBudget := outOfBudget, steps := steps))
  {
    MarkingPays(q, s, d);
    MarkingIsCounted(s, d, outOfBudget, steps);
  }

  lemma GrowthFillsRoom(q: System, sol: Assignment, s: Snap, d: Item, pts: set<Id>)
    requires IsSolution(q, sol) && d in q.items && d in s.sigma && pts <= Pts(sol, d)
    requires !(pts <= Pts(s.sigma, d))
    ensures Missing(q, Grown(s, d, pts).sigma) < Missing(q, s.sigma)
  {
    var x :| x in pts && x !in Pts(s.sigma, d);
    assert (d, x) in Missing(q, s.sigma) && (d, x) !in Missing(q, Grown(s, d, pts).sigma);
  }

  /** Clearing d and calling findPT on it again: the call as a whole advances and closes d. */
  lemma ReevaluationAdvances(q: System, s: Snap, d: Item, t: Snap)
    requires Advance(q, Cleared(s, d), t) && d in t.visited && d in q.items && d in s.visited
    ensures Advance(q, s, t, 1)
    ensures t.outOfBudget || d in t.exempt || Closed(q, t, d)
  {
    var c := Cleared(s, d);
    ClearingCosts(q, s, d);
    ClearingIsCounted(s, d, t);
    hide Cost, Counted;
    if !t.outOfBudget {
      forall e <- t.visited - t.exempt ensures Settled(q, s, t, e) {
        assert Settled(q, c, t, e);
      }
      assert d !in t.exempt ==> Settled(q, c, t, d);
    }
  }

  /** Every located item that read d in state u is closed in state t. */
  ghost predicate ReadersClosed(q: System, u: Snap, t: Snap, d: Item) {
    forall e <- u.located - u.exempt :: d in q.sources(u.sigma, e) ==> Closed(q, t, e)
  }

  /** Finished items never read an item of the running query. */
  lemma DoneDoesNotRead(q: System, sol: Assignment, s: Snap, d: Item, e: Item)
    requires Good(q, sol, s, {}) && d in s.located && e in s.done - s.exempt
    ensures d !in q.sources(s.sigma, e)
  {
    assert DoneIsClosed(q, s, e);
  }

  /** Growing the cache of d leaves an item stable unless it reads d. */
  lemma GrowthIsStable(q: System, s: Snap, d: Item, pts: set<Id>, e: Item)
    requires d !in q.sources(s.sigma, e) || pts <= Pts(s.sigma, d)
    ensures Stable(q, s.sigma, Grown(s, d, pts).sigma, e)
  {
  }

  /** The item just evaluated is closed once its cache holds the result, unless it reads itself. */
  lemma EvaluatedIsClosed(q: System, s: Snap, d: Item, pts: set<Id>)
    requires Lawful(q) && d in q.items && !s.outOfBudget && Evaluated(q, s, d, pts)
    requires Stable(q, s.sigma, Grown(s, d, pts).sigma, d)
    ensures Closed(q, Grown(s, d, pts), d)
  {
    StableReadsSame(q, s.sigma, Grown(s, d, pts).sigma, d);
  }

  /** The heart of findPT: s entry, u after evaluating the statement, t after updating the cache
      and re-evaluating everything that may read d. */
  lemma FindAdvances(q: System, sol: Assignment, s: Snap, u: Snap, t: Snap, d: Item, pts: set<Id>, extra: nat)
    requires Lawful(q) && d in q.items - s.exempt && d !in s.visited + s.done
    requires t.visited <= q.items && Good(q, sol, u, {})
    requires Advance(q, Marked(s, d), u) && Evaluated(q, u, d, pts)
    requires Advance(q, Grown(u, d, pts), t, extra)
    requires t.outOfBudget || pts <= Pts(u.sigma, d) || ReadersClosed(q, u, t, d)
    requires Cost(q, t) <= Cost(q, u)
    ensures Advance(q, s, t)
  {
    hide Cost, Good, Evaluated, ReadersClosed, Closed, Stable, Lawful, Counted;
    MarkingPays(q, s, d);
    FindCounts(q, s, u, t, d, pts, extra);
    if !t.outOfBudget {
      forall e <- t.visited - t.exempt ensures Settled(q, s, t, e) {
        if !Closed(q, t, e) {
          FindSettles(q, sol, s, u, t, d, pts, e, extra);
        }
      }
    }
  }

  lemma FindCounts(q: System, s: Snap, u: Snap, t: Snap, d: Item, pts: set<Id>, extra: nat)
    requires d !in s.visited && Advance(q, Marked(s, d), u) && Advance(q, Grown(u, d, pts), t, extra)
    ensures Counted(s, t)
  {
    hide Cost, Settled;
    MarkingIsCounted(s, d, s.outOfBudget, s.steps + 1);
    CountedTransitive(s, Marked(s, d), u);
    SubsetIsNotLarger(t.visited - s.visited, (t.visited - u.visited) + (u.visited - s.visited));
  }

  lemma FindSettles(q: System, sol: Assignment, s: Snap, u: Snap, t: Snap, d: Item, pts: set<Id>, e: Item, extra: nat)
    requires Lawful(q) && d in q.items - s.exempt
    requires t.visited <= q.items && Good(q, sol, u, {})
    requires Advance(q, Marked(s, d), u) && Evaluated(q, u, d, pts)
    requires Advance(q, Grown(u, d, pts), t, extra)
    requires pts <= Pts(u.sigma, d) || ReadersClosed(q, u, t, d)
    requires !t.outOfBudget && e in t.visited - t.exempt && !Closed(q, t, e)
    ensures e in s.visited && Stable(q, s.sigma, t.sigma, e)
  {
    var w := Grown(u, d, pts);
    assert Settled(q, w, t, e);
    if d in q.sources(u.sigma, e) && e in u.done {
      DoneDoesNotRead(q, sol, u, d, e);
    }
    GrowthIsStable(q, u, d, pts, e);
    if e == d {
      EvaluatedIsClosed(q, u, d, pts);
      StableKeepsClosed(q, w, t, d);
    } else {
      FindSettlesOther(q, s, u, t, d, pts, e);
    }
  }

  lemma FindSettlesOther(q: System, s: Snap, u: Snap, t: Snap, d: Item, pts: set<Id>, e: Item)
    requires Lawful(q) && e in q.items && e != d
    requires Advance(q, Marked(s, d), u) && !u.outOfBudget && e in u.visited - u.exempt
    requires Stable(q, u.sigma, Grown(u, d, pts).sigma, e)
    requires Stable(q, Grown(u, d, pts).sigma, t.sigma, e)
    requires u.visited <= t.visited && Below(q, Grown(u, d, pts).sigma, t.sigma)
    requires !Closed(q, t, e)
    ensures e in s.visited && Stable(q, s.sigma, t.sigma, e)
  {
    var m, w := Marked(s, d), Grown(u, d, pts);
    assert Settled(q, m, u, e);
    StableReadsSame(q, u.sigma, w.sigma, e);
    if Closed(q, u, e) {
      StableKeepsClosed(q, u, w, e);
      StableKeepsClosed(q, w, t, e);
    } else {
      StableReadsSame(q, m.sigma, u.sigma, e);
    }
  }

  /** What a frame evaluating d knows about the sources it has read so far. Of the sources want it
      has read got and collected their sets in acc. All of this may be void once the budget has run
      out, and is no longer needed once a re-evaluation has closed d. */
  ghost predicate Frame(q: System, s: Snap, d: Item, want: set<Item>, got: set<Item>, acc: set<Id>) {
    s.outOfBudget || Closed(q, s, d)
    || (&& want <= q.sources(s.sigma, d)
        && got <= want * s.visited
        && forall r <- got :: Pts(s.sigma, r) <= acc)
  }

  /** What it knows about the pointer whose targets it is walking over. */
  ghost predicate Pinned(q: System, s: Snap, d: Item, ptr: Item, targets: set<Id>) {
    s.outOfBudget || Closed(q, s, d)
    || (ptr in q.sources(s.sigma, d) && ptr in s.visited && Pts(s.sigma, ptr) == targets)
  }

  lemma FrameKept(q: System, s: Snap, t: Snap, d: Item, want: set<Item>, got: set<Item>, acc: set<Id>)
    requires Lawful(q) && d in q.items && Advance(q, s, t) && d in s.visited - s.exempt
    requires Frame(q, s, d, want, got, acc)
    ensures Frame(q, t, d, want, got, acc)
  {
    FrameSurvives(q, s, t, d);
  }

  lemma PinnedKept(q: System, s: Snap, t: Snap, d: Item, ptr: Item, targets: set<Id>)
    requires Lawful(q) && d in q.items && Advance(q, s, t) && d in s.visited - s.exempt
    requires Pinned(q, s, d, ptr, targets)
    ensures Pinned(q, t, d, ptr, targets)
  {
    FrameSurvives(q, s, t, d);
  }

  /** One more source read by a frame: s when the frame began, t before and u after the call. */
  lemma FrameReads(q: System, s: Snap, t: Snap, u: Snap, d: Item, want: set<Item>, got: set<Item>, r: Item,
      acc: set<Id>)
    requires Lawful(q) && d in q.items && d in t.visited - t.exempt && u.visited <= q.items
    requires Advance(q, s, t) && Advance(q, t, u)
    requires Frame(q, t, d, want, got, acc) && r in want && r in u.visited
    ensures Advance(q, s, u) && Frame(q, u, d, want, got + {r}, acc + Pts(u.sigma, r))
  {
    AdvanceTransitive(q, s, t, u);
    FrameKept(q, t, u, d, want, got, acc);
  }

  /** A part of the sources read by a nested frame on behalf of the same item. */
  lemma FrameJoins(q: System, s: Snap, t: Snap, u: Snap, d: Item, want: set<Item>, got: set<Item>, part: set<Item>,
                   acc: set<Id>, more: set<Id>)
    requires Lawful(q) && d in q.items && d in t.visited - t.exempt && u.visited <= q.items
    requires Advance(q, s, t) && Advance(q, t, u)
    requires Frame(q, t, d, want, got, acc) && part <= want && acc <= more
    requires Frame(q, u, d, part, part, more)
    ensures Advance(q, s, u) && Frame(q, u, d, want, got + part, more)
  {
    AdvanceTransitive(q, s, t, u);
    FrameKept(q, t, u, d, want, got, acc);
  }

  lemma UnrelatedStepKeepsFrame(q: System, s: Snap, t: Snap, d: Item, want: set<Item>, got: set<Item>, acc: set<Id>)
    requires t.visited == s.visited && t.sigma == s.sigma && t.outOfBudget == s.outOfBudget
    requires Frame(q, s, d, want, got, acc)
    ensures Frame(q, t, d, want, got, acc)
  {
  }

  lemma FrameOfPart(q: System, s: Snap, d: Item, want: set<Item>, got: set<Item>, part: set<Item>, acc: set<Id>)
    requires Frame(q, s, d, want, got, acc) && part <= want
    ensures Frame(q, s, d, part, {}, acc)
  {
  }

  /** Between queries: no bookkeeping of a query is left and every visited item is finished. */
  ghost predicate Idle(q: System, sol: Assignment, s: Snap) {
    && Good(q, sol, s, {})
    && s.located == {} && s.loadVar == map[] && !s.outOfBudget && s.steps == 0
  }

  /** After a query that stayed within budget every visited item is closed. */
  lemma QueryCloses(q: System, sol: Assignment, s: Snap, t: Snap)
    requires Lawful(q) && Idle(q, sol, s) && Good(q, sol, t, {})
    requires Advance(q, s, t) && !t.outOfBudget
    ensures forall d <- t.visited - t.exempt :: Closed(q, t, d)
  {
    forall d <- t.visited - t.exempt ensures Closed(q, t, d) {
      assert Settled(q, s, t, d);
      if d in s.visited {
        assert DoneIsClosed(q, s, d);
        AdvanceKeepsClosed(q, s, t, d);
      }
    }
  }

  /** A query stays within the steps that always suffice. */
  lemma StepsAreEnough(q: System, sol: Assignment, s: Snap, t: Snap)
    requires Idle(q, sol, s) && Advance(q, s, t)
    ensures t.steps <= EnoughSteps(q)
  {
    hide EnoughSteps, Cost, Advance, Good;
    CostIsBounded(q, s);
    AdvanceCost(q, s, t, 0);
    CostCoversSteps(q, t);
  }

  lemma CostCoversSteps(q: System, s: Snap)
    ensures s.steps <= Cost(q, s)
  {
    hide Missing;
  }

  lemma FreshIsIdle(q: System, sol: Assignment, s: Snap)
    requires s.visited == s.located == s.loadDpms == s.done == {} && s.loadVar == map[] && !s.outOfBudget
        && s.steps == 0
    requires s.sigma.Keys == q.items && forall d <- s.sigma :: s.sigma[d] == {}
    ensures Idle(q, sol, s)
  {
  }

  lemma StartIsAdvanced(q: System, sol: Assignment, s: Snap)
    requires Idle(q, sol, s)
    ensures Good(q, sol, s, {}) && Advance(q, s, s)
  {
  }

  /** Recording an out-of-budget item only exempts more. */
  lemma ExemptingMore(q: System, sol: Assignment, s: Snap, t: Snap, exempt: set<Item>)
    requires Idle(q, sol, s) && Good(q, sol, t, {}) && Advance(q, s, t) && t.exempt <= exempt
    ensures Idle(q, sol, s.(exempt := exempt)) && Good(q, sol, t.(exempt := exempt), {})
    ensures Advance(q, s.(exempt := exempt), t.(exempt := exempt))
  {
    var s', t' := s.(exempt := exempt), t.(exempt := exempt);
    forall d <- s.done - exempt ensures DoneIsClosed(q, s', d) {
      assert DoneIsClosed(q, s, d);
    }
    forall d <- t.done - exempt ensures DoneIsClosed(q, t', d) {
      assert DoneIsClosed(q, t, d);
    }
    if !t.outOfBudget {
      forall d <- t.visited - exempt ensures Settled(q, s', t', d) {
        assert Settled(q, s, t, d);
      }
    }
  }

  /** What resetQuery leaves: after a query out of budget the marks of this query are taken back,
      except those of recorded out-of-budget items. */
  ghost function AfterReset(t: Snap): Snap {
    var kept := if t.outOfBudget then t.visited - (t.located - t.exempt) else t.visited;
    Snap(kept, t.sigma, {}, map[], {}, false, t.exempt, kept, 0)
  }

  lemma ResetIsIdle(q: System, sol: Assignment, s: Snap, t: Snap)
    requires Lawful(q) && Idle(q, sol, s) && Good(q, sol, t, {}) && Advance(q, s, t)
    ensures Idle(q, sol, AfterReset(t))
    ensures t.outOfBudget ==> s.visited <= AfterReset(t).visited <= s.visited + t.exempt
    ensures forall d <- s.visited :: Pts(AfterReset(t).sigma, d) == Pts(s.sigma, d)
  {
    var r := AfterReset(t);
    forall d <- r.done - r.exempt ensures DoneIsClosed(q, r, d) {
      if t.outOfBudget {
        assert DoneIsClosed(q, t, d);
      } else {
        QueryCloses(q, sol, s, t);
        assert Closed(q, t, d);
      }
    }
  }

  /** A set of closed items that depend only on each other holds exactly the least solution. */
  lemma {:induction false} ClosedHoldsStage(q: System, s: Snap, n: nat)
    requires Lawful(q) && s.visited <= q.items
    requires forall d <- s.visited :: Closed(q, s, d)
    ensures forall d <- s.visited :: Pts(Stage(q, n), d) <= Pts(s.sigma, d)
  {
    if n > 0 {
      ClosedHoldsStage(q, s, n - 1);
      forall d <- s.visited ensures Pts(Stage(q, n), d) <= Pts(s.sigma, d) {
        assert Closed(q, s, d);
        assert Monotone(q, Stage(q, n - 1), s.sigma, d);
      }
    }
  }

  lemma ClosedIsExact(q: System, s: Snap)
    requires Lawful(q) && s.visited <= q.items && s.sigma.Keys == q.items && Below(q, s.sigma, Least(q))
    requires forall d <- s.visited :: Closed(q, s, d)
    ensures forall d <- s.visited :: s.sigma[d] == Least(q)[d]
  {
    ClosedHoldsStage(q, s, |Universe(q)|);
  }

  // ----- Items recorded as out of budget

  /** Recorded items stay visited and hold what the whole-program analysis says. */
  ghost predicate RecordedHold(whole: Assignment, s: Snap) {
    forall r <- s.exempt :: r in s.visited && Pts(whole, r) <= Pts(s.sigma, r)
  }

  lemma AdvanceKeepsRecorded(q: System, whole: Assignment, s: Snap, t: Snap, extra: nat := 0)
    requires Advance(q, s, t, extra) && s.visited <= q.items && RecordedHold(whole, s)
    ensures RecordedHold(whole, t)
  {
    hide Cost;
  }

  lemma HigherBoundIsGood(q: System, sol: Assignment, higher: Assignment, s: Snap)
    requires Good(q, sol, s, {}) && Below(q, sol, higher)
    ensures Good(q, higher, s, {})
  {
    assert Below(q, s.sigma, higher);
  }

  lemma HigherBoundIsIdle(q: System, sol: Assignment, higher: Assignment, s: Snap)
    requires Idle(q, sol, s) && Below(q, sol, higher)
    ensures Idle(q, higher, s)
  {
    HigherBoundIsGood(q, sol, higher, s);
  }

  /** Giving an item of a query that has run out a larger set still keeps what the query promises:
      the item is not one of those finished before it. */
  lemma HandlingAdvances(q: System, begin: Snap, s: Snap, t: Snap, d: Item, pts: set<Id>, extra: nat)
    requires Advance(q, begin, s) && s.outOfBudget && d in q.items - s.done && d in s.sigma
    requires Advance(q, Grown(s, d, pts), t, extra) && Cost(q, t) <= Cost(q, s)
    ensures Advance(q, begin, t) && Pts(s.sigma, d) + pts <= Pts(t.sigma, d)
  {
    hide Cost, Settled;
  }

  /** Visited items that are recorded or closed hold exactly the least solution of the equations in
      which the recorded items are fixed. */
  lemma DowngradedIsExact(q: System, whole: Assignment, s: Snap)
    requires Lawful(q) && IsSolution(q, whole) && s.visited <= q.items && s.sigma.Keys == q.items
    requires Below(q, s.sigma, Least(Downgraded(q, s.exempt, whole)))
    requires RecordedHold(whole, s) && forall d <- s.visited - s.exempt :: Closed(q, s, d)
    ensures forall d <- s.visited :: s.sigma[d] == Least(Downgraded(q, s.exempt, whole))[d]
    ensures (forall d <- s.visited :: s.sigma[d] == Least(q)[d]) <==> RecordedExact(q, s.exempt, whole, s.visited)
  {
    var r := Downgraded(q, s.exempt, whole);
    DowngradedIsLawful(q, s.exempt, whole);
    forall d <- s.visited ensures Closed(r, s, d) {
      assert d !in s.exempt ==> Closed(q, s, d);
    }
    ClosedIsExact(r, s);
    VisitedIsSelfContained(q, whole, s);
    RecordingHarmless(q, s.exempt, whole, s.visited);
  }

  lemma VisitedIsSelfContained(q: System, whole: Assignment, s: Snap)
    requires Lawful(q) && IsSolution(q, whole) && s.visited <= q.items
    requires forall d <- s.visited :: Pts(s.sigma, d) == Pts(Least(Downgraded(q, s.exempt, whole)), d)
    requires forall d <- s.visited - s.exempt :: Closed(q, s, d)
    ensures SelfContained(q, s.exempt, s.visited)
  {
    DowngradedLiesBetween(q, s.exempt, whole);
    forall d <- s.visited - s.exempt ensures q.sources(Least(q), d) <= s.visited {
      assert Closed(q, s, d);
      assert Monotone(q, Least(q), s.sigma, d);
    }
  }
}
