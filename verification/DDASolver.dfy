/** The demand-driven solver over the value-flow graph: a memoised recursive search that re-solves
    the readers of every cached set that grows, including readers still being evaluated. */
module DDASolver {
  import opened EquationSystems
  import opened ValueFlowGraph
  import opened SolverState
  import opened Downgrading

  /** The re-evaluation rule: along an indirect edge that does not end in a load only the same
      object is affected, along any other edge every item at the far end is. */
  ghost predicate TouchesVia(g: Graph, edge: Edge, d: Item, e: Item) {
    && edge.src == d.node && edge.dst == e.node
    && (edge.Indirect? && !IsLoad(g, edge.dst) ==> e.id == d.id)
  }

  predicate IsLoad(g: Graph, n: Node) {
    n in g.stmts && g.stmts[n].Load?
  }

  ghost predicate Touches(g: Graph, d: Item, e: Item) {
    exists edge <- g.edges :: TouchesVia(g, edge, d, e)
  }

  lemma DirectTouches(g: Graph, n: Node, d: Item, e: Item)
    requires e.node == n && (Direct(d.node, n, Intra) in g.edges || d in g.DirectSources(n))
    ensures Touches(g, d, e)
  {
    var edge :| edge in g.edges && edge.Direct? && edge.src == d.node && edge.dst == n;
    assert TouchesVia(g, edge, d, e);
  }

  lemma IndirectTouches(g: Graph, n: Node, o: Id, d: Item, e: Item)
    requires e.node == n && d in g.IndirectSources(n, o) && (o == e.id || IsLoad(g, n))
    ensures Touches(g, d, e)
  {
    var edge :| edge in g.edges && edge.Indirect? && edge.dst == n && o in edge.guard && d == Item(edge.src, o);
    assert TouchesVia(g, edge, d, e);
  }

  /** Whatever the caches hold, an item can only read items that touch it. */
  lemma ReadersAreTouched(g: Graph, c: Assignment, d: Item, e: Item)
    requires g.WellFormed() && e.node in g.stmts && d in g.Sources(c, e)
    ensures Touches(g, d, e)
  {
    assert g.ValidStmt(e.node);
    hide Graph.WellFormed, Touches, Graph.DirectSources, Graph.IndirectSources;
    match g.stmts[e.node]
    case Addr(_) =>
    case Copy => DirectTouches(g, e.node, d, e);
    case Gep => DirectTouches(g, e.node, d, e);
    case Load(p) =>
      if d == g.DefItem(p) {
        DirectTouches(g, e.node, d, e);
      } else {
        var o :| d in g.IndirectSources(e.node, o);
        IndirectTouches(g, e.node, o, d, e);
      }
    case Store(p, v) =>
      if d in {g.DefItem(p), g.DefItem(v)} {
        DirectTouches(g, e.node, d, e);
      } else {
        IndirectTouches(g, e.node, e.id, d, e);
      }
    case MemRegion => IndirectTouches(g, e.node, e.id, d, e);
  }

  /** Every item of state s that edge lets d touch is closed in state t. */
  ghost predicate TouchedClosed(g: Graph, q: System, s: Snap, t: Snap, edge: Edge, d: Item) {
    forall e <- s.located - s.exempt :: TouchesVia(g, edge, d, e) ==> Closed(q, t, e)
  }

  ghost predicate AllTouchedClosed(g: Graph, q: System, s: Snap, t: Snap, d: Item) {
    forall edge <- g.edges :: TouchedClosed(g, q, s, t, edge, d)
  }

  lemma TouchedEarlier(g: Graph, q: System, s: Snap, t: Snap, u: Snap, edge: Edge, d: Item)
    requires s.located <= t.located && s.exempt == t.exempt && TouchedClosed(g, q, t, u, edge, d)
    ensures TouchedClosed(g, q, s, u, edge, d)
  {
  }

  lemma TouchedStayClosed(g: Graph, q: System, s: Snap, t: Snap, u: Snap, d: Item, edges: set<Edge>, j: nat, k: nat)
    requires Lawful(q) && Advance(q, s, t, j) && Advance(q, t, u, k) && !u.outOfBudget
    requires s.located <= s.visited && t.visited <= q.items
    requires forall edge <- edges :: TouchedClosed(g, q, s, t, edge, d)
    ensures forall edge <- edges :: TouchedClosed(g, q, s, u, edge, d)
  {
    AdvanceKeepsAllClosed(q, t, u, k);
    forall edge <- edges ensures TouchedClosed(g, q, s, u, edge, d) {
      assert TouchedClosed(g, q, s, t, edge, d);
    }
  }

  lemma ReadersAreClosed(g: Graph, q: System, s: Snap, t: Snap, d: Item)
    requires g.Valid() && q == g.Equations() && s.located <= q.items
    requires AllTouchedClosed(g, q, s, t, d)
    ensures ReadersClosed(q, s, t, d)
  {
    hide Graph.Sources, Closed;
    forall e <- s.located - s.exempt | d in q.sources(s.sigma, e) ensures Closed(q, t, e) {
      ReadersAreTouched(g, s.sigma, d, e);
      var edge :| edge in g.edges && TouchesVia(g, edge, d, e);
      assert TouchedClosed(g, q, s, t, edge, d);
    }
  }

  /** Everything that flows into d has been read: the statement is evaluated. */
  lemma FrameCompletes(g: Graph, q: System, s: Snap, d: Item, want: set<Item>, acc: set<Id>)
    requires q.sources(s.sigma, d) == g.Sources(s.sigma, d) && q.eval(s.sigma, d) == g.Eval(s.sigma, d)
    requires Frame(q, s, d, want, want, acc)
    requires s.outOfBudget || Closed(q, s, d)
          || (want == g.FlowSources(s.sigma, d) && g.PointerSource(d.node) <= s.visited)
    ensures Evaluated(q, s, d, g.Transfer(d.node, acc))
  {
    if !s.outOfBudget && !Closed(q, s, d) {
      assert Gather(s.sigma, want) <= acc;
    }
  }

  lemma LoadCompletes(g: Graph, q: System, s: Snap, d: Item, p: Id, targets: set<Id>, acc: set<Id>)
    requires q.sources(s.sigma, d) == g.Sources(s.sigma, d) && q.eval(s.sigma, d) == g.Eval(s.sigma, d)
    requires d.node in g.stmts && g.stmts[d.node] == Load(p)
    requires Pinned(q, s, d, g.DefItem(p), targets)
    requires var want := g.LoadedSources(d.node, targets); Frame(q, s, d, want, want, acc)
    ensures Evaluated(q, s, d, acc)
  {
    FrameCompletes(g, q, s, d, g.LoadedSources(d.node, targets), acc);
  }

  lemma StoreCompletes(g: Graph, q: System, s: Snap, d: Item, p: Id, v: Id, targets: set<Id>, acc: set<Id>)
    requires q.sources(s.sigma, d) == g.Sources(s.sigma, d) && q.eval(s.sigma, d) == g.Eval(s.sigma, d)
    requires d.node in g.stmts && g.stmts[d.node] == Store(p, v)
    requires Pinned(q, s, d, g.DefItem(p), targets)
    requires var want := g.StoreSources(d, v, targets); Frame(q, s, d, want, want, acc)
    ensures Evaluated(q, s, d, acc)
  {
    FrameCompletes(g, q, s, d, g.StoreSources(d, v, targets), acc);
  }

  /** What is collected from below a solution stays below it. */
  lemma CollectedIsSound(g: Graph, q: System, sol: Assignment, d: Item, want: set<Item>, acc: set<Id>)
    requires IsSolution(q, sol) && d in q.items && q.eval(sol, d) == g.Eval(sol, d)
    requires acc <= Gather(sol, want) && want <= g.FlowSources(sol, d)
    ensures g.Transfer(d.node, acc) <= Pts(sol, d)
  {
    assert Gather(sol, want) <= Gather(sol, g.FlowSources(sol, d));
  }

  /** What one target of a store's pointer makes the store read. */
  ghost function TargetSources(g: Graph, d: Item, value: Id, target: Id, targets: set<Id>): set<Item> {
    (if target == d.id then {g.DefItem(value)} else {})
    + (if target == d.id && g.StrongUpdate(d.node, targets) then {} else g.IndirectSources(d.node, d.id))
  }

  lemma TargetsCoverStore(g: Graph, d: Item, value: Id, targets: set<Id>, got: set<Item>)
    requires got <= g.StoreSources(d, value, targets)
    requires forall target <- targets :: TargetSources(g, d, value, target, targets) <= got
    ensures got == g.StoreSources(d, value, targets)
  {
    if d.id in targets {
      assert TargetSources(g, d, value, d.id, targets) <= got;
    } else if target :| target in targets {
      assert TargetSources(g, d, value, target, targets) <= got;
    }
  }

  lemma TargetWithinStore(g: Graph, d: Item, value: Id, target: Id, targets: set<Id>)
    requires target in targets
    ensures TargetSources(g, d, value, target, targets) <= g.StoreSources(d, value, targets)
  {
    if target != d.id {
      assert g.PassesOld(d.node, d.id, targets);
    }
  }

  class Solver {
    const g: Graph
    const maxBudget: nat

    var backwardVisited: set<Item>
    /** Caches: top-level pointers by variable, address-taken objects by item. */
    var topLevelPts: map<Id, set<Id>>
    var addressTakenPts: map<Item, set<Id>>
    var locToDpms: map<Node, set<Item>>
    var loadDpm: map<Item, Item>
    var loadVar: map<Item, Id>
    var outOfBudgetDpms: set<Item>
    var outOfBudgetQuery: bool
    var numOfStep: nat

    /** What the whole-program analysis has for each variable and object. */
    const ander: map<Id, set<Id>>

    /** The equations of the graph, a solution the caches stay below, and the items visited by earlier
        queries. */
    ghost const eqs: System
    ghost var sol: Assignment
    ghost var done: set<Item>

    ghost function CachedPts(d: Item): set<Id>
      reads `topLevelPts, `addressTakenPts
    {
      if IsTopLevel(d.node) then
        if d.id in topLevelPts then topLevelPts[d.id] else {}
      else Pts(addressTakenPts, d)
    }

    ghost function Located(): set<Item>
      reads `locToDpms
    {
      set n, d | n in locToDpms && d in locToDpms[n] :: d
    }

    ghost function Sigma(): Assignment
      reads `topLevelPts, `addressTakenPts
    {
      map d | d in eqs.items :: CachedPts(d)
    }

    ghost function Now(): Snap
      reads this
    {
      Snap(backwardVisited, Sigma(), Located(), loadVar, loadDpm.Keys, outOfBudgetQuery, outOfBudgetDpms, done,
          numOfStep)
    }

    ghost predicate Ready()
      reads `sol
    {
      g.Valid() && eqs == g.Equations() && IsSolution(eqs, sol)
    }

    ghost predicate LocatedAtOwnNode()
      reads `locToDpms
    {
      forall n <- locToDpms, d <- locToDpms[n] :: d.node == n
    }

    predicate IsTopLevel(n: Node) {
      n in g.stmts && g.stmts[n].TopLevel()
    }

    /** Every memory item that has been evaluated has its load recorded. */
    ghost predicate LoadsRecorded()
      reads `locToDpms, `loadVar
    {
      forall d <- Located() :: IsTopLevel(d.node) || d in loadVar
    }

    ghost predicate Inv(pending: set<Item>)
      reads this
    {
      Good(eqs, sol, Now(), pending) && LocatedAtOwnNode() && LoadsRecorded() && BudgetChecked()
    }

    /** The query is out of budget exactly when it has taken more steps than allowed. */
    ghost predicate BudgetChecked()
      reads `outOfBudgetQuery, `numOfStep
    {
      outOfBudgetQuery <==> numOfStep > maxBudget
    }

    /** The part of the running query in which d is being evaluated. */
    ghost predicate Evaluating(d: Item)
      reads this
    {
      Inv({}) && d in eqs.items && d in backwardVisited && d in Located() && d !in outOfBudgetDpms
    }

    lemma EquationsOfGraph()
      requires Ready()
      ensures Lawful(eqs) && IsSolution(eqs, sol)
      ensures forall c, d :: eqs.sources(c, d) == g.Sources(c, d) && eqs.eval(c, d) == g.Eval(c, d)
    {
      EquationsAreLawful(g);
    }

    lemma ItemFacts(d: Item)
      requires Ready() && d in eqs.items
      ensures d.node in g.stmts
      ensures if IsTopLevel(d.node) then d.node in g.lhs && g.lhs[d.node] == d.id && d == g.DefItem(d.id)
              else d.id in g.objs
    {
    }

    lemma InvFacts()
      requires Inv({})
      ensures var s := Now();
              && s.sigma.Keys == eqs.items && s.visited <= eqs.items && s.located <= s.visited
              && Below(eqs, s.sigma, sol)
      ensures loadDpm.Keys == loadVar.Keys && forall d <- loadVar :: loadVar[d] == d.id
      ensures forall d <- Located() :: IsTopLevel(d.node) || d in loadVar
      ensures outOfBudgetQuery <==> numOfStep > maxBudget
    {
    }

    // ----- Visited marks, locations, load records and caches

    method MarkBkVisited(d: Item)
      modifies `backwardVisited
      ensures Now() == old(Now()).(visited := old(backwardVisited) + {d})
    {
      backwardVisited := backwardVisited + {d};
    }

    method ClearBkVisited(d: Item)
      requires d in backwardVisited
      modifies `backwardVisited
      ensures Now() == Cleared(old(Now()), d)
    {
      backwardVisited := backwardVisited - {d};
    }

    method AddDpmToLoc(d: Item)
      requires LocatedAtOwnNode()
      modifies `locToDpms
      ensures LocatedAtOwnNode() && Now() == old(Now()).(located := old(Located()) + {d})
    {
      var here := if d.node in locToDpms then locToDpms[d.node] else {};
      locToDpms := locToDpms[d.node := here + {d}];
      forall e <- old(Located()) + {d} ensures e in Located() {
        assert e in locToDpms[e.node];
      }
      assert Located() == old(Located()) + {d};
    }

    method AddLoadDpmAndCVar(d: Item, load: Item, variable: Id)
      modifies `loadDpm, `loadVar
      ensures loadVar == old(loadVar)[d := variable] && loadDpm == old(loadDpm)[d := load]
    {
      loadVar := loadVar[d := variable];
      loadDpm := loadDpm[d := load];
    }

    method GetCachedPointsTo(d: Item) returns (pts: set<Id>)
      ensures pts == CachedPts(d)
      ensures d in eqs.items ==> pts == Pts(Now().sigma, d)
    {
      if IsTopLevel(d.node) {
        pts := if d.id in topLevelPts then topLevelPts[d.id] else {};
      } else {
        pts := Pts(addressTakenPts, d);
      }
    }

    /** Distinct items never share a cache entry. */
    lemma CachesArePrivate(d: Item, e: Item)
      requires Ready() && d in eqs.items && e in eqs.items && d.id == e.id
      requires IsTopLevel(d.node) && IsTopLevel(e.node)
      ensures d == e
    {
      ItemFacts(d);
      ItemFacts(e);
    }

    /** Unions pts into the cache of d alone; returns whether the cache grew. */
    method UnionDDAPts(d: Item, pts: set<Id>) returns (changed: bool)
      requires Ready() && d in eqs.items
      modifies `topLevelPts, `addressTakenPts
      ensures Now() == Grown(old(Now()), d, pts)
      ensures changed <==> !(pts <= Pts(old(Now()).sigma, d))
    {
      hide Ready;
      var cached := GetCachedPointsTo(d);
      changed := cached + pts != cached;
      if IsTopLevel(d.node) {
        topLevelPts := topLevelPts[d.id := cached + pts];
      } else {
        addressTakenPts := addressTakenPts[d := cached + pts];
      }
      forall e <- eqs.items ensures CachedPts(e) == if e == d then old(CachedPts(d)) + pts else old(CachedPts(e)) {
        if e.id == d.id && IsTopLevel(e.node) && IsTopLevel(d.node) {
          CachesArePrivate(d, e);
        }
      }
      assert Sigma() == Grown(old(Now()), d, pts).sigma;
    }

    method TestOutOfBudget(d: Item) returns (out: bool)
      modifies `outOfBudgetQuery, `numOfStep
      ensures outOfBudgetQuery == (old(outOfBudgetQuery) || old(numOfStep) + 1 > maxBudget)
      ensures Now() == old(Now()).(outOfBudget := outOfBudgetQuery, steps := numOfStep)
      ensures numOfStep == if old(outOfBudgetQuery) then old(numOfStep) else old(numOfStep) + 1
      ensures out == (outOfBudgetQuery || d in outOfBudgetDpms)
    {
      if outOfBudgetQuery {
        return true;
      }
      numOfStep := numOfStep + 1;
      if numOfStep > maxBudget {
        outOfBudgetQuery := true;
      }
      out := d in outOfBudgetDpms || outOfBudgetQuery;
    }

    // ----- Solving

    /** The first visit of an item: it is marked, recorded at its location, and the step is counted. */
    method Enter(d: Item) returns (out: bool)
      requires Ready() && d in eqs.items && Inv({d}) && (IsTopLevel(d.node) || d in loadVar) && d !in backwardVisited
      modifies `backwardVisited, `locToDpms, `outOfBudgetQuery, `numOfStep
      ensures Inv({}) && d !in done && out == (outOfBudgetQuery || d in outOfBudgetDpms)
      ensures Now() == Marked(old(Now()), d).(outOfBudget := outOfBudgetQuery, steps := numOfStep)
      ensures (old(outOfBudgetQuery) ==> outOfBudgetQuery) && numOfStep <= old(numOfStep) + 1
      ensures outOfBudgetQuery || numOfStep == old(numOfStep) + 1
      ensures !out ==> Now() == Marked(old(Now()), d)
    {
      hide Good, Ready, Sigma, CachedPts;
      ghost var s := Now();
      FreshFacts(eqs, sol, s, d);
      MarkBkVisited(d);
      AddDpmToLoc(d);
      out := TestOutOfBudget(d);
      MarkedIsGood(eqs, sol, s, d, outOfBudgetQuery, numOfStep);
    }

    /** Computes the points-to set of d. Whatever items are still being evaluated further up the
        call stack, on return every visited item is closed unless nothing it reads has changed. */
    method FindPT(d: Item) returns (pts: set<Id>)
      requires Ready() && d in eqs.items && Inv({d}) && (IsTopLevel(d.node) || d in loadVar)
      modifies `backwardVisited, `topLevelPts, `addressTakenPts, `locToDpms, `loadDpm, `loadVar, `outOfBudgetQuery,
               `numOfStep
      ensures Inv({}) && Advance(eqs, old(Now()), Now())
      ensures d in backwardVisited && pts == Pts(Now().sigma, d)
      ensures d in old(backwardVisited) ==> Now() == old(Now())
      ensures old(numOfStep) >= maxBudget || d in outOfBudgetDpms ==> Now().sigma == old(Now()).sigma
      decreases Missing(eqs, Now().sigma), eqs.items - backwardVisited, 0
    {
      hide Cost, Ready, Good, Advance, LocatedAtOwnNode, Lawful, Missing, Below, Evaluated, ReadersClosed,
           Closed, IsSolution, Sigma, CachedPts;
      EquationsOfGraph();
      ghost var s := Now();
      if d in backwardVisited {
        pts := GetCachedPointsTo(d);
        VisitedIsGood(eqs, sol, s, d);
        return;
      }
      var out := Enter(d);
      if out {
        SkippedAdvances(eqs, s, d, outOfBudgetQuery, numOfStep);
      } else {
        assert Now() == Marked(s, d);
        var stmtPts := HandleSingleStatement(d);
        ghost var u := Now();
        AdvanceFacts(eqs, Marked(s, d), u);
        UpdateCachedPointsTo(d, stmtPts);
        GoodFacts(eqs, sol, Now());
        FindAdvances(eqs, sol, s, u, Now(), d, stmtPts, Fanout(eqs));
        AdvanceFacts(eqs, Grown(u, d, stmtPts), Now(), Fanout(eqs));
      }
      pts := GetCachedPointsTo(d);
    }

    method HandleSingleStatement(d: Item) returns (pts: set<Id>)
      requires Ready() && Evaluating(d)
      modifies `backwardVisited, `topLevelPts, `addressTakenPts, `locToDpms, `loadDpm, `loadVar, `outOfBudgetQuery,
               `numOfStep
      ensures Inv({}) && Advance(eqs, old(Now()), Now())
      ensures Evaluated(eqs, Now(), d, pts) && pts <= Pts(sol, d)
      decreases Missing(eqs, Now().sigma), eqs.items - backwardVisited, 5
    {
      hide Cost, Ready, Good, Advance, LocatedAtOwnNode, Lawful, Evaluated, Frame, Pinned, Closed, IsSolution, Missing;
      EquationsOfGraph();
      ItemFacts(d);
      match g.stmts[d.node]
      case Addr(o) =>
        pts := {g.Target(o)};
        AdvanceReflexive(eqs, Now(), Now());
        FrameStarts(d, {}, {});
        FrameCompletes(g, eqs, Now(), d, {}, {});
        CollectedIsSound(g, eqs, sol, d, {}, {});
      case Copy =>
        pts := BacktraceAlongDirectVF(d);
        FrameCompletes(g, eqs, Now(), d, g.DirectSources(d.node), pts);
        CollectedIsSound(g, eqs, sol, d, g.DirectSources(d.node), pts);
      case Gep =>
        var gepPts := BacktraceAlongDirectVF(d);
        pts := g.FieldsOf(d.node, gepPts);
        FrameCompletes(g, eqs, Now(), d, g.DirectSources(d.node), gepPts);
        CollectedIsSound(g, eqs, sol, d, g.DirectSources(d.node), gepPts);
      case Load(p) =>
        pts := HandleLoad(d, p);
      case Store(p, v) =>
        pts := HandleStore(d, p, v);
      case MemRegion =>
        FrameStarts(d, g.IndirectSources(d.node, d.id), {});
        pts := BacktraceAlongIndirectVF({}, d, d);
        FrameCompletes(g, eqs, Now(), d, g.IndirectSources(d.node, d.id), pts);
        CollectedIsSound(g, eqs, sol, d, g.IndirectSources(d.node, d.id), pts);
    }

    lemma FrameStarts(d: Item, want: set<Item>, acc: set<Id>)
      requires want <= eqs.sources(Now().sigma, d)
      ensures Frame(eqs, Now(), d, want, {}, acc)
    {
    }

    lemma EdgeFacts(edge: Edge)
      requires Ready() && edge in g.edges
      ensures edge.Direct? ==> edge.src in g.lhs && IsTopLevel(edge.src) && Item(edge.src, g.lhs[edge.src]) in eqs.items
      ensures edge.Indirect? ==> forall o <- g.objs :: Item(edge.src, o) in eqs.items
    {
    }

    /** Moves to the source of an edge, and collects its points-to set. */
    method BackwardPropDpm(acc: set<Id>, ptr: Id, oldDpm: Item, edge: Edge) returns (pts: set<Id>)
      requires Ready() && Inv({}) && edge in g.edges && Item(edge.src, ptr) in eqs.items
      requires edge.Direct? ==> IsTopLevel(edge.src)
      requires edge.Indirect? ==> oldDpm in loadVar && oldDpm.id == ptr
      modifies `backwardVisited, `topLevelPts, `addressTakenPts, `locToDpms, `loadDpm, `loadVar, `outOfBudgetQuery,
               `numOfStep
      ensures Inv({}) && Advance(eqs, old(Now()), Now())
      ensures Item(edge.src, ptr) in backwardVisited && pts == acc + Pts(Now().sigma, Item(edge.src, ptr))
      decreases Missing(eqs, Now().sigma), eqs.items - backwardVisited, 1
    {
      hide Cost, Ready, Good, Advance, LocatedAtOwnNode, Lawful, Missing, Below, Closed, IsSolution, CachedPts, Sigma,
           Located, Graph.Sources, Graph.Eval;
      EquationsOfGraph();
      ghost var s := Now();
      var dpm := Item(edge.src, ptr);
      GoodFacts(eqs, sol, s);
      if edge.Indirect? {
        AddLoadDpmAndCVar(dpm, loadDpm[oldDpm], loadVar[oldDpm]);
        assert Now() == WithLoad(s, dpm, dpm.id);
        WithLoadIsGood(eqs, sol, s, dpm);
      } else {
        AdvanceReflexive(eqs, s, s);
      }
      ghost var t := Now();
      GoodWithPending(eqs, sol, t, dpm);
      var found := FindPT(dpm);
      pts := acc + found;
      GoodFacts(eqs, sol, Now());
      AdvanceTransitive(eqs, s, t, Now());
    }

    /** The bookkeeping after one source of d has been read. */
    lemma ReadSource(s: Snap, t: Snap, d: Item, want: set<Item>, got: set<Item>, r: Item, acc: set<Id>)
      requires Ready() && Inv({}) && d in eqs.items && d in t.visited - t.exempt && d in t.located
      requires Advance(eqs, s, t) && Advance(eqs, t, Now())
      requires Frame(eqs, t, d, want, got, acc) && r in want && r in backwardVisited
      ensures Evaluating(d) && Advance(eqs, s, Now())
      ensures Frame(eqs, Now(), d, want, got + {r}, acc + Pts(Now().sigma, r))
      ensures Pts(Now().sigma, r) <= Gather(sol, want)
    {
      hide Cost, Ready, Good, LocatedAtOwnNode, Lawful, Frame, Closed, IsSolution, LoadsRecorded;
      EquationsOfGraph();
      AdvanceFacts(eqs, t, Now());
      GoodFacts(eqs, sol, Now());
      FrameReads(eqs, s, t, Now(), d, want, got, r, acc);
    }

    method BacktraceAlongDirectVF(d: Item) returns (pts: set<Id>)
      requires Ready() && Evaluating(d) && d.node in g.stmts && (g.stmts[d.node].Copy? || g.stmts[d.node].Gep?)
      modifies `backwardVisited, `topLevelPts, `addressTakenPts, `locToDpms, `loadDpm, `loadVar, `outOfBudgetQuery,
               `numOfStep
      ensures Inv({}) && Advance(eqs, old(Now()), Now())
      ensures Frame(eqs, Now(), d, g.DirectSources(d.node), g.DirectSources(d.node), pts)
      ensures pts <= Gather(sol, g.DirectSources(d.node))
      decreases Missing(eqs, Now().sigma), eqs.items - backwardVisited, 2
    {
      hide Cost, Ready, Good, Advance, LocatedAtOwnNode, Lawful, Frame, Missing, Closed, IsSolution,
           LoadsRecorded, Below, Inv, Gather, CachedPts, Located, Sigma;
      EquationsOfGraph();
      ghost var s, want, got := Now(), g.DirectSources(d.node), {};
      pts := {};
      AdvanceReflexive(eqs, s, s);
      FrameStarts(d, want, pts);
      var edgeSet := set e | e in g.edges && e.dst == d.node;
      while edgeSet != {}
        invariant edgeSet <= g.edges
        invariant Evaluating(d) && Advance(eqs, s, Now())
        invariant Frame(eqs, Now(), d, want, got, pts) && pts <= Gather(sol, want)
        invariant got <= want
        invariant forall e <- g.edges ::
                    e.dst == d.node && e.Direct? && e.src in g.lhs ==> e in edgeSet || Item(e.src, g.lhs[e.src]) in got
      {
        var edge :| edge in edgeSet;
        edgeSet := edgeSet - {edge};
        if edge.Direct? {
          EdgeFacts(edge);
          ghost var t, sofar := Now(), pts;
          ghost var r := Item(edge.src, g.lhs[edge.src]);
          AdvanceFacts(eqs, s, t);
          pts := BackwardPropDpm(pts, g.lhs[edge.src], d, edge);
          ReadSource(s, t, d, want, got, r, sofar);
          got := got + {r};
        }
      }
      assert got == want;
    }

    method BacktraceAlongIndirectVF(acc: set<Id>, oldDpm: Item, ghost d: Item) returns (pts: set<Id>)
      requires Ready() && Evaluating(d)
      requires oldDpm in loadVar && oldDpm.id in g.objs
      requires Frame(eqs, Now(), d, g.IndirectSources(oldDpm.node, oldDpm.id), {}, acc)
      modifies `backwardVisited, `topLevelPts, `addressTakenPts, `locToDpms, `loadDpm, `loadVar, `outOfBudgetQuery,
               `numOfStep
      ensures Evaluating(d) && Advance(eqs, old(Now()), Now())
      ensures var sources := g.IndirectSources(oldDpm.node, oldDpm.id);
              Frame(eqs, Now(), d, sources, sources, pts) && acc <= pts <= acc + Gather(sol, sources)
      decreases Missing(eqs, Now().sigma), eqs.items - backwardVisited, 2
    {
      hide Cost, Ready, Good, Advance, LocatedAtOwnNode, Lawful, Frame, Missing, Closed, IsSolution,
           LoadsRecorded, Below, Inv, Gather, CachedPts, Located, Sigma;
      ghost var s, want, got := Now(), g.IndirectSources(oldDpm.node, oldDpm.id), {};
      pts := acc;
      AdvanceReflexive(eqs, s, s);
      if oldDpm.id in g.constants {
        return;
      }
      var edgeSet := set e | e in g.edges && e.dst == oldDpm.node;
      while edgeSet != {}
        invariant edgeSet <= g.edges
        invariant Evaluating(d) && Advance(eqs, s, Now()) && oldDpm in loadVar
        invariant Frame(eqs, Now(), d, want, got, pts) && acc <= pts <= acc + Gather(sol, want)
        invariant got <= want
        invariant forall e <- g.edges ::
                    e.dst == oldDpm.node && e.Indirect? && oldDpm.id in e.guard ==>
                      e in edgeSet || Item(e.src, oldDpm.id) in got
      {
        var edge :| edge in edgeSet;
        edgeSet := edgeSet - {edge};
        if edge.Indirect? && oldDpm.id in edge.guard {
          EdgeFacts(edge);
          ghost var t, sofar := Now(), pts;
          ghost var r := Item(edge.src, oldDpm.id);
          AdvanceFacts(eqs, s, t);
          pts := BackwardPropDpm(pts, oldDpm.id, oldDpm, edge);
          ReadSource(s, t, d, want, got, r, sofar);
          AdvanceFacts(eqs, t, Now());
          got := got + {r};
        }
      }
      assert got == want;
    }

    /** The item of another object at the same load or store, with its load recorded. */
    method GetDPImWithOldCond(oldDpm: Item, variable: Id) returns (dpm: Item)
      requires Ready() && Inv({}) && oldDpm.node in g.stmts
      requires g.stmts[oldDpm.node].Load? || (g.stmts[oldDpm.node].Store? && oldDpm in loadVar)
      modifies `loadVar, `loadDpm
      ensures dpm == Item(oldDpm.node, variable) && dpm in loadVar
      ensures loadDpm == old(loadDpm)[dpm := if g.stmts[oldDpm.node].Store? then old(loadDpm)[oldDpm] else oldDpm]
      ensures Inv({}) && Now() == WithLoad(old(Now()), dpm, variable)
      ensures Advance(eqs, old(Now()), Now())
    {
      hide Cost, Ready, Good, Advance, Located, Sigma, CachedPts, LocatedAtOwnNode;
      ghost var s := Now();
      dpm := Item(oldDpm.node, variable);
      GoodFacts(eqs, sol, s);
      WithLoadIsGood(eqs, sol, s, dpm);
      if g.stmts[oldDpm.node].Store? {
        AddLoadDpmAndCVar(dpm, loadDpm[oldDpm], variable);
      } else {
        AddLoadDpmAndCVar(dpm, oldDpm, variable);
      }
      assert Now() == WithLoad(s, dpm, variable);
    }

    /** The bookkeeping after one part of the sources of d has been read through a target. */
    lemma JoinPart(s: Snap, t: Snap, d: Item, ptr: Item, targets: set<Id>, want: set<Item>, got: set<Item>,
                   part: set<Item>, acc: set<Id>, more: set<Id>)
      requires Ready() && Evaluating(d) && d in t.visited - t.exempt && part <= want
      requires Advance(eqs, s, t) && Advance(eqs, t, Now())
      requires Frame(eqs, t, d, want, got, acc) && Pinned(eqs, t, d, ptr, targets)
      requires Frame(eqs, Now(), d, part, part, more)
      requires acc <= more <= acc + Gather(sol, part) && acc <= Gather(sol, want)
      ensures Advance(eqs, s, Now()) && Frame(eqs, Now(), d, want, got + part, more)
      ensures Pinned(eqs, Now(), d, ptr, targets) && more <= Gather(sol, want)
    {
      hide Cost, Ready, Good, LocatedAtOwnNode, Lawful, Frame, Pinned, Closed, IsSolution, LoadsRecorded;
      EquationsOfGraph();
      GoodFacts(eqs, sol, Now());
      FrameJoins(eqs, s, t, Now(), d, want, got, part, acc, more);
      PinnedKept(eqs, t, Now(), d, ptr, targets);
      assert Gather(sol, part) <= Gather(sol, want);
    }

    method HandleLoad(d: Item, p: Id) returns (pts: set<Id>)
      requires Ready() && Evaluating(d) && d.node in g.stmts && g.stmts[d.node] == Load(p)
      modifies `backwardVisited, `topLevelPts, `addressTakenPts, `locToDpms, `loadDpm, `loadVar, `outOfBudgetQuery,
               `numOfStep
      ensures Inv({}) && Advance(eqs, old(Now()), Now())
      ensures Evaluated(eqs, Now(), d, pts) && pts <= Pts(sol, d)
      decreases Missing(eqs, Now().sigma), eqs.items - backwardVisited, 4
    {
      hide Cost, Ready, Good, Advance, LocatedAtOwnNode, Lawful, Frame, Pinned, Missing, Closed, IsSolution,
           LoadsRecorded, Below, Inv, Gather, CachedPts, Located, Sigma;
      EquationsOfGraph();
      ghost var s, ptr := Now(), g.DefItem(p);
      var loadPts := StartFromPointer(d, p);
      ghost var want, got := g.LoadedSources(d.node, loadPts), {};
      FrameStarts(d, want, {});
      pts := {};
      var rest := loadPts;
      while rest != {}
        invariant rest <= loadPts && got <= want
        invariant Evaluating(d) && Advance(eqs, s, Now())
        invariant Pinned(eqs, Now(), d, ptr, loadPts)
        invariant Frame(eqs, Now(), d, want, got, pts) && pts <= Gather(sol, want)
        invariant forall o <- loadPts - rest :: g.IndirectSources(d.node, o) <= got
      {
        var o :| o in rest;
        rest := rest - {o};
        ghost var t, sofar, part := Now(), pts, g.IndirectSources(d.node, o);
        AdvanceFacts(eqs, s, t);
        FrameOfPart(eqs, t, d, want, got, part, pts);
        pts := LoadTarget(pts, d, o);
        JoinPart(s, t, d, ptr, loadPts, want, got, part, sofar, pts);
        got := got + part;
      }
      assert got == want;
      LoadCompletes(g, eqs, Now(), d, p, loadPts, pts);
      CollectedIsSound(g, eqs, sol, d, want, pts);
    }

    /** One target of the load's pointer: what that object holds before the load. */
    method LoadTarget(acc: set<Id>, d: Item, o: Id) returns (pts: set<Id>)
      requires Ready() && Evaluating(d) && d.node in g.stmts && g.stmts[d.node].Load? && o in g.objs
      requires Frame(eqs, Now(), d, g.IndirectSources(d.node, o), {}, acc)
      modifies `backwardVisited, `topLevelPts, `addressTakenPts, `locToDpms, `loadDpm, `loadVar, `outOfBudgetQuery,
               `numOfStep
      ensures Evaluating(d) && Advance(eqs, old(Now()), Now())
      ensures var part := g.IndirectSources(d.node, o);
              Frame(eqs, Now(), d, part, part, pts) && acc <= pts <= acc + Gather(sol, part)
      decreases Missing(eqs, Now().sigma), eqs.items - backwardVisited, 3
    {
      hide Cost, Ready, Good, Advance, LocatedAtOwnNode, Lawful, Frame, Missing, Closed, IsSolution,
           LoadsRecorded, Below, Inv, Gather, CachedPts, Located, Sigma;
      EquationsOfGraph();
      ghost var s := Now();
      var dpm := GetDPImWithOldCond(d, o);
      UnrelatedStepKeepsFrame(eqs, s, Now(), d, g.IndirectSources(d.node, o), {}, acc);
      ghost var t := Now();
      pts := BacktraceAlongIndirectVF(acc, dpm, d);
      InvFacts();
      AdvanceTransitive(eqs, s, t, Now());
    }

    /** The points-to set of the pointer a load or store dereferences. */
    method StartFromPointer(d: Item, p: Id) returns (pts: set<Id>)
      requires Ready() && Evaluating(d) && d.node in g.stmts
      requires g.stmts[d.node] == Load(p) || (g.stmts[d.node].Store? && g.stmts[d.node].dst == p)
      modifies `backwardVisited, `topLevelPts, `addressTakenPts, `locToDpms, `loadDpm, `loadVar, `outOfBudgetQuery,
               `numOfStep
      ensures Evaluating(d) && Advance(eqs, old(Now()), Now())
      ensures pts == Pts(Now().sigma, g.DefItem(p)) && pts <= Pts(sol, g.DefItem(p)) && pts <= g.objs
      ensures Pinned(eqs, Now(), d, g.DefItem(p), pts)
      decreases Missing(eqs, Now().sigma), eqs.items - backwardVisited, 3
    {
      hide Cost, Ready, Good, Advance, LocatedAtOwnNode, Lawful, Frame, Missing, Closed, LoadsRecorded, Gather,
           CachedPts, Located, Sigma;
      EquationsOfGraph();
      OperandFacts(d.node, p);
      ghost var s := Now();
      pts := BackwardPropDpm({}, p, d, Direct(g.def[p], d.node, Intra));
      AdvanceFacts(eqs, s, Now());
      InvFacts();
    }

    lemma OperandFacts(n: Node, v: Id)
      requires Ready() && n in g.stmts && v in OperandsOf(g.stmts[n])
      ensures v in g.def && Direct(g.def[v], n, Intra) in g.edges && IsTopLevel(g.def[v])
      ensures g.DefItem(v) == Item(g.def[v], v) && g.DefItem(v) in eqs.items && eqs.objs == g.objs
    {
      assert g.ValidStmt(n);
    }

    function OperandsOf(stmt: Stmt): set<Id> {
      match stmt
      case Load(p) => {p}
      case Store(p, v) => {p, v}
      case _ => {}
    }

    method HandleStore(d: Item, p: Id, v: Id) returns (pts: set<Id>)
      requires Ready() && Evaluating(d) && d.node in g.stmts && g.stmts[d.node] == Store(p, v)
      modifies `backwardVisited, `topLevelPts, `addressTakenPts, `locToDpms, `loadDpm, `loadVar, `outOfBudgetQuery,
               `numOfStep
      ensures Inv({}) && Advance(eqs, old(Now()), Now())
      ensures Evaluated(eqs, Now(), d, pts) && pts <= Pts(sol, d)
      decreases Missing(eqs, Now().sigma), eqs.items - backwardVisited, 4
    {
      hide Cost, Ready, Good, Advance, LocatedAtOwnNode, Lawful, Frame, Pinned, Missing, Closed, IsSolution,
           LoadsRecorded, Below, Inv, Gather, CachedPts, Located, Sigma, Graph.Eval, Graph.IndirectSources;
      EquationsOfGraph();
      ghost var s, ptr := Now(), g.DefItem(p);
      var storePts := StartFromPointer(d, p);
      ghost var want, got := g.StoreSources(d, v, storePts), {};
      FrameStarts(d, want, {});
      pts := {};
      var rest := storePts;
      while rest != {}
        invariant rest <= storePts && got <= want
        invariant Evaluating(d) && Advance(eqs, s, Now())
        invariant Pinned(eqs, Now(), d, ptr, storePts)
        invariant Frame(eqs, Now(), d, want, got, pts) && pts <= Gather(sol, want)
        invariant forall o <- storePts - rest :: TargetSources(g, d, v, o, storePts) <= got
      {
        var target :| target in rest;
        rest := rest - {target};
        ghost var t, sofar, part := Now(), pts, TargetSources(g, d, v, target, storePts);
        TargetWithinStore(g, d, v, target, storePts);
        FrameOfPart(eqs, t, d, want, got, part, pts);
        AdvanceFacts(eqs, s, t);
        pts := PropagateTarget(pts, d, v, target, storePts);
        JoinPart(s, t, d, ptr, storePts, want, got, part, sofar, pts);
        got := got + part;
      }
      TargetsCoverStore(g, d, v, storePts, got);
      StoreCompletes(g, eqs, Now(), d, p, v, storePts, pts);
      CollectedIsSound(g, eqs, sol, d, want, pts);
    }

    /** One target of the store's pointer: the stored value if the load asks for that target, and
        what the object held before, unless a strong update overwrites it. */
    method PropagateTarget(acc: set<Id>, d: Item, v: Id, target: Id, storePts: set<Id>) returns (pts: set<Id>)
      requires Ready() && Evaluating(d) && d.node in g.stmts && g.stmts[d.node].Store? && g.stmts[d.node].src == v
      requires Frame(eqs, Now(), d, TargetSources(g, d, v, target, storePts), {}, acc)
      modifies `backwardVisited, `topLevelPts, `addressTakenPts, `locToDpms, `loadDpm, `loadVar, `outOfBudgetQuery,
               `numOfStep
      ensures Evaluating(d) && Advance(eqs, old(Now()), Now())
      ensures var part := TargetSources(g, d, v, target, storePts);
              Frame(eqs, Now(), d, part, part, pts) && acc <= pts <= acc + Gather(sol, part)
      decreases Missing(eqs, Now().sigma), eqs.items - backwardVisited, 3
    {
      hide Cost, Ready, Good, Advance, LocatedAtOwnNode, Lawful, Frame, Missing, Closed, IsSolution,
           LoadsRecorded, Below, Inv, Gather, CachedPts, Located, Sigma;
      ItemFacts(d);
      InvFacts();
      ghost var s, part, old' := Now(), TargetSources(g, d, v, target, storePts), g.IndirectSources(d.node, d.id);
      AdvanceReflexive(eqs, s, s);
      if target == loadVar[d] {
        OperandFacts(d.node, v);
        ghost var r := g.DefItem(v);
        var dpm := GetDPImWithOldCond(d, target);
        UnrelatedStepKeepsFrame(eqs, s, Now(), d, part, {}, acc);
        ghost var t := Now();
        pts := BackwardPropDpm(acc, v, dpm, Direct(g.def[v], d.node, Intra));
        ReadSource(s, t, d, part, {}, r, acc);
        assert {} + {r} == {r};
        var strong := IsStrongUpdate(storePts, d.node);
        if strong {
          assert part == {r};
        } else {
          ghost var u, sofar := Now(), pts;
          AdvanceFacts(eqs, s, u);
          dpm := GetDPImWithOldCond(d, target);
          UnrelatedStepKeepsFrame(eqs, u, Now(), d, part, {r}, pts);
          FrameOfPart(eqs, Now(), d, part, {r}, old', pts);
          ghost var w := Now();
          pts := BacktraceAlongIndirectVF(pts, dpm, d);
          assert part == {r} + old';
          JoinOld(s, u, w, d, part, {r}, old', sofar, pts);
          GatherGrows(sol, old', part);
        }
      } else {
        assert part == old';
        FrameOfPart(eqs, s, d, part, {}, old', acc);
        pts := BacktraceAlongIndirectVF(acc, d, d);
      }
    }

    lemma JoinOld(s: Snap, t: Snap, u: Snap, d: Item, want: set<Item>, got: set<Item>, part: set<Item>,
                  acc: set<Id>, more: set<Id>)
      requires Ready() && Evaluating(d) && d in t.visited - t.exempt && part <= want && acc <= more
      requires Advance(eqs, s, t) && Advance(eqs, t, u) && Advance(eqs, u, Now())
      requires Frame(eqs, t, d, want, got, acc) && Frame(eqs, Now(), d, part, part, more)
      ensures Advance(eqs, s, Now()) && Frame(eqs, Now(), d, want, got + part, more)
    {
      hide Cost, Ready, Good, Advance, LocatedAtOwnNode, Lawful, Frame, Closed, IsSolution, LoadsRecorded;
      EquationsOfGraph();
      GoodFacts(eqs, sol, Now());
      AdvanceTransitive(eqs, t, u, Now());
      FrameJoins(eqs, s, t, Now(), d, want, got, part, acc, more);
    }

    lemma GatherGrows(c: Assignment, a: set<Item>, b: set<Item>)
      requires a <= b
      ensures Gather(c, a) <= Gather(c, b)
    {
    }

    /** A store whose pointer has one target, and that a singleton, overwrites it. */
    method IsStrongUpdate(targets: set<Id>, n: Node) returns (strong: bool)
      ensures strong <==> g.StrongUpdate(n, targets)
      ensures strong <==> |targets| == 1 && forall o <- targets :: Item(n, o) in g.singletons
    {
      strong := false;
      if |targets| == 1 {
        var o :| o in targets;
        LoneElement(targets, o);
        strong := Item(n, o) in g.singletons;
      }
    }

    lemma LoneElement(targets: set<Id>, o: Id)
      requires |targets| == 1 && o in targets
      ensures targets == {o}
    {
      assert |targets - {o}| == 0;
    }

    method UpdateCachedPointsTo(d: Item, pts: set<Id>)
      requires Ready() && Evaluating(d) && pts <= Pts(sol, d)
      modifies `backwardVisited, `topLevelPts, `addressTakenPts, `locToDpms, `loadDpm, `loadVar, `outOfBudgetQuery,
               `numOfStep
      ensures Inv({}) && Advance(eqs, Grown(old(Now()), d, pts), Now(), Fanout(eqs))
      ensures Cost(eqs, Now()) <= Cost(eqs, old(Now()))
      ensures outOfBudgetQuery || pts <= Pts(old(Now()).sigma, d) || ReadersClosed(eqs, old(Now()), Now(), d)
      decreases Missing(eqs, Now().sigma), eqs.items - backwardVisited, 6
    {
      hide Cost, Ready, Good, Advance, LocatedAtOwnNode, Lawful, Evaluated, Frame, Pinned, Closed, IsSolution,
           Missing, Below, Touches, CachedPts, Sigma;
      ghost var s := Now();
      EquationsOfGraph();
      GoodFacts(eqs, sol, s);
      GrownIsGood(eqs, sol, s, d, pts);
      var changed := UnionDDAPts(d, pts);
      if changed {
        GrowthFillsRoom(eqs, sol, s, d, pts);
        GrowthPays(eqs, s, d, pts);
        ReCompute(d);
        AdvanceCost(eqs, Grown(s, d, pts), Now(), Fanout(eqs));
        if !outOfBudgetQuery {
          ReadersOfGraphClosed(s, d, pts);
        }
      } else {
        GrownIsSame(s, d, pts);
        AdvanceReflexive(eqs, s, s, Fanout(eqs));
      }
    }

    lemma GrownIsSame(s: Snap, d: Item, pts: set<Id>)
      requires d in s.sigma && pts <= Pts(s.sigma, d)
      ensures Grown(s, d, pts) == s
    {
      assert Pts(s.sigma, d) + pts == s.sigma[d];
    }

    lemma ReadersOfGraphClosed(s: Snap, d: Item, pts: set<Id>)
      requires Ready() && s.located <= eqs.items && AllTouchedClosed(g, eqs, Grown(s, d, pts), Now(), d)
      ensures ReadersClosed(eqs, s, Now(), d)
    {
      forall edge <- g.edges ensures TouchedClosed(g, eqs, s, Now(), edge, d) {
        assert TouchedClosed(g, eqs, Grown(s, d, pts), Now(), edge, d);
      }
      ReadersAreClosed(g, eqs, s, Now(), d);
    }

    /** Re-evaluates everything that may read d. The graph is static, so there are no new indirect
        call edges to follow first. */
    method ReCompute(d: Item)
      requires Ready() && Inv({}) && d in eqs.items
      modifies `backwardVisited, `topLevelPts, `addressTakenPts, `locToDpms, `loadDpm, `loadVar, `outOfBudgetQuery,
               `numOfStep
      ensures Inv({}) && Advance(eqs, old(Now()), Now(), Fanout(eqs))
      ensures outOfBudgetQuery || AllTouchedClosed(g, eqs, old(Now()), Now(), d)
      decreases Missing(eqs, Now().sigma), eqs.items, 4
    {
      ReComputeForEdges(d);
    }

    method ReComputeForEdges(d: Item)
      requires Ready() && Inv({}) && d in eqs.items
      modifies `backwardVisited, `topLevelPts, `addressTakenPts, `locToDpms, `loadDpm, `loadVar, `outOfBudgetQuery,
               `numOfStep
      ensures Inv({}) && Advance(eqs, old(Now()), Now(), Fanout(eqs))
      ensures outOfBudgetQuery || AllTouchedClosed(g, eqs, old(Now()), Now(), d)
      decreases Missing(eqs, Now().sigma), eqs.items, 3
    {
      hide Cost, Fanout, Allowance, Ready, Good, Advance, Lawful, Missing, Closed, IsSolution, LoadsRecorded,
           Below, CachedPts, Sigma, TouchedBut, AllTouchedClosed, Located, LocatedAtOwnNode, Inv, Graph.Sources,
           Graph.Eval;
      EquationsOfGraph();
      ghost var s := Now();
      InvFacts();
      AdvanceReflexive(eqs, s, s, Fanout(eqs));
      var edgeSet := set e | e in g.edges && e.src == d.node;
      EdgesToFollow(s, edgeSet, d);
      while edgeSet != {}
        invariant edgeSet <= g.edges
        invariant Inv({}) && Advance(eqs, s, Now(), Fanout(eqs))
        invariant Cost(eqs, Now()) + Allowance(edgeSet) <= Cost(eqs, s) + Fanout(eqs)
        invariant outOfBudgetQuery || TouchedBut(s, Now(), edgeSet, d)
      {
        var edge :| edge in edgeSet;
        ghost var t, rest := Now(), edgeSet;
        edgeSet := edgeSet - {edge};
        AdvanceFacts(eqs, s, t, Fanout(eqs));
        InvFacts();
        if edge.dst in locToDpms {
          ReComputeAt(d, edge);
          InvFacts();
          EdgeDone(s, t, Now(), edge, rest, d);
        } else {
          NothingLocatedThere(s, edge, rest, d);
        }
      }
      AllEdgesDone(s, d);
    }

    /** Steps allowed for some edges: each may lead to any item once. */
    ghost function Allowance(edges: set<Edge>): nat {
      |edges| * |eqs.items|
    }

    /** What d touches in s over any edge but those in rest is closed in t. */
    ghost predicate TouchedBut(s: Snap, t: Snap, rest: set<Edge>, d: Item) {
      forall e <- g.edges - rest :: TouchedClosed(g, eqs, s, t, e, d)
    }

    lemma EdgesToFollow(s: Snap, edges: set<Edge>, d: Item)
      requires Ready() && edges <= g.edges && forall e <- g.edges :: e.src == d.node ==> e in edges
      ensures TouchedBut(s, s, edges, d) && Allowance(edges) <= Fanout(eqs)
    {
      SubsetIsNotLarger(edges, g.edges);
      MultipleGrows(|edges|, |g.edges|, |eqs.items|);
    }

    lemma AllEdgesDone(s: Snap, d: Item)
      ensures TouchedBut(s, Now(), {}, d) ==> AllTouchedClosed(g, eqs, s, Now(), d)
    {
    }

    lemma OneEdgeLess(edges: set<Edge>, edge: Edge)
      requires edge in edges
      ensures Allowance(edges - {edge}) + |eqs.items| == Allowance(edges)
    {
      assert |edges - {edge}| == |edges| - 1;
    }

    lemma NothingLocatedThere(s: Snap, edge: Edge, rest: set<Edge>, d: Item)
      requires Inv({}) && s.located <= Located() && edge.dst !in locToDpms && edge in rest
      ensures Allowance(rest - {edge}) <= Allowance(rest)
      ensures TouchedBut(s, Now(), rest, d) ==> TouchedBut(s, Now(), rest - {edge}, d)
    {
      hide Good;
      OneEdgeLess(rest, edge);
    }

    lemma EdgeDone(s: Snap, t: Snap, u: Snap, edge: Edge, rest: set<Edge>, d: Item)
      requires Lawful(eqs) && s.located <= s.visited && t.visited <= eqs.items && u.visited <= eqs.items
      requires Advance(eqs, s, t, Fanout(eqs)) && Advance(eqs, t, u, |eqs.items|)
      requires edge in rest && Cost(eqs, t) + Allowance(rest) <= Cost(eqs, s) + Fanout(eqs)
      requires t.outOfBudget || TouchedBut(s, t, rest, d)
      requires u.outOfBudget || TouchedClosed(g, eqs, t, u, edge, d)
      ensures Advance(eqs, s, u, Fanout(eqs))
      ensures Cost(eqs, u) + Allowance(rest - {edge}) <= Cost(eqs, s) + Fanout(eqs)
      ensures u.outOfBudget || TouchedBut(s, u, rest - {edge}, d)
    {
      hide Cost, Fanout, Allowance, Advance, Lawful, TouchedClosed;
      OneEdgeLess(rest, edge);
      AdvanceCost(eqs, t, u, |eqs.items|);
      AdvanceFacts(eqs, s, t, Fanout(eqs));
      AdvanceFacts(eqs, t, u, |eqs.items|);
      AdvanceFurther(eqs, s, t, u, Fanout(eqs), |eqs.items|);
      if !u.outOfBudget {
        TouchedEarlier(g, eqs, s, t, u, edge, d);
        TouchedStayClosed(g, eqs, s, t, u, d, g.edges - rest, Fanout(eqs), |eqs.items|);
      }
    }

    method ReComputeAt(d: Item, edge: Edge)
      requires Ready() && Inv({}) && edge.src == d.node && edge.dst in locToDpms
      modifies `backwardVisited, `topLevelPts, `addressTakenPts, `locToDpms, `loadDpm, `loadVar, `outOfBudgetQuery,
               `numOfStep
      ensures Inv({}) && Advance(eqs, old(Now()), Now(), |eqs.items|)
      ensures outOfBudgetQuery || TouchedClosed(g, eqs, old(Now()), Now(), edge, d)
      ensures var here := old(locToDpms)[edge.dst];
              Cost(eqs, Now()) <= Cost(eqs, old(Now()))
                                  + |set e <- here | edge.Direct? || IsLoad(g, edge.dst) || e.id == d.id|
      decreases Missing(eqs, Now().sigma), eqs.items, 2
    {
      hide Cost, Fanout, Ready, Good, Advance, Lawful, Missing, Closed, IsSolution, LoadsRecorded, Below,
           ClosedBut, TouchesVia, CachedPts, Sigma, TouchedClosed, Inv, Located, LocatedAtOwnNode, Graph.Sources,
           Graph.Eval;
      EquationsOfGraph();
      ghost var s := Now();
      AdvanceReflexive(eqs, s, s, |eqs.items|);
      var dpmSet := locToDpms[edge.dst];
      InvFacts();
      AllToDo(s, edge, d);
      ghost var affected := |Affected(edge, d, dpmSet)|;
      SubsetIsNotLarger(Affected(edge, d, dpmSet), eqs.items);
      while dpmSet != {}
        invariant dpmSet <= s.located
        invariant Inv({}) && Advance(eqs, s, Now(), |eqs.items|)
        invariant Cost(eqs, Now()) + |Affected(edge, d, dpmSet)| <= Cost(eqs, s) + affected
        invariant outOfBudgetQuery || ClosedBut(s, Now(), edge, d, dpmSet)
      {
        var dstDpm :| dstDpm in dpmSet;
        ghost var t, rest := Now(), dpmSet;
        dpmSet := dpmSet - {dstDpm};
        AdvanceFacts(eqs, s, t, |eqs.items|);
        if !edge.Indirect? || IsLoad(g, edge.dst) || dstDpm.id == d.id {
          InvFacts();
          Reevaluate(dstDpm);
          InvFacts();
          DpmDone(s, t, Now(), edge, d, dstDpm, rest, affected);
        } else {
          NotTouched(s, t, edge, d, dstDpm, rest);
        }
      }
      NothingToDo(s, edge, d);
    }

    /** The items among those at the far end of edge that the growth of d affects. */
    ghost function Affected(edge: Edge, d: Item, dpms: set<Item>): set<Item> {
      set e <- dpms | edge.Direct? || IsLoad(g, edge.dst) || e.id == d.id
    }

    /** The items at the far end of edge that d touches are closed in t, but for those in rest. */
    ghost predicate ClosedBut(s: Snap, t: Snap, edge: Edge, d: Item, rest: set<Item>) {
      forall e <- s.located - s.exempt :: e !in rest && TouchesVia(g, edge, d, e) ==> Closed(eqs, t, e)
    }

    lemma AllToDo(s: Snap, edge: Edge, d: Item)
      requires Inv({}) && s == Now() && edge.dst in locToDpms
      ensures locToDpms[edge.dst] <= s.located && ClosedBut(s, s, edge, d, locToDpms[edge.dst])
    {
    }

    lemma NothingToDo(s: Snap, edge: Edge, d: Item)
      ensures ClosedBut(s, Now(), edge, d, {}) ==> TouchedClosed(g, eqs, s, Now(), edge, d)
    {
    }

    lemma NotTouched(s: Snap, t: Snap, edge: Edge, d: Item, e: Item, rest: set<Item>)
      requires edge.Indirect? && !IsLoad(g, edge.dst) && e.id != d.id
      ensures ClosedBut(s, t, edge, d, rest) ==> ClosedBut(s, t, edge, d, rest - {e})
      ensures Affected(edge, d, rest - {e}) == Affected(edge, d, rest)
    {
    }

    lemma DpmDone(s: Snap, t: Snap, u: Snap, edge: Edge, d: Item, e: Item, rest: set<Item>, affected: nat)
      requires Lawful(eqs) && s.located <= s.visited && t.visited <= eqs.items && u.visited <= eqs.items
      requires Advance(eqs, s, t, |eqs.items|) && Advance(eqs, t, u, 1)
      requires e in rest && (edge.Direct? || IsLoad(g, edge.dst) || e.id == d.id) && affected <= |eqs.items|
      requires Cost(eqs, t) + |Affected(edge, d, rest)| <= Cost(eqs, s) + affected
      requires t.outOfBudget || ClosedBut(s, t, edge, d, rest)
      requires u.outOfBudget || e in u.exempt || Closed(eqs, u, e)
      ensures Advance(eqs, s, u, |eqs.items|)
      ensures Cost(eqs, u) + |Affected(edge, d, rest - {e})| <= Cost(eqs, s) + affected
      ensures u.outOfBudget || ClosedBut(s, u, edge, d, rest - {e})
    {
      hide Cost, Advance, Lawful, Closed;
      assert Affected(edge, d, rest - {e}) == Affected(edge, d, rest) - {e} && e in Affected(edge, d, rest);
      AdvanceCost(eqs, t, u, 1);
      AdvanceFacts(eqs, s, t, |eqs.items|);
      AdvanceFacts(eqs, t, u, 1);
      AdvanceKeepsAllClosed(eqs, t, u, 1);
      AdvanceFurther(eqs, s, t, u, |eqs.items|, 1);
    }

    method Reevaluate(d: Item)
      requires Ready() && Inv({}) && d in Located()
      modifies `backwardVisited, `topLevelPts, `addressTakenPts, `locToDpms, `loadDpm, `loadVar, `outOfBudgetQuery,
               `numOfStep
      ensures Inv({}) && Advance(eqs, old(Now()), Now(), 1)
      ensures outOfBudgetQuery || d in outOfBudgetDpms || Closed(eqs, Now(), d)
      decreases Missing(eqs, Now().sigma), eqs.items, 1
    {
      hide Cost, Ready, Good, Advance, LocatedAtOwnNode, Lawful, Missing, Closed, IsSolution, Below;
      ghost var s := Now();
      InvFacts();
      ClearedIsGood(eqs, sol, s, d);
      ClearBkVisited(d);
      var pts := FindPT(d);
      ReevaluationAdvances(eqs, s, d, Now());
      AdvanceFacts(eqs, s, Now(), 1);
    }

    // ----- Queries

    ghost function Whole(): Assignment {
      Everywhere(eqs, ander)
    }

    /** The least solution of the equations in which the recorded items are fixed. */
    ghost function Target(recorded: set<Item>): Assignment {
      Least(Downgraded(eqs, recorded, Whole()))
    }

    /** A query is running, or has just ended, that began in state begin. */
    ghost predicate Running(begin: Snap)
      reads this
    {
      && Ready() && IsSolution(eqs, Whole()) && sol == Target(outOfBudgetDpms)
      && Inv({}) && Idle(eqs, sol, begin) && Advance(eqs, begin, Now()) && RecordedHold(Whole(), Now())
    }

    lemma NothingLocated()
      requires locToDpms == map[]
      ensures Located() == {} && LocatedAtOwnNode() && LoadsRecorded()
    {
    }

    lemma NothingCached()
      requires topLevelPts == map[] && addressTakenPts == map[]
      ensures Sigma().Keys == eqs.items && forall d <- Sigma() :: Sigma()[d] == {}
    {
    }

    lemma FreshIsRunning()
      requires g.Valid() && eqs == g.Equations() && IsSolution(eqs, Whole()) && sol == Target({})
      requires backwardVisited == outOfBudgetDpms == done == {} && !outOfBudgetQuery && numOfStep == 0
      requires topLevelPts == map[] && addressTakenPts == map[]
      requires locToDpms == map[] && loadDpm == map[] && loadVar == map[]
      ensures Running(Now())
    {
      hide Good, Advance, Idle, Closed, Least, Lawful, Below, IsSolution, Downgraded, Everywhere, Cost, Graph.Equations,
           Graph.WellFormed, Graph.SingleDefinitions, Sigma, Located, CachedPts, LocatedAtOwnNode, LoadsRecorded;
      EquationsAreLawful(g);
      DowngradedLiesBetween(eqs, {}, Whole());
      NothingLocated();
      NothingCached();
      FreshIsIdle(eqs, sol, Now());
      StartIsAdvanced(eqs, sol, Now());
    }

    constructor (g: Graph, ander: map<Id, set<Id>>, maxBudget: nat)
      requires g.Valid() && IsSolution(g.Equations(), Everywhere(g.Equations(), ander))
      ensures this.g == g && this.ander == ander && this.maxBudget == maxBudget && eqs == g.Equations()
      ensures Running(Now()) && outOfBudgetDpms == {}
    {
      this.g, this.ander, this.maxBudget := g, ander, maxBudget;
      backwardVisited, topLevelPts, addressTakenPts := {}, map[], map[];
      locToDpms, loadDpm, loadVar := map[], map[], map[];
      outOfBudgetDpms, outOfBudgetQuery, numOfStep := {}, false, 0;
      eqs, done := g.Equations(), {};
      new;
      hide Running, Target, Graph.Equations, Graph.Valid, IsSolution, Everywhere;
      sol := Target({});
      FreshIsRunning();
    }

    /** What a query within budget leaves: everything visited is closed or recorded, and exact. */
    lemma QueryIsExact(begin: Snap)
      requires Running(begin) && !outOfBudgetQuery
      ensures forall e <- backwardVisited - outOfBudgetDpms :: Closed(eqs, Now(), e)
      ensures forall e <- backwardVisited :: Pts(Now().sigma, e) == Pts(Target(outOfBudgetDpms), e)
      ensures (forall e <- backwardVisited :: Pts(Now().sigma, e) == Pts(Least(eqs), e))
         <==> RecordedExact(eqs, outOfBudgetDpms, Whole(), backwardVisited)
    {
      hide Cost, Ready, Advance, Idle, Closed, Least, Lawful, IsSolution, Downgraded, RecordedExact, RecordedHold,
           Graph.Equations, Graph.Valid, LocatedAtOwnNode, LoadsRecorded, CachedPts, Sigma, Located;
      EquationsOfGraph();
      InvFacts();
      QueryCloses(eqs, sol, begin, Now());
      DowngradedIsExact(eqs, Whole(), Now());
    }

    /** A top-level findPT on a pointer at its definition. Within budget everything visited is closed or
        recorded, and the answer is the least solution with the recorded items fixed. */
    method Ask(d: Item, ghost begin: Snap) returns (pts: set<Id>)
      requires Running(begin) && d in eqs.items && IsTopLevel(d.node)
      modifies this
      ensures Running(begin) && outOfBudgetDpms == old(outOfBudgetDpms) && d in backwardVisited
      ensures d in old(backwardVisited) ==> Now() == old(Now())
      ensures pts == Pts(Now().sigma, d) && d in Now().sigma
      ensures (outOfBudgetQuery <==> numOfStep > maxBudget) && numOfStep <= EnoughSteps(eqs)
      ensures outOfBudgetQuery || old(numOfStep) + |backwardVisited - old(backwardVisited)| <= numOfStep
      ensures outOfBudgetQuery || forall e <- backwardVisited - outOfBudgetDpms :: Closed(eqs, Now(), e)
      ensures outOfBudgetQuery || pts == Pts(Target(outOfBudgetDpms), d)
      ensures outOfBudgetQuery || ((forall e <- backwardVisited :: Pts(Now().sigma, e) == Pts(Least(eqs), e))
                                   <==> RecordedExact(eqs, outOfBudgetDpms, Whole(), backwardVisited))
    {
      hide Cost, EnoughSteps, Ready, Good, Advance, Idle, Closed, Least, Lawful, IsSolution, Downgraded, RecordedExact,
           RecordedHold, LocatedAtOwnNode, LoadsRecorded, CachedPts, Sigma, Located, Whole, Target, Running;
      RunningFacts(begin);
      EquationsOfGraph();
      ghost var s := Now();
      GoodWithPending(eqs, sol, s, d);
      pts := FindPT(d);
      AnswerFound(begin, s);
    }

    /** What a call of findPT in a running query makes of it. */
    lemma AnswerFound(begin: Snap, s: Snap)
      requires Ready() && IsSolution(eqs, Whole()) && sol == Target(outOfBudgetDpms) && Inv({})
      requires Idle(eqs, sol, begin) && Advance(eqs, begin, s) && Advance(eqs, s, Now())
      requires s.visited <= eqs.items && RecordedHold(Whole(), s)
      ensures Running(begin) && numOfStep <= EnoughSteps(eqs) && Now().sigma.Keys == eqs.items
      ensures outOfBudgetQuery || s.steps + |backwardVisited - s.visited| <= numOfStep
      ensures outOfBudgetQuery || forall e <- backwardVisited - outOfBudgetDpms :: Closed(eqs, Now(), e)
      ensures outOfBudgetQuery || forall e <- backwardVisited :: Pts(Now().sigma, e) == Pts(Target(outOfBudgetDpms), e)
      ensures outOfBudgetQuery || ((forall e <- backwardVisited :: Pts(Now().sigma, e) == Pts(Least(eqs), e))
                                   <==> RecordedExact(eqs, outOfBudgetDpms, Whole(), backwardVisited))
    {
      hide Cost, EnoughSteps, Ready, Good, Advance, Idle, Closed, Least, Lawful, IsSolution, Downgraded, RecordedExact,
           RecordedHold, LocatedAtOwnNode, LoadsRecorded, CachedPts, Sigma, Located, Whole, Target, Running;
      EquationsOfGraph();
      ghost var t := Now();
      InvFacts();
      AdvanceKeepsRecorded(eqs, Whole(), s, t);
      AdvanceTransitive(eqs, begin, s, t);
      StepsAreEnough(eqs, sol, begin, t);
      AdvanceCounts(eqs, s, t);
      RunningFrom(begin);
      if !outOfBudgetQuery {
        QueryIsExact(begin);
      }
    }

    /** Answers one query for a pointer at its definition. Within budget the answer is the least
        solution of the flow-sensitive equations in which the items recorded by earlier queries are
        fixed at what the whole-program analysis says; a query that runs out answers with that set. */
    method ComputeDDAPts(d: Item, ghost before: Snap) returns (pts: set<Id>, ghost begin: Snap)
      requires Running(before) && d in eqs.items && IsTopLevel(d.node)
      modifies this
      ensures Running(begin) && d in backwardVisited
      ensures begin == AfterReset(old(Now())).(exempt := outOfBudgetDpms)
      ensures (outOfBudgetQuery <==> numOfStep > maxBudget) && numOfStep <= EnoughSteps(eqs)
      ensures outOfBudgetQuery || |backwardVisited - begin.visited| <= numOfStep
      ensures outOfBudgetDpms == old(outOfBudgetDpms) + if outOfBudgetQuery then {d} else {}
      ensures pts == Pts(Target(outOfBudgetDpms), d) && (outOfBudgetQuery ==> pts == Pts(Whole(), d))
      ensures outOfBudgetQuery ==> pts == if d.id in ander then ander[d.id] else {}
      ensures Pts(Least(eqs), d) <= pts <= Pts(Whole(), d)
      ensures outOfBudgetDpms == {} ==> pts == Pts(Least(eqs), d)
      ensures outOfBudgetQuery || forall e <- backwardVisited - outOfBudgetDpms :: Closed(eqs, Now(), e)
      ensures outOfBudgetQuery || ((forall e <- backwardVisited :: Pts(Now().sigma, e) == Pts(Least(eqs), e))
                                   <==> RecordedExact(eqs, outOfBudgetDpms, Whole(), backwardVisited))
    {
      hide Cost, EnoughSteps, Ready, Good, Advance, Idle, Closed, Least, Lawful, IsSolution, Downgraded, RecordedExact,
           RecordedHold, LocatedAtOwnNode, LoadsRecorded, CachedPts, Sigma, Located, Whole, Target, Running, AfterReset;
      ResetQuery(before);
      begin := Now();
      RunningFacts(begin);
      pts := Ask(d, begin);
      if !outOfBudgetQuery {
        KeepAnswer(d, pts, begin);
      } else {
        begin := HandleOutOfBudgetDpm(d, begin);
      }
      RunningFacts(begin);
      TargetFacts(outOfBudgetDpms, d);
      WholeProgramHas(d);
      pts := GetCachedPointsTo(d);
    }

    /** Unions an answer into the set of its pointer, which is where it was found. */
    method KeepAnswer(d: Item, pts: set<Id>, ghost begin: Snap)
      requires Running(begin) && d in eqs.items && d in Now().sigma && pts == Pts(Now().sigma, d)
      modifies `topLevelPts, `addressTakenPts
      ensures Running(begin) && Now() == old(Now())
    {
      hide Cost, Ready, Good, Advance, Idle, Closed, Least, Lawful, IsSolution, Downgraded, RecordedHold,
           LocatedAtOwnNode, LoadsRecorded, CachedPts, Sigma, Located, Whole, Target, Running;
      ghost var t := Now();
      RunningFacts(begin);
      GrownIsSame(t, d, pts);
      var changed := UnionDDAPts(d, pts);
      assert Now() == t;
      RunningFrom(begin);
    }

    /** Recording more items raises the solution the caches stay below. */
    ghost method RaiseBound(recorded: set<Item>, begin: Snap)
      requires Running(begin) && outOfBudgetDpms <= recorded
      modifies `sol
      ensures sol == Target(recorded) && Ready() && Inv({}) && Idle(eqs, sol, begin)
    {
      hide Cost, EnoughSteps, Good, Advance, Idle, Closed, Least, Lawful, IsSolution, Below, Downgraded, Graph.Valid,
           Graph.Equations, RecordedHold, LocatedAtOwnNode, LoadsRecorded, CachedPts, Sigma, Located, Whole, Running;
      RunningFacts(begin);
      EquationsOfGraph();
      DowngradedLiesBetween(eqs, recorded, Whole());
      MoreRecordedMoreFound(eqs, outOfBudgetDpms, recorded, Whole());
      HigherBoundIsGood(eqs, sol, Target(recorded), Now());
      HigherBoundIsIdle(eqs, sol, Target(recorded), begin);
      sol := Target(recorded);
    }

    lemma RunningFacts(begin: Snap)
      requires Running(begin)
      ensures Ready() && IsSolution(eqs, Whole()) && Idle(eqs, sol, begin) && Advance(eqs, begin, Now())
      ensures RecordedHold(Whole(), Now()) && Now().visited <= eqs.items && outOfBudgetDpms <= backwardVisited
      ensures Inv({}) && sol == Target(outOfBudgetDpms)
    {
      hide Cost, Advance, Least, IsSolution;
    }

    lemma RunningFrom(begin: Snap)
      requires Ready() && IsSolution(eqs, Whole()) && sol == Target(outOfBudgetDpms)
      requires Good(eqs, sol, Now(), {}) && LocatedAtOwnNode() && LoadsRecorded() && BudgetChecked()
      requires Idle(eqs, sol, begin) && Advance(eqs, begin, Now()) && RecordedHold(Whole(), Now())
      ensures Running(begin)
    {
    }

    lemma WholeProgramHas(d: Item)
      requires d in eqs.items
      ensures Pts(Whole(), d) == if d.id in ander then ander[d.id] else {}
    {
    }

    /** Answers lie between the least solution and the whole-program analysis. */
    lemma TargetFacts(recorded: set<Item>, d: Item)
      requires Ready() && IsSolution(eqs, Whole()) && d in eqs.items
      ensures Pts(Least(eqs), d) <= Pts(Target(recorded), d) <= Pts(Whole(), d)
      ensures d in recorded ==> Pts(Target(recorded), d) == Pts(Whole(), d)
      ensures recorded == {} ==> Target(recorded) == Least(eqs)
    {
      hide Least, IsSolution, Downgraded, Everywhere, Graph.Equations, Graph.Valid;
      EquationsOfGraph();
      NothingRecorded(eqs, Whole());
      DowngradedLiesBetween(eqs, recorded, Whole());
      assert d in recorded ==> d in recorded * eqs.items;
    }

    lemma RanOutWhileEvaluating(d: Item, begin: Snap)
      requires Running(begin) && d in eqs.items && d in backwardVisited && d !in begin.visited + outOfBudgetDpms
      ensures Evaluating(d) && d !in done && d in Now().sigma && done == begin.done
    {
      hide Cost, DoneIsClosed, Settled, Downgraded, LoadsRecorded;
    }

    /** A query that ran out of budget falls back on the whole-program analysis: its item is given that
        set, everything located that reads it is visited again, and the item is recorded. */
    method HandleOutOfBudgetDpm(d: Item, ghost begin: Snap) returns (ghost begin': Snap)
      requires Running(begin) && outOfBudgetQuery && d in eqs.items
      requires d in backwardVisited && d !in begin.visited + outOfBudgetDpms
      modifies this
      ensures Running(begin') && begin' == begin.(exempt := outOfBudgetDpms)
      ensures outOfBudgetDpms == old(outOfBudgetDpms) + {d} && outOfBudgetQuery && numOfStep <= EnoughSteps(eqs)
      ensures d in backwardVisited && Pts(Now().sigma, d) == Pts(Whole(), d)
    {
      hide Cost, EnoughSteps, Ready, Good, Advance, Closed, Least, Lawful, IsSolution, Below, Downgraded, RecordedHold,
           LocatedAtOwnNode, LoadsRecorded, CachedPts, Sigma, Located, Idle, Whole, Target, Running, BudgetChecked;
      ghost var s, recorded := Now(), outOfBudgetDpms + {d};
      var anderPts := if d.id in ander then ander[d.id] else {};
      PrepareFallingBack(d, begin);
      UpdateCachedPointsTo(d, anderPts);
      ghost var t := Now();
      InvFacts();
      begin' := FallenBack(begin, s, t, d, anderPts);
      GrownIsSame(t, d, anderPts);
      var changed := UnionDDAPts(d, anderPts);
      assert Now() == t;
      AddOutOfBudgetDpm(d);
      assert Now() == t.(exempt := recorded);
      RunningFrom(begin');
    }

    /** Before d is given the set of the whole-program analysis: the bound of the caches is raised to
        what the answers may be once d is recorded. */
    ghost method PrepareFallingBack(d: Item, begin: Snap)
      requires Running(begin) && d in eqs.items && d in backwardVisited && d !in begin.visited + outOfBudgetDpms
      modifies `sol
      ensures Now() == old(Now()) && sol == Target(outOfBudgetDpms + {d})
      ensures Ready() && IsSolution(eqs, Whole()) && Evaluating(d) && Lawful(eqs) && Idle(eqs, sol, begin)
      ensures Advance(eqs, begin, Now()) && RecordedHold(Whole(), Now()) && Now().visited <= eqs.items
      ensures d in Now().sigma && d !in done && Pts(Whole(), d) == Pts(sol, d)
      ensures Pts(Whole(), d) == if d.id in ander then ander[d.id] else {}
    {
      hide Cost, EnoughSteps, Ready, Good, Advance, Closed, Least, Lawful, IsSolution, Below, Downgraded, RecordedHold,
           LocatedAtOwnNode, LoadsRecorded, CachedPts, Sigma, Located, Idle, Whole, Target, Running, BudgetChecked;
      ghost var recorded := outOfBudgetDpms + {d};
      RanOutWhileEvaluating(d, begin);
      RunningFacts(begin);
      TargetFacts(recorded, d);
      WholeProgramHas(d);
      RaiseBound(recorded, begin);
      EquationsOfGraph();
    }

    lemma FallenBack(begin: Snap, s: Snap, t: Snap, d: Item, pts: set<Id>) returns (begin': Snap)
      requires Lawful(eqs) && d in eqs.items - s.done && d in s.sigma && t.sigma.Keys == eqs.items
      requires Good(eqs, sol, t, {})
      requires Advance(eqs, begin, s) && s.outOfBudget && s.visited <= eqs.items && Idle(eqs, sol, begin)
      requires Advance(eqs, Grown(s, d, pts), t, Fanout(eqs)) && Cost(eqs, t) <= Cost(eqs, s)
      requires RecordedHold(Whole(), s) && pts == Pts(Whole(), d) == Pts(sol, d) && d in s.visited
      ensures Pts(t.sigma, d) == pts && d in t.sigma && d in t.visited && t.outOfBudget && t.steps <= EnoughSteps(eqs)
      ensures begin' == begin.(exempt := t.exempt + {d}) && Idle(eqs, sol, begin')
      ensures var t' := t.(exempt := t.exempt + {d});
              Good(eqs, sol, t', {}) && Advance(eqs, begin', t') && RecordedHold(Whole(), t')
    {
      hide Cost, EnoughSteps, Advance, Idle, Least, Lawful, IsSolution, Graph.Equations, RecordedHold, DoneIsClosed;
      AdvanceFacts(eqs, Grown(s, d, pts), t, Fanout(eqs));
      HandlingAdvances(eqs, begin, s, t, d, pts, Fanout(eqs));
      StepsAreEnough(eqs, sol, begin, t);
      FallenBackHolds(s, t, d, pts);
      ExemptingMore(eqs, sol, begin, t, t.exempt + {d});
      begin' := begin.(exempt := t.exempt + {d});
    }

    lemma FallenBackHolds(s: Snap, t: Snap, d: Item, pts: set<Id>)
      requires d in eqs.items && s.visited <= eqs.items && Advance(eqs, Grown(s, d, pts), t, Fanout(eqs))
      requires RecordedHold(Whole(), s) && pts == Pts(Whole(), d) && d in t.visited && pts <= Pts(t.sigma, d)
      ensures RecordedHold(Whole(), t.(exempt := t.exempt + {d}))
    {
      hide Cost, Settled, Whole;
    }

    method AddOutOfBudgetDpm(d: Item)
      modifies `outOfBudgetDpms
      ensures Now() == old(Now()).(exempt := old(outOfBudgetDpms) + {d})
    {
      outOfBudgetDpms := outOfBudgetDpms + {d};
    }

    /** Ends a query. After one that ran out of budget the visited marks are those from before it,
        but for recorded items; sets cached by earlier queries have not changed. */
    method ResetQuery(ghost begin: Snap)
      requires Running(begin)
      modifies this
      ensures Running(Now()) && Idle(eqs, sol, Now()) && Now() == AfterReset(old(Now()))
      ensures !old(outOfBudgetQuery) ==> backwardVisited == old(backwardVisited)
      ensures old(outOfBudgetQuery) ==> begin.visited <= backwardVisited <= begin.visited + outOfBudgetDpms
      ensures forall e <- begin.visited :: Pts(Now().sigma, e) == Pts(begin.sigma, e)
      ensures forall e <- eqs.items :: Pts(Now().sigma, e) <= Pts(Target(outOfBudgetDpms), e)
      ensures outOfBudgetDpms == old(outOfBudgetDpms) && !outOfBudgetQuery && numOfStep == 0
    {
      hide Cost, EnoughSteps, Ready, Good, Advance, Idle, Closed, Least, Lawful, IsSolution, Downgraded, RecordedHold,
           LocatedAtOwnNode, LoadsRecorded, CachedPts, Sigma, Whole, Target, Running;
      ghost var t := Now();
      RunningFacts(begin);
      EquationsOfGraph();
      InvFacts();
      ResetIsIdle(eqs, sol, begin, t);
      ResetKeepsRecorded(t);
      if outOfBudgetQuery {
        OOBResetVisited();
      }
      assert backwardVisited == AfterReset(t).visited;
      ForgetQuery();
      assert Now() == AfterReset(t);
      StartIsAdvanced(eqs, sol, Now());
      RunningFrom(Now());
      InvFacts();
    }

    /** Clears the bookkeeping of a query; all marks now belong to earlier queries. */
    method ForgetQuery()
      modifies `locToDpms, `loadDpm, `loadVar, `outOfBudgetQuery, `numOfStep, `done
      ensures Now() == old(Now()).(located := {}, loadVar := map[], loadDpms := {}, outOfBudget := false,
                                   done := backwardVisited, steps := 0)
      ensures LocatedAtOwnNode() && LoadsRecorded() && BudgetChecked() && !outOfBudgetQuery && numOfStep == 0
    {
      hide CachedPts, Sigma;
      locToDpms := map[];
      loadDpm := map[];
      loadVar := map[];
      outOfBudgetQuery := false;
      numOfStep := 0;
      done := backwardVisited;
      NothingLocated();
    }

    lemma ResetKeepsRecorded(t: Snap)
      requires RecordedHold(Whole(), t)
      ensures RecordedHold(Whole(), AfterReset(t))
    {
      hide Whole;
    }

    method OOBResetVisited()
      requires LocatedAtOwnNode() && Located() <= backwardVisited
      modifies `backwardVisited
      ensures backwardVisited == old(backwardVisited) - (Located() - outOfBudgetDpms)
    {
      var locs := locToDpms.Keys;
      while locs != {}
        invariant locs <= locToDpms.Keys
        invariant forall e :: e in backwardVisited <==>
                    e in old(backwardVisited) && !(e in Located() - outOfBudgetDpms && e.node !in locs)
      {
        var n :| n in locs;
        ResetLocation(n);
        locs := locs - {n};
      }
    }

    method ResetLocation(n: Node)
      requires n in locToDpms && locToDpms[n] <= backwardVisited
      modifies `backwardVisited
      ensures backwardVisited == old(backwardVisited) - (locToDpms[n] - outOfBudgetDpms)
    {
      var dpmSet := locToDpms[n];
      while dpmSet != {}
        invariant dpmSet <= locToDpms[n]
        invariant backwardVisited == old(backwardVisited) - (locToDpms[n] - outOfBudgetDpms - dpmSet)
      {
        var d :| d in dpmSet;
        dpmSet := dpmSet - {d};
        if d !in outOfBudgetDpms {
          ClearBkVisited(d);
        }
      }
    }

    /** Answers the queries one after the other. Which of them run out of budget decides, by the
        equations alone, what every one of them is answered. */
    method AnswerQueries(queries: seq<Item>, ghost before: Snap) returns (answers: seq<Answer>, ghost begin: Snap)
      requires Running(before)
      requires forall d <- queries :: d in eqs.items && IsTopLevel(d.node)
      modifies this
      ensures Running(begin) && |answers| == |queries|
      ensures outOfBudgetDpms == RecordedBy(old(outOfBudgetDpms), queries, answers, |queries|)
      ensures forall i | 0 <= i < |queries| :: IsAnswer(old(outOfBudgetDpms), queries, answers, i)
      ensures EnoughSteps(eqs) <= maxBudget ==> forall i | 0 <= i < |queries| :: answers[i].InBudget?
      ensures EnoughSteps(eqs) <= maxBudget && old(outOfBudgetDpms) == {} ==>
                forall i | 0 <= i < |queries| :: answers[i].pts == Pts(Least(eqs), queries[i])
    {
      hide Cost, EnoughSteps, Ready, Good, Advance, Idle, Closed, Least, Lawful, IsSolution, Below, Downgraded,
           Graph.Equations, Graph.Valid, LocatedAtOwnNode, LoadsRecorded, CachedPts, Inv, Running, Target, Whole,
               RecordedBy;
      answers, begin := [], before;
      ghost var first := outOfBudgetDpms;
      NoAnswerYet(first, queries);
      while |answers| < |queries|
        invariant Running(begin) && |answers| <= |queries|
        invariant outOfBudgetDpms == RecordedBy(first, queries, answers, |answers|)
        invariant forall i | 0 <= i < |answers| :: IsAnswer(first, queries, answers, i)
        invariant EnoughSteps(eqs) <= maxBudget ==> forall i | 0 <= i < |answers| :: answers[i].InBudget?
        invariant EnoughSteps(eqs) <= maxBudget ==> outOfBudgetDpms == first
        invariant EnoughSteps(eqs) <= maxBudget && first == {} ==>
                    forall i | 0 <= i < |answers| :: answers[i].pts == Pts(Least(eqs), queries[i])
      {
        ghost var n, sofar := |answers|, answers;
        var d := queries[|answers|];
        var pts;
        pts, begin := ComputeDDAPts(d, begin);
        answers := answers + [if outOfBudgetQuery then OutOfBudget(pts) else InBudget(pts)];
        OneMoreAnswer(first, queries, sofar, answers[n]);
      }
    }

    /** Every answer is the least solution of the equations in which the items recorded so far are
        fixed, between the least solution and the whole-program analysis. */
    ghost predicate IsAnswer(first: set<Item>, queries: seq<Item>, answers: seq<Answer>, i: nat)
      requires i < |answers| <= |queries|
    {
      var pts, d := answers[i].pts, queries[i];
      && pts == Pts(Target(RecordedBy(first, queries, answers, i + 1)), d)
      && Pts(Least(eqs), d) <= pts <= Pts(Whole(), d)
      && (answers[i].OutOfBudget? ==> pts == Pts(Whole(), d))
      && (RecordedBy(first, queries, answers, i + 1) == {} ==> pts == Pts(Least(eqs), d))
    }

    /** An answer is the least solution if all it may depend on is, but for items recorded where the
        whole-program analysis is exact anyway, free of recorded items. */
    lemma UntouchedAnswerIsExact(first: set<Item>, queries: seq<Item>, answers: seq<Answer>, i: nat, part: set<Item>)
      requires Ready() && IsSolution(eqs, Whole())
      requires i < |answers| <= |queries| && IsAnswer(first, queries, answers, i) && queries[i] in part
      requires var recorded := RecordedBy(first, queries, answers, i + 1);
               SelfContained(eqs, recorded, part) && RecordedExact(eqs, recorded, Whole(), part)
      ensures answers[i].pts == Pts(Least(eqs), queries[i])
    {
      hide Least, IsSolution, Downgraded, Everywhere, Graph.Equations, Graph.Valid, RecordedExact, SelfContained;
      EquationsOfGraph();
      RecordingHarmless(eqs, RecordedBy(first, queries, answers, i + 1), Whole(), part);
    }

    lemma NoAnswerYet(first: set<Item>, queries: seq<Item>)
      ensures RecordedBy(first, queries, [], 0) == first
    {
    }

    lemma OneMoreAnswer(first: set<Item>, queries: seq<Item>, answers: seq<Answer>, answer: Answer)
      requires |answers| < |queries|
      ensures var n := |answers|;
              RecordedBy(first, queries, answers + [answer], n + 1)
              == RecordedBy(first, queries, answers, n) + if answer.OutOfBudget? then {queries[n]} else {}
      ensures forall i | 0 <= i < |answers| ::
                IsAnswer(first, queries, answers, i) ==> IsAnswer(first, queries, answers + [answer], i)
    {
      hide Target, Whole;
      forall i | 0 <= i < |answers| && IsAnswer(first, queries, answers, i)
        ensures IsAnswer(first, queries, answers + [answer], i)
      {
        assert RecordedBy(first, queries, answers + [answer], i + 1) == RecordedBy(first, queries, answers, i + 1);
      }
    }
  }

  datatype Answer = InBudget(pts: set<Id>) | OutOfBudget(pts: set<Id>)

  /** The items recorded once n queries have been answered. */
  ghost function RecordedBy(first: set<Item>, queries: seq<Item>, answers: seq<Answer>, n: nat): set<Item>
    requires n <= |answers| <= |queries|
  {
    first + set i | 0 <= i < n && answers[i].OutOfBudget? :: queries[i]
  }
}
