/** Top-level pointers are cached by pointer id. What that does on graphs where several nodes define one
    pointer: the re-evaluation rule alone, in any order, without the recursion of the solver. */
module SharedDefinitions {
  import opened EquationSystems
  import opened ValueFlowGraph
  import opened DDASolver

  /** The caches, by item, and the items that still have to be evaluated. */
  datatype Work = Work(sigma: Assignment, pending: set<Item>)

  /** The items that share the cache entry of d. */
  ghost predicate Mates(g: Graph, d: Item, e: Item) {
    e == d || (d.node in g.lhs && e.node in g.lhs && e.id == d.id)
  }

  ghost function Stored(g: Graph, c: Assignment, d: Item, found: set<Id>): Assignment {
    map e | e in g.Items() :: Pts(c, e) + if Mates(g, d, e) then found else {}
  }

  ghost function Touched(g: Graph, d: Item): set<Item> {
    set e | e in g.Items() && Touches(g, d, e)
  }

  /** An item is evaluated; if its cache entry grows, everything it touches has to be evaluated again. */
  ghost predicate Evaluates(g: Graph, s: Work, d: Item, t: Work) {
    var found := g.Eval(s.sigma, d);
    && d in s.pending
    && if found <= Pts(s.sigma, d) then t == Work(s.sigma, s.pending - {d})
       else t == Work(Stored(g, s.sigma, d, found), s.pending - {d} + Touched(g, d))
  }

  /** Evaluating items from empty caches until nothing is left to do. */
  ghost predicate RunToRest(g: Graph, run: seq<Work>, order: seq<Item>) {
    && |run| == |order| + 1
    && run[0] == Work(map e | e in g.Items() :: {}, g.Items())
    && (forall i | 0 <= i < |order| :: Evaluates(g, run[i], order[i], run[i + 1]))
    && run[|order|].pending == {}
  }

  /** A node that has a direct edge from one definition of a pointer has one from every definition. */
  ghost predicate DefinitionsShareReaders(g: Graph) {
    forall edge <- g.edges, n <- g.lhs | edge.Direct? && edge.src in g.lhs && g.lhs[edge.src] == g.lhs[n] ::
      HasDirect(g, n, edge.dst)
  }

  ghost predicate HasDirect(g: Graph, n: Node, m: Node) {
    exists edge <- g.edges :: edge.Direct? && edge.src == n && edge.dst == m
  }

  lemma SingleDefinitionsShareReaders(g: Graph)
    requires g.Valid()
    ensures DefinitionsShareReaders(g)
  {
    forall edge <- g.edges, n <- g.lhs | edge.Direct? && edge.src in g.lhs && g.lhs[edge.src] == g.lhs[n]
      ensures HasDirect(g, n, edge.dst)
    {
      assert n == edge.src;
    }
  }

  /** Whatever is not pending covers its equation. */
  ghost predicate RestCovered(g: Graph, s: Work) {
    && s.sigma.Keys == g.Items() && s.pending <= g.Items()
    && (forall e <- g.Items() :: Pts(s.sigma, e) <= g.objs)
    && (forall e <- g.Items() - s.pending :: g.Eval(s.sigma, e) <= Pts(s.sigma, e))
  }

  /** An item that reads a mate of d is touched by d. */
  lemma MatesTouchToo(g: Graph, c: Assignment, d: Item, m: Item, e: Item)
    requires g.WellFormed() && DefinitionsShareReaders(g) && d in g.Items() && m in g.Items() && e.node in g.stmts
    requires Mates(g, d, m) && m in g.Sources(c, e)
    ensures Touches(g, d, e)
  {
    ReadersAreTouched(g, c, m, e);
    if m != d {
      var edge :| edge in g.edges && TouchesVia(g, edge, m, e);
      assert g.lhs[m.node] == m.id && g.lhs[d.node] == d.id;
      assert HasDirect(g, d.node, e.node);
      var direct :| direct in g.edges && direct.Direct? && direct.src == d.node && direct.dst == e.node;
      assert TouchesVia(g, direct, d, e);
    }
  }

  /** An item that is not touched is left as it was. */
  lemma UntouchedStaysCovered(g: Graph, c: Assignment, d: Item, found: set<Id>, e: Item)
    requires g.WellFormed() && DefinitionsShareReaders(g) && d in g.Items() && e in g.Items()
    requires g.Sources(c, e) <= g.Items() && c.Keys == g.Items() && !Touches(g, d, e)
    ensures g.Eval(Stored(g, c, d, found), e) == g.Eval(c, e)
  {
    hide Graph.Sources, Graph.Eval, Touches, Graph.WellFormed, DefinitionsShareReaders;
    var c' := Stored(g, c, d, found);
    assert e.node in g.stmts by {
      ItemIsAtStatement(g, e);
    }
    forall m <- g.Sources(c, e) ensures Pts(c', m) == Pts(c, m) {
      if Mates(g, d, m) {
        MatesTouchToo(g, c, d, m, e);
      }
    }
    StatementsAreMonotone(g, c', c, e);
    StatementsAreMonotone(g, c, c', e);
  }

  lemma ItemIsAtStatement(g: Graph, e: Item)
    requires g.WellFormed() && e in g.Items()
    ensures e.node in g.stmts
  {
  }

  lemma EvaluatingKeepsCovered(g: Graph, s: Work, d: Item, t: Work)
    requires g.WellFormed() && DefinitionsShareReaders(g)
    requires RestCovered(g, s) && Evaluates(g, s, d, t)
    ensures RestCovered(g, t)
  {
    hide Graph.Sources, Graph.Eval, Touches, Graph.WellFormed, DefinitionsShareReaders, Graph.Items;
    var found := g.Eval(s.sigma, d);
    StatementsStayWithin(g, s.sigma, d);
    if !(found <= Pts(s.sigma, d)) {
      forall e <- g.Items() - t.pending ensures g.Eval(t.sigma, e) <= Pts(t.sigma, e) {
        StatementsStayWithin(g, s.sigma, e);
        UntouchedStaysCovered(g, s.sigma, d, found, e);
      }
    }
  }

  lemma {:induction false} RunKeepsCovered(g: Graph, run: seq<Work>, order: seq<Item>, n: nat)
    requires g.WellFormed() && DefinitionsShareReaders(g) && RunToRest(g, run, order) && n <= |order|
    ensures RestCovered(g, run[n])
  {
    hide Graph.WellFormed, DefinitionsShareReaders, Graph.Items, Evaluates;
    if n > 0 {
      RunKeepsCovered(g, run, order, n - 1);
      EvaluatingKeepsCovered(g, run[n - 1], order[n - 1], run[n]);
    }
  }

  /** Shared definitions are harmless, whatever the order of evaluation, if the definitions of a pointer
      share their readers: at rest nothing of the least solution is missing. */
  lemma SharedReadersAreHarmless(g: Graph, run: seq<Work>, order: seq<Item>)
    requires g.WellFormed() && DefinitionsShareReaders(g) && RunToRest(g, run, order)
    ensures Below(g.Equations(), Least(g.Equations()), run[|order|].sigma)
  {
    hide Least;
    RunKeepsCovered(g, run, order, |order|);
    EquationsAreLawful(g);
    LeastIsLeast(g.Equations(), run[|order|].sigma);
  }

  // ----- A graph on which shared definitions go wrong

  /** A parameter passed on in a recursion, as it looks before the graph is optimised: node 0 is the phi
      that defines pointer 1, node 1 passes it as an actual parameter under the same id, node 2 is the formal
      parameter and node 3 the address that starts it all. */
  const Recursion := Graph(
    map[0 := Copy, 1 := Copy, 2 := Copy, 3 := Addr(9)],
    {Direct(0, 1, Intra), Direct(1, 2, Call(7)), Direct(2, 0, Intra), Direct(3, 0, Intra)},
    map[0 := 1, 1 := 1, 2 := 2, 3 := 3],
    map[1 := 0, 2 := 2, 3 := 3],
    {9}, {}, map[], map[], {})

  lemma ItemsOfRecursion()
    ensures Recursion.Items() == {Item(0, 1), Item(1, 1), Item(2, 2), Item(3, 3)}
  {
    var g, items := Recursion, {Item(0, 1), Item(1, 1), Item(2, 2), Item(3, 3)};
    forall d ensures d in g.Items() <==> d in items {
      if d in items {
        assert d.node in g.lhs && d == Item(d.node, g.lhs[d.node]);
      }
    }
  }

  lemma RecursionIsWellFormed()
    ensures Recursion.WellFormed()
  {
    var g := Recursion;
    forall n <- g.stmts ensures g.ValidStmt(n) {
    }
  }

  lemma EvalOfRecursion(c: Assignment)
    ensures var g := Recursion;
            && g.Eval(c, Item(0, 1)) == Pts(c, Item(2, 2)) + Pts(c, Item(3, 3))
            && g.Eval(c, Item(1, 1)) == Pts(c, Item(0, 1))
            && g.Eval(c, Item(2, 2)) == Pts(c, Item(1, 1))
            && g.Eval(c, Item(3, 3)) == {9}
  {
    var g := Recursion;
    assert Direct(0, 1, Intra) in g.edges && Direct(1, 2, Call(7)) in g.edges;
    assert Direct(2, 0, Intra) in g.edges && Direct(3, 0, Intra) in g.edges;
    assert g.DirectSources(0) == {Item(2, 2), Item(3, 3)};
    assert g.DirectSources(1) == {Item(0, 1)};
    assert g.DirectSources(2) == {Item(1, 1)};
  }

  lemma TouchedInRecursion()
    ensures Touched(Recursion, Item(0, 1)) == {Item(1, 1)}
    ensures Touched(Recursion, Item(3, 3)) == {Item(0, 1)}
  {
    var g := Recursion;
    ItemsOfRecursion();
    hide Graph.Items;
    assert TouchesVia(g, Direct(0, 1, Intra), Item(0, 1), Item(1, 1));
    assert TouchesVia(g, Direct(3, 0, Intra), Item(3, 3), Item(0, 1));
  }

  const Caches0: Assignment := map[Item(0, 1) := {}, Item(1, 1) := {}, Item(2, 2) := {}, Item(3, 3) := {}]
  const Caches1: Assignment := map[Item(0, 1) := {}, Item(1, 1) := {}, Item(2, 2) := {}, Item(3, 3) := {9}]
  const Caches2: Assignment := map[Item(0, 1) := {9}, Item(1, 1) := {9}, Item(2, 2) := {}, Item(3, 3) := {9}]

  /** Without a single definition growth can stay hidden. The actual parameter and the formal parameter are
      evaluated while pointer 1 is still empty. When object 9 arrives at the phi it shows at once in the
      entry that the actual parameter shares; evaluated again, that node adds nothing, so its reader is not
      touched: everything is at rest and the formal parameter misses object 9. The solver takes these steps
      when it is asked for pointer 1 and follows the edge from node 2 before the one from node 3. */
  lemma SharedDefinitionHidesGrowth() returns (run: seq<Work>, order: seq<Item>)
    ensures var g := Recursion;
            && g.WellFormed() && !DefinitionsShareReaders(g) && RunToRest(g, run, order)
            && Pts(run[|order|].sigma, Item(2, 2)) == {}
            && Pts(Least(g.Equations()), Item(2, 2)) == {9}
  {
    hide Graph.Items, Graph.Eval, Graph.WellFormed, Least, Evaluates, DefinitionsShareReaders, Graph.Equations;
    ItemsOfRecursion();
    RecursionIsWellFormed();
    order := [Item(1, 1), Item(2, 2), Item(3, 3), Item(0, 1), Item(1, 1)];
    run := [Work(Caches0, {Item(0, 1), Item(1, 1), Item(2, 2), Item(3, 3)}),
            Work(Caches0, {Item(0, 1), Item(2, 2), Item(3, 3)}),
            Work(Caches0, {Item(0, 1), Item(3, 3)}),
            Work(Caches1, {Item(0, 1)}),
            Work(Caches2, {Item(1, 1)}),
            Work(Caches2, {})];
    forall i | 0 <= i < |order| ensures Evaluates(Recursion, run[i], order[i], run[i + 1]) {
      if i == 2 {
        AddressFound(run[i].pending);
      } else if i == 3 {
        PhiFound(run[i].pending);
      } else {
        NothingFound(run[i].sigma, run[i].pending, order[i]);
        assert run[i + 1] == Work(run[i].sigma, run[i].pending - {order[i]});
      }
    }
    assert run[0].sigma == map e | e in Recursion.Items() :: {};
    LeastOfRecursion();
    ReadersNotShared();
  }

  lemma NothingFound(c: Assignment, pending: set<Item>, d: Item)
    requires d in pending && ((c == Caches0 && d == Item(2, 2)) || (c in {Caches0, Caches2} && d == Item(1, 1)))
    ensures Evaluates(Recursion, Work(c, pending), d, Work(c, pending - {d}))
  {
    hide Graph.Eval;
    EvalOfRecursion(c);
  }

  lemma AddressFound(pending: set<Item>)
    requires pending == {Item(0, 1), Item(3, 3)}
    ensures Evaluates(Recursion, Work(Caches0, pending), Item(3, 3), Work(Caches1, {Item(0, 1)}))
  {
    hide Graph.Eval, Graph.Items, Touched;
    ItemsOfRecursion();
    EvalOfRecursion(Caches0);
    TouchedInRecursion();
    var stored := Stored(Recursion, Caches0, Item(3, 3), {9});
    assert stored[Item(0, 1)] == Caches1[Item(0, 1)] && stored[Item(1, 1)] == Caches1[Item(1, 1)];
    assert stored[Item(2, 2)] == Caches1[Item(2, 2)] && stored[Item(3, 3)] == Caches1[Item(3, 3)];
    assert stored == Caches1;
  }

  lemma PhiFound(pending: set<Item>)
    requires pending == {Item(0, 1)}
    ensures Evaluates(Recursion, Work(Caches1, pending), Item(0, 1), Work(Caches2, {Item(1, 1)}))
  {
    hide Graph.Eval, Graph.Items, Touched;
    ItemsOfRecursion();
    EvalOfRecursion(Caches1);
    TouchedInRecursion();
    var stored := Stored(Recursion, Caches1, Item(0, 1), {9});
    assert stored[Item(0, 1)] == Caches2[Item(0, 1)] && stored[Item(1, 1)] == Caches2[Item(1, 1)];
    assert stored[Item(2, 2)] == Caches2[Item(2, 2)] && stored[Item(3, 3)] == Caches2[Item(3, 3)];
    assert stored == Caches2;
  }

  lemma ReadersNotShared()
    ensures !DefinitionsShareReaders(Recursion)
  {
    var g := Recursion;
    assert Direct(1, 2, Call(7)) in g.edges && 0 in g.lhs && g.lhs[0] == g.lhs[1];
    assert !HasDirect(g, 0, 2);
  }

  lemma LeastOfRecursion()
    ensures Pts(Least(Recursion.Equations()), Item(2, 2)) == {9}
  {
    hide Least;
    var q := Recursion.Equations();
    ItemsOfRecursion();
    RecursionIsWellFormed();
    EquationsAreLawful(Recursion);
    LeastIsFixedPoint(q);
    EvalOfRecursion(Least(q));
    var c := Least(q);
    assert Item(0, 1) in c && Item(1, 1) in c && Item(2, 2) in c && Item(3, 3) in c;
    assert c[Item(3, 3)] == {9};
  }
}
