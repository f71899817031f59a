/** A program on which a query that runs out of budget makes a later answer within budget larger than
    the least solution. */
module DowngradedRun {
  import opened EquationSystems
  import opened ValueFlowGraph
  import opened Downgrading
  import opened DDASolver

  // a = &o; x = &u; y = &v; *a = x; *a = y; p = *a; q = p
  const A: Id := 1
  const X: Id := 2
  const Y: Id := 3
  const P: Id := 4
  const Q: Id := 5
  const O: Id := 11
  const U: Id := 12
  const V: Id := 13

  /** Both stores are strong: the second overwrites what the first left in o. Nodes 1 to 5 define the
      pointers of the same number, 6 and 7 are the stores. */
  const Program := Graph(
    map[1 := Addr(O), 2 := Addr(U), 3 := Addr(V), 4 := Load(A), 5 := Copy, 6 := Store(A, X), 7 := Store(A, Y)],
    {Direct(1, 6, Intra), Direct(2, 6, Intra), Direct(1, 7, Intra), Direct(3, 7, Intra), Direct(1, 4, Intra),
     Direct(4, 5, Intra), Indirect(6, 7, Intra, {O}), Indirect(7, 4, Intra, {O})},
    map[1 := A, 2 := X, 3 := Y, 4 := P, 5 := Q],
    map[A := 1, X := 2, Y := 3, P := 4, Q := 5],
    {O, U, V}, {}, map[], map[],
    {Item(6, O), Item(7, O)})

  /** The whole-program analysis, which does not see that the second store overwrites the first. */
  const Ander: map<Id, set<Id>> := map[A := {O}, X := {U}, Y := {V}, P := {U, V}, Q := {U, V}, O := {U, V}]

  const Asked := {Item(1, A), Item(2, X), Item(3, Y), Item(4, P), Item(5, Q),
                  Item(6, O), Item(6, U), Item(6, V), Item(7, O), Item(7, U), Item(7, V)}

  lemma ItemsOfProgram()
    ensures Program.Items() == Program.Equations().items == Asked
  {
    var g := Program;
    forall d ensures d in g.Items() <==> d in Asked {
      if d in Asked {
        if d.node <= 5 {
          assert d.node in g.lhs && d == Item(d.node, g.lhs[d.node]);
        } else {
          assert d.node in g.stmts && !g.stmts[d.node].TopLevel() && d.id in g.objs;
        }
      }
    }
  }

  lemma StatementsHaveOperands()
    ensures forall n <- Program.stmts :: Program.ValidStmt(n)
  {
    forall n <- Program.stmts ensures Program.ValidStmt(n) {
    }
  }

  lemma ProgramIsValid()
    ensures Program.Valid()
  {
    hide Graph.ValidStmt;
    StatementsHaveOperands();
  }

  /** What flows into each item, given that the stores and the load dereference o alone. */
  function From(d: Item): set<Item> {
    if d == Item(4, P) then {Item(7, O)}
    else if d == Item(5, Q) then {Item(4, P)}
    else if d == Item(6, O) then {Item(2, X)}
    else if d == Item(7, O) then {Item(3, Y)}
    else {}
  }

  lemma LoadReads()
    ensures Program.LoadedSources(4, {O}) == {Item(7, O)}
  {
    var g := Program;
    assert Indirect(7, 4, Intra, {O}) in g.edges;
    assert g.IndirectSources(4, O) == {Item(7, O)};
  }

  lemma CopyReads()
    ensures Program.DirectSources(5) == {Item(4, P)}
  {
    assert Direct(4, 5, Intra) in Program.edges;
  }

  lemma StoreReads(d: Item)
    requires d in Asked && 6 <= d.node
    ensures Program.StoreSources(d, if d.node == 6 then X else Y, {O}) == From(d)
  {
    var g := Program;
    if d.id == O {
      assert g.StrongUpdate(d.node, {O});
    } else {
      assert g.IndirectSources(d.node, d.id) == {};
    }
  }

  lemma SourcesOfProgram(c: Assignment, d: Item)
    requires d in Asked && Pts(c, Item(1, A)) == {O}
    ensures Program.FlowSources(c, d) == From(d)
  {
    hide Graph.LoadedSources, Graph.DirectSources, Graph.StoreSources;
    LoadReads();
    CopyReads();
    if 6 <= d.node {
      StoreReads(d);
    }
  }

  lemma GatherOne(c: Assignment, s: Item)
    ensures Gather(c, {s}) == Pts(c, s) && Gather(c, {}) == {}
  {
  }

  lemma EvalOfProgram(c: Assignment, d: Item)
    requires d in Asked && d.node > 3 && Pts(c, Item(1, A)) == {O}
    ensures Program.Eval(c, d) == Gather(c, From(d))
  {
    SourcesOfProgram(c, d);
  }

  lemma AddrOfProgram(c: Assignment)
    ensures Program.Eval(c, Item(1, A)) == {O}
    ensures Program.Eval(c, Item(2, X)) == {U}
    ensures Program.Eval(c, Item(3, Y)) == {V}
  {
  }

  function AnderOf(id: Id): (pts: set<Id>)
    ensures pts <= {O, U, V}
  {
    if id in Ander then Ander[id] else {}
  }

  lemma AnderTakesIn(c: Assignment, d: Item)
    requires c.Keys == Asked && d in Asked && forall e <- c :: c[e] == AnderOf(e.id)
    ensures Program.Eval(c, d) <= c[d]
  {
    hide Graph.Eval, Gather;
    assert Item(1, A) in c && Item(2, X) in c && Item(3, Y) in c && Item(4, P) in c && Item(7, O) in c;
    AddrOfProgram(c);
    if d.node > 3 {
      EvalOfProgram(c, d);
    }
    GatherOne(c, Item(7, O));
    GatherOne(c, Item(4, P));
    GatherOne(c, Item(2, X));
    GatherOne(c, Item(3, Y));
  }

  lemma AnderOfProgram(q: System, ander: Assignment)
    requires q == Program.Equations() && ander == Everywhere(q, Ander)
    ensures ander.Keys == q.items == Asked && forall e <- ander :: ander[e] == AnderOf(e.id)
    ensures Pts(ander, Item(4, P)) == {U, V}
  {
    hide Graph.Items;
    ItemsOfProgram();
    assert Item(4, P) in ander;
  }

  lemma AnderSolves(q: System, ander: Assignment)
    requires q == Program.Equations() && ander.Keys == q.items == Asked
        && forall e <- ander :: ander[e] == AnderOf(e.id)
    ensures IsSolution(q, ander)
  {
    hide Graph.Items, Graph.Eval, AnderOf;
    forall d <- q.items ensures Pts(ander, d) <= q.objs {
      assert ander[d] == AnderOf(d.id);
    }
    forall d <- q.items ensures q.eval(ander, d) <= Pts(ander, d) {
      AnderTakesIn(ander, d);
    }
  }

  /** The least solution has q point to v alone. Once p has been recorded, with what the whole-program
      analysis has for it, q points to u as well. */
  lemma RecordingSpreads()
    ensures var q := Program.Equations(); var ander := Everywhere(q, Ander);
            && Program.Valid() && IsSolution(q, ander)
            && Pts(Least(q), Item(5, Q)) == {V}
            && Pts(Least(Downgraded(q, {Item(4, P)}, ander)), Item(5, Q)) == {U, V}
  {
    hide Graph.Valid, Lawful, IsSolution, Least, Downgraded, Everywhere, Graph.Equations;
    var q := Program.Equations();
    var ander := Everywhere(q, Ander);
    ProgramIsValid();
    EquationsAreLawful(Program);
    AnderOfProgram(q, ander);
    AnderSolves(q, ander);
    LeastIsFixedPoint(q);
    LeastOfProgram(q, Least(q));
    AfterRecording(q, ander);
  }

  lemma LeastOfProgram(q: System, c: Assignment)
    requires q == Program.Equations() && c.Keys == q.items
    requires forall e <- q.items :: c[e] == q.eval(c, e)
    ensures Pts(c, Item(5, Q)) == {V}
  {
    hide Graph.Items, Gather, Graph.Eval;
    ItemsOfProgram();
    AddrOfProgram(c);
    assert c[Item(1, A)] == {O};
    EvalOfProgram(c, Item(7, O));
    GatherOne(c, Item(3, Y));
    EvalOfProgram(c, Item(4, P));
    GatherOne(c, Item(7, O));
    EvalOfProgram(c, Item(5, Q));
    GatherOne(c, Item(4, P));
  }

  lemma AfterRecording(q: System, ander: Assignment)
    requires q == Program.Equations() && Lawful(q) && IsSolution(q, ander) && Pts(ander, Item(4, P)) == {U, V}
    ensures Pts(Least(Downgraded(q, {Item(4, P)}, ander)), Item(5, Q)) == {U, V}
  {
    hide Graph.Items, Gather, Lawful, IsSolution, Least, Downgraded, Graph.Eval;
    ItemsOfProgram();
    DowngradedIsFixedPoint(q, {Item(4, P)}, ander);
    var c := Least(Downgraded(q, {Item(4, P)}, ander));
    AddrOfProgram(c);
    assert c[Item(1, A)] == {O};
    EvalOfProgram(c, Item(5, Q));
    GatherOne(c, Item(4, P));
  }

  lemma SecondAnswer(s: Solver, queries: seq<Item>, answers: seq<Answer>)
    requires s.eqs == Program.Equations() && s.ander == Ander
    requires queries == [Item(4, P), Item(5, Q)] && |answers| == 2 && s.IsAnswer({}, queries, answers, 1)
    ensures answers[1].InBudget? ==> answers[1].pts == if answers[0].InBudget? then {V} else {U, V}
  {
    hide Graph.Valid, Graph.Items, Graph.Equations, Lawful, IsSolution, Least, Downgraded, Everywhere;
    RecordingSpreads();
    assert answers[1].InBudget? ==>
        RecordedBy({}, queries, answers, 2) == if answers[0].InBudget? then {} else {Item(4, P)};
  }

  /** The solver on this program, asked for p and then for q: what q is answered within budget depends on
      whether p ran out. */
  method AskForPThenQ(maxBudget: nat) returns (answers: seq<Answer>)
    ensures |answers| == 2
    ensures answers[1].InBudget? ==> answers[1].pts == if answers[0].InBudget? then {V} else {U, V}
  {
    hide Graph.Valid, Graph.Items, Graph.Equations, Lawful, IsSolution, Least, Downgraded, Everywhere, Solver.Running,
         Solver.Whole, Solver.IsAnswer, Solver.Now;
    RecordingSpreads();
    ItemsOfProgram();
    var s := new Solver(Program, Ander, maxBudget);
    ghost var begin;
    answers, begin := s.AnswerQueries([Item(4, P), Item(5, Q)], s.Now());
    SecondAnswer(s, [Item(4, P), Item(5, Q)], answers);
  }
}
