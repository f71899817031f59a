/** What the least solution of the flow-sensitive equations holds at each kind of statement, said of the
    statements and edges of the graph alone. */
module StatementLaws {
  import opened EquationSystems
  import opened ValueFlowGraph

  lemma ItemOfPointer(g: Graph, n: Node)
    requires g.Valid() && n in g.lhs
    ensures Item(n, g.lhs[n]) in g.Items()
  {
  }

  lemma ItemOfObject(g: Graph, n: Node, o: Id)
    requires g.Valid() && n in g.stmts && !g.stmts[n].TopLevel() && o in g.objs
    ensures Item(n, o) in g.Items()
  {
  }

  lemma LeastIsEval(g: Graph, d: Item)
    requires g.Valid() && d in g.Items()
    ensures Pts(Least(g.Equations()), d) == g.Eval(Least(g.Equations()), d)
  {
    EquationsAreLawful(g);
    LeastIsFixedPoint(g.Equations());
  }

  /** An address node points to its object, or to the field-insensitive representative of it. */
  lemma AddressHolds(g: Graph, n: Node, o: Id)
    requires g.Valid() && n in g.stmts && g.stmts[n] == Addr(o)
    ensures Pts(Least(g.Equations()), Item(n, g.lhs[n])) == {if o in g.fiObj then g.fiObj[o] else o}
  {
    ItemOfPointer(g, n);
    LeastIsEval(g, Item(n, g.lhs[n]));
  }

  /** A copy, phi, parameter or return holds what the pointers hold that have a direct edge to it, of
      whatever kind. */
  lemma CopyHolds(g: Graph, n: Node, x: Id)
    requires g.Valid() && n in g.stmts && g.stmts[n] == Copy
    ensures var c := Least(g.Equations());
            x in Pts(c, Item(n, g.lhs[n])) <==>
            exists e <- g.edges :: e.Direct? && e.dst == n && x in Pts(c, Item(e.src, g.lhs[e.src]))
  {
    ItemOfPointer(g, n);
    LeastIsEval(g, Item(n, g.lhs[n]));
    DirectGathered(g, Least(g.Equations()), n, x);
  }

  lemma DirectGathered(g: Graph, c: Assignment, n: Node, x: Id)
    requires g.Valid()
    ensures x in Gather(c, g.DirectSources(n)) <==>
            exists e <- g.edges :: e.Direct? && e.dst == n && x in Pts(c, Item(e.src, g.lhs[e.src]))
  {
    if e :| e in g.edges && e.Direct? && e.dst == n && x in Pts(c, Item(e.src, g.lhs[e.src])) {
      assert Item(e.src, g.lhs[e.src]) in g.DirectSources(n);
    }
  }

  lemma IndirectGathered(g: Graph, c: Assignment, n: Node, o: Id, x: Id)
    ensures x in Gather(c, g.IndirectSources(n, o)) <==>
            o !in g.constants
            && exists e <- g.edges :: e.Indirect? && e.dst == n && o in e.guard && x in Pts(c, Item(e.src, o))
  {
    if e :| e in g.edges && e.Indirect? && e.dst == n && o in e.guard && x in Pts(c, Item(e.src, o)) {
      assert o !in g.constants ==> Item(e.src, o) in g.IndirectSources(n, o);
    }
  }

  /** A Gep holds the fields of the objects its operands hold. */
  lemma GepHolds(g: Graph, n: Node, x: Id)
    requires g.Valid() && n in g.stmts && g.stmts[n] == Gep
    ensures var c := Least(g.Equations());
            x in Pts(c, Item(n, g.lhs[n])) <==>
            exists e <- g.edges, o ::
              e.Direct? && e.dst == n && o in Pts(c, Item(e.src, g.lhs[e.src]))
              && Item(n, o) in g.fields && x in g.fields[Item(n, o)]
  {
    var c := Least(g.Equations());
    ItemOfPointer(g, n);
    LeastIsEval(g, Item(n, g.lhs[n]));
    forall o ensures o in Gather(c, g.DirectSources(n)) <==>
                     exists e <- g.edges :: e.Direct? && e.dst == n && o in Pts(c, Item(e.src, g.lhs[e.src])) {
      DirectGathered(g, c, n, o);
    }
  }

  /** A load holds what the memory edges into it bring for the targets of its pointer. */
  lemma LoadHolds(g: Graph, n: Node, p: Id, x: Id)
    requires g.Valid() && n in g.stmts && g.stmts[n] == Load(p)
    ensures p in g.def
    ensures var c := Least(g.Equations());
            x in Pts(c, Item(n, g.lhs[n])) <==>
            exists e <- g.edges, o <- Pts(c, Item(g.def[p], p)) ::
              e.Indirect? && e.dst == n && o in e.guard && o !in g.constants && x in Pts(c, Item(e.src, o))
  {
    var c := Least(g.Equations());
    assert g.ValidStmt(n);
    ItemOfPointer(g, n);
    LeastIsEval(g, Item(n, g.lhs[n]));
    var targets := Pts(c, Item(g.def[p], p));
    if x in Gather(c, g.LoadedSources(n, targets)) {
      var s :| s in g.LoadedSources(n, targets) && x in Pts(c, s);
      var o :| o in targets && s in g.IndirectSources(n, o);
    }
    if e, o :| e in g.edges && o in targets && e.Indirect? && e.dst == n && o in e.guard && o !in g.constants
               && x in Pts(c, Item(e.src, o)) {
      assert Item(e.src, o) in g.IndirectSources(n, o);
      assert Item(e.src, o) in g.LoadedSources(n, targets);
    }
  }

  /** A memory-region node holds for an object what the memory edges into it bring for that object. */
  lemma MemRegionHolds(g: Graph, n: Node, o: Id, x: Id)
    requires g.Valid() && n in g.stmts && g.stmts[n] == MemRegion && o in g.objs
    ensures var c := Least(g.Equations());
            x in Pts(c, Item(n, o)) <==>
            o !in g.constants
            && exists e <- g.edges :: e.Indirect? && e.dst == n && o in e.guard && x in Pts(c, Item(e.src, o))
  {
    ItemOfObject(g, n, o);
    LeastIsEval(g, Item(n, o));
    IndirectGathered(g, Least(g.Equations()), n, o, x);
  }

  /** A store holds for an object the stored value, if its pointer may point to that object, and what
      the object held before, unless its pointer points to nothing yet or to nothing but that object and
      the object is a singleton there. */
  lemma StoreHolds(g: Graph, n: Node, p: Id, v: Id, o: Id, x: Id)
    requires g.Valid() && n in g.stmts && g.stmts[n] == Store(p, v) && o in g.objs
    ensures p in g.def && v in g.def
    ensures var c := Least(g.Equations());
            var targets := Pts(c, Item(g.def[p], p));
            x in Pts(c, Item(n, o)) <==>
            || (o in targets && x in Pts(c, Item(g.def[v], v)))
            || (targets != {} && !(targets == {o} && Item(n, o) in g.singletons) && o !in g.constants
                && exists e <- g.edges :: e.Indirect? && e.dst == n && o in e.guard && x in Pts(c, Item(e.src, o)))
  {
    var c := Least(g.Equations());
    assert g.ValidStmt(n);
    ItemOfObject(g, n, o);
    LeastIsEval(g, Item(n, o));
    var targets := Pts(c, Item(g.def[p], p));
    assert g.PassesOld(n, o, targets) <==> targets != {} && !(targets == {o} && Item(n, o) in g.singletons);
    IndirectGathered(g, c, n, o, x);
    GatherUnion(c, if o in targets then {g.DefItem(v)} else {},
                if g.PassesOld(n, o, targets) then g.IndirectSources(n, o) else {}, x);
  }

  lemma GatherUnion(c: Assignment, a: set<Item>, b: set<Item>, x: Id)
    ensures x in Gather(c, a + b) <==> x in Gather(c, a) || x in Gather(c, b)
  {
  }

  /** A store through a pointer with one target that is no singleton, say a heap object, adds to what the
      object held before: no old contents are dropped. */
  lemma WeakStoreKeeps(g: Graph, n: Node, p: Id, v: Id, o: Id, e: Edge)
    requires g.Valid() && n in g.stmts && g.stmts[n] == Store(p, v) && o in g.objs && p in g.def && v in g.def
    requires Pts(Least(g.Equations()), Item(g.def[p], p)) == {o} && Item(n, o) !in g.singletons
    requires e in g.edges && e.Indirect? && e.dst == n && o in e.guard && o !in g.constants
    ensures var c := Least(g.Equations());
            Pts(c, Item(e.src, o)) + Pts(c, Item(g.def[v], v)) <= Pts(c, Item(n, o))
  {
    forall x ensures x in Pts(Least(g.Equations()), Item(e.src, o)) + Pts(Least(g.Equations()), Item(g.def[v], v))
                     ==> x in Pts(Least(g.Equations()), Item(n, o)) {
      StoreHolds(g, n, p, v, o, x);
    }
  }

  /** A store through a pointer with one target that is a singleton leaves it the stored value alone. */
  lemma StrongStoreOverwrites(g: Graph, n: Node, p: Id, v: Id, o: Id)
    requires g.Valid() && n in g.stmts && g.stmts[n] == Store(p, v) && o in g.objs && p in g.def && v in g.def
    requires Pts(Least(g.Equations()), Item(g.def[p], p)) == {o} && Item(n, o) in g.singletons
    ensures Pts(Least(g.Equations()), Item(n, o)) == Pts(Least(g.Equations()), Item(g.def[v], v))
  {
    forall x ensures x in Pts(Least(g.Equations()), Item(n, o)) <==> x in Pts(Least(g.Equations()), Item(g.def[v], v)) {
      StoreHolds(g, n, p, v, o, x);
    }
  }

  /** An object a store cannot write keeps exactly what it held before. */
  lemma UntargetedObjectKeeps(g: Graph, n: Node, p: Id, v: Id, o: Id, x: Id)
    requires g.Valid() && n in g.stmts && g.stmts[n] == Store(p, v) && o in g.objs && p in g.def
    requires var targets := Pts(Least(g.Equations()), Item(g.def[p], p)); targets != {} && o !in targets
    ensures var c := Least(g.Equations());
            x in Pts(c, Item(n, o)) <==>
            o !in g.constants
            && exists e <- g.edges :: e.Indirect? && e.dst == n && o in e.guard && x in Pts(c, Item(e.src, o))
  {
    StoreHolds(g, n, p, v, o, x);
  }
}
