/** Finite systems of monotone set equations whose dependencies may grow with the solution, and
    their least solution. The value-flow graph gives rise to one such system. */
module EquationSystems {

  type Node = nat
  type Id = nat

  /** A query item: a location of the graph and the variable or object asked for there. */
  datatype Item = Item(node: Node, id: Id)

  /** Points-to sets by item; a missing entry is the empty set. */
  type Assignment = map<Item, set<Id>>

  function Pts(c: Assignment, d: Item): set<Id> {
    if d in c then c[d] else {}
  }

  /** One equation per item: its right-hand side under an assignment, and the items that right-hand
      side reads under that assignment. The dependencies run along so many edges. */
  datatype System = System(
    items: set<Item>,
    objs: set<Id>,
    edges: nat,
    sources: (Assignment, Item) -> set<Item>,
    eval: (Assignment, Item) -> set<Id>)

  ghost predicate Within(q: System, c: Assignment) {
    forall e <- q.items :: Pts(c, e) <= q.objs
  }

  ghost predicate Below(q: System, a: Assignment, b: Assignment) {
    forall e <- q.items :: Pts(a, e) <= Pts(b, e)
  }

  /** Equations stay within the items and objects of the system. */
  ghost predicate StaysWithin(q: System, c: Assignment, d: Item) {
    d in q.items && Within(q, c) ==> q.sources(c, d) <= q.items && q.eval(c, d) <= q.objs
  }

  /** Agreement from below on the items b reads is enough for monotonicity. */
  ghost predicate Monotone(q: System, a: Assignment, b: Assignment, d: Item) {
    d in q.items && (forall s <- q.sources(b, d) :: Pts(a, s) <= Pts(b, s))
    ==> q.sources(a, d) <= q.sources(b, d) && q.eval(a, d) <= q.eval(b, d)
  }

  ghost predicate Lawful(q: System) {
    && (forall c, d :: StaysWithin(q, c, d))
    && (forall a, b, d :: Monotone(q, a, b, d))
  }

  /** A post-fixed point of the equations. */
  ghost predicate IsSolution(q: System, c: Assignment) {
    && c.Keys == q.items
    && Within(q, c)
    && forall e <- q.items :: q.eval(c, e) <= Pts(c, e)
  }

  /** Stage n holds exactly what is derivable by at most n nested applications of equations. */
  ghost function Stage(q: System, n: nat): (c: Assignment)
    ensures c.Keys == q.items
  {
    if n == 0 then map e | e in q.items :: {}
    else map e | e in q.items :: q.eval(Stage(q, n - 1), e)
  }

  /** All (item, object) facts there can be, and those an assignment holds. */
  ghost function Universe(q: System): set<(Item, Id)> {
    set e, x | e in q.items && x in q.objs :: (e, x)
  }

  ghost function Facts(q: System, c: Assignment): set<(Item, Id)> {
    set e, x | e in q.items && x in Pts(c, e) :: (e, x)
  }

  /** The least solution. */
  ghost function Least(q: System): (c: Assignment)
    ensures c.Keys == q.items
  {
    Stage(q, |Universe(q)|)
  }

  lemma {:induction false} StageWithin(q: System, n: nat)
    requires Lawful(q)
    ensures Within(q, Stage(q, n))
  {
    if n > 0 {
      StageWithin(q, n - 1);
      forall e <- q.items ensures Pts(Stage(q, n), e) <= q.objs {
        assert StaysWithin(q, Stage(q, n - 1), e);
      }
    }
  }

  lemma {:induction false} StageGrows(q: System, n: nat)
    requires Lawful(q)
    ensures Below(q, Stage(q, n), Stage(q, n + 1))
  {
    if n > 0 {
      StageGrows(q, n - 1);
      StageWithin(q, n);
      forall e <- q.items ensures Pts(Stage(q, n), e) <= Pts(Stage(q, n + 1), e) {
        assert StaysWithin(q, Stage(q, n), e);
        assert Monotone(q, Stage(q, n - 1), Stage(q, n), e);
      }
    }
  }

  lemma ProperSubsetIsSmaller<T>(small: set<T>, large: set<T>)
    requires small < large
    ensures |small| < |large|
  {
    var rest := large - small;
    assert large == small + rest;
    assert rest != {};
  }

  lemma SubsetIsNotLarger<T>(small: set<T>, large: set<T>)
    requires small <= large
    ensures |small| <= |large|
  {
    if small != large {
      ProperSubsetIsSmaller(small, large);
    }
  }

  /** As long as the stages have not settled, every stage adds a fact. */
  lemma {:induction false} StageSettlesOrAddsFact(q: System, n: nat)
    requires Lawful(q)
    ensures Stage(q, n + 1) == Stage(q, n) || |Facts(q, Stage(q, n + 1))| >= n + 1
  {
    if Stage(q, n + 1) != Stage(q, n) {
      if n > 0 {
        StageSettlesOrAddsFact(q, n - 1);
        assert Stage(q, n) != Stage(q, n - 1);
      }
      var small, large := Facts(q, Stage(q, n)), Facts(q, Stage(q, n + 1));
      StageGrows(q, n);
      assert small <= large;
      var e :| e in q.items && Stage(q, n + 1)[e] != Stage(q, n)[e];
      var x :| x in Stage(q, n + 1)[e] && x !in Stage(q, n)[e];
      assert (e, x) in large - small;
      ProperSubsetIsSmaller(small, large);
    }
  }

  /** The least solution satisfies every equation with equality. */
  lemma LeastIsFixedPoint(q: System)
    requires Lawful(q)
    ensures IsSolution(q, Least(q))
    ensures forall e <- q.items :: Least(q)[e] == q.eval(Least(q), e)
  {
    var n := |Universe(q)|;
    StageSettlesOrAddsFact(q, n);
    StageWithin(q, n);
    StageWithin(q, n + 1);
    SubsetIsNotLarger(Facts(q, Stage(q, n + 1)), Universe(q));
    assert Stage(q, n + 1) == Stage(q, n);
  }

  lemma {:induction false} StageBelowSolution(q: System, n: nat, c: Assignment)
    requires Lawful(q) && IsSolution(q, c)
    ensures Below(q, Stage(q, n), c)
  {
    if n > 0 {
      StageBelowSolution(q, n - 1, c);
      forall e <- q.items ensures Pts(Stage(q, n), e) <= Pts(c, e) {
        assert StaysWithin(q, c, e);
        assert Monotone(q, Stage(q, n - 1), c, e);
      }
    }
  }

  /** Least among all solutions. */
  lemma LeastIsLeast(q: System, c: Assignment)
    requires Lawful(q) && IsSolution(q, c)
    ensures Below(q, Least(q), c)
  {
    StageBelowSolution(q, |Universe(q)|, c);
  }

  /** Membership in the least solution is having a finite derivation. */
  lemma LeastIsDerivable(q: System, e: Item, x: Id)
    requires Lawful(q) && e in q.items
    ensures x in Least(q)[e] <==> exists n: nat :: x in Stage(q, n)[e]
  {
    LeastIsFixedPoint(q);
    var last: nat := |Universe(q)|;
    assert x in Least(q)[e] ==> x in Stage(q, last)[e];
    if n: nat :| x in Stage(q, n)[e] {
      StageBelowSolution(q, n, Least(q));
    }
  }
}
