/** What recording out-of-budget items does to the equations: a recorded item is given the set the
    whole-program analysis has for it and is not solved again. */
module Downgrading {
  import opened EquationSystems

  /** The equations with the recorded items fixed at what the whole-program analysis says. */
  ghost function Downgraded(q: System, recorded: set<Item>, whole: Assignment): System {
    q.(sources := (c, d) => if d in recorded then {} else q.sources(c, d),
       eval := (c, d) => if d in recorded then Pts(whole, d) else q.eval(c, d))
  }

  lemma DowngradedIsLawful(q: System, recorded: set<Item>, whole: Assignment)
    requires Lawful(q) && IsSolution(q, whole)
    ensures Lawful(Downgraded(q, recorded, whole))
  {
    var r := Downgraded(q, recorded, whole);
    forall c, d ensures StaysWithin(r, c, d) {
      assert StaysWithin(q, c, d);
    }
    forall a, b, d ensures Monotone(r, a, b, d) {
      assert Monotone(q, a, b, d);
    }
  }

  /** The equation of d, and a solution larger than another satisfies more. */
  lemma SolutionIsMonotone(q: System, a: Assignment, b: Assignment, d: Item)
    requires Lawful(q) && d in q.items && Below(q, a, b) && IsSolution(q, b)
    ensures q.eval(a, d) <= Pts(b, d)
  {
    assert StaysWithin(q, b, d);
    assert Monotone(q, a, b, d);
  }

  /** Wherever items are recorded, answers lie between the least solution and the whole-program
      analysis, and what is found solves the original equations too. */
  lemma DowngradedLiesBetween(q: System, recorded: set<Item>, whole: Assignment)
    requires Lawful(q) && IsSolution(q, whole)
    ensures var least := Least(Downgraded(q, recorded, whole));
            && Below(q, Least(q), least) && Below(q, least, whole) && IsSolution(q, least)
            && forall r <- recorded * q.items :: Pts(least, r) == Pts(whole, r)
  {
    var r := Downgraded(q, recorded, whole);
    DowngradedIsLawful(q, recorded, whole);
    LeastIsFixedPoint(r);
    assert IsSolution(r, whole);
    LeastIsLeast(r, whole);
    forall d <- q.items ensures q.eval(Least(r), d) <= Pts(Least(r), d) {
      SolutionIsMonotone(q, Least(r), whole, d);
    }
    LeastIsLeast(q, Least(r));
  }

  lemma DowngradedIsFixedPoint(q: System, recorded: set<Item>, whole: Assignment)
    requires Lawful(q) && IsSolution(q, whole)
    ensures var least := Least(Downgraded(q, recorded, whole));
            && least.Keys == q.items
            && (forall e <- q.items - recorded :: least[e] == q.eval(least, e))
            && (forall e <- q.items * recorded :: least[e] == Pts(whole, e))
  {
    DowngradedIsLawful(q, recorded, whole);
    LeastIsFixedPoint(Downgraded(q, recorded, whole));
  }

  /** Recording more items can only add to the answers. */
  lemma MoreRecordedMoreFound(q: System, few: set<Item>, many: set<Item>, whole: Assignment)
    requires Lawful(q) && IsSolution(q, whole) && few <= many
    ensures Below(q, Least(Downgraded(q, few, whole)), Least(Downgraded(q, many, whole)))
  {
    var least := Least(Downgraded(q, many, whole));
    DowngradedLiesBetween(q, many, whole);
    DowngradedIsLawful(q, few, whole);
    assert IsSolution(Downgraded(q, few, whole), least);
    LeastIsLeast(Downgraded(q, few, whole), least);
  }

  lemma NothingRecorded(q: System, whole: Assignment)
    requires Lawful(q) && IsSolution(q, whole)
    ensures Least(Downgraded(q, {}, whole)) == Least(q)
  {
    var r := Downgraded(q, {}, whole);
    DowngradedIsLawful(q, {}, whole);
    LeastIsFixedPoint(q);
    assert IsSolution(r, Least(q));
    LeastIsLeast(r, Least(q));
    DowngradedLiesBetween(q, {}, whole);
    forall e <- q.items ensures Least(r)[e] == Least(q)[e] {
      assert Pts(Least(r), e) == Pts(Least(q), e);
    }
  }

  /** Items that, but for the recorded ones, take in the least solution only from each other. */
  ghost predicate SelfContained(q: System, recorded: set<Item>, part: set<Item>) {
    part <= q.items && forall d <- part - recorded :: q.sources(Least(q), d) <= part
  }

  /** The whole-program analysis is exact on the recorded items of a part. */
  ghost predicate RecordedExact(q: System, recorded: set<Item>, whole: Assignment, part: set<Item>) {
    forall r <- recorded * part :: Pts(whole, r) == Pts(Least(q), r)
  }

  lemma {:induction false} DowngradedStageExact(q: System, recorded: set<Item>, whole: Assignment, part: set<Item>,
      n: nat)
    requires Lawful(q) && SelfContained(q, recorded, part) && RecordedExact(q, recorded, whole, part)
    ensures forall d <- part :: Pts(Stage(Downgraded(q, recorded, whole), n), d) <= Pts(Least(q), d)
  {
    if n > 0 {
      var r := Downgraded(q, recorded, whole);
      DowngradedStageExact(q, recorded, whole, part, n - 1);
      LeastIsFixedPoint(q);
      forall d <- part ensures Pts(Stage(r, n), d) <= Pts(Least(q), d) {
        if d !in recorded {
          assert q.sources(Least(q), d) <= part;
          assert Monotone(q, Stage(r, n - 1), Least(q), d);
        } else {
          assert d in recorded * part;
        }
      }
    }
  }

  /** Exactly when recording does no harm: on items that take only from each other every answer is
      the least solution if and only if the whole-program analysis is exact on the recorded ones
      among them. With none recorded among them it always is. */
  lemma RecordingHarmless(q: System, recorded: set<Item>, whole: Assignment, part: set<Item>)
    requires Lawful(q) && IsSolution(q, whole) && SelfContained(q, recorded, part)
    ensures (forall d <- part :: Pts(Least(Downgraded(q, recorded, whole)), d) == Pts(Least(q), d))
       <==> RecordedExact(q, recorded, whole, part)
  {
    var least := Least(Downgraded(q, recorded, whole));
    DowngradedLiesBetween(q, recorded, whole);
    if RecordedExact(q, recorded, whole, part) {
      DowngradedStageExact(q, recorded, whole, part, |Universe(q)|);
      assert Universe(Downgraded(q, recorded, whole)) == Universe(q);
    } else {
      var r :| r in recorded * part && Pts(whole, r) != Pts(Least(q), r);
      assert Pts(least, r) == Pts(whole, r);
    }
  }

  /** The whole-program analysis is flow-insensitive: one set for each variable or object. */
  ghost function Everywhere(q: System, ander: map<Id, set<Id>>): Assignment {
    map e | e in q.items :: if e.id in ander then ander[e.id] else {}
  }
}
