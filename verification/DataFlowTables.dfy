/** Data-flow points-to tables as values: the plain steps, the incremental steps with their updated
    flags, and the proof that the two stay in lockstep. */
module DataFlowTables {

  type Loc = nat
  type Var = nat
  type Row = map<Var, set<Var>>
  type Table = map<Loc, Row>

  /** One IN set, one OUT set, one top-level points-to set, or a set the caller hands in. */
  datatype Slot = In(loc: Loc, v: Var) | Out(loc: Loc, v: Var) | Top(v: Var) | Given(data: set<Var>)

  datatype Tables = Tables(dfIn: Table, dfOut: Table, top: Row)

  /** A missing entry is the empty set. */
  function Entry(row: Row, v: Var): set<Var> {
    if v in row then row[v] else {}
  }

  function RowAt(t: Table, loc: Loc): Row {
    if loc in t then t[loc] else map[]
  }

  function Read(s: Tables, slot: Slot): set<Var> {
    match slot
    case In(loc, v) => Entry(RowAt(s.dfIn, loc), v)
    case Out(loc, v) => Entry(RowAt(s.dfOut, loc), v)
    case Top(v) => Entry(s.top, v)
    case Given(data) => data
  }

  function JoinEntry(row: Row, v: Var, data: set<Var>): Row {
    row[v := Entry(row, v) + data]
  }

  /** Unions data into one slot. */
  function Join(s: Tables, slot: Slot, data: set<Var>): Tables {
    match slot
    case In(loc, v) => s.(dfIn := s.dfIn[loc := JoinEntry(RowAt(s.dfIn, loc), v, data)])
    case Out(loc, v) => s.(dfOut := s.dfOut[loc := JoinEntry(RowAt(s.dfOut, loc), v, data)])
    case Top(v) => s.(top := JoinEntry(s.top, v, data))
    case Given(_) => s
  }

  /** Unions IN[loc] into OUT[loc] for the given variables. */
  function JoinOut(s: Tables, loc: Loc, vars: set<Var>): Tables {
    s.(dfOut := s.dfOut[loc := map v | v in RowAt(s.dfOut, loc).Keys + vars ::
                                 Read(s, Out(loc, v)) + (if v in vars then Read(s, In(loc, v)) else {})])
  }

  ghost predicate Same(a: Tables, b: Tables) {
    forall slot :: Read(a, slot) == Read(b, slot)
  }

  // ----- Steps

  /** How the incremental version treats the flag of the set it reads: it may require the flag, require
      and consume it, or not look at it. */
  datatype Guard = Flagged | Consuming | Always

  /** - Move: one set is unioned into another
      - AllOutFromIn: every IN set of a location into its OUT set, except a strongly updated singleton
      - ClearOut: the OUT flags of a location are dropped */
  datatype Op =
    | Move(guard: Guard, src: Slot, dst: Slot)
    | AllOutFromIn(loc: Loc, singleton: Var, strong: bool)
    | ClearOut(loc: Loc)

  function InFromIn(srcLoc: Loc, srcVar: Var, dstLoc: Loc, dstVar: Var): Op {
    Move(Flagged, In(srcLoc, srcVar), In(dstLoc, dstVar))
  }

  function InFromOut(srcLoc: Loc, srcVar: Var, dstLoc: Loc, dstVar: Var): Op {
    Move(Flagged, Out(srcLoc, srcVar), In(dstLoc, dstVar))
  }

  function OutFromIn(srcLoc: Loc, srcVar: Var, dstLoc: Loc, dstVar: Var): Op {
    Move(Consuming, In(srcLoc, srcVar), Out(dstLoc, dstVar))
  }

  function AllInFromIn(srcLoc: Loc, srcVar: Var, dstLoc: Loc, dstVar: Var): Op {
    Move(Always, In(srcLoc, srcVar), In(dstLoc, dstVar))
  }

  function AllInFromOut(srcLoc: Loc, srcVar: Var, dstLoc: Loc, dstVar: Var): Op {
    Move(Always, Out(srcLoc, srcVar), In(dstLoc, dstVar))
  }

  function ToTopLevel(srcLoc: Loc, srcVar: Var, dstVar: Var): Op {
    Move(Consuming, In(srcLoc, srcVar), Top(dstVar))
  }

  function FromTopLevel(srcVar: Var, dstLoc: Loc, dstVar: Var): Op {
    Move(Always, Top(srcVar), Out(dstLoc, dstVar))
  }

  /** The variables updateAllDFOutFromIn leaves out. */
  function Skipped(op: Op): set<Var>
    requires op.AllOutFromIn?
  {
    if op.strong then {op.singleton} else {}
  }

  function Plain(s: Tables, op: Op): Tables {
    match op
    case Move(_, src, dst) => Join(s, dst, Read(s, src))
    case AllOutFromIn(loc, _, _) => JoinOut(s, loc, RowAt(s.dfIn, loc).Keys - Skipped(op))
    case ClearOut(_) => s
  }

  /** The flag a step returns: whether it added anything. */
  ghost predicate PlainGrows(s: Tables, op: Op) {
    match op
    case Move(_, src, dst) => !(Read(s, src) <= Read(s, dst))
    case AllOutFromIn(loc, _, _) => exists v <- RowAt(s.dfIn, loc).Keys - Skipped(op) :: NewOut(s, loc, v)
    case ClearOut(_) => false
  }

  predicate NewOut(s: Tables, loc: Loc, v: Var) {
    !(Read(s, In(loc, v)) <= Read(s, Out(loc, v)))
  }

  type Flags = map<Loc, set<Var>>

  /** The incremental tables: which variables have new IN or OUT sets at a location. */
  datatype Inc = Inc(t: Tables, inNew: Flags, outNew: Flags)

  function FlagsAt(m: Flags, loc: Loc): set<Var> {
    if loc in m then m[loc] else {}
  }

  predicate IsFlagged(s: Inc, slot: Slot) {
    match slot
    case In(loc, v) => v in FlagsAt(s.inNew, loc)
    case Out(loc, v) => v in FlagsAt(s.outNew, loc)
    case _ => false
  }

  /** Whether the flags let an incremental move look at its source. */
  predicate Enabled(s: Inc, guard: Guard, src: Slot) {
    guard == Always || IsFlagged(s, src)
  }

  function Consumed(s: Inc, guard: Guard, src: Slot): Inc {
    if guard == Consuming && src.In? then s.(inNew := s.inNew[src.loc := FlagsAt(s.inNew, src.loc) - {src.v}])
    else s
  }

  /** Flags a slot that has grown. */
  function Flag(s: Inc, slot: Slot): Inc {
    match slot
    case In(loc, v) => s.(inNew := s.inNew[loc := FlagsAt(s.inNew, loc) + {v}])
    case Out(loc, v) => s.(outNew := s.outNew[loc := FlagsAt(s.outNew, loc) + {v}])
    case _ => s
  }

  function NewVars(s: Tables, loc: Loc, vars: set<Var>): set<Var> {
    set v | v in vars && NewOut(s, loc, v)
  }

  /** Passes the IN sets of the given variables on to OUT and lowers their flags. */
  function PassOn(s: Inc, loc: Loc, vars: set<Var>): Inc {
    Inc(JoinOut(s.t, loc, vars),
        s.inNew[loc := FlagsAt(s.inNew, loc) - vars],
        s.outNew[loc := FlagsAt(s.outNew, loc) + NewVars(s.t, loc, vars)])
  }

  function IncStep(s: Inc, op: Op): Inc {
    match op
    case AllOutFromIn(loc, _, _) =>
      PassOn(s, loc, FlagsAt(s.inNew, loc) - Skipped(op))
    case ClearOut(loc) => s.(outNew := s.outNew[loc := {}])
    case Move(guard, src, dst) =>
      if !Enabled(s, guard, src) then s
      else
        var moved := Consumed(s, guard, src).(t := Join(s.t, dst, Read(s.t, src)));
        if Read(s.t, src) <= Read(s.t, dst) then moved else Flag(moved, dst)
  }

  ghost predicate IncGrows(s: Inc, op: Op) {
    match op
    case Move(guard, src, dst) => Enabled(s, guard, src) && !(Read(s.t, src) <= Read(s.t, dst))
    case AllOutFromIn(loc, _, _) => exists v <- FlagsAt(s.inNew, loc) - Skipped(op) :: NewOut(s.t, loc, v)
    case ClearOut(_) => false
  }

  /** The same sets and the same flags; missing entries are empty. */
  ghost predicate SameInc(a: Inc, b: Inc) {
    && Same(a.t, b.t)
    && forall loc :: FlagsAt(a.inNew, loc) == FlagsAt(b.inNew, loc) && FlagsAt(a.outNew, loc) == FlagsAt(b.outNew, loc)
  }

  // ----- Lockstep

  /** How a client uses its locations: stores pass IN on to OUT, loads pass it to one top-level
      pointer each, all others only pass it on along edges. */
  datatype Roles = Roles(stores: set<Loc>, loads: map<Loc, Var>)

  ghost predicate ValidRoles(roles: Roles) {
    roles.stores !! roles.loads.Keys
  }

  /** An edge along which an OUT set is pushed. */
  datatype Link = Link(srcLoc: Loc, srcVar: Var, dstLoc: Loc, dstVar: Var)

  ghost predicate Pushed(s: Tables, link: Link) {
    Read(s, Out(link.srcLoc, link.srcVar)) <= Read(s, In(link.dstLoc, link.dstVar))
  }

  /** What a step may do when links are the edges in use: an IN flag is consumed only by the step that
      passes that very set on, and OUT flags of a location are cleared only after a push along every
      edge leaving it. A new edge starts with the step that ignores flags. */
  ghost predicate Legal(roles: Roles, links: set<Link>, s: Tables, op: Op) {
    match op
    case Move(Always, _, dst) => !dst.Given?
    case Move(Flagged, In(l, _), In(_, _)) => l !in roles.stores && l !in roles.loads
    case Move(Flagged, Out(l, v), In(l', v')) => Link(l, v, l', v') in links
    case Move(Consuming, In(l, v), Out(l', v')) => l in roles.stores && l' == l && v' == v
    case Move(Consuming, In(l, _), Top(v)) => l in roles.loads && roles.loads[l] == v
    case Move(_, _, _) => false
    case AllOutFromIn(l, _, _) => l in roles.stores
    case ClearOut(l) => forall link <- links :: link.srcLoc == l ==> Pushed(s, link)
  }

  function LinksAfter(links: set<Link>, op: Op): set<Link> {
    match op
    case Move(Always, Out(l, v), In(l', v')) => links + {Link(l, v, l', v')}
    case _ => links
  }

  /** What an unflagged IN set at a location is already covered by. */
  ghost predicate InCovered(roles: Roles, s: Tables, loc: Loc, v: Var) {
    if loc in roles.stores then Read(s, In(loc, v)) <= Read(s, Out(loc, v))
    else if loc in roles.loads then Read(s, In(loc, v)) <= Read(s, Top(roles.loads[loc]))
    else Read(s, In(loc, v)) == {}
  }

  ghost predicate InAccounted(roles: Roles, s: Inc, loc: Loc, v: Var) {
    IsFlagged(s, In(loc, v)) || InCovered(roles, s.t, loc, v)
  }

  ghost predicate LinkAccounted(s: Inc, link: Link) {
    IsFlagged(s, Out(link.srcLoc, link.srcVar)) || Pushed(s.t, link)
  }

  /** The tables hold the same sets, and every set whose flag is down has been passed on. */
  ghost predicate Lockstep(roles: Roles, links: set<Link>, p: Tables, s: Inc) {
    && Same(p, s.t)
    && (forall loc, v :: InAccounted(roles, s, loc, v))
    && (forall link <- links :: LinkAccounted(s, link))
  }

  lemma JoinReads(s: Tables, slot: Slot, data: set<Var>, other: Slot)
    ensures Read(Join(s, slot, data), other)
        == if other == slot && !slot.Given? then Read(s, other) + data else Read(s, other)
  {
  }

  lemma JoinOutReads(s: Tables, loc: Loc, vars: set<Var>, other: Slot)
    ensures Read(JoinOut(s, loc, vars), other)
         == if other.Out? && other.loc == loc && other.v in vars then Read(s, other) + Read(s, In(loc, other.v))
            else Read(s, other)
  {
  }

  /** What a move does to any slot and to any flag. */
  lemma MoveEffect(s: Inc, guard: Guard, src: Slot, dst: Slot, slot: Slot)
    ensures var s' := IncStep(s, Move(guard, src, dst));
            if !Enabled(s, guard, src) then s' == s
            else
              && Read(s'.t, slot)
                  == (if slot == dst && !dst.Given? then Read(s.t, slot) + Read(s.t, src) else Read(s.t, slot))
              && (IsFlagged(s', slot) <==> (
                  ((slot.In? || slot.Out?) && slot == dst && !(Read(s.t, src) <= Read(s.t, dst)))
                  || (IsFlagged(s, slot) && !(guard == Consuming && src == slot && src.In?))))
  {
    JoinReads(s.t, dst, Read(s.t, src), slot);
  }

  /** A skipped step changes nothing in the plain tables either. */
  lemma DisabledIsIdle(roles: Roles, links: set<Link>, p: Tables, s: Inc, guard: Guard, src: Slot, dst: Slot)
    requires ValidRoles(roles) && Lockstep(roles, links, p, s) && Legal(roles, links, p, Move(guard, src, dst))
    requires !Enabled(s, guard, src)
    ensures Read(p, src) <= Read(p, dst)
  {
    hide Read;
    if src.Out? {
      assert LinkAccounted(s, Link(src.loc, src.v, dst.loc, dst.v));
    } else {
      assert InAccounted(roles, s, src.loc, src.v);
    }
  }

  lemma MoveStaysSame(roles: Roles, links: set<Link>, p: Tables, s: Inc, guard: Guard, src: Slot, dst: Slot)
    requires ValidRoles(roles) && Lockstep(roles, links, p, s) && Legal(roles, links, p, Move(guard, src, dst))
    ensures Same(Plain(p, Move(guard, src, dst)), IncStep(s, Move(guard, src, dst)).t)
    ensures PlainGrows(p, Move(guard, src, dst)) <==> IncGrows(s, Move(guard, src, dst))
  {
    hide Read, Join;
    var op := Move(guard, src, dst);
    if !Enabled(s, guard, src) {
      DisabledIsIdle(roles, links, p, s, guard, src, dst);
    }
    forall slot ensures Read(Plain(p, op), slot) == Read(IncStep(s, op).t, slot) {
      JoinReads(p, dst, Read(p, src), slot);
      MoveEffect(s, guard, src, dst, slot);
    }
  }

  lemma MoveKeepsIn(roles: Roles, links: set<Link>, p: Tables, s: Inc, guard: Guard, src: Slot, dst: Slot, loc: Loc,
      v: Var)
    requires ValidRoles(roles) && Lockstep(roles, links, p, s) && Legal(roles, links, p, Move(guard, src, dst))
    ensures InAccounted(roles, IncStep(s, Move(guard, src, dst)), loc, v)
  {
    hide Read, IncStep, IsFlagged;
    assert InAccounted(roles, s, loc, v);
    MoveEffect(s, guard, src, dst, In(loc, v));
    MoveEffect(s, guard, src, dst, Out(loc, v));
    if loc in roles.loads {
      MoveEffect(s, guard, src, dst, Top(roles.loads[loc]));
    }
  }

  lemma MoveKeepsLink(roles: Roles, links: set<Link>, p: Tables, s: Inc, guard: Guard, src: Slot, dst: Slot, link: Link)
    requires ValidRoles(roles) && Lockstep(roles, links, p, s) && Legal(roles, links, p, Move(guard, src, dst))
    requires link in LinksAfter(links, Move(guard, src, dst))
    ensures LinkAccounted(IncStep(s, Move(guard, src, dst)), link)
  {
    hide Read, IncStep, IsFlagged;
    assert link in links ==> LinkAccounted(s, link);
    MoveEffect(s, guard, src, dst, Out(link.srcLoc, link.srcVar));
    MoveEffect(s, guard, src, dst, In(link.dstLoc, link.dstVar));
  }

  /** What passing on all flagged IN sets of a location does to any slot and to any flag. */
  lemma AllOutEffect(s: Inc, op: Op, slot: Slot)
    requires op.AllOutFromIn?
    ensures var s', vars := IncStep(s, op), FlagsAt(s.inNew, op.loc) - Skipped(op);
            && Read(s'.t, slot) == (if slot.Out? && slot.loc == op.loc && slot.v in vars
                                    then Read(s.t, slot) + Read(s.t, In(op.loc, slot.v)) else Read(s.t, slot))
            && (slot.In? ==> (IsFlagged(s', slot) <==> IsFlagged(s, slot) && !(slot.loc == op.loc && slot.v in vars)))
            && (slot.Out? ==> (IsFlagged(s', slot)
                <==> IsFlagged(s, slot) || (slot.loc == op.loc && slot.v in vars && NewOut(s.t, op.loc, slot.v))))
  {
    JoinOutReads(s.t, op.loc, FlagsAt(s.inNew, op.loc) - Skipped(op), slot);
  }

  /** A variable with something new at a store location is flagged, and its IN set has an entry. */
  lemma NewIsFlagged(roles: Roles, links: set<Link>, p: Tables, s: Inc, loc: Loc, v: Var)
    requires Lockstep(roles, links, p, s) && loc in roles.stores
    ensures NewOut(p, loc, v) <==> NewOut(s.t, loc, v)
    ensures NewOut(p, loc, v) ==> v in FlagsAt(s.inNew, loc) && v in RowAt(p.dfIn, loc)
  {
    assert InAccounted(roles, s, loc, v);
    assert Read(p, In(loc, v)) == Read(s.t, In(loc, v)) && Read(p, Out(loc, v)) == Read(s.t, Out(loc, v));
  }

  lemma AllOutStaysSame(roles: Roles, links: set<Link>, p: Tables, s: Inc, op: Op)
    requires ValidRoles(roles) && Lockstep(roles, links, p, s) && Legal(roles, links, p, op) && op.AllOutFromIn?
    ensures Same(Plain(p, op), IncStep(s, op).t)
    ensures PlainGrows(p, op) <==> IncGrows(s, op)
  {
    hide Read, Lockstep, JoinOut, IncStep;
    var all := RowAt(p.dfIn, op.loc).Keys - Skipped(op);
    LockstepIsSame(roles, links, p, s);
    forall v ensures NewOut(p, op.loc, v) == NewOut(s.t, op.loc, v)
             ensures NewOut(p, op.loc, v) ==> v in FlagsAt(s.inNew, op.loc) && v in RowAt(p.dfIn, op.loc) {
      NewIsFlagged(roles, links, p, s, op.loc, v);
    }
    forall slot ensures Read(Plain(p, op), slot) == Read(IncStep(s, op).t, slot) {
      JoinOutReads(p, op.loc, all, slot);
      AllOutEffect(s, op, slot);
      if slot.Out? && slot.loc == op.loc {
        assert NewOut(p, op.loc, slot.v) == NewOut(s.t, op.loc, slot.v);
        assert Read(p, In(op.loc, slot.v)) == Read(s.t, In(op.loc, slot.v));
      }
    }
  }

  lemma LockstepIsSame(roles: Roles, links: set<Link>, p: Tables, s: Inc)
    requires Lockstep(roles, links, p, s)
    ensures Same(p, s.t)
  {
  }

  lemma AllOutKeepsIn(roles: Roles, links: set<Link>, p: Tables, s: Inc, op: Op, loc: Loc, v: Var)
    requires ValidRoles(roles) && Lockstep(roles, links, p, s) && Legal(roles, links, p, op) && op.AllOutFromIn?
    ensures InAccounted(roles, IncStep(s, op), loc, v)
  {
    hide Read, IncStep;
    assert InAccounted(roles, s, loc, v);
    AllOutEffect(s, op, In(loc, v));
    AllOutEffect(s, op, Out(loc, v));
    if loc in roles.loads {
      AllOutEffect(s, op, Top(roles.loads[loc]));
    }
  }

  lemma AllOutKeepsLink(roles: Roles, links: set<Link>, p: Tables, s: Inc, op: Op, link: Link)
    requires Lockstep(roles, links, p, s) && op.AllOutFromIn? && link in links
    ensures LinkAccounted(IncStep(s, op), link)
  {
    hide Read, IncStep;
    assert LinkAccounted(s, link);
    AllOutEffect(s, op, Out(link.srcLoc, link.srcVar));
    AllOutEffect(s, op, In(link.dstLoc, link.dstVar));
  }

  /** One legal step of both versions keeps them in lockstep and returns the same flag. */
  lemma StepKeepsLockstep(roles: Roles, links: set<Link>, p: Tables, s: Inc, op: Op)
    requires ValidRoles(roles) && Lockstep(roles, links, p, s) && Legal(roles, links, p, op)
    ensures Lockstep(roles, LinksAfter(links, op), Plain(p, op), IncStep(s, op))
    ensures PlainGrows(p, op) <==> IncGrows(s, op)
  {
    hide Read, Plain, PlainGrows, IncGrows, Legal, InAccounted, LinkAccounted, Same;
    var s' := IncStep(s, op);
    match op
    case Move(guard, src, dst) =>
      MoveStaysSame(roles, links, p, s, guard, src, dst);
      forall loc, v ensures InAccounted(roles, s', loc, v) {
        MoveKeepsIn(roles, links, p, s, guard, src, dst, loc, v);
      }
      forall link <- LinksAfter(links, op) ensures LinkAccounted(s', link) {
        MoveKeepsLink(roles, links, p, s, guard, src, dst, link);
      }
    case AllOutFromIn(_, _, _) =>
      AllOutStaysSame(roles, links, p, s, op);
      forall loc, v ensures InAccounted(roles, s', loc, v) {
        AllOutKeepsIn(roles, links, p, s, op, loc, v);
      }
      forall link <- links ensures LinkAccounted(s', link) {
        AllOutKeepsLink(roles, links, p, s, op, link);
      }
    case ClearOut(_) =>
      ClearKeepsLockstep(roles, links, p, s, op);
  }

  lemma ClearKeepsLockstep(roles: Roles, links: set<Link>, p: Tables, s: Inc, op: Op)
    requires Lockstep(roles, links, p, s) && Legal(roles, links, p, op) && op.ClearOut?
    ensures Lockstep(roles, links, Plain(p, op), IncStep(s, op)) && !PlainGrows(p, op) && !IncGrows(s, op)
  {
    hide Read;
    var s' := IncStep(s, op);
    forall loc, v ensures InAccounted(roles, s', loc, v) {
      assert InAccounted(roles, s, loc, v);
    }
    forall link <- links ensures LinkAccounted(s', link) {
      assert LinkAccounted(s, link);
      assert link.srcLoc == op.loc ==> Pushed(p, link);
    }
  }

  /** Lockstep only depends on what the tables and flags hold, not on which entries exist. */
  lemma LockstepOfContents(roles: Roles, links: set<Link>, p: Tables, s: Inc, p': Tables, s': Inc)
    requires Lockstep(roles, links, p, s) && Same(p', p) && SameInc(s', s)
    ensures Lockstep(roles, links, p', s')
  {
    hide Read;
    forall loc, v ensures InAccounted(roles, s', loc, v) {
      assert InAccounted(roles, s, loc, v);
    }
    forall link <- links ensures LinkAccounted(s', link) {
      assert LinkAccounted(s, link);
    }
  }

  /** Two objects that both perform a legal step stay in lockstep and give the same answer. */
  lemma ObjectsStayInLockstep(roles: Roles, links: set<Link>, p: Tables, s: Inc, op: Op, p': Tables, s': Inc)
    requires ValidRoles(roles) && Lockstep(roles, links, p, s) && Legal(roles, links, p, op)
    requires Same(p', Plain(p, op)) && SameInc(s', IncStep(s, op))
    ensures Lockstep(roles, LinksAfter(links, op), p', s')
    ensures PlainGrows(p, op) <==> IncGrows(s, op)
  {
    StepKeepsLockstep(roles, links, p, s, op);
    LockstepOfContents(roles, LinksAfter(links, op), Plain(p, op), IncStep(s, op), p', s');
  }

  // ----- Runs

  function PlainRun(s: Tables, run: seq<Op>): Tables
    decreases |run|
  {
    if run == [] then s else PlainRun(Plain(s, run[0]), run[1..])
  }

  function IncRun(s: Inc, run: seq<Op>): Inc
    decreases |run|
  {
    if run == [] then s else IncRun(IncStep(s, run[0]), run[1..])
  }

  /** Every step of the run returns the same flag in both versions. */
  ghost predicate SameAnswers(p: Tables, s: Inc, run: seq<Op>)
    decreases |run|
  {
    run != [] ==>
      && (PlainGrows(p, run[0]) <==> IncGrows(s, run[0]))
      && SameAnswers(Plain(p, run[0]), IncStep(s, run[0]), run[1..])
  }

  /** Every step is legal in the plain state and for the links it finds. */
  ghost predicate LegalRun(roles: Roles, links: set<Link>, p: Tables, run: seq<Op>)
    decreases |run|
  {
    run != [] ==>
      && Legal(roles, links, p, run[0])
      && LegalRun(roles, LinksAfter(links, run[0]), Plain(p, run[0]), run[1..])
  }

  function LinksAfterRun(links: set<Link>, run: seq<Op>): set<Link>
    decreases |run|
  {
    if run == [] then links else LinksAfterRun(LinksAfter(links, run[0]), run[1..])
  }

  lemma {:induction false} RunKeepsLockstep(roles: Roles, links: set<Link>, p: Tables, s: Inc, run: seq<Op>)
    requires ValidRoles(roles) && Lockstep(roles, links, p, s) && LegalRun(roles, links, p, run)
    ensures Lockstep(roles, LinksAfterRun(links, run), PlainRun(p, run), IncRun(s, run))
    ensures SameAnswers(p, s, run)
    decreases |run|
  {
    hide Lockstep, Legal, Plain, IncStep, PlainGrows, IncGrows;
    if run != [] {
      StepKeepsLockstep(roles, links, p, s, run[0]);
      RunKeepsLockstep(roles, LinksAfter(links, run[0]), Plain(p, run[0]), IncStep(s, run[0]), run[1..]);
    }
  }

  const EMPTY: Tables := Tables(map[], map[], map[])

  /** Any legal run from empty tables, over any set of edges: the same IN, OUT and top-level sets and
      the same answers. */
  lemma LegalRunsAgree(roles: Roles, links: set<Link>, run: seq<Op>)
    requires ValidRoles(roles) && LegalRun(roles, links, EMPTY, run)
    ensures Same(PlainRun(EMPTY, run), IncRun(Inc(EMPTY, map[], map[]), run).t)
    ensures SameAnswers(EMPTY, Inc(EMPTY, map[], map[]), run)
  {
    var s := Inc(EMPTY, map[], map[]);
    assert Lockstep(roles, links, EMPTY, s);
    RunKeepsLockstep(roles, links, EMPTY, s, run);
  }

  /** For one move from equal tables the discipline is exact: the versions agree on the tables exactly
      when the move is let through or has nothing to add. */
  lemma MoveAgreesExactly(p: Tables, s: Inc, guard: Guard, src: Slot, dst: Slot)
    requires Same(p, s.t) && !dst.Given?
    ensures Same(Plain(p, Move(guard, src, dst)), IncStep(s, Move(guard, src, dst)).t)
       <==> (Enabled(s, guard, src) || Read(p, src) <= Read(p, dst))
    ensures (PlainGrows(p, Move(guard, src, dst)) <==> IncGrows(s, Move(guard, src, dst)))
       <==> (Enabled(s, guard, src) || Read(p, src) <= Read(p, dst))
  {
    hide Read, Join;
    var op := Move(guard, src, dst);
    forall slot ensures Enabled(s, guard, src) ==> Read(Plain(p, op), slot) == Read(IncStep(s, op).t, slot) {
      JoinReads(p, dst, Read(p, src), slot);
      MoveEffect(s, guard, src, dst, slot);
    }
    JoinReads(p, dst, Read(p, src), dst);
    if Read(p, src) <= Read(p, dst) {
      forall slot ensures Read(Plain(p, op), slot) == Read(p, slot) {
        JoinReads(p, dst, Read(p, src), slot);
      }
    } else if !Enabled(s, guard, src) {
      assert Read(Plain(p, op), dst) != Read(IncStep(s, op).t, dst);
    }
  }

  /** The flags hold back nothing that the step would add: what a caller can check before the step. */
  ghost predicate NothingHeldBack(s: Inc, op: Op) {
    match op
    case Move(guard, src, dst) => dst.Given? || Enabled(s, guard, src) || Read(s.t, src) <= Read(s.t, dst)
    case AllOutFromIn(loc, _, _) => forall v :: NewOut(s.t, loc, v) && v !in Skipped(op) ==> IsFlagged(s, In(loc, v))
    case ClearOut(_) => true
  }

  lemma AllOutAgreesExactly(p: Tables, s: Inc, op: Op)
    requires Same(p, s.t) && op.AllOutFromIn?
    ensures Same(Plain(p, op), IncStep(s, op).t) <==> NothingHeldBack(s, op)
    ensures NothingHeldBack(s, op) ==> (PlainGrows(p, op) <==> IncGrows(s, op))
  {
    hide Read, JoinOut, IncStep;
    var all := RowAt(p.dfIn, op.loc).Keys - Skipped(op);
    forall v ensures NewOut(p, op.loc, v) == NewOut(s.t, op.loc, v)
             ensures NewOut(p, op.loc, v) ==> v in RowAt(p.dfIn, op.loc) {
      NewHasEntry(p, s, op.loc, v);
    }
    forall slot
      ensures Read(Plain(p, op), slot) == Read(IncStep(s, op).t, slot)
         <==> !(slot.Out? && slot.loc == op.loc && NewOut(s.t, op.loc, slot.v) && slot.v !in Skipped(op)
                && slot.v !in FlagsAt(s.inNew, op.loc))
    {
      JoinOutReads(p, op.loc, all, slot);
      AllOutEffect(s, op, slot);
      if slot.Out? && slot.loc == op.loc {
        assert NewOut(p, op.loc, slot.v) == NewOut(s.t, op.loc, slot.v);
        assert Read(p, In(op.loc, slot.v)) == Read(s.t, In(op.loc, slot.v));
      }
    }
    if v :| NewOut(s.t, op.loc, v) && v !in Skipped(op) && !IsFlagged(s, In(op.loc, v)) {
      assert Read(Plain(p, op), Out(op.loc, v)) != Read(IncStep(s, op).t, Out(op.loc, v));
    }
  }

  lemma NewHasEntry(p: Tables, s: Inc, loc: Loc, v: Var)
    requires Same(p, s.t)
    ensures NewOut(p, loc, v) == NewOut(s.t, loc, v)
    ensures NewOut(p, loc, v) ==> v in RowAt(p.dfIn, loc)
  {
    assert Read(p, In(loc, v)) == Read(s.t, In(loc, v)) && Read(p, Out(loc, v)) == Read(s.t, Out(loc, v));
  }

  lemma StepAgreesExactly(p: Tables, s: Inc, op: Op)
    requires Same(p, s.t)
    ensures Same(Plain(p, op), IncStep(s, op).t) <==> NothingHeldBack(s, op)
    ensures NothingHeldBack(s, op) && !(op.Move? && op.dst.Given?) ==> (PlainGrows(p, op) <==> IncGrows(s, op))
  {
    match op
    case Move(guard, src, dst) =>
      assert Read(p, src) == Read(s.t, src) && Read(p, dst) == Read(s.t, dst);
      if dst.Given? {
        assert Plain(p, op) == p && Same(IncStep(s, op).t, s.t);
      } else {
        MoveAgreesExactly(p, s, guard, src, dst);
      }
    case AllOutFromIn(_, _, _) => AllOutAgreesExactly(p, s, op);
    case ClearOut(_) =>
  }

  /** Both versions hold the same sets after every step of the run. */
  ghost predicate SameThroughout(p: Tables, s: Inc, run: seq<Op>)
    decreases |run|
  {
    run != [] ==>
      var p', s' := Plain(p, run[0]), IncStep(s, run[0]);
      Same(p', s'.t) && SameThroughout(p', s', run[1..])
  }

  ghost predicate NeverHeldBack(s: Inc, run: seq<Op>)
    decreases |run|
  {
    run != [] ==> NothingHeldBack(s, run[0]) && NeverHeldBack(IncStep(s, run[0]), run[1..])
  }

  /** Over any run at all, legal or not, from equal tables: the versions hold the same sets after every
      step if and only if no flag ever holds back anything a step would add. They then give the same
      answers, too. */
  lemma {:induction false} RunAgreesExactly(p: Tables, s: Inc, run: seq<Op>)
    requires Same(p, s.t) && forall op <- run :: op.Move? ==> !op.dst.Given?
    ensures SameThroughout(p, s, run) <==> NeverHeldBack(s, run)
    ensures NeverHeldBack(s, run) ==> SameAnswers(p, s, run)
    decreases |run|
  {
    hide Plain, IncStep, PlainGrows, IncGrows, NothingHeldBack, Same;
    if run != [] {
      StepAgreesExactly(p, s, run[0]);
      if NothingHeldBack(s, run[0]) {
        RunAgreesExactly(Plain(p, run[0]), IncStep(s, run[0]), run[1..]);
      }
    }
  }

  /** Outside the discipline the versions part: passing IN to the OUT set of another variable first
      uses up the flag, and the incremental version then never passes it to its own. */
  lemma CrossVariableUseDiverges() returns (run: seq<Op>)
    ensures !Same(PlainRun(EMPTY, run), IncRun(Inc(EMPTY, map[], map[]), run).t)
  {
    var ops := [Move(Always, Given({7}), Top(9)), FromTopLevel(9, 0, 1), AllInFromOut(0, 1, 1, 1),
                OutFromIn(1, 1, 1, 2), OutFromIn(1, 1, 1, 1)];
    var s := Inc(EMPTY, map[], map[]);
    var p1, s1 := Plain(EMPTY, ops[0]), IncStep(s, ops[0]);
    var p2, s2 := Plain(p1, ops[1]), IncStep(s1, ops[1]);
    var p3, s3 := Plain(p2, ops[2]), IncStep(s2, ops[2]);
    assert Read(s3.t, In(1, 1)) == Read(p3, In(1, 1)) == {7} && Read(p3, Out(1, 1)) == Read(s3.t, Out(1, 1)) == {};
    var p4, s4 := Plain(p3, ops[3]), IncStep(s3, ops[3]);
    assert Read(p4, In(1, 1)) == {7} && !IsFlagged(s4, In(1, 1)) && Read(s4.t, Out(1, 1)) == {};
    var p5, s5 := Plain(p4, ops[4]), IncStep(s4, ops[4]);
    assert 7 in Read(p5, Out(1, 1)) && s5 == s4;
    run := ops;
    RunOfFive(EMPTY, s, run, p5, s5);
  }

  lemma RunOfFive(p: Tables, s: Inc, run: seq<Op>, p5: Tables, s5: Inc)
    requires |run| == 5
    requires p5 == Plain(Plain(Plain(Plain(Plain(p, run[0]), run[1]), run[2]), run[3]), run[4])
    requires s5 == IncStep(IncStep(IncStep(IncStep(IncStep(s, run[0]), run[1]), run[2]), run[3]), run[4])
    ensures PlainRun(p, run) == p5 && IncRun(s, run) == s5
  {
    hide Plain, IncStep;
    assert run[1..][1..] == run[2..] && run[2..][1..] == run[3..] && run[3..][1..] == run[4..] && run[4..][1..] == [];
    var p1, s1 := Plain(p, run[0]), IncStep(s, run[0]);
    var p2, s2 := Plain(p1, run[1]), IncStep(s1, run[1]);
    var p3, s3 := Plain(p2, run[2]), IncStep(s2, run[2]);
    var p4, s4 := Plain(p3, run[3]), IncStep(s3, run[3]);
    assert PlainRun(p, run) == PlainRun(p1, run[1..]) == PlainRun(p2, run[2..]) == PlainRun(p3, run[3..])
        == PlainRun(p4, run[4..]);
    assert run[4..][0] == run[4] && PlainRun(p4, run[4..]) == PlainRun(p5, [])
        && IncRun(s4, run[4..]) == IncRun(s5, []);
    assert IncRun(s, run) == IncRun(s1, run[1..]) == IncRun(s2, run[2..]) == IncRun(s3, run[3..])
        == IncRun(s4, run[4..]);
  }

  // ----- Clearing OUT flags after a push along every edge

  function Pushes(order: seq<Link>): seq<Op> {
    seq(|order|, i requires 0 <= i < |order| =>
      InFromOut(order[i].srcLoc, order[i].srcVar, order[i].dstLoc, order[i].dstVar))
  }

  lemma {:induction false} PushesKeepPushed(s: Tables, order: seq<Link>, link: Link)
    requires Pushed(s, link)
    ensures Pushed(PlainRun(s, Pushes(order)), link)
    decreases |order|
  {
    hide Read, Join;
    if order != [] {
      var t, op := order[0], Pushes(order)[0];
      JoinReads(s, op.dst, Read(s, op.src), Out(link.srcLoc, link.srcVar));
      JoinReads(s, op.dst, Read(s, op.src), In(link.dstLoc, link.dstVar));
      assert Pushes(order)[1..] == Pushes(order[1..]);
      PushesKeepPushed(Plain(s, op), order[1..], link);
    }
  }

  lemma {:induction false} PushesPush(s: Tables, order: seq<Link>, link: Link)
    requires link in order
    ensures Pushed(PlainRun(s, Pushes(order)), link)
    decreases |order|
  {
    hide Read, Join;
    var op := Pushes(order)[0];
    assert Pushes(order)[1..] == Pushes(order[1..]);
    if link == order[0] {
      JoinReads(s, op.dst, Read(s, op.src), Out(link.srcLoc, link.srcVar));
      JoinReads(s, op.dst, Read(s, op.src), In(link.dstLoc, link.dstVar));
      PushesKeepPushed(Plain(s, op), order[1..], link);
    } else {
      PushesPush(Plain(s, op), order[1..], link);
    }
  }

  /** A push along every edge leaving a location, in any order, makes clearing its flags legal. */
  lemma ClearAfterPushesIsLegal(roles: Roles, links: set<Link>, s: Tables, order: seq<Link>, loc: Loc)
    requires forall link <- links :: link.srcLoc == loc ==> link in order
    ensures Legal(roles, links, PlainRun(s, Pushes(order)), ClearOut(loc))
  {
    forall link <- links | link.srcLoc == loc ensures Pushed(PlainRun(s, Pushes(order)), link) {
      PushesPush(s, order, link);
    }
  }

  // ----- The visit of a store by the analysis

  function Writes(loc: Loc, values: seq<(Var, Var)>): seq<Op> {
    seq(|values|, i requires 0 <= i < |values| => FromTopLevel(values[i].0, loc, values[i].1))
  }

  /** A store writes the stored pointer's set to its targets, passes on its IN sets, pushes its OUT sets along
      all its edges and lowers its OUT flags. */
  function StoreVisit(loc: Loc, values: seq<(Var, Var)>, singleton: Var, strong: bool, order: seq<Link>): seq<Op> {
    Writes(loc, values) + [AllOutFromIn(loc, singleton, strong)] + Pushes(order) + [ClearOut(loc)]
  }

  lemma {:induction false} RunOfParts(roles: Roles, links: set<Link>, p: Tables, a: seq<Op>, b: seq<Op>)
    ensures PlainRun(p, a + b) == PlainRun(PlainRun(p, a), b)
    ensures LinksAfterRun(links, a + b) == LinksAfterRun(LinksAfterRun(links, a), b)
    ensures LegalRun(roles, links, p, a) && LegalRun(roles, LinksAfterRun(links, a), PlainRun(p, a), b) ==>
              LegalRun(roles, links, p, a + b)
    decreases |a|
  {
    hide Plain, Legal, LinksAfter;
    if a == [] {
      assert a + b == b;
    } else {
      assert (a + b)[0] == a[0] && (a + b)[1..] == a[1..] + b;
      RunOfParts(roles, LinksAfter(links, a[0]), Plain(p, a[0]), a[1..], b);
    }
  }

  lemma {:induction false} WritesAreLegal(roles: Roles, links: set<Link>, p: Tables, loc: Loc, values: seq<(Var, Var)>)
    ensures LegalRun(roles, links, p, Writes(loc, values)) && LinksAfterRun(links, Writes(loc, values)) == links
    decreases |values|
  {
    hide Plain;
    if values != [] {
      assert Writes(loc, values)[1..] == Writes(loc, values[1..]);
      WritesAreLegal(roles, links, Plain(p, Writes(loc, values)[0]), loc, values[1..]);
    }
  }

  lemma {:induction false} PushesAreLegal(roles: Roles, links: set<Link>, p: Tables, order: seq<Link>)
    requires forall link <- order :: link in links
    ensures LegalRun(roles, links, p, Pushes(order)) && LinksAfterRun(links, Pushes(order)) == links
    decreases |order|
  {
    hide Plain;
    if order != [] {
      assert Pushes(order)[1..] == Pushes(order[1..]);
      PushesAreLegal(roles, links, Plain(p, Pushes(order)[0]), order[1..]);
    }
  }

  /** A visit of a store keeps the discipline, whatever the tables hold. */
  lemma StoreVisitIsLegal(roles: Roles, links: set<Link>, p: Tables, loc: Loc, values: seq<(Var, Var)>,
                          singleton: Var, strong: bool, order: seq<Link>)
    requires loc in roles.stores && forall link <- order :: link in links
    requires forall link <- links :: link.srcLoc == loc ==> link in order
    ensures LegalRun(roles, links, p, StoreVisit(loc, values, singleton, strong, order))
    ensures LinksAfterRun(links, StoreVisit(loc, values, singleton, strong, order)) == links
  {
    hide Plain, Legal;
    var writes, pass, pushes := Writes(loc, values), [AllOutFromIn(loc, singleton, strong)], Pushes(order);
    WritesAreLegal(roles, links, p, loc, values);
    var p1 := PlainRun(p, writes);
    OneIsLegal(roles, links, p1, pass[0]);
    RunOfParts(roles, links, p, writes, pass);
    var p2 := PlainRun(p, writes + pass);
    PushesAreLegal(roles, links, p2, order);
    RunOfParts(roles, links, p, writes + pass, pushes);
    ClearAfterPushesIsLegal(roles, links, p2, order, loc);
    OneIsLegal(roles, links, PlainRun(p2, pushes), ClearOut(loc));
    RunOfParts(roles, links, p, writes + pass + pushes, [ClearOut(loc)]);
  }

  lemma OneIsLegal(roles: Roles, links: set<Link>, p: Tables, op: Op)
    requires (op.AllOutFromIn? && op.loc in roles.stores) || (op.ClearOut? && Legal(roles, links, p, op))
    ensures LegalRun(roles, links, p, [op]) && LinksAfterRun(links, [op]) == links
  {
    assert [op][1..] == [];
  }

  /** Lowering OUT flags needs no pushes if none are up, as after a visit that changed nothing. */
  lemma NothingToPush(roles: Roles, links: set<Link>, p: Tables, s: Inc, loc: Loc)
    requires Lockstep(roles, links, p, s) && FlagsAt(s.outNew, loc) == {}
    ensures Legal(roles, links, p, ClearOut(loc))
  {
    forall link <- links | link.srcLoc == loc ensures Pushed(p, link) {
      assert LinkAccounted(s, link);
    }
  }
}
