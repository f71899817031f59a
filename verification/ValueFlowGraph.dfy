/** The sparse value-flow graph the demand-driven solver walks, and the flow-sensitive
    points-to equations its statements stand for. */
module ValueFlowGraph {
  import opened EquationSystems

  /** Statement kinds. Copy stands for copies, phis, parameters, returns and null pointers,
      MemRegion for every memory-region node. */
  datatype Stmt =
    | Addr(obj: Id)
    | Copy
    | Gep
    | Load(ptr: Id)
    | Store(dst: Id, src: Id)
    | MemRegion
  {
    /** Mirrors isTopLevelPtrStmt. */
    predicate TopLevel() {
      !Store? && !MemRegion?
    }
  }

  /** Where an edge comes from. Edges between the same two nodes are told apart by it: passing one
      argument at five call sites makes five parallel edges. */
  datatype EdgeKind = Intra | Call(site: nat) | Ret(site: nat) | ThreadMHP

  datatype Edge =
    | Direct(src: Node, dst: Node, kind: EdgeKind)
    | Indirect(src: Node, dst: Node, kind: EdgeKind, guard: set<Id>)

  function Gather(c: Assignment, sources: set<Item>): set<Id> {
    set s, x | s in sources && x in Pts(c, s) :: x
  }

  /** - lhs: the top-level pointer a top-level statement defines, def: its inverse
      - constants: constant or non-pointer objects, never traced through memory
      - fiObj: the field-insensitive representative of objects that have one
      - fields: what a Gep node makes of one object, keyed by (node, object)
      - singletons: (store, object) pairs that allow a strong update */
  datatype Graph = Graph(
    stmts: map<Node, Stmt>,
    edges: set<Edge>,
    lhs: map<Node, Id>,
    def: map<Id, Node>,
    objs: set<Id>,
    constants: set<Id>,
    fiObj: map<Id, Id>,
    fields: map<Item, set<Id>>,
    singletons: set<Item>)
  {
    /** What the graph builder guarantees of any graph: direct edges leave top-level definitions,
        indirect edges leave memory definitions, and loads and stores have a direct edge from the
        definitions of their operands. */
    ghost predicate WellFormed() {
      && (forall e <- edges :: e.src in stmts && e.dst in stmts && (e.Direct? <==> e.src in lhs))
      && (forall n :: n in lhs <==> n in stmts && stmts[n].TopLevel())
      && (forall v <- def :: def[v] in lhs && lhs[def[v]] == v)
      && (forall n <- stmts :: ValidStmt(n))
      && (forall k <- fields :: fields[k] <= objs)
    }

    /** What the optimised graph gives in addition: every top-level pointer has one defining node. */
    ghost predicate SingleDefinitions() {
      forall n <- lhs :: lhs[n] in def && def[lhs[n]] == n
    }

    ghost predicate Valid() {
      WellFormed() && SingleDefinitions()
    }

    ghost predicate ValidStmt(n: Node)
      requires n in stmts
    {
      match stmts[n]
      case Addr(o) => Target(o) in objs
      case Load(p) => HasOperand(n, p)
      case Store(p, v) => HasOperand(n, p) && HasOperand(n, v)
      case _ => true
    }

    ghost predicate HasOperand(n: Node, v: Id) {
      v in def && Direct(def[v], n, Intra) in edges
    }

    /** The object an address node contributes. */
    function Target(o: Id): Id {
      if o in fiObj then fiObj[o] else o
    }

    function DefItem(v: Id): Item {
      Item(if v in def then def[v] else 0, v)
    }

    /** The items the solver can be asked about: each top-level statement for the pointer it
        defines, each memory statement for every object. */
    ghost function Items(): set<Item> {
      (set n | n in lhs :: Item(n, lhs[n]))
      + (set n, o | n in stmts && !stmts[n].TopLevel() && o in objs :: Item(n, o))
    }

    ghost function DirectSources(n: Node): set<Item> {
      set e | e in edges && e.Direct? && e.dst == n && e.src in lhs :: Item(e.src, lhs[e.src])
    }

    ghost function IndirectSources(n: Node, o: Id): set<Item> {
      if o in constants then {}
      else set e | e in edges && e.Indirect? && e.dst == n && o in e.guard :: Item(e.src, o)
    }

    ghost predicate StrongUpdate(n: Node, targets: set<Id>) {
      exists o <- targets :: targets == {o} && Item(n, o) in singletons
    }

    /** Whether a store lets the old contents of o through, given the targets of its pointer. */
    ghost predicate PassesOld(n: Node, o: Id, targets: set<Id>) {
      targets != {} && !(o in targets && StrongUpdate(n, targets))
    }

    /** The pointer operand a load or store dereferences. */
    ghost function PointerSource(n: Node): set<Item> {
      if n in stmts && stmts[n].Load? then {DefItem(stmts[n].ptr)}
      else if n in stmts && stmts[n].Store? then {DefItem(stmts[n].dst)}
      else {}
    }

    ghost function LoadedSources(n: Node, targets: set<Id>): set<Item> {
      set o, s | o in targets && s in IndirectSources(n, o) :: s
    }

    ghost function StoreSources(d: Item, value: Id, targets: set<Id>): set<Item> {
      (if d.id in targets then {DefItem(value)} else {})
      + (if PassesOld(d.node, d.id, targets) then IndirectSources(d.node, d.id) else {})
    }

    /** The items whose sets flow into d under the assignment c. */
    ghost function FlowSources(c: Assignment, d: Item): set<Item> {
      if d.node !in stmts then {} else
      match stmts[d.node]
      case Addr(_) => {}
      case Copy => DirectSources(d.node)
      case Gep => DirectSources(d.node)
      case Load(p) => LoadedSources(d.node, Pts(c, DefItem(p)))
      case Store(p, v) => StoreSources(d, v, Pts(c, DefItem(p)))
      case MemRegion => IndirectSources(d.node, d.id)
    }

    /** Every item whose set the value of d depends on. */
    ghost function Sources(c: Assignment, d: Item): set<Item> {
      PointerSource(d.node) + FlowSources(c, d)
    }

    function FieldsOf(n: Node, objects: set<Id>): set<Id> {
      set o, x | o in objects && Item(n, o) in fields && x in fields[Item(n, o)] :: x
    }

    /** The right-hand side of the points-to equation of d, given what flows into it. */
    function Transfer(n: Node, flow: set<Id>): set<Id> {
      if n !in stmts then {} else
      match stmts[n]
      case Addr(o) => {Target(o)}
      case Gep => FieldsOf(n, flow)
      case _ => flow
    }

    ghost function Eval(c: Assignment, d: Item): set<Id> {
      Transfer(d.node, Gather(c, FlowSources(c, d)))
    }

    /** The flow-sensitive points-to equations. */
    ghost function Equations(): System {
      System(Items(), objs, |edges|, (c, d) => Sources(c, d), (c, d) => Eval(c, d))
    }
  }

  lemma StatementsStayWithin(g: Graph, c: Assignment, d: Item)
    requires g.WellFormed() && d in g.Items()
    requires forall e <- g.Items() :: Pts(c, e) <= g.objs
    ensures g.Sources(c, d) <= g.Items() && g.Eval(c, d) <= g.objs
  {
    assert g.ValidStmt(d.node);
    forall s | s in g.Sources(c, d) ensures s in g.Items() {
    }
  }

  /** Agreement from below on the items b reads is enough for every statement to be monotone:
      although the strong-update test of a store can turn off as its pointer's set grows, it
      cannot turn on, so what the store lets through only grows. */
  lemma StatementsAreMonotone(g: Graph, a: Assignment, b: Assignment, d: Item)
    requires forall s <- g.Sources(b, d) :: Pts(a, s) <= Pts(b, s)
    ensures g.Sources(a, d) <= g.Sources(b, d) && g.Eval(a, d) <= g.Eval(b, d)
  {
    if d.node in g.stmts {
      match g.stmts[d.node]
      case Store(p, v) =>
        assert g.DefItem(p) in g.Sources(b, d);
      case Load(p) =>
        assert g.DefItem(p) in g.Sources(b, d);
      case _ =>
    }
  }

  lemma EquationsAreLawful(g: Graph)
    requires g.WellFormed()
    ensures Lawful(g.Equations())
  {
    var q := g.Equations();
    forall c, d ensures StaysWithin(q, c, d) {
      if d in q.items && Within(q, c) {
        StatementsStayWithin(g, c, d);
      }
    }
    forall a, b, d ensures Monotone(q, a, b, d) {
      if forall s <- q.sources(b, d) :: Pts(a, s) <= Pts(b, s) {
        StatementsAreMonotone(g, a, b, d);
      }
    }
  }
}
