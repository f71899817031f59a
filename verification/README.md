# Points-to analysis: solver, sets and tables

This project models the demand-driven points-to analysis of SVF and the data structures under it, and proves
them correct.

- **The demand-driven solver** (`EquationSystems`, `Downgrading`, `ValueFlowGraph`, `StatementLaws`, `SolverState`,
  `DDASolver`).
  Asked for the points-to set of a pointer, the solver walks the sparse value-flow graph backwards. It keeps marks
  for visited items (a node and a variable or object), caches what it finds, and whenever a cached set grows it
  takes the marks of the readers away and solves them again, including readers that are still being evaluated
  further up the call stack. Stores may overwrite (strong updates), and loads find new sources while they run. A
  query that runs out of budget falls back on the whole-program analysis and its item is recorded.
  `ValueFlowGraph` gives each statement its equation, `EquationSystems` the least solution of such equations,
  `StatementLaws` what that solution holds at each statement, said of the statements and edges alone,
  `Downgrading` the same with recorded items fixed, `SolverState` the relation between the states before and after
  a call that every method of the `Solver` class in `DDASolver` keeps. `DowngradedRun` and `SharedDefinitions` hold
  two programs on which a property one might expect fails, with the exact or a sufficient condition for it.
- **The sparse bit vector** (`BitBlocks`, `SparseBitVector`, `SparseBitIterator`). A sorted list of 128-bit blocks
  with a roving cursor, merge-style set operations in place and a bit iterator refine a plain set of 32-bit numbers.
- **The data-flow tables** (`DataFlowTables`, `DataFlowData`). The incremental tables skip work by their updated
  flags. In lockstep with the plain tables they hold the same sets and give the same answers, as long as flags are
  consumed the way the analysis does it. `DataFlowTables` has the steps and the proof, `DataFlowData` the classes
  that perform the steps in place.
- **The base and difference tables** (`PointsToData`). The reverse map mirrors the points-to map, and difference
  propagation delivers each element exactly once.

The main results:

1. The recursion of the solver terminates without a budget, and within budget every visited item is closed
   (`FindPT`, `Ask`). A number of steps computed from the graph always suffices (`StepsAreEnough`).
2. What the least solution holds at each kind of statement (`StatementLaws`), strong and weak stores included.
3. Over any run of queries every answer is the least solution with the items recorded so far fixed at what the
   whole-program analysis says (`AnswerQueries`); when that is the least solution itself (`RecordingHarmless`), and
   a program on which it is not (`RecordingSpreads`).
4. Sparse bit vectors refine sets: the operations with a roving cursor, the merges in place, the iterator
   (`Enumerate`), equality and hash values.
5. The incremental tables hold what the plain tables hold, over every run that keeps the flag discipline
   (`LegalRunsAgree`), and over an arbitrary run exactly as long as no flag holds anything back
   (`RunAgreesExactly`).
6. Difference propagation delivers every element exactly once (`DeliveredExactlyOnce`), never loses one
   (`NothingIsLost`), and hands out again exactly what an intersection calls for (`IntersectionHandsOutAgain`).

`dafny verify dfyconfig.toml` checks the whole project.

## Reading notes

- *Equations.* The least solution is defined by rounds of the equations from empty sets, independently of the
  solver. The set of items an equation reads may itself grow with the solution (targets of a load pointer).
- *Single definitions.* The flow-sensitive solver caches top-level pointers by pointer id and not by item
  (`include/DDA/FlowDDA.h:118-123`). The optimised graph, which is the one the solver is built on, gives every
  top-level pointer one defining node by turning actual parameters and formal returns into operands of phis
  (`include/MSSA/SVFGOPT.h:46-49`, `lib/MSSA/SVFGBuilder.cpp:55-74`). `Graph.Valid` assumes it. `SharedDefinitions`
  looks at graphs without it, through the re-evaluation rule alone: pending items are evaluated in any order, and
  when a cache entry grows all items it touches become pending. There growth can stay hidden, but not if the
  definitions of a pointer share their readers.
- *Whole-program analysis.* It is a map from variables and objects to sets, and all that is assumed of it is that
  it solves the flow-sensitive equations, as a flow-insensitive analysis of the same program does.
- *Recorded items* are those whose queries ran out: they stay marked across `resetQuery`, hold at least the
  whole-program set and are never evaluated again. They make later answers within budget larger than the least
  solution, so that "within budget" does not mean exact.
- *Step bound.* `EnoughSteps` is items + facts × edges × items, where a fact is a pair of an item and an object
  (`EnoughStepsFormula`). Edges
  between the same two nodes are told apart by their kind and call site, as in `include/MSSA/SVFGEdge.h:93-96`.
- *Code against comments.* `&=` is documented to return true if the vector changed
  (`include/RC/RCSparseBitVector.h:713`), but blocks without a counterpart are dropped without raising the flag;
  `IntersectionFlagExact` says when the flag is right. `find_first` is documented to return -1 if no bits are set
  (`include/RC/RCSparseBitVector.h:887`); it also does for the set {2^32 - 1}. The model follows the code.
- *Subtracting a vector from itself* erases blocks that the other walk still stands on, so the difference in place
  requires two objects. Union and intersection do not.
- *Flag discipline of the incremental tables.* IN flags of a store location are consumed only by passing IN on to
  OUT of the same location and variable, those of a load location only by passing them to its pointer, other
  locations consume none; OUT flags of a location are cleared only after a push along every edge in use. A missing
  table entry is the empty set.

## Model

| member | source | states |
|---|---|---|
| DDASolver.Solver.AnswerQueries | lib/DDA/DDAClient.cpp:47-64 | Any run of queries with one budget: each answer is the least solution with the items whose queries have run out so far fixed at the whole-program sets; it lies between the least solution and that analysis. With none run out, and so with budget `EnoughSteps`, it is the least solution. |
| DDASolver.Solver.ComputeDDAPts | lib/DDA/FlowDDA.cpp:23-46 | One query: in budget, first visits never outnumber steps, all visited items are closed or recorded, the answer is the least solution with the recorded items fixed, and all visited are exact iff the recorded ones among them are; out of budget, the answer is the whole-program set of the pointer. |
| DDASolver.Solver.UntouchedAnswerIsExact | lib/DDA/DDAClient.cpp:47-64 | An answer of a run is the least solution if the pointer depends on no recorded item, or only on recorded items for which the whole-program analysis is exact. |
| DDASolver.Solver.HandleOutOfBudgetDpm | lib/DDA/FlowDDA.cpp:52-58 | A query that has run out: its item holds exactly the whole-program set, is recorded, and stays visited; all other caches stay below the least solution with the recorded items fixed, earlier items are untouched, and the bound on steps still holds. |
| Downgrading.RecordingHarmless | lib/DDA/FlowDDA.cpp:52-58 | Exactly when recording does no harm: items that, but for recorded ones, take only from each other are all answered exactly if and only if the whole-program analysis is exact on the recorded ones among them. |
| Downgrading.DowngradedLiesBetween | lib/DDA/FlowDDA.cpp:52-58 | Whatever is recorded, the answers lie between the least solution and the whole-program analysis, and solve the original equations. |
| Downgrading.MoreRecordedMoreFound | lib/DDA/FlowDDA.cpp:52-58 | Recording more items can only add to the answers. |
| DowngradedRun.RecordingSpreads | lib/DDA/FlowDDA.cpp:52-58 | Recording is not harmless in general: in a = &o; x = &u; y = &v; *a = x; *a = y; p = *a; q = p, with strong stores, q points to v alone, but to u and v once p is recorded. |
| DowngradedRun.AskForPThenQ | lib/DDA/DDAClient.cpp:47-64 | The solver on that program, with any budget, asked for p and then q: if q is answered within budget the answer is {v} if p was, too, and {u, v} if p ran out. |
| DDASolver.Solver.Ask | include/DDA/DDAVFSolver.h:93-118 | A top-level `findPT`: every first visit counts a step; out of budget exactly beyond `maxBudget` steps; never more than `EnoughSteps`; in budget all visited items are closed or recorded, hold the least solution with the recorded ones fixed, and are exact iff the recorded ones are. |
| DDASolver.Solver.FindPT | include/DDA/DDAVFSolver.h:93-118 | Any call, nested ones included: the item is visited; `Advance`: caches only grow below any given solution, finished items are untouched, every visited item is closed unless its inputs are unchanged, steps are counted. Nothing is solved out of budget or for recorded items. Always terminates. |
| StatementLaws.StoreHolds | include/DDA/DDAVFSolver.h:148-178 | What the least solution has at a store for object o, from stmts, edges and singletons: the stored value if the pointer may point to o, and what memory edges guarded by o bring, unless the pointer has no target or o alone and o is a singleton there, or o is a constant. |
| StatementLaws.WeakStoreKeeps | include/DDA/DDAVFSolver.h:360-372 | A store through a pointer to one object that is no singleton (heap, array, field-insensitive, recursive local) keeps all the object held before, and adds the stored value. |
| StatementLaws.StrongStoreOverwrites | include/DDA/DDAVFSolver.h:360-372 | A store through a pointer to one singleton leaves it the stored value alone. |
| StatementLaws.UntargetedObjectKeeps | include/DDA/DDAVFSolver.h:173-175 | An object that a store's pointer does not point to holds after the store exactly what the memory edges bring for it. |
| StatementLaws.MemRegionHolds | include/DDA/DDAVFSolver.h:179-181 | What the least solution has at a memory-region node for object o: exactly what the indirect edges guarded by o bring, nothing for constants. |
| StatementLaws.LoadHolds | include/DDA/DDAVFSolver.h:141-147 | What the least solution has at a load: exactly what the indirect edges guarded by a target of its pointer bring for that target, constants left out. |
| StatementLaws.CopyHolds | include/DDA/DDAVFSolver.h:130-135 | What the least solution has at a copy, phi, parameter or return: exactly what the pointers at the sources of its direct edges hold, of every kind of direct edge. |
| StatementLaws.GepHolds | include/DDA/DDAVFSolver.h:136-140 | What the least solution has at a Gep: exactly the fields of the objects its operands hold. |
| StatementLaws.AddressHolds | include/DDA/FlowDDA.h:82-90 | What the least solution has at an address node: its object, or the field-insensitive representative of it. |
| DDASolver.Solver.HandleSingleStatement | include/DDA/DDAVFSolver.h:122-184 | Evaluating a statement while nested calls may re-solve anything: at exit the item was closed by a re-evaluation, or all its sources are visited and the returned set covers its right-hand side over the final caches; the returned set stays below any solution the caches stay below. |
| DDASolver.Solver.HandleLoad | include/DDA/DDAVFSolver.h:141-147 | The loop over the targets of the load pointer: the result covers the equation over the final caches, or the item has been closed by a nested re-evaluation because the pointer's set grew underneath the loop; same upper bound. |
| DDASolver.Solver.HandleStore | include/DDA/DDAVFSolver.h:148-178 | The loop over the targets of the store pointer with strong updates decided per target: same two guarantees as for a load. |
| DDASolver.Solver.LoadTarget | include/DDA/DDAVFSolver.h:144-146 | One target of a load: all items the memory edges let this object flow in from are visited and their sets included in the growing result, and nothing beyond the solution taken as bound is added. |
| DDASolver.Solver.PropagateTarget | include/DDA/DDAVFSolver.h:160-176 | One target of a store: what is read is exactly the stored value when the target is the object asked for, the incoming contents unless a strong update overwrites them, and only the incoming contents for another target. |
| DDASolver.Solver.IsStrongUpdate | include/DDA/DDAVFSolver.h:360-372 | True exactly when the pointer has one target and that object is a singleton at this store; stated without the predicate the equations use, too. |
| DDASolver.Solver.StartFromPointer | include/DDA/DDAVFSolver.h:302-322 | The pointer's item is visited, its cached set at return is what the caller loops over, and that set stays pinned until a re-evaluation closes the caller's item. |
| DDASolver.Solver.BacktraceAlongIndirectVF | include/DDA/DDAVFSolver.h:270-287 | All sources along memory edges whose guard holds the object have been read, none for constants; the result grows by at most what the solution taken as bound has there. |
| DDASolver.Solver.BacktraceAlongDirectVF | include/DDA/DDAVFSolver.h:288-300 | All sources along direct edges have been read, although the readers of a source may be re-evaluated in between; bounded by any solution the caches stay below. |
| DDASolver.Solver.BackwardPropDpm | include/DDA/DDAVFSolver.h:334-354 | The source item is visited and its cached set at return is added; the load records the source needs are present before it is asked for. |
| DDASolver.Solver.GetDPImWithOldCond | include/DDA/DDAVFSolver.h:480-493 | Moving to a target at a load or store records the target as load variable of the new item, and the load itself or the one the store was asked for as its load, without touching caches or marks. |
| DDASolver.Solver.UpdateCachedPointsTo | include/DDA/DDAVFSolver.h:457-464 | The set is unioned into the cache; if the cache grew, every located item that may read this one is closed afterwards, also when it is still being evaluated further up the stack; the steps this takes are paid for by the growth. |
| DDASolver.Solver.ReCompute | include/DDA/DDAVFSolver.h:186-203 | Every item located at entry that the growth of this item can touch over any outgoing edge is closed at exit; at most edges × items extra steps. |
| DDASolver.Solver.ReComputeForEdges | include/DDA/DDAVFSolver.h:205-238 | The loop over the outgoing edges, parallel edges of different kinds or call sites one by one: items closed by earlier rounds are still closed after later ones. |
| DDASolver.Solver.ReComputeAt | include/DDA/DDAVFSolver.h:214-236 | The loop over the items at the end of one edge, with the filter for memory edges that do not end in a load: all items this edge touches end up closed, and no others cost a step. |
| DDASolver.Solver.Reevaluate | include/DDA/DDAVFSolver.h:222-223 | Clearing the mark and calling `findPT` again closes the item and as a whole only moves forward, at the price of one extra step. |
| DDASolver.ReadersAreTouched | include/DDA/DDAVFSolver.h:210-236 | Why the filter in the re-evaluation loop is enough: under every assignment, an item that reads another is reached from it by an edge the loop follows and passes the loop's test. |
| DDASolver.Solver.CachesArePrivate | include/DDA/FlowDDA.h:118-123 | With single definitions, the flow-sensitive cache keyed by pointer id never mixes two items. |
| SharedDefinitions.SharedDefinitionHidesGrowth | include/DDA/FlowDDA.h:118-123 | A recursion before optimisation, where two nodes define one pointer: following the re-evaluation rule, everything comes to rest with the formal parameter's set empty, although object 9 is in its least solution. |
| SharedDefinitions.SharedReadersAreHarmless | include/DDA/FlowDDA.h:118-123 | When shared definitions do not hide anything: if a node with a direct edge from one definition of a pointer has one from every definition, then in whatever order items are evaluated, at rest no cache is below the least solution. |
| SharedDefinitions.SingleDefinitionsShareReaders | include/MSSA/SVFGOPT.h:46-49 | The optimised graph, with one definition for each top-level pointer, meets that condition. |
| SolverState.AdvanceTransitive | include/DDA/DDAVFSolver.h:93-118 | Two calls one after the other achieve what one call promises, their extra steps added: the promise composes over loops and re-entrant calls. |
| SolverState.FindAdvances | include/DDA/DDAVFSolver.h:106-117 | Marking, evaluating, updating the cache and re-solving its readers together keep the promise of a call, from the promises of the parts. |
| SolverState.FrameSurvives | include/DDA/DDAVFSolver.h:120-184 | A frame that is still evaluating an item finds after any nested call that the item has been closed or that every set it has read is unchanged. |
| SolverState.DoneDoesNotRead | include/DDA/DDAVFSolver.h:246-256 | Items finished by earlier queries never read an item of the running query, so their answers cannot go stale. |
| SolverState.GrowthFillsRoom | include/DDA/DDAVFSolver.h:457-460 | A growing cache strictly fills room: the first component of the termination measure falls. |
| SolverState.GrowthPays | include/DDA/DDAVFSolver.h:457-463 | A growing cache pays for re-evaluating every item over every edge. |
| SolverState.StepsAreEnough | include/DDA/DDAVFSolver.h:597-602 | No query counts more than `EnoughSteps` steps, parallel edges counted one by one. |
| SolverState.EnoughStepsFormula | include/DDA/DDAVFSolver.h:597-602 | The bound is items + items × objects × (edges × items). |
| SolverState.AdvanceCounts | include/DDA/DDAVFSolver.h:104-109 | A call within budget counts at least one step for every item it visits for the first time. |
| SolverState.QueryCloses | include/DDA/DDAVFSolver.h:93-118 | After a query within budget every visited item, of this query or an earlier one, is closed. |
| SolverState.ClosedIsExact | include/DDA/DDAVFSolver.h:93-118 | Visited items that are all closed hold exactly the least solution. |
| SolverState.DowngradedIsExact | lib/DDA/FlowDDA.cpp:52-58 | Visited items that are recorded or closed hold the least solution with the recorded items fixed; all are exact if and only if the recorded ones among them are. |
| SolverState.HandlingAdvances | lib/DDA/FlowDDA.cpp:52-58 | Giving an item of a query that has run out a larger set keeps what the query promises, because it is not an item of an earlier query. |
| SolverState.ResetIsIdle | include/DDA/DDAVFSolver.h:246-265 | After `resetQuery` the marks are those from before a query that ran out (but for recorded items), and every set cached by earlier queries is unchanged. |
| DDASolver.Solver.ClearBkVisited | include/DDA/DDAVFSolver.h:443-446 | Takes one mark away and changes nothing else. Its precondition is the assertion of the source: every call in the solver, also during the out-of-budget reset, is proved to meet it. |
| DDASolver.Solver.UnionDDAPts | include/DDA/DDAVFSolver.h:457-459 | The cache of this item alone grows by the set; true exactly when something was new. |
| DDASolver.Solver.TestOutOfBudget | include/DDA/DDAVFSolver.h:597-602 | Counts one step unless the query is already out; the query is out from the first step beyond the budget on; true for exempted items too. |
| DDASolver.Solver.ResetQuery | include/DDA/DDAVFSolver.h:246-256 | The whole state after a reset; recorded items stay visited, marks from before the query are kept, sets cached by earlier queries have not changed, all caches stay below the least solution with the recorded items fixed, and the next query may start. |
| DDASolver.Solver.OOBResetVisited | include/DDA/DDAVFSolver.h:257-265 | Exactly the located items that are not recorded as out of budget lose their marks. |
| DDASolver.Solver.constructor | include/DDA/DDAVFSolver.h:37-39 | A new solver is ready for its first query, given a graph and a whole-program analysis that solves its equations. |
| ValueFlowGraph.StatementsAreMonotone | include/DDA/DDAVFSolver.h:148-178 | Every statement is monotone in the sets it reads, in what it reads and in what it computes, although the strong-update test of a store can turn off as the pointer's set grows; agreement from below on the items read is enough. |
| ValueFlowGraph.StatementsStayWithin | include/DDA/DDAVFSolver.h:271-331 | Every statement reads only items of the graph and computes only objects of the graph. |
| EquationSystems.LeastIsFixedPoint | include/DDA/DDAVFSolver.h:93-118 | The least solution solves the equations. |
| EquationSystems.LeastIsLeast | include/DDA/DDAVFSolver.h:93-118 | It is below every other solution. |
| EquationSystems.LeastIsDerivable | include/DDA/DDAVFSolver.h:93-118 | Every object in it has a finite derivation, and everything derivable in finitely many rounds is in it. |
| SparseBitVector.BitVector.FindLowerBound | include/RC/RCSparseBitVector.h:401-428 | From any cursor position: every block before the result is below the index and every block after it above; the result itself may lie on either side, which is all the callers rely on. |
| SparseBitVector.BitVector.Test | include/RC/RCSparseBitVector.h:584-597 | Membership in the set, wherever the cursor stands; only the cursor moves. |
| SparseBitVector.BitVector.Reset | include/RC/RCSparseBitVector.h:599-618 | Removes exactly one number; the list stays canonical and the cursor valid although the block may be erased. |
| SparseBitVector.BitVector.FindOrInsert | include/RC/RCSparseBitVector.h:620-645 | Finds the block, or inserts an empty one at its place. |
| SparseBitVector.BitVector.Set | include/RC/RCSparseBitVector.h:620-648 | Adds exactly one number; the list stays canonical and the cursor valid. |
| SparseBitVector.BitVector.TestAndSet | include/RC/RCSparseBitVector.h:650-657 | Adds the number; true exactly when it was new. |
| SparseBitVector.BitVector.UnionWith | include/RC/RCSparseBitVector.h:686-711 | Set union in canonical form; true exactly when the set grew. Also when both vectors are the same object. |
| SparseBitVector.RecycledInsertLoses | include/RC/RCSparseBitVector.h:348-388 | An insertion that takes its block from the recycling pool while that block is still in the list is never right: for every list, block and place, all members of the recycled block are lost. |
| SparseBitVector.BitVector.IntersectWith | include/RC/RCSparseBitVector.h:713-754 | Set intersection in canonical form; the flag is true exactly when a member is lost although the other set has a member in the same block. |
| SparseBitVector.IntersectionFlagExact | include/RC/RCSparseBitVector.h:713-754 | The flag of `&=` never says true wrongly, and it agrees with "the set shrank" if and only if a shared block lost a bit or every block has a counterpart. |
| SparseBitVector.IntersectionFlagMisses | include/RC/RCSparseBitVector.h:745-751 | The set {0} intersected with the empty set shrinks without the flag being raised. |
| SparseBitVector.BitVector.IntersectWithComplement | include/RC/RCSparseBitVector.h:756-793 | Set difference in canonical form; true exactly when the set shrank. |
| SparseBitVector.BitVector.Equals | include/RC/RCSparseBitVector.h:663-673 | True exactly when the two sets are equal. |
| SparseBitVector.EqualListsAreEqualSets | include/RC/RCSparseBitVector.h:663-673 | A set has only one canonical list, so comparing lists compares sets. |
| SparseBitVector.BitVector.Intersects | include/RC/RCSparseBitVector.h:859-884 | True exactly when the two sets share a member. |
| SparseBitVector.BitVector.Count | include/RC/RCSparseBitVector.h:900-907 | The cardinality of the set, but 0 for the set of all 2^32 numbers, where the unsigned result wraps. |
| SparseBitVector.CountIsCardinality | include/RC/RCSparseBitVector.h:900-907 | Adding up the populations of the words of a sorted list counts its members. |
| SparseBitVector.BitVector.FindFirst | include/RC/RCSparseBitVector.h:887-893 | The least member as a signed 32-bit number; -1 exactly for the empty set and for the set of the largest number alone. |
| SparseBitVector.BitVector.GetHashValue | include/RC/RCSparseBitVector.h:920-928 | What the hash says of the set: bit i is the parity of the members at position i of their words together with the indices, with bit i set, of the blocks that hold members. |
| SparseBitVector.HashIsParity | include/RC/RCSparseBitVector.h:920-928 | The same for the exclusive or over any canonical list. |
| BitBlocks.IndexWordStandsFor | include/RC/RCSparseBitVector.h:920-928 | The word of a block index that goes into the hash stands for that index in binary. |
| SparseBitVector.EqualSetsHashAlike | include/RC/RCSparseBitVector.h:920-928 | Equal sets have equal hashes. |
| SparseBitVector.BitVector.Copy | include/RC/RCSparseBitVector.h:569-581 | Holds the same set as the original. |
| SparseBitVector.BitVector.EraseElement | include/RC/RCSparseBitVector.h:384-388 | The block is gone and the cursor stays on its own block. |
| BitBlocks.FindFirst | include/RC/RCSparseBitVector.h:131-142 | The lowest set bit of a block, across its words. |
| BitBlocks.FindNext | include/RC/RCSparseBitVector.h:144-180 | The lowest set bit at or after a position, across its words, or -1 exactly when there is none. |
| BitBlocks.UnionWith | include/RC/RCSparseBitVector.h:182-193 | Bitwise union; true exactly when a bit was added. |
| BitBlocks.Intersects | include/RC/RCSparseBitVector.h:195-202 | True exactly when the blocks share a bit. |
| BitBlocks.IntersectWith | include/RC/RCSparseBitVector.h:204-223 | Bitwise intersection; true exactly when a bit was dropped; tells whether the block became zero. |
| BitBlocks.IntersectWithComplement | include/RC/RCSparseBitVector.h:225-246 | Bitwise difference; true exactly when a bit was dropped; tells whether the block became zero. |
| BitBlocks.BlockHash | include/RC/RCSparseBitVector.h:264-270 | Bit i of a block's hash is set if and only if exactly one of the two bits at position i of the words is in the block. |
| BitBlocks.EmptyHasNoBits | include/RC/RCSparseBitVector.h:93-95 | The word-wise test for an empty block is right. |
| BitBlocks.WithBitSetsOne | include/RC/RCSparseBitVector.h:97-115 | Setting or resetting a bit changes no other bit of the block. |
| SparseBitIterator.Enumerate | include/RC/RCSparseBitVector.h:1194-1201 | The loop from begin to end visits exactly the members of the set, each once, in strictly increasing order, and terminates. |
| SparseBitIterator.BitIterator.constructor | include/RC/RCSparseBitVector.h:541-549 | A begin iterator stands on the least member, or is at the end for the empty set only. |
| SparseBitIterator.BitIterator.AdvanceToFirstNonZero | include/RC/RCSparseBitVector.h:451-465 | Moves to the least member; no member is below it. |
| SparseBitIterator.BitIterator.Next | include/RC/RCSparseBitVector.h:509-514 | Moves to the next larger member with none in between; at the end exactly when none is left, also at the largest bit number, where the counter wraps. |
| SparseBitIterator.BitIterator.AdvanceToNextNonZero | include/RC/RCSparseBitVector.h:467-506 | The same across words and blocks, for the copy of the word already shifted past the bit just left. |
| SparseBitIterator.BitIterator.SkipZeroBits | include/RC/RCSparseBitVector.h:471-475 | If the shifted word has bits left, ends on the next one of the same block; otherwise changes nothing. |
| DataFlowTables.LegalRunsAgree | include/MemoryModel/PointsToDFDS.h:256-387 | Any run of updates of any length that keeps the flag discipline: the incremental and the plain tables hold the same IN, OUT and top-level sets, and every step returned the same flag. |
| DataFlowTables.RunKeepsLockstep | include/MemoryModel/PointsToDFDS.h:256-387 | The same from any two states in lockstep, and they are in lockstep again at the end. |
| DataFlowTables.StepKeepsLockstep | include/MemoryModel/PointsToDFDS.h:281-387 | One legal step of both versions: a step skipped because a flag is down would not have added anything; every set with its flag down is still covered by all it has been passed on to; same flag returned. |
| DataFlowTables.ObjectsStayInLockstep | include/MemoryModel/PointsToDFDS.h:281-387 | The same for two objects that perform the step in place. |
| DataFlowTables.MoveAgreesExactly | include/MemoryModel/PointsToDFDS.h:281-362 | For one move from equal tables: the versions agree on the tables, and on the flag returned, if and only if the flag check lets the move through or it has nothing to add. |
| DataFlowTables.RunAgreesExactly | include/MemoryModel/PointsToDFDS.h:281-387 | Over any run at all, legal or not, from equal tables: the versions hold the same sets after every step if and only if no flag ever holds back something a step would add; they then return the same flags, too. |
| DataFlowTables.AllOutAgreesExactly | include/MemoryModel/PointsToDFDS.h:330-346 | For one pass of all IN sets to OUT from equal tables: the versions agree if and only if every variable with something new, but for the skipped singleton, is flagged. |
| DataFlowTables.CrossVariableUseDiverges | include/MemoryModel/PointsToDFDS.h:300-309 | Five updates after which the versions differ: an IN set passed to the OUT set of another variable uses up the flag its own OUT set needed. |
| DataFlowTables.ClearAfterPushesIsLegal | include/MemoryModel/PointsToDFDS.h:379-387 | Clearing the OUT flags of a location is legal after a push along every outgoing edge, in any order, whatever else those pushes did. |
| DataFlowTables.StoreVisitIsLegal | lib/WPA/FlowSensitive.cpp:127-132 | The analysis's visit of a store keeps the flag discipline whatever the tables hold: writes to its targets, a pass of IN to OUT with or without a strong update, pushes along all its edges in any order, lowering of its OUT flags. |
| DataFlowTables.NothingToPush | lib/WPA/FlowSensitive.cpp:127-132 | A visit that changed nothing may lower the OUT flags without pushing: in lockstep, with no OUT flag up everything has been pushed already. |
| DataFlowData.DFPTData.UpdateDFInFromIn | include/MemoryModel/PointsToDFDS.h:115-117 | Plain version: IN[dst] becomes its union with IN[src], every other set stays as it was; true exactly when IN[dst] grew. |
| DataFlowData.DFPTData.UpdateDFInFromOut | include/MemoryModel/PointsToDFDS.h:119-121 | Plain version: IN[dst] becomes its union with OUT[src], every other set stays as it was; true exactly when IN[dst] grew. |
| DataFlowData.DFPTData.UpdateDFOutFromIn | include/MemoryModel/PointsToDFDS.h:123-125 | Plain version: OUT[dst] becomes its union with IN[src], every other set stays as it was; true exactly when OUT[dst] grew. |
| DataFlowData.DFPTData.UpdateAllDFInFromOut | include/MemoryModel/PointsToDFDS.h:128-130 | Plain version: IN[dst] becomes its union with OUT[src], every other set stays as it was; true exactly when IN[dst] grew. |
| DataFlowData.DFPTData.UpdateAllDFInFromIn | include/MemoryModel/PointsToDFDS.h:133-135 | Plain version: IN[dst] becomes its union with IN[src], every other set stays as it was; true exactly when IN[dst] grew. |
| DataFlowData.DFPTData.UpdateTLVPts | include/MemoryModel/PointsToDFDS.h:155-157 | Plain version: the pointer's set becomes its union with IN[src], every other set stays as it was; true exactly when the pointer's set grew. |
| DataFlowData.DFPTData.UpdateATVPts | include/MemoryModel/PointsToDFDS.h:159-161 | Plain version: OUT[dst] becomes its union with the pointer's set, every other set stays as it was; true exactly when OUT[dst] grew. |
| DataFlowData.DFPTData.UpdateAllDFOutFromIn | include/MemoryModel/PointsToDFDS.h:137-153 | Plain version: OUT[loc:v] becomes its union with IN[loc:v] for every v, but not for the singleton under strong updates; every other set stays; true exactly when some set grew. |
| DataFlowData.DFPTData.UnionPts | include/MemoryModel/PointsToDFDS.h:191-193 | One set is unioned into another, all others stay; true exactly when it grew. |
| DataFlowData.IncDFPTData.UpdateDFInFromIn | include/MemoryModel/PointsToDFDS.h:282-289 | Incremental version: if IN[src] is flagged, IN[dst] becomes its union with IN[src]; every other set stays; true exactly when IN[dst] grew; a grown target is flagged, no other flag changes. This is the step proved to stay in lockstep. |
| DataFlowData.IncDFPTData.UpdateDFInFromOut | include/MemoryModel/PointsToDFDS.h:291-298 | Incremental version: if OUT[src] is flagged, IN[dst] becomes its union with OUT[src]; every other set stays; true exactly when IN[dst] grew; a grown target is flagged, no other flag changes. This is the step proved to stay in lockstep. |
| DataFlowData.IncDFPTData.UpdateDFOutFromIn | include/MemoryModel/PointsToDFDS.h:300-309 | Incremental version: if IN[src] is flagged, OUT[dst] becomes its union with IN[src]; every other set stays; true exactly when OUT[dst] grew; that flag goes down and a grown target is flagged, no other flag changes. This is the step proved to stay in lockstep. |
| DataFlowData.IncDFPTData.UpdateAllDFInFromOut | include/MemoryModel/PointsToDFDS.h:313-319 | Incremental version: whatever the flags, IN[dst] becomes its union with OUT[src]; every other set stays; true exactly when IN[dst] grew; a grown target is flagged, no other flag changes. This is the step proved to stay in lockstep. |
| DataFlowData.IncDFPTData.UpdateAllDFInFromIn | include/MemoryModel/PointsToDFDS.h:322-328 | Incremental version: whatever the flags, IN[dst] becomes its union with IN[src]; every other set stays; true exactly when IN[dst] grew; a grown target is flagged, no other flag changes. This is the step proved to stay in lockstep. |
| DataFlowData.IncDFPTData.UpdateTLVPts | include/MemoryModel/PointsToDFDS.h:348-354 | Incremental version: if IN[src] is flagged, the pointer's set becomes its union with IN[src]; every other set stays; true exactly when the pointer's set grew; that flag goes down, no other flag changes. This is the step proved to stay in lockstep. |
| DataFlowData.IncDFPTData.UpdateATVPts | include/MemoryModel/PointsToDFDS.h:356-362 | Incremental version: whatever the flags, OUT[dst] becomes its union with the pointer's set; every other set stays; true exactly when OUT[dst] grew; a grown target is flagged, no other flag changes. This is the step proved to stay in lockstep. |
| DataFlowData.IncDFPTData.UpdateAllDFOutFromIn | include/MemoryModel/PointsToDFDS.h:330-346 | Incremental version: the same for the flagged v; their flags go down, the skipped singleton's stays; exactly the grown OUT sets are flagged; true exactly when some set grew. |
| DataFlowData.IncDFPTData.ClearAllDFOutUpdatedVar | include/MemoryModel/PointsToDFDS.h:379-387 | All OUT flags of the location go down, nothing else changes. |
| PointsToData.DeliveredExactlyOnce | include/MemoryModel/PointsToDS.h:195-209 | Over any run in which the full set of a variable never shrinks and its propagated set is left alone: the differences found in the diff map are pairwise disjoint and their union is the latest full set. |
| PointsToData.NothingIsLost | include/MemoryModel/PointsToDS.h:195-224 | Over any run, with propagated sets cut down or cleared at will: after a computation everything in the full set has been delivered at least once. |
| PointsToData.PropagatedWasDelivered | include/MemoryModel/PointsToDS.h:195-224 | Whatever counts as propagated has been delivered before. |
| PointsToData.IntersectionHandsOutAgain | include/MemoryModel/PointsToDS.h:200-219 | After the propagated set of dst was cut down to that of src, whatever happens to other variables in between, the next computation on dst hands out exactly the elements of the full set that src or dst had not propagated. |
| PointsToData.ClearingHandsOutAll | include/MemoryModel/PointsToDS.h:200-224 | After the propagated set was cleared the next computation hands out the whole full set. |
| PointsToData.ComputationHandsOutNew | include/MemoryModel/PointsToDS.h:200-209 | Between two computations with nothing done to the propagated set, the second hands out exactly what the first full set did not have. |
| PointsToData.DiffPTData.ComputeDiffPts | include/MemoryModel/PointsToDS.h:200-209 | The difference is what is in the full set and was not propagated, the propagated set becomes the full set, all other entries stay; true exactly when the difference is not empty. |
| PointsToData.DiffPTData.UpdatePropaPtsMap | include/MemoryModel/PointsToDS.h:215-219 | Afterwards an element is propagated for the destination if and only if it was for both destination and source; nothing else changes. |
| PointsToData.DiffPTData.ClearPropaPts | include/MemoryModel/PointsToDS.h:222-224 | The propagated set is empty, nothing else changes. |
| PointsToData.PTData.AddPts | include/MemoryModel/PointsToDS.h:107-110 | One object is added and mirrored: x is in pts(k) exactly when k is in revPts(x) for all x and k; true exactly when it was new. |
| PointsToData.PTData.UnionPtsOfKey | include/MemoryModel/PointsToDS.h:111-114 | The same for the set of another pointer, possibly the same one. |
| PointsToData.PTData.UnionPtsData | include/MemoryModel/PointsToDS.h:115-118 | The same for a set handed in. |
| PointsToData.PTData.AddRevPts | include/MemoryModel/PointsToDS.h:136-139 | The loop adds the pointer to the reverse set of every object and to no other. |

## Left out

- DDASolver.Solver.ReCompute: the graph is static, so no call edges are discovered on the way; resolving function pointers and growing the call graph are left out.
- DDASolver.Solver.BackwardPropDpm: context and path conditions are always feasible, as in the base class.
- DDASolver.Solver.HandleStore: the must-alias branch, which the base class never takes.
- DDASolver.Solver.IsStrongUpdate: heap, array, field-insensitive and recursive-local objects are one relation between stores and objects that does not change during a run.
- DDASolver.Solver.HandleSingleStatement: Gep processing is a fixed map from node and object to objects; that a Gep with a variable offset makes its object field-insensitive for the rest of the run (`lib/DDA/FlowDDA.cpp:123-126`) is left out.
- DDASolver.Solver.GetCachedPointsTo: looking up a missing entry creates it empty in the source and does not here; the set is returned as a value where the source returns a reference, which its callers read at once.
- DDASolver.Solver.AnswerQueries: the queries come as a list of items at their definitions; choosing the candidates is left out.
- DDASolver.Solver.Ask: which queries run out is not computed, only that they do exactly when they count more steps than the budget, and that `EnoughSteps` always suffices.
- SharedDefinitions.SharedReadersAreHarmless: the condition is sufficient; graphs that do not meet it may still hide nothing, for example when no object reaches them.
- The pointer items of a query get their defining node from the graph; building the value-flow graph and its optimisation are left out.
- SparseBitVector.BitVector.Set: the block inserted is always fresh. In the source this is so only while no block has been erased: an erasure keeps the address of the block after the erased one for recycling, which is still in the list (`include/RC/RCSparseBitVector.h:384-388`). Set 0, set 128, reset 0, set 256 loses 128; `RecycledInsertLoses` shows that such an insertion always loses a block. When the last block was erased the address is that of the list's end, which has no meaning.
- SparseBitVector.BitVector.FindOrInsert: fresh blocks, as for `Set`.
- SparseBitVector.BitVector.UnionWith: fresh blocks, as for `Set`.
- SparseBitVector.BitVector.EraseElement: the pool that receives the address of the following block is left out, see `Set`. Positions in the list stand for list iterators.
- SparseBitVector.BitVector.Copy: copying takes the list of blocks as a value; `operator=`, shifting, range operations, the single-bit test and the three-argument difference are left out.
- PointsToData.DiffPTData.ComputeDiffPts: the difference is one set operation, where the source calls the three-argument difference of its set type.
- Words are sequences of 64 truth values; trailing-zero and population counts are defined on them instead of by the machine's instructions.
- DataFlowData.DFPTData.UpdateDFOutFromIn: uses across variables are allowed in the plain and incremental classes but lie outside the discipline under which both agree.
- Adding single objects to data-flow tables is a move from a given set.
- Cached unions of the difference tables, conditional points-to sets, the constraint-graph solver, thread and lock analyses: not modelled.
- Statistics, debug output, file dumps and LLVM types: values are numbers.
